# Pilot-boat schedule dashboard (Busan New Port): schedule normaliser and table logic

This project models the client-side logic of a dashboard that lists ship arrivals, departures and berth shifts at Busan New Port. There are two parts.

- **The schedule normaliser.** The index page fetches raw schedule records. Every field of a raw record is text. The page turns each record into a `ShipSchedule` entry:
  - the entry's identity is the date and the serial number;
  - the serial number is parsed, with the position as a fallback;
  - the `"GRT/LOA"` field is split into tonnage and length;
  - the `"call sign(IMO)"` field is split into the call sign and the IMO number;
  - the movement kind (arrival 입항, departure 출항, shift 이동) is collapsed into three values;
  - the quarantine, remarks and special-handling flags are derived.

  Module `Schedule` models this (`schedule.dfy`). It rests on module `JsText` (`js_text.dfy`), which models the JavaScript built-ins the normaliser uses: `String.prototype.trim`, `String.prototype.split` with one separator character, and `parseInt` without a radix.
- **The schedule table.** Module `ShipTable` (`ship_table.dfy`) models:
  - the berth-code table and its fallback to the code itself;
  - the line (shipping-agency) filter. It starts on "이엔에스마린" when that line is present. Its buttons toggle lines, and the "전체 라인" button clears it;
  - the expanded-card set, toggled by clicking a card;
  - the ordered list of line buttons, with the pinned line first;
  - the rows shown: filtered by line, then sorted by nearness of their date and time to the present;
  - the date headings placed above rows;
  - the berth label of each card.

  Module `StableSort` (`stable_sort.dfy`) models `Array.prototype.sort` with a consistent comparator. It is a stable sort, and a uniqueness lemma shows that every stable sort gives the same result.

The component's state (`filterLine`, `expandedRows`) is modelled by the class `ShipTableState`. Its methods replace the state the way the component's handlers do. Everything else is pure functions with lemmas.

The page unmounts the table while a fetch is loading (src/pages/Index.tsx:182-189). So every new batch of data meets a freshly constructed table state, and the constructor models the initial filter exactly.

Conventions of the model:
- The instant of a row's `date`/`time` is given by a caller-supplied function `ts: (string, string) -> int` in milliseconds. The present is a single integer `now`.
- `localeCompare` is an abstract comparator `le(a, b)`, meaning "`a.localeCompare(b) <= 0`". It is required to be a total preorder.
- `parseInt`'s NaN is `None`.

## Model

| member | source | states |
|---|---|---|
| JsText.TrimStart | src/pages/Index.tsx:61 | drops exactly the leading white space: the result is a suffix, everything dropped is white space, and it does not start with white space |
| JsText.TrimEnd | src/pages/Index.tsx:61 | drops exactly the trailing white space: the result is a prefix, everything dropped is white space, and it does not end with white space |
| JsText.Trim | src/pages/Index.tsx:61 | `trim()` leaves no white space at either end |
| JsText.TrimIsSlice | src/pages/Index.tsx:61 | the trimmed text is a slice of the input with only white space before and after it |
| JsText.TrimStartPadded | src/pages/Index.tsx:61 | white space in front of text that starts with a non-space is exactly what `TrimStart` removes |
| JsText.TrimEndPadded | src/pages/Index.tsx:61 | white space after text that ends with a non-space is exactly what `TrimEnd` removes |
| JsText.TrimPadded | src/pages/Index.tsx:61 | trimming white space around text with no white space at its ends gives that text back |
| JsText.TrimIdempotent | src/pages/Index.tsx:61 | trimming twice is trimming once |
| JsText.Split | src/pages/Index.tsx:61 | `split(sep)` gives at least one piece, and no piece contains the separator |
| JsText.JoinSplit | src/pages/Index.tsx:61 | joining the pieces of a split with the separator restores the text |
| JsText.SplitJoin | src/pages/Index.tsx:61 | splitting separator-free pieces joined by the separator gives those pieces back |
| JsText.SplitNone | src/pages/Index.tsx:61-62 | text without the separator splits into itself alone |
| JsText.SplitFirst | src/pages/Index.tsx:67 | the first piece is the text before the first separator, followed by the split of the rest |
| JsText.PrefixWhile | src/pages/Index.tsx:57 | the longest prefix whose characters all pass the test (the digits `parseInt` reads) |
| JsText.PrefixWhileExact | src/pages/Index.tsx:57 | passing characters followed by a failing one (or the end) are exactly that longest prefix |
| JsText.ToDecimal | src/pages/Index.tsx:57 | the decimal rendering of a natural number is a non-empty digit string of that value |
| JsText.ParseUnsignedDigits | src/pages/Index.tsx:57 | digits followed by a character that cannot continue them read back as their decimal value; only `0` followed by `x` or `X` starts a hexadecimal number instead |
| JsText.ParseIntPadded | src/pages/Index.tsx:57 | `parseInt` skips leading white space |
| JsText.ParseIntDigits | src/pages/Index.tsx:57 | white space, digits, then a tail that cannot continue them parse to the digits' value, so the tail is ignored |
| JsText.ParseSignedNegative | src/pages/Index.tsx:57 | a leading minus sign negates the unsigned reading |
| JsText.ParseIntNegative | src/pages/Index.tsx:57 | white space, then a minus sign, then an unsigned number parse to that number negated |
| JsText.ParseIntToDecimal | src/pages/Index.tsx:57 | `parseInt` reads every decimal rendering back as its number |
| JsText.ParseInt | src/pages/Index.tsx:57 | `parseInt` gives a number only when its text, after the leading white space, starts with a digit or a sign |
| JsText.ParseIntTrailingText | src/pages/Index.tsx:57 | `parseInt("12x")` is 12: reading stops at the first character that cannot continue the number |
| JsText.ParseIntNoDigits | src/pages/Index.tsx:57 | text whose first non-space is neither a digit nor a sign is NaN |
| StableSort.Insert | src/components/ShipTable.tsx:103-114 | insertion adds exactly one element: the multiset grows by `x` |
| StableSort.InsertSorted | src/components/ShipTable.tsx:103-114 | insertion into a sorted sequence keeps it sorted |
| StableSort.InsertTies | src/components/ShipTable.tsx:103-114 | insertion places `x` before the elements it ties with, as if it came first |
| StableSort.SortBy | src/components/ShipTable.tsx:103-114 | the sort is a permutation, sorted by the comparator, and every class of tied elements keeps its input order (stable) |
| StableSort.SortedStableUnique | src/components/ShipTable.tsx:103-114 | two sorted sequences with equal tie classes are equal |
| StableSort.StableSortIsSortBy | src/components/ShipTable.tsx:103-114 | any sorted result whose tie classes keep their input order is `SortBy`'s result, whatever stable algorithm produced it |
| Schedule.EntryId | src/pages/Index.tsx:56 | the id is the raw date, a `-`, then the raw `no` text, numeric or not |
| Schedule.EntryIdInjective | src/pages/Index.tsx:56 | for dates of one length, equal ids mean equal dates and equal `no` texts, and conversely |
| Schedule.RecordNo | src/pages/Index.tsx:57 | the number is the parse when it is neither NaN nor 0, otherwise `index + 1`, so it is never 0 |
| Schedule.RecordNoDecimal | src/pages/Index.tsx:57 | a decimal `no` is kept as its number, except `"0"`, which falls back to the position |
| Schedule.RecordNoText | src/pages/Index.tsx:57 | a `no` that does not start with a digit or sign falls back to the position |
| Schedule.FirstPiece | src/pages/Index.tsx:61 | the first `split` piece, trimmed, has no white space at its ends and holds no separator |
| Schedule.FirstPieceBefore | src/pages/Index.tsx:61 | the first piece is the trimmed text before the first separator, or the trimmed field when there is none |
| Schedule.LoaOf | src/pages/Index.tsx:62 | the LOA has no white space at its ends and holds no `/`, and it is empty when the field has no `/` |
| Schedule.GrtLoaNoSlash | src/pages/Index.tsx:61-62 | without a `/`, GRT is the trimmed field and LOA is empty |
| Schedule.SplitTwo | src/pages/Index.tsx:61-62 | `a/b` splits into `[a, b]` |
| Schedule.SplitTwoMore | src/pages/Index.tsx:61-62 | the first two pieces of `a/b/rest` are `a` and `b` |
| Schedule.GrtLoaSlash | src/pages/Index.tsx:61-62 | GRT is the trimmed text before the first `/`, and LOA is the trimmed second segment, whatever follows it |
| Schedule.CallSignSplit | src/pages/Index.tsx:67 | the call sign is the trimmed text before the first `(`, or the trimmed field when there is none |
| Schedule.MatchAtStart | src/pages/Index.tsx:68 | the pattern `\((\d+)\)` matches at a position exactly with the longest run of digits there (greedy `\d+`) |
| Schedule.ImoFrom | src/pages/Index.tsx:68 | the scan returns the group of the leftmost match at or after the start, or empty when no match starts there |
| Schedule.ImoOf | src/pages/Index.tsx:68 | the IMO is all digits, is empty exactly when the field holds no `(digits)`, and otherwise is the group of the leftmost match |
| Schedule.ImoAfterPrefix | src/pages/Index.tsx:68 | in `a(digits)rest` with no `(` in `a`, the IMO is those digits |
| Schedule.NoImoWithoutParen | src/pages/Index.tsx:68 | a field without `(` has no IMO |
| Schedule.NavigationOf | src/pages/Index.tsx:72 | arrival iff the raw kind is "입항", departure iff it is "출항", shift for every other value |
| Schedule.NavigationOfLabel | src/types/ship.ts:18 | each of the three kinds' labels reads back as that kind |
| Schedule.RemarksOf | src/pages/Index.tsx:74 | the remarks are the team remark when it is non-empty, otherwise the agent remark |
| Schedule.IsSpecialOf | src/pages/Index.tsx:77 | a record is special iff its team remark contains `@` |
| Schedule.Normalize | src/pages/Index.tsx:55-80 | every field of an entry: the id and the derived fields as above, the copied fields unchanged, `no` never 0, quarantine iff the raw field is non-empty, and a special entry's remarks are its team remark |
| Schedule.Transform | src/pages/Index.tsx:55-80 | one entry per raw record, in the same order, entry `i` normalised with position `i` |
| ShipTable.TerminalName | src/components/ShipTable.tsx:21-54 | a known berth code shows its non-empty name, and any other code shows as itself |
| ShipTable.TerminalNameExamples | src/components/ShipTable.tsx:21-54 | "NT10(HJ1)" shows as "한진 1번", "MT-1" shows as "다목적 북측", and an unknown code shows unchanged |
| ShipTable.TerminalInfo | src/components/ShipTable.tsx:158-165 | an arrival's card shows the berth it reaches, a departure's the berth it leaves, and a shift's label starts with the berth it leaves and ends with the berth it reaches, three characters apart |
| ShipTable.TerminalInfoSplit | src/components/ShipTable.tsx:158-165 | when neither berth name holds an arrow, splitting a label at `→` gives back the one berth name, or for a shift both names around the arrow |
| ShipTable.TerminalInfoArrow | src/components/ShipTable.tsx:158-165 | when neither berth name holds an arrow, a card's label holds `→` exactly for a shift, the one kind that shows both berths |
| ShipTable.InitialFilter | src/components/ShipTable.tsx:62-65 | the initial selection is {"이엔에스마린"} when some row has that line, and empty otherwise |
| ShipTable.InitialFilterShowsSomething | src/components/ShipTable.tsx:62-65 | with data present, the initial selection shows at least one row |
| ShipTable.Toggle | src/components/ShipTable.tsx:68-76 | the toggled value's membership flips, and every other value's is unchanged |
| ShipTable.ToggleTwice | src/components/ShipTable.tsx:68-86 | toggling the same value twice restores the set |
| ShipTable.ToggleCommutes | src/components/ShipTable.tsx:68-86 | toggles of two values commute |
| ShipTable.ShipTableState.constructor | src/components/ShipTable.tsx:62-66 | the state starts with the initial selection and no expanded card |
| ShipTable.ShipTableState.ToggleLineFilter | src/components/ShipTable.tsx:68-76 | a line click toggles that line in the selection and leaves the expanded cards alone |
| ShipTable.ShipTableState.ToggleRow | src/components/ShipTable.tsx:78-86 | a card click toggles that id in the expanded set and leaves the selection alone |
| ShipTable.ShipTableState.ShowAllLines | src/components/ShipTable.tsx:124 | the "전체 라인" button empties the selection, so every row shows |
| ShipTable.FilterByLine | src/components/ShipTable.tsx:98-102 | a row is kept, as often as it occurs, exactly when the selection is empty or holds its line; the result is a subsequence of the rows |
| ShipTable.ShownAfterToggle | src/components/ShipTable.tsx:98-102 | after a click on line `x`, a row of line `x` is shown unless `x` was taken out of a selection that keeps other lines; a row of another line is shown iff its line is selected or the selection became empty |
| ShipTable.FilterNothingSelected | src/components/ShipTable.tsx:98-102 | an empty selection shows every row, in order |
| ShipTable.FilterIdempotent | src/components/ShipTable.tsx:98-102 | filtering the shown rows again by the same selection changes nothing |
| ShipTable.Dedup | src/components/ShipTable.tsx:90 | `[...new Set(lines)]` has no duplicates and the same elements as the lines |
| ShipTable.DedupFirstOccurrenceOrder | src/components/ShipTable.tsx:90 | `new Set` keeps the order of first occurrences: values appear in `Dedup` in the order in which they first occur in the lines |
| ShipTable.DedupDistinct | src/components/ShipTable.tsx:90 | a list without duplicates is unchanged |
| ShipTable.LineBefore | src/components/ShipTable.tsx:91-95 | the button comparator puts the pinned line first and orders every other pair by `le` |
| ShipTable.LineBeforePreorder | src/components/ShipTable.tsx:91-95 | the button comparator is a total preorder whenever `le` is one |
| ShipTable.UniqueLines | src/components/ShipTable.tsx:89-96 | the buttons are a stable sort of the distinct lines: a permutation, sorted by the button comparator, with tied lines kept in the order of their first occurrence (`DedupFirstOccurrenceOrder`) |
| ShipTable.UniqueLinesDistinct | src/components/ShipTable.tsx:89-96 | each line has one button |
| ShipTable.UniqueLinesCover | src/components/ShipTable.tsx:89-96 | there is a button for a value iff some row has that line |
| ShipTable.UniqueLinesPinnedFirst | src/components/ShipTable.tsx:89-96 | when "이엔에스마린" has a button, it is the first |
| ShipTable.UniqueLinesOrder | src/components/ShipTable.tsx:89-96 | all other buttons are in `localeCompare` order |
| ShipTable.Distance | src/components/ShipTable.tsx:110-111 | `Math.abs(t - now)`: at least both `t - now` and `now - t`, and equal to one of them |
| ShipTable.Nearer | src/components/ShipTable.tsx:103-114 | the row comparator compares `abs(t - now)` |
| ShipTable.NearerPreorder | src/components/ShipTable.tsx:103-114 | the row comparator is a total preorder |
| ShipTable.FilteredData | src/components/ShipTable.tsx:98-114 | the shown rows are exactly the selected rows, with multiplicity; they are non-decreasing in distance from `now`; rows equally near keep their order |
| ShipTable.ShowDateSeparator | src/components/ShipTable.tsx:168 | the first row always has a heading, and a row without one has the date of the row before it |
| ShipTable.DateRuns | src/components/ShipTable.tsx:168 | the rows cut into non-empty runs, the first starting with the first row |
| ShipTable.DateRunsOneDate | src/components/ShipTable.tsx:168 | each run has a single date |
| ShipTable.DateRunsMaximal | src/components/ShipTable.tsx:168 | neighbouring runs have different dates |
| ShipTable.DateRunsFlatten | src/components/ShipTable.tsx:168 | the runs read one after another are the rows |
| ShipTable.SeparatorsShift | src/components/ShipTable.tsx:168 | from position `i + 1` on, `[h] + t` has as many headings as `t` has from position `i` |
| ShipTable.SeparatorsCountRuns | src/components/ShipTable.tsx:168 | the number of date headings equals the number of maximal same-date runs |
| ShipTable.DateHeadsTwoRuns | src/components/ShipTable.tsx:168 | rows dated A, B, A get a heading at the first and at the third row, three in all, one per run: a date can head more than one run |

## Left out

- Fetching, JSON decoding, error alerts, the loading flag and the refresh button (src/pages/Index.tsx:27-52, 82-88) are I/O.
- The race between overlapping refreshes and the effect ordering are concurrency, not logic of the core.
- The roster of pilots on duty, the external terminal links and all rendering (colours, badges, the `bgColor` choice, the detail panel) are presentation. That includes the untyped `rmk*` reads in the detail panel.
- Date parsing is left out. A row's instant is whatever `ts(date, time)` returns. Invalid dates, which give NaN distances and an inconsistent comparator, are not modelled.
- The comparator reads the wall clock on every call. The model fixes one `now` for the whole sort, so drift during a sort is not modelled.
- `localeCompare` is abstract. Its collation rules are not modelled; `UniqueLines` only requires that the comparator be a total preorder.
- Raw fields are all text. A missing field, which makes `.split` throw, is not modelled.
- RecordNo: `parseInt` returns a double, so numbers beyond 2^53 lose precision, and `-0` is a distinct value. The model reads exact integers. Both cases coincide with the model on the `|| index + 1` fallback for 0.
- TerminalName: a lookup in a plain JavaScript object also finds inherited keys of `Object.prototype`, and the model treats those codes as unknown. In the source the result depends on the key and the card. For a code such as `"constructor"` the lookup gives a function. On an arrival or a departure card that function is rendered as a child element, which shows nothing. On a shift card the template literal turns it into the function's source text. For the code `"__proto__"` the lookup gives `Object.prototype` itself. On an arrival or departure card that object as a child element makes the render fail. On a shift card it becomes the text `[object Object]`.
- TerminalInfoArrow: requires that neither berth name holds an arrow, rather than proving it for the 28 names of the table; `TerminalInfoSplit` makes the same assumption.
- EntryIdInjective: proved only for dates of one length. With raw dates of different lengths, two records can share an id (`"2024-1" + "-" + "1-2"` and `"2024-1-1" + "-" + "2"`).
- FilteredData: the rows' order is stated by `SortedBy` and `SameTies`, and it is computed by `StableSort.SortBy`, an insertion sort. `StableSortIsSortBy` shows that any stable sort gives the same rows. The engine's actual algorithm is not modelled.
- ShipTableState: the component's `useMemo` caching of the button list and React's re-rendering are not modelled. The class holds only the two state sets and the data it was created with.
