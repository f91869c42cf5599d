/**
 * The schedule table: terminal names, the line filter and the expanded cards
 * (the component's state), the list of line buttons, the filtered rows ordered
 * by nearness to the present, the date separators and the terminal label of a card.
 */
module ShipTable {
  import opened JsText
  import opened Schedule
  import opened StableSort

  /** The agency whose line is selected first and listed first. */
  const Pinned: string := "이엔에스마린"

  // ---------------------------------------------------------------- terminals

  /** Berth codes of the port and the names shown for them. */
  const TerminalMap: map<string, string> := map[
    "NT01" := "PNIT 1번", "NT02" := "PNIT 2번", "NT03" := "PNIT 3번",
    "NT04" := "PNC 4번", "NT05" := "PNC 5번", "NT06" := "PNC 6번", "NT07" := "PNC 7번",
    "NT08" := "PNC 8번", "NT09" := "PNC 미확정",
    "NT10(HJ1)" := "한진 1번", "NT11(HJ2)" := "한진 2번", "NT12(HJ3)" := "한진 3번",
    "NT13(HJ4)" := "한진 4번",
    "WT01" := "동원 1번", "WT02" := "동원 2번", "WT03" := "동원 3번",
    "MT-1" := "다목적 북측",
    "ST01" := "현대 1번", "ST02" := "현대 2번", "ST03" := "현대 3번", "ST04" := "현대 4번",
    "ST05" := "고려 1번", "ST06" := "고려 2번", "ST07" := "고려 3번", "ST08" := "고려 4번",
    "ST09" := "BCT 1번", "ST10" := "BCT 2번", "ST11" := "BCT 3번"
  ]

  /** `TERMINAL_MAP[code] || code`: the berth's name when the code is known, the code itself otherwise. */
  function TerminalName(code: string): (name: string)
    ensures code in TerminalMap ==> name == TerminalMap[code] && name != ""
    ensures code !in TerminalMap ==> name == code
  {
    if code in TerminalMap && TerminalMap[code] != "" then TerminalMap[code] else code
  }

  /** A Hanjin berth code is named; a code missing from the table is shown as it is. */
  lemma TerminalNameExamples()
    ensures TerminalName("NT10(HJ1)") == "한진 1번"
    ensures TerminalName("MT-1") == "다목적 북측"
    ensures TerminalName("HBCT") == "HBCT"
  {
  }

  /** The label of a card: the berth of arrival, the berth of departure, or both for a shift. */
  function TerminalInfo(e: ShipSchedule): (info: string)
    ensures e.navigation != Shift ==> info == TerminalName(if e.navigation == Arrival then e.to else e.from)
    ensures e.navigation == Shift ==>
      && |info| == |TerminalName(e.from)| + 3 + |TerminalName(e.to)|
      && info[..|TerminalName(e.from)|] == TerminalName(e.from)
      && info[|info| - |TerminalName(e.to)|..] == TerminalName(e.to)
  {
    match e.navigation
    case Arrival => TerminalName(e.to)
    case Departure => TerminalName(e.from)
    case Shift => TerminalName(e.from) + " → " + TerminalName(e.to)
  }

  /** When neither berth's name holds an arrow, the label shows one exactly when the ship shifts between berths. */
  lemma TerminalInfoArrow(e: ShipSchedule)
    requires '→' !in TerminalName(e.from) && '→' !in TerminalName(e.to)
    ensures '→' in TerminalInfo(e) <==> e.navigation == Shift
  {
    if e.navigation == Shift {
      var a := TerminalName(e.from);
      assert (a + " → " + TerminalName(e.to))[|a| + 1] == '→';
    }
  }

  /**
   * When neither berth's name holds an arrow, the label reads back as the berth names:
   * the one berth of an arrival or a departure, and both berths of a shift around the arrow.
   */
  lemma TerminalInfoSplit(e: ShipSchedule)
    requires '→' !in TerminalName(e.from) && '→' !in TerminalName(e.to)
    ensures Split(TerminalInfo(e), '→') ==
      match e.navigation
      case Arrival => [TerminalName(e.to)]
      case Departure => [TerminalName(e.from)]
      case Shift => [TerminalName(e.from) + " ", " " + TerminalName(e.to)]
  {
    var a, b := TerminalName(e.from), TerminalName(e.to);
    match e.navigation
    case Arrival => SplitNone(b, '→');
    case Departure => SplitNone(a, '→');
    case Shift =>
      assert a + " → " + b == (a + " ") + ['→'] + (" " + b);
      assert '→' !in a + " " && '→' !in " " + b;
      SplitFirst(a + " ", '→', " " + b);
      SplitNone(" " + b, '→');
  }

  // ---------------------------------------------------------------- the line filter

  /** `data.map(ship => ship.line)` */
  function Lines(data: seq<ShipSchedule>): (lines: seq<string>)
    ensures |lines| == |data| && forall i | 0 <= i < |data| :: lines[i] == data[i].line
  {
    seq(|data|, i requires 0 <= i < |data| => data[i].line)
  }

  /** The filter the table starts with: the pinned line when some row has it, otherwise none (show all). */
  function InitialFilter(data: seq<ShipSchedule>): (sel: set<string>)
    ensures (exists i | 0 <= i < |data| :: data[i].line == Pinned) ==> sel == {Pinned}
    ensures (forall i | 0 <= i < |data| :: data[i].line != Pinned) ==> sel == {}
  {
    if Pinned in Lines(data) then {Pinned} else {}
  }

  /** Adds `x` when it is absent and removes it when it is present. */
  function Toggle(s: set<string>, x: string): (r: set<string>)
    ensures x in r <==> x !in s
    ensures forall y | y != x :: y in r <==> y in s
  {
    if x in s then s - {x} else s + {x}
  }

  /** Clicking the same button twice restores the selection. */
  lemma ToggleTwice(s: set<string>, x: string)
    ensures Toggle(Toggle(s, x), x) == s
  {
  }

  /** Clicks on two buttons give the same selection in either order. */
  lemma ToggleCommutes(s: set<string>, x: string, y: string)
    ensures Toggle(Toggle(s, x), y) == Toggle(Toggle(s, y), x)
  {
  }

  /** `filterLine.size === 0 || filterLine.has(ship.line)` */
  predicate Shown(sel: set<string>, e: ShipSchedule) {
    sel == {} || e.line in sel
  }

  /**
   * After a click on the button of line `x`, a row of that line is shown unless the click
   * took `x` out of a selection that keeps other lines; a row of another line is shown when
   * its line is selected or the click emptied the selection.
   */
  lemma ShownAfterToggle(sel: set<string>, x: string, e: ShipSchedule)
    ensures e.line == x ==> (Shown(Toggle(sel, x), e) <==> x !in sel || sel == {x})
    ensures e.line != x ==> (Shown(Toggle(sel, x), e) <==> e.line in sel || sel == {x})
  {
    var t := Toggle(sel, x);
    if x in sel && sel != {x} {
      var y :| y in sel && y != x;
      assert y in t;
    }
  }

  /** `a` keeps some of the elements of `b`, in `b`'s order. */
  ghost predicate SubsequenceOf<T>(a: seq<T>, b: seq<T>) {
    a == [] || (b != [] && ((a[0] == b[0] && SubsequenceOf(a[1..], b[1..])) || SubsequenceOf(a, b[1..])))
  }

  /** `data.filter(...)`: the rows the selection shows, in their order. */
  function FilterByLine(data: seq<ShipSchedule>, sel: set<string>): (rows: seq<ShipSchedule>)
    ensures forall e :: multiset(rows)[e] == if Shown(sel, e) then multiset(data)[e] else 0
    ensures SubsequenceOf(rows, data)
  {
    if data == [] then []
    else
      var rest := FilterByLine(data[1..], sel);
      assert data == [data[0]] + data[1..];
      if Shown(sel, data[0]) then [data[0]] + rest else rest
  }

  /** With nothing selected every row is shown. */
  lemma {:induction false} FilterNothingSelected(data: seq<ShipSchedule>)
    ensures FilterByLine(data, {}) == data
  {
    if data != [] {
      FilterNothingSelected(data[1..]);
      assert data == [data[0]] + data[1..];
    }
  }

  /** Filtering twice by the same selection is filtering once. */
  lemma {:induction false} FilterIdempotent(data: seq<ShipSchedule>, sel: set<string>)
    ensures FilterByLine(FilterByLine(data, sel), sel) == FilterByLine(data, sel)
  {
    if data != [] {
      FilterIdempotent(data[1..], sel);
      var rest := FilterByLine(data[1..], sel);
      if Shown(sel, data[0]) {
        assert ([data[0]] + rest)[1..] == rest;
      }
    }
  }

  /** The table never starts empty when there is data: the initial filter shows at least one row. */
  lemma InitialFilterShowsSomething(data: seq<ShipSchedule>)
    requires data != []
    ensures FilterByLine(data, InitialFilter(data)) != []
  {
    var sel := InitialFilter(data);
    var rows := FilterByLine(data, sel);
    if sel == {} {
      assert multiset(rows)[data[0]] == multiset(data)[data[0]];
    } else {
      var i :| 0 <= i < |data| && data[i].line == Pinned;
      assert multiset(rows)[data[i]] == multiset(data)[data[i]];
    }
  }

  /** The component's state: which lines are selected and which cards are open. */
  class ShipTableState {
    const data: seq<ShipSchedule>
    var filterLine: set<string>
    var expandedRows: set<string>

    constructor (data: seq<ShipSchedule>)
      ensures this.data == data
      ensures filterLine == InitialFilter(data) && expandedRows == {}
    {
      this.data := data;
      var ensMarineExists := Pinned in Lines(data);
      filterLine := if ensMarineExists then {Pinned} else {};
      expandedRows := {};
    }

    /** A click on a line button. */
    method ToggleLineFilter(line: string)
      modifies this
      ensures filterLine == Toggle(old(filterLine), line)
      ensures expandedRows == old(expandedRows)
    {
      var newFilter := filterLine;
      if line in newFilter {
        newFilter := newFilter - {line};
      } else {
        newFilter := newFilter + {line};
      }
      filterLine := newFilter;
    }

    /** A click on a card. */
    method ToggleRow(id: string)
      modifies this
      ensures expandedRows == Toggle(old(expandedRows), id)
      ensures filterLine == old(filterLine)
    {
      var newExpanded := expandedRows;
      if id in newExpanded {
        newExpanded := newExpanded - {id};
      } else {
        newExpanded := newExpanded + {id};
      }
      expandedRows := newExpanded;
    }

    /** The "all lines" button. */
    method ShowAllLines()
      modifies this
      ensures filterLine == {}
      ensures expandedRows == old(expandedRows)
    {
      filterLine := {};
    }
  }

  // ---------------------------------------------------------------- the line buttons

  predicate NoDuplicates<T(==)>(s: seq<T>) {
    forall i, j | 0 <= i < j < |s| :: s[i] != s[j]
  }

  /** `[...new Set(lines)]`: each value once, at its first occurrence. */
  function Dedup(s: seq<string>): (r: seq<string>)
    ensures NoDuplicates(r)
    ensures forall x :: x in r <==> x in s
  {
    if s == [] then []
    else
      var r := Dedup(s[..|s| - 1]);
      var x := s[|s| - 1];
      assert s == s[..|s| - 1] + [x];
      if x in r then r else r + [x]
  }

  /** The position of the first occurrence of `x` in `s`. */
  function FirstAt(s: seq<string>, x: string): (k: nat)
    requires x in s
    ensures k < |s| && s[k] == x && x !in s[..k]
  {
    if s[0] == x then 0
    else
      var k := 1 + FirstAt(s[1..], x);
      assert s[..k] == [s[0]] + s[1..][..k - 1];
      k
  }

  /** The first occurrence is the only position holding `x` with no `x` before it. */
  lemma FirstAtUnique(s: seq<string>, x: string, k: nat)
    requires k < |s| && s[k] == x && x !in s[..k]
    ensures FirstAt(s, x) == k
  {
    var m := FirstAt(s, x);
    forall j | 0 <= j < k ensures s[j] != x {
      assert s[..k][j] == s[j];
    }
    forall j | 0 <= j < m ensures s[j] != x {
      assert s[..m][j] == s[j];
    }
  }

  /** Appending an element does not move the first occurrence of a value already present. */
  lemma FirstAtAppend(p: seq<string>, x: string, y: string)
    requires y in p
    ensures FirstAt(p + [x], y) == FirstAt(p, y)
  {
    var k := FirstAt(p, y);
    assert (p + [x])[..k] == p[..k];
    FirstAtUnique(p + [x], y, k);
  }

  /** `Dedup` lists the values in the order of their first occurrences. */
  lemma {:induction false} DedupFirstOccurrenceOrder(s: seq<string>)
    ensures forall i, j | 0 <= i < j < |Dedup(s)| :: FirstAt(s, Dedup(s)[i]) < FirstAt(s, Dedup(s)[j])
  {
    if s != [] {
      var p := s[..|s| - 1];
      var x := s[|s| - 1];
      var r := Dedup(p);
      assert s == p + [x];
      DedupFirstOccurrenceOrder(p);
      forall y | y in r ensures FirstAt(s, y) == FirstAt(p, y) {
        FirstAtAppend(p, x, y);
      }
      if x !in r {
        assert (p + [x])[..|p|] == p;
        FirstAtUnique(s, x, |p|);
        var d := r + [x];
        assert Dedup(s) == d;
        forall i, j | 0 <= i < j < |d| ensures FirstAt(s, d[i]) < FirstAt(s, d[j]) {
          assert d[i] == r[i] && d[i] in r;
          if j < |r| {
            assert d[j] == r[j] && d[j] in r;
          }
        }
      }
    }
  }

  /** A sequence without duplicates is its own set's listing. */
  lemma {:induction false} DedupDistinct(s: seq<string>)
    requires NoDuplicates(s)
    ensures Dedup(s) == s
  {
    if s != [] {
      var p := s[..|s| - 1];
      assert NoDuplicates(p);
      DedupDistinct(p);
      assert s[|s| - 1] !in p;
    }
  }

  /** The button comparator: the pinned line first, every other pair by `le` (`localeCompare(a, b) <= 0`). */
  function LineBefore(le: (string, string) -> bool): (r: (string, string) -> bool)
    ensures forall a, b :: r(a, b) == (a == Pinned || (b != Pinned && le(a, b)))
  {
    (a: string, b: string) => a == Pinned || (b != Pinned && le(a, b))
  }

  lemma LineBeforePreorder(le: (string, string) -> bool)
    requires TotalPreorder(le)
    ensures TotalPreorder(LineBefore(le))
  {
    var lb := LineBefore(le);
    forall a, b, c | lb(a, b) && lb(b, c) ensures lb(a, c) {
      if a != Pinned {
        assert le(b, c);
      }
    }
  }

  lemma PermutationKeepsDistinct<T>(a: seq<T>, b: seq<T>)
    requires multiset(a) == multiset(b) && NoDuplicates(b)
    ensures NoDuplicates(a)
  {
    forall i, j | 0 <= i < j < |a| ensures a[i] != a[j] {
      if a[i] == a[j] {
        var x := a[i];
        assert multiset(a[..j])[x] >= 1 by { assert a[..j][i] == x; }
        assert a == a[..j] + [x] + a[j + 1..];
        assert multiset(a)[x] >= 2;
        MultisetAtMostOnce(b, x);
        assert false;
      }
    }
  }

  lemma {:induction false} MultisetAtMostOnce<T>(b: seq<T>, x: T)
    requires NoDuplicates(b)
    ensures multiset(b)[x] <= 1
  {
    if b != [] {
      var p := b[..|b| - 1];
      assert b == p + [b[|b| - 1]];
      assert NoDuplicates(p);
      MultisetAtMostOnce(p, x);
      if b[|b| - 1] == x {
        assert x !in p;
      }
    }
  }

  /** `uniqueLines`: the distinct lines, sorted by the button comparator. */
  function UniqueLines(data: seq<ShipSchedule>, le: (string, string) -> bool): (r: seq<string>)
    requires TotalPreorder(le)
    ensures multiset(r) == multiset(Dedup(Lines(data)))
    ensures SortedBy(r, LineBefore(le))
    ensures SameTies(r, Dedup(Lines(data)), LineBefore(le))
  {
    LineBeforePreorder(le);
    SortBy(Dedup(Lines(data)), LineBefore(le))
  }

  /** Each line has one button. */
  lemma UniqueLinesDistinct(data: seq<ShipSchedule>, le: (string, string) -> bool)
    requires TotalPreorder(le)
    ensures NoDuplicates(UniqueLines(data, le))
  {
    PermutationKeepsDistinct(UniqueLines(data, le), Dedup(Lines(data)));
  }

  /** The buttons are exactly the lines of the data. */
  lemma UniqueLinesCover(data: seq<ShipSchedule>, le: (string, string) -> bool, x: string)
    requires TotalPreorder(le)
    ensures x in UniqueLines(data, le) <==> exists i | 0 <= i < |data| :: data[i].line == x
  {
    var lines := Lines(data);
    var r := UniqueLines(data, le);
    assert x in r <==> x in multiset(Dedup(lines));
    if x in lines {
      var i :| 0 <= i < |lines| && lines[i] == x;
      assert data[i].line == x;
    }
  }

  /** When the pinned line has a button, it is the first one. */
  lemma UniqueLinesPinnedFirst(data: seq<ShipSchedule>, le: (string, string) -> bool)
    requires TotalPreorder(le)
    ensures var r := UniqueLines(data, le); Pinned in r ==> r[0] == Pinned
  {
    var r := UniqueLines(data, le);
    if Pinned in r {
      var k :| 0 <= k < |r| && r[k] == Pinned;
      if k > 0 {
        assert LineBefore(le)(r[0], r[k]);
      }
    }
  }

  /** The other buttons follow `le`; lines it ranks equal keep their first-occurrence order (`UniqueLines`' ties). */
  lemma UniqueLinesOrder(data: seq<ShipSchedule>, le: (string, string) -> bool)
    requires TotalPreorder(le)
    ensures var r := UniqueLines(data, le);
      forall i, j | 0 <= i < j < |r| && r[i] != Pinned && r[j] != Pinned :: le(r[i], r[j])
  {
    var r := UniqueLines(data, le);
    forall i, j | 0 <= i < j < |r| && r[i] != Pinned && r[j] != Pinned ensures le(r[i], r[j]) {
      assert LineBefore(le)(r[i], r[j]);
    }
  }

  // ---------------------------------------------------------------- the rows

  /** `|t - now|` for the row's `date`T`time` instant, with the instants supplied by `ts`. */
  function Distance(e: ShipSchedule, ts: (string, string) -> int, now: int): (d: nat)
    ensures d >= ts(e.date, e.time) - now && d >= now - ts(e.date, e.time)
    ensures d == ts(e.date, e.time) - now || d == now - ts(e.date, e.time)
  {
    if ts(e.date, e.time) >= now then ts(e.date, e.time) - now else now - ts(e.date, e.time)
  }

  /** The row comparator `diffA - diffB <= 0`. */
  function Nearer(ts: (string, string) -> int, now: int): (r: (ShipSchedule, ShipSchedule) -> bool)
    ensures forall a, b :: r(a, b) == (Distance(a, ts, now) <= Distance(b, ts, now))
  {
    (a: ShipSchedule, b: ShipSchedule) => Distance(a, ts, now) <= Distance(b, ts, now)
  }

  lemma NearerPreorder(ts: (string, string) -> int, now: int)
    ensures TotalPreorder(Nearer(ts, now))
  {
  }

  /**
   * `filteredData`: the rows the selection shows, nearest to `now` first; rows equally
   * near keep their order in the data.
   */
  function FilteredData(data: seq<ShipSchedule>, sel: set<string>, ts: (string, string) -> int, now: int)
    : (rows: seq<ShipSchedule>)
    ensures forall e :: multiset(rows)[e] == if Shown(sel, e) then multiset(data)[e] else 0
    ensures forall i, j | 0 <= i < j < |rows| :: Distance(rows[i], ts, now) <= Distance(rows[j], ts, now)
    ensures SameTies(rows, FilterByLine(data, sel), Nearer(ts, now))
  {
    var shown := FilterByLine(data, sel);
    NearerPreorder(ts, now);
    var rows := SortBy(shown, Nearer(ts, now));
    assert forall i, j | 0 <= i < j < |rows| :: Nearer(ts, now)(rows[i], rows[j]);
    rows
  }

  // ---------------------------------------------------------------- date separators

  /** A date heading goes above the first row and above every row whose date differs from the row before. */
  predicate ShowDateSeparator(rows: seq<ShipSchedule>, i: nat): (b: bool)
    requires i < |rows|
    ensures i == 0 ==> b
    ensures !b ==> rows[i - 1].date == rows[i].date
  {
    i == 0 || rows[i - 1].date != rows[i].date
  }

  /** The number of headings at positions `i` and later. */
  function SeparatorsFrom(rows: seq<ShipSchedule>, i: nat): (n: nat)
    requires i <= |rows|
    decreases |rows| - i
  {
    if i == |rows| then 0
    else (if ShowDateSeparator(rows, i) then 1 else 0) + SeparatorsFrom(rows, i + 1)
  }

  /** A non-empty run of rows of one date. */
  predicate OneDate(run: seq<ShipSchedule>) {
    run != [] && forall m | 0 <= m < |run| :: run[m].date == run[0].date
  }

  /** The rows cut into runs of one date (`DateRunsOneDate`, `DateRunsFlatten`). */
  function DateRuns(rows: seq<ShipSchedule>): (runs: seq<seq<ShipSchedule>>)
    ensures rows == [] <==> runs == []
    ensures forall k | 0 <= k < |runs| :: runs[k] != []
    ensures rows != [] ==> runs[0][0] == rows[0]
  {
    if rows == [] then []
    else
      var rest := DateRuns(rows[1..]);
      if rest != [] && rest[0][0].date == rows[0].date then [[rows[0]] + rest[0]] + rest[1..]
      else [[rows[0]]] + rest
  }

  /** Each run has one date. */
  lemma {:induction false} DateRunsOneDate(rows: seq<ShipSchedule>)
    ensures forall k | 0 <= k < |DateRuns(rows)| :: OneDate(DateRuns(rows)[k])
  {
    if rows != [] {
      var h: ShipSchedule := rows[0];
      var rest: seq<seq<ShipSchedule>> := DateRuns(rows[1..]);
      DateRunsOneDate(rows[1..]);
      var runs := DateRuns(rows);
      if rest != [] && rest[0][0].date == h.date {
        var first := [h] + rest[0];
        assert runs == [first] + rest[1..];
        OneDateCons(h, rest[0]);
        assert forall k | 1 <= k < |runs| :: runs[k] == rest[k];
      } else {
        assert runs == [[h]] + rest;
        assert forall k | 1 <= k < |runs| :: runs[k] == rest[k - 1];
      }
    }
  }

  lemma OneDateCons(h: ShipSchedule, run: seq<ShipSchedule>)
    requires OneDate(run) && run[0].date == h.date
    ensures OneDate([h] + run)
  {
    var r := [h] + run;
    assert forall m | 1 <= m < |r| :: r[m] == run[m - 1];
  }

  /** Neighbouring runs have different dates: the runs are maximal. */
  lemma {:induction false} DateRunsMaximal(rows: seq<ShipSchedule>)
    ensures forall k | 0 < k < |DateRuns(rows)| :: DateRuns(rows)[k - 1][0].date != DateRuns(rows)[k][0].date
  {
    if rows != [] {
      var h: ShipSchedule := rows[0];
      var rest: seq<seq<ShipSchedule>> := DateRuns(rows[1..]);
      DateRunsMaximal(rows[1..]);
      var runs := DateRuns(rows);
      if rest != [] && rest[0][0].date == h.date {
        assert runs == [[h] + rest[0]] + rest[1..];
        assert forall k | 1 <= k < |runs| :: runs[k] == rest[k];
      } else {
        assert runs == [[h]] + rest;
        assert forall k | 1 <= k < |runs| :: runs[k] == rest[k - 1];
      }
    }
  }

  /** Read one after another, the runs are the rows. */
  lemma {:induction false} DateRunsFlatten(rows: seq<ShipSchedule>)
    ensures Flatten(DateRuns(rows)) == rows
  {
    if rows != [] {
      var h: ShipSchedule := rows[0];
      var rest: seq<seq<ShipSchedule>> := DateRuns(rows[1..]);
      DateRunsFlatten(rows[1..]);
      assert rows == [h] + rows[1..];
      if rest != [] && rest[0][0].date == h.date {
        var tail := rest[1..];
        assert DateRuns(rows) == [[h] + rest[0]] + tail;
        FlattenCons([h] + rest[0], tail);
        assert rest == [rest[0]] + tail;
        FlattenCons(rest[0], tail);
        assert Flatten(rest) == rest[0] + Flatten(tail) == rows[1..];
        assert ([h] + rest[0]) + Flatten(tail) == [h] + (rest[0] + Flatten(tail));
      } else {
        assert DateRuns(rows) == [[h]] + rest;
        FlattenCons([h], rest);
      }
    }
  }

  /** The runs read one after another. */
  function Flatten<T>(runs: seq<seq<T>>): (s: seq<T>) {
    if runs == [] then [] else runs[0] + Flatten(runs[1..])
  }

  lemma FlattenCons<T>(run: seq<T>, runs: seq<seq<T>>)
    ensures Flatten([run] + runs) == run + Flatten(runs)
  {
    assert ([run] + runs)[1..] == runs;
  }

  /** Past the first row, a row of `[h] + t` has a heading exactly when its row in `t` has one. */
  lemma {:induction false} SeparatorsShift(h: ShipSchedule, t: seq<ShipSchedule>, i: nat)
    requires 1 <= i <= |t|
    ensures SeparatorsFrom([h] + t, i + 1) == SeparatorsFrom(t, i)
    decreases |t| - i
  {
    if i < |t| {
      SeparatorsShift(h, t, i + 1);
      assert ([h] + t)[i] == t[i - 1] && ([h] + t)[i + 1] == t[i];
    }
  }

  /** There is one heading per run of equal dates. */
  lemma {:induction false} SeparatorsCountRuns(rows: seq<ShipSchedule>)
    ensures SeparatorsFrom(rows, 0) == |DateRuns(rows)|
  {
    if rows != [] {
      var h, t := rows[0], rows[1..];
      assert rows == [h] + t;
      SeparatorsCountRuns(t);
      if t != [] {
        SeparatorsShift(h, t, 1);
        assert SeparatorsFrom(rows, 1) == (if h.date != t[0].date then 1 else 0) + SeparatorsFrom(t, 1);
        assert SeparatorsFrom(t, 0) == 1 + SeparatorsFrom(t, 1);
      }
    }
  }

  /** Rows are ordered by nearness, not by date, so one date can head two runs: A, B, A shows three headings. */
  lemma DateHeadsTwoRuns(x: ShipSchedule, y: ShipSchedule, z: ShipSchedule)
    requires x.date == z.date && x.date != y.date
    ensures ShowDateSeparator([x, y, z], 0) && ShowDateSeparator([x, y, z], 2)
    ensures SeparatorsFrom([x, y, z], 0) == |DateRuns([x, y, z])| == 3
  {
    var rows := [x, y, z];
    assert rows[1] == y && rows[2] == z;
    assert SeparatorsFrom(rows, 3) == 0;
    assert SeparatorsFrom(rows, 2) == 1;
    assert SeparatorsFrom(rows, 1) == 2;
    SeparatorsCountRuns(rows);
  }
}
