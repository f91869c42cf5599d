/**
 * The schedule normaliser of the dashboard's index page: every raw record the
 * schedule endpoint returns becomes one `ShipSchedule`, field by field, and the
 * batch keeps its length and order. Parsing never fails: text that does not
 * parse degrades to a default value.
 */
module Schedule {
  import opened JsText

  /** A record as the schedule endpoint delivers it; every field is text. */
  datatype RawRecord = RawRecord(
    date: string, no: string, time: string, name: string,
    grt: string,        // "GRT/LOA"
    dt: string, fm: string, to: string, side: string,
    cs: string,         // "call sign(IMO)"
    tugs: string, quarantine: string, line: string, nav: string, agent: string,
    rmkTeam: string, rmkAgent: string, rmk: string, pt: string)

  /** The three movement kinds, with the labels the data and the screen use. */
  datatype Navigation = Arrival | Departure | Shift {
    function Label(): string {
      match this
      case Arrival => "입항"
      case Departure => "출항"
      case Shift => "이동"
    }
  }

  /** The normalised entry the table shows. */
  datatype ShipSchedule = ShipSchedule(
    id: string, no: int, date: string, time: string, shipName: string,
    grt: string, loa: string, dt: string, from: string, to: string, side: string,
    callSign: string, imo: string, tugs: string, quarantine: bool, line: string,
    navigation: Navigation, agent: string, remarks: string,
    rmkTeam: string, rmkAgent: string, isSpecial: bool, pt: string, rmk: string)

  // ---------------------------------------------------------------- id and no

  /** The entry's identity: the raw date, a dash, then the raw `no` text, numeric or not. */
  function EntryId(date: string, no: string): (id: string)
    ensures |id| == |date| + 1 + |no|
    ensures id[..|date|] == date && id[|date|] == '-' && id[|date| + 1..] == no
  {
    date + "-" + no
  }

  /** Among dates of one length (all of the form YYYY-MM-DD), the identity tells date and number apart. */
  lemma EntryIdInjective(d1: string, n1: string, d2: string, n2: string)
    requires |d1| == |d2|
    ensures EntryId(d1, n1) == EntryId(d2, n2) <==> d1 == d2 && n1 == n2
  {
    if EntryId(d1, n1) == EntryId(d2, n2) {
      var id := EntryId(d1, n1);
      assert d1 == id[..|d1|] == d2;
      assert n1 == id[|d1| + 1..] == n2;
    }
  }

  /**
   * `parseInt(no) || index + 1`: the parsed number when it is neither NaN nor 0,
   * the 1-based position otherwise. Never 0.
   */
  function RecordNo(no: string, index: nat): (r: int)
    ensures r != 0
    ensures ParseInt(no).Some? && ParseInt(no).value != 0 ==> r == ParseInt(no).value
    ensures ParseInt(no).None? || ParseInt(no).value == 0 ==> r == index + 1
  {
    match ParseInt(no)
    case Some(v) => if v != 0 then v else index + 1
    case None => index + 1
  }

  /** The decimal rendering of a number is kept as that number, except `"0"`, which falls back to the position. */
  lemma RecordNoDecimal(n: nat, index: nat)
    ensures RecordNo(ToDecimal(n), index) == if n == 0 then index + 1 else n
  {
    ParseIntToDecimal(n);
  }

  /** Text whose first non-space character is neither a digit nor a sign falls back to the position. */
  lemma RecordNoText(no: string, index: nat)
    requires var t := TrimStart(no); t == [] || (!IsDigit(t[0]) && t[0] != '-' && t[0] != '+')
    ensures RecordNo(no, index) == index + 1
  {
    ParseIntNoDigits(no);
  }

  // ---------------------------------------------------------------- "GRT/LOA"

  /** `field.split(sep)[0].trim()`: the GRT (`sep` is `/`) and the call sign (`sep` is `(`). */
  function FirstPiece(field: string, sep: char): (r: string)
    ensures Trimmed(r) && sep !in r
  {
    Trim(Split(field, sep)[0])
  }

  /** The first piece is the trimmed text before the first separator, or the whole field trimmed. */
  lemma FirstPieceBefore(a: string, sep: char, b: string)
    requires sep !in a
    ensures FirstPiece(a, sep) == Trim(a)
    ensures FirstPiece(a + [sep] + b, sep) == Trim(a)
  {
    SplitNone(a, sep);
    SplitFirst(a, sep, b);
  }

  /** `grt.split('/')[1]?.trim() || ''` */
  function LoaOf(g: string): (r: string)
    ensures Trimmed(r) && '/' !in r
    ensures '/' !in g ==> r == ""
  {
    var parts := Split(g, '/');
    if |parts| >= 2 then Trim(parts[1]) else ""
  }

  /** Without a `/`, GRT is the whole field trimmed and LOA is empty. */
  lemma GrtLoaNoSlash(a: string)
    requires '/' !in a
    ensures FirstPiece(a, '/') == Trim(a) && LoaOf(a) == ""
  {
    SplitNone(a, '/');
  }

  /** The pieces of `a/b`. */
  lemma SplitTwo(a: string, b: string)
    requires '/' !in a && '/' !in b
    ensures Split(a + "/" + b, '/') == [a, b]
  {
    assert a + "/" + b == a + ['/'] + b;
    SplitFirst(a, '/', b);
    SplitNone(b, '/');
  }

  /** The first two pieces of `a/b/...`. */
  lemma SplitTwoMore(a: string, b: string, rest: string)
    requires '/' !in a && '/' !in b
    ensures var parts := Split(a + "/" + b + "/" + rest, '/'); |parts| >= 2 && parts[0] == a && parts[1] == b
  {
    assert a + "/" + b + "/" + rest == a + ['/'] + (b + ['/'] + rest);
    SplitFirst(a, '/', b + ['/'] + rest);
    SplitFirst(b, '/', rest);
  }

  /**
   * GRT is the trimmed text before the first `/`; LOA is the trimmed text between
   * the first and the second `/`, whatever follows that.
   */
  lemma GrtLoaSlash(a: string, b: string, rest: string)
    requires '/' !in a && '/' !in b
    ensures FirstPiece(a + "/" + b, '/') == Trim(a) && LoaOf(a + "/" + b) == Trim(b)
    ensures FirstPiece(a + "/" + b + "/" + rest, '/') == Trim(a) && LoaOf(a + "/" + b + "/" + rest) == Trim(b)
  {
    SplitTwo(a, b);
    SplitTwoMore(a, b, rest);
  }

  // ---------------------------------------------------------------- "call sign(IMO)"

  /** The call sign is the trimmed text before the first `(`. */
  lemma CallSignSplit(a: string, b: string)
    requires '(' !in a
    ensures FirstPiece(a, '(') == Trim(a)
    ensures FirstPiece(a + "(" + b, '(') == Trim(a)
  {
    assert a + "(" + b == a + ['('] + b;
    FirstPieceBefore(a, '(', b);
  }

  /** A match of `/\((\d+)\)/` at position `i` whose group has `k` digits. */
  ghost predicate ParenDigitsAt(s: string, i: int, k: int) {
    0 <= i && 1 <= k && i + k + 1 < |s|
    && s[i] == '(' && AllDigits(s[i + 1..i + 1 + k]) && s[i + 1 + k] == ')'
  }

  /** No match of the pattern starts in `[lo, hi)`. */
  ghost predicate NoMatchIn(s: string, lo: int, hi: int) {
    forall j, k | lo <= j < hi :: !ParenDigitsAt(s, j, k)
  }

  /** `r` is the group of the first match starting at `lo` or later, and that match starts at `j`. */
  ghost predicate LeftmostMatch(s: string, lo: int, j: int, r: string) {
    lo <= j && ParenDigitsAt(s, j, |r|) && r == s[j + 1..j + 1 + |r|] && NoMatchIn(s, lo, j)
  }

  /** At a given start the pattern can only match with the longest run of digits, as greedy `\d+` does. */
  lemma MatchAtStart(s: string, i: nat, k: int)
    requires i < |s|
    ensures ParenDigitsAt(s, i, k) <==>
      var ds := PrefixWhile(s[i + 1..], IsDigit);
      s[i] == '(' && ds != [] && k == |ds| && i + 1 + |ds| < |s| && s[i + 1 + |ds|] == ')'
  {
    var ds := PrefixWhile(s[i + 1..], IsDigit);
    if s[i] == '(' && ds != [] && i + 1 + |ds| < |s| && s[i + 1 + |ds|] == ')' {
      assert s[i + 1..i + 1 + |ds|] == ds;
    }
    if ParenDigitsAt(s, i, k) {
      var d := s[i + 1..i + 1 + k];
      var rest := s[i + 1 + k..];
      assert s[i + 1..] == d + rest;
      assert rest[0] == ')';
      assert forall m | 0 <= m < |d| :: IsDigit(d[m]);
      PrefixWhileExact(d, rest, IsDigit);
    }
  }

  /** The regular-expression search for `(digits)`, trying start positions from `i` on. */
  function ImoFrom(s: string, i: nat): (r: string)
    requires i <= |s|
    ensures r == "" ==> NoMatchIn(s, i, |s|)
    ensures r != "" ==> exists j :: LeftmostMatch(s, i, j, r)
    decreases |s| - i
  {
    if i == |s| then ""
    else
      var ds := PrefixWhile(s[i + 1..], IsDigit);
      if s[i] == '(' && ds != [] && i + 1 + |ds| < |s| && s[i + 1 + |ds|] == ')' then
        assert LeftmostMatch(s, i, i, ds) by {
          MatchAtStart(s, i, |ds|);
        }
        ds
      else
        var r := ImoFrom(s, i + 1);
        assert NoMatchIn(s, i, i + 1) by {
          forall k ensures !ParenDigitsAt(s, i, k) {
            MatchAtStart(s, i, k);
          }
        }
        assert r == "" ==> NoMatchIn(s, i, |s|);
        assert r != "" ==> exists j :: LeftmostMatch(s, i, j, r) by {
          if r != "" {
            var j :| LeftmostMatch(s, i + 1, j, r);
            assert LeftmostMatch(s, i, j, r);
          }
        }
        r
  }

  /**
   * `cs.match(/\((\d+)\)/)?.[1] || ''`: the digits of the leftmost `(digits)` in the
   * field, or empty when there is none.
   */
  function ImoOf(cs: string): (r: string)
    ensures AllDigits(r)
    ensures r == "" <==> NoMatchIn(cs, 0, |cs|)
    ensures r != "" ==> exists j :: LeftmostMatch(cs, 0, j, r)
  {
    var r := ImoFrom(cs, 0);
    assert r != "" ==> AllDigits(r) && !NoMatchIn(cs, 0, |cs|) by {
      if r != "" {
        var j :| LeftmostMatch(cs, 0, j, r);
      }
    }
    r
  }

  /** Text before the first `(digits)` that holds no `(` is skipped, and the digits are the IMO. */
  lemma ImoAfterPrefix(a: string, d: string, rest: string)
    requires '(' !in a
    requires d != [] && AllDigits(d)
    ensures ImoOf(a + "(" + d + ")" + rest) == d
  {
    var s := a + "(" + d + ")" + rest;
    var i := |a|;
    assert s[i] == '(' && s[i + 1 + |d|] == ')';
    assert s[i + 1..i + 1 + |d|] == d;
    assert ParenDigitsAt(s, i, |d|);
    var r := ImoOf(s);
    var j :| LeftmostMatch(s, 0, j, r);
    assert j <= i;
    assert j == i by {
      if j < i {
        assert false;
      }
    }
    MatchAtStart(s, i, |r|);
    MatchAtStart(s, i, |d|);
  }

  /** Without a `(` there is no IMO. */
  lemma NoImoWithoutParen(s: string)
    requires '(' !in s
    ensures ImoOf(s) == ""
  {
    forall j, k | 0 <= j < |s| ensures !ParenDigitsAt(s, j, k) {
      assert s[j] != '(';
    }
  }

  // ---------------------------------------------------------------- flags and enums

  /** `nav === "입항" ? "입항" : nav === "출항" ? "출항" : "이동"` */
  function NavigationOf(nav: string): (n: Navigation)
    ensures n == Arrival <==> nav == "입항"
    ensures n == Departure <==> nav == "출항"
    ensures n == Shift <==> nav != "입항" && nav != "출항"
  {
    if nav == "입항" then Arrival else if nav == "출항" then Departure else Shift
  }

  /** Each kind's label reads back as that kind. */
  lemma NavigationOfLabel(n: Navigation)
    ensures NavigationOf(n.Label()) == n
  {
  }

  /** `rmkTeam || rmkAgent || ''` */
  function RemarksOf(rmkTeam: string, rmkAgent: string): (r: string)
    ensures rmkTeam != "" ==> r == rmkTeam
    ensures rmkTeam == "" ==> r == rmkAgent
  {
    if rmkTeam != "" then rmkTeam else if rmkAgent != "" then rmkAgent else ""
  }

  /** `(rmkTeam && rmkTeam.includes('@')) || false` */
  function IsSpecialOf(rmkTeam: string): (b: bool)
    ensures b <==> exists i | 0 <= i < |rmkTeam| :: rmkTeam[i] == '@'
  {
    rmkTeam != "" && '@' in rmkTeam
  }

  // ---------------------------------------------------------------- the transform

  /** One raw record at position `index` becomes one entry. */
  function Normalize(raw: RawRecord, index: nat): (e: ShipSchedule)
    ensures e.id == EntryId(raw.date, raw.no)
    ensures e.no == RecordNo(raw.no, index) && e.no != 0
    ensures e.grt == FirstPiece(raw.grt, '/') && e.loa == LoaOf(raw.grt)
    ensures e.callSign == FirstPiece(raw.cs, '(') && e.imo == ImoOf(raw.cs)
    ensures e.remarks == RemarksOf(raw.rmkTeam, raw.rmkAgent) && e.isSpecial == IsSpecialOf(raw.rmkTeam)
    ensures e.date == raw.date && e.time == raw.time && e.shipName == raw.name && e.dt == raw.dt
    ensures e.from == raw.fm && e.to == raw.to && e.side == raw.side && e.tugs == raw.tugs
    ensures e.line == raw.line && e.agent == raw.agent && e.pt == raw.pt && e.rmk == raw.rmk
    ensures e.rmkTeam == raw.rmkTeam && e.rmkAgent == raw.rmkAgent
    ensures Trimmed(e.grt) && Trimmed(e.loa) && Trimmed(e.callSign) && AllDigits(e.imo)
    ensures e.quarantine <==> raw.quarantine != ""
    ensures e.navigation == NavigationOf(raw.nav)
    ensures e.isSpecial ==> e.remarks == raw.rmkTeam
  {
    ShipSchedule(
      id := EntryId(raw.date, raw.no),
      no := RecordNo(raw.no, index),
      date := raw.date,
      time := raw.time,
      shipName := raw.name,
      grt := FirstPiece(raw.grt, '/'),
      loa := LoaOf(raw.grt),
      dt := raw.dt,
      from := raw.fm,
      to := raw.to,
      side := raw.side,
      callSign := FirstPiece(raw.cs, '('),
      imo := ImoOf(raw.cs),
      tugs := raw.tugs,
      quarantine := raw.quarantine != "",
      line := raw.line,
      navigation := NavigationOf(raw.nav),
      agent := raw.agent,
      remarks := RemarksOf(raw.rmkTeam, raw.rmkAgent),
      rmkTeam := raw.rmkTeam,
      rmkAgent := raw.rmkAgent,
      isSpecial := IsSpecialOf(raw.rmkTeam),
      pt := raw.pt,
      rmk := raw.rmk)
  }

  /** `data.map((item, index) => ...)`: one entry per record, in the same order. */
  function Transform(data: seq<RawRecord>): (entries: seq<ShipSchedule>)
    ensures |entries| == |data|
    ensures forall i | 0 <= i < |data| :: entries[i] == Normalize(data[i], i)
  {
    seq(|data|, i requires 0 <= i < |data| => Normalize(data[i], i))
  }
}
