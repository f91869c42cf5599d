/**
 * The JavaScript string built-ins that the schedule normaliser relies on:
 * `String.prototype.trim`, `String.prototype.split` with a one-character
 * separator, and `parseInt` with no radix argument.
 */
module JsText {

  datatype Option<T> = None | Some(value: T)

  /** ECMAScript WhiteSpace and LineTerminator: what `trim` strips and `parseInt` skips. */
  predicate IsSpace(c: char) {
    || c == '\t' || c == '\n' || c == '\U{000B}' || c == '\U{000C}' || c == '\r' || c == ' '
    || c == '\U{00A0}' || c == '\U{1680}' || ('\U{2000}' <= c <= '\U{200A}')
    || c == '\U{2028}' || c == '\U{2029}' || c == '\U{202F}' || c == '\U{205F}'
    || c == '\U{3000}' || c == '\U{FEFF}'
  }

  /** `\d` of a regular expression without the `u` flag. */
  predicate IsDigit(c: char) {
    '0' <= c <= '9'
  }

  predicate IsHexDigit(c: char) {
    IsDigit(c) || 'a' <= c <= 'f' || 'A' <= c <= 'F'
  }

  predicate AllSpace(s: string) {
    forall i | 0 <= i < |s| :: IsSpace(s[i])
  }

  predicate AllDigits(s: string) {
    forall i | 0 <= i < |s| :: IsDigit(s[i])
  }

  /** No white space at either end. */
  predicate Trimmed(s: string) {
    s == [] || (!IsSpace(s[0]) && !IsSpace(s[|s| - 1]))
  }

  // ---------------------------------------------------------------- trim

  /** Drops the leading white space: the result is the suffix that starts at the first non-space. */
  function TrimStart(s: string): (r: string)
    ensures |r| <= |s| && r == s[|s| - |r|..]
    ensures AllSpace(s[..|s| - |r|])
    ensures r == [] || !IsSpace(r[0])
  {
    if s != [] && IsSpace(s[0]) then TrimStart(s[1..]) else s
  }

  /** Drops the trailing white space: the result is the prefix that ends at the last non-space. */
  function TrimEnd(s: string): (r: string)
    ensures |r| <= |s| && r == s[..|r|]
    ensures AllSpace(s[|r|..])
    ensures r == [] || !IsSpace(r[|r| - 1])
  {
    if s != [] && IsSpace(s[|s| - 1]) then TrimEnd(s[..|s| - 1]) else s
  }

  /** `s.trim()`: no white space at either end. */
  function Trim(s: string): (r: string)
    ensures Trimmed(r)
  {
    TrimEnd(TrimStart(s))
  }

  /** What `Trim` removes is white space around a slice of `s`: before index `i` and after the slice. */
  lemma TrimIsSlice(s: string) returns (i: nat)
    ensures i == |s| - |TrimStart(s)| && i + |Trim(s)| <= |s|
    ensures Trim(s) == s[i..i + |Trim(s)|]
    ensures AllSpace(s[..i]) && AllSpace(s[i + |Trim(s)|..])
  {
    var t := TrimStart(s);
    i := |s| - |t|;
    assert t == s[i..] && AllSpace(s[..i]);
    var r := TrimEnd(t);
    assert r == t[..|r|] && AllSpace(t[|r|..]);
    SliceOfSuffix(s, i, t, r);
  }

  /** A prefix `r` of the suffix `t` of `s` that starts at `i`, and what follows it. */
  lemma SliceOfSuffix(s: string, i: nat, t: string, r: string)
    requires i <= |s| && t == s[i..] && |r| <= |t| && r == t[..|r|]
    ensures r == s[i..i + |r|] && s[i + |r|..] == t[|r|..]
  {
  }

  lemma {:induction false} TrimStartPadded(w: string, t: string)
    requires AllSpace(w)
    requires t == [] || !IsSpace(t[0])
    ensures TrimStart(w + t) == t
  {
    if w != [] {
      assert (w + t)[1..] == w[1..] + t;
      TrimStartPadded(w[1..], t);
    } else {
      assert w + t == t;
    }
  }

  lemma {:induction false} TrimEndPadded(t: string, w: string)
    requires AllSpace(w)
    requires t == [] || !IsSpace(t[|t| - 1])
    ensures TrimEnd(t + w) == t
  {
    if w != [] {
      assert (t + w)[..|t + w| - 1] == t + w[..|w| - 1];
      TrimEndPadded(t, w[..|w| - 1]);
    } else {
      assert t + w == t;
    }
  }

  /** Trimming is exactly the removal of white-space padding: the partner of `Trim`'s contract. */
  lemma TrimPadded(w1: string, t: string, w2: string)
    requires AllSpace(w1) && AllSpace(w2) && Trimmed(t)
    ensures Trim(w1 + t + w2) == t
  {
    if t == [] {
      assert w1 + t + w2 == w1 + w2;
      assert TrimStart(w1 + w2) == [];
    } else {
      assert w1 + t + w2 == w1 + (t + w2);
      TrimStartPadded(w1, t + w2);
      TrimEndPadded(t, w2);
    }
  }

  lemma TrimIdempotent(s: string)
    ensures Trim(Trim(s)) == Trim(s)
  {
    var t := Trim(s);
    assert [] + t + [] == t;
    TrimPadded([], t, []);
  }

  // ---------------------------------------------------------------- split

  /** Position of the first occurrence of `c`. */
  function IndexOf(s: string, c: char): (k: nat)
    requires c in s
    ensures k < |s| && s[k] == c && c !in s[..k]
  {
    if s[0] == c then 0
    else
      assert c in s[1..] by {
        var j :| 0 <= j < |s| && s[j] == c;
        assert s[1..][j - 1] == c;
      }
      var k := 1 + IndexOf(s[1..], c);
      assert s[..k] == [s[0]] + s[1..][..k - 1];
      k
  }

  /** Inverse of `Split`: the parts glued back together with the separator between them. */
  function Join(parts: seq<string>, sep: char): (s: string)
    requires |parts| >= 1
  {
    if |parts| == 1 then parts[0] else parts[0] + [sep] + Join(parts[1..], sep)
  }

  /** `s.split(sep)`: the pieces between separators, none of which contains it. */
  function Split(s: string, sep: char): (parts: seq<string>)
    ensures |parts| >= 1
    ensures forall i | 0 <= i < |parts| :: sep !in parts[i]
    decreases |s|
  {
    if sep !in s then [s]
    else
      var k := IndexOf(s, sep);
      [s[..k]] + Split(s[k + 1..], sep)
  }

  /** Joining the pieces with the separator gives the text back. */
  lemma {:induction false} JoinSplit(s: string, sep: char)
    ensures Join(Split(s, sep), sep) == s
    decreases |s|
  {
    if sep in s {
      var k := IndexOf(s, sep);
      var parts := Split(s, sep);
      JoinSplit(s[k + 1..], sep);
      assert parts[1..] == Split(s[k + 1..], sep);
      assert s == s[..k] + [sep] + s[k + 1..];
    }
  }

  lemma IndexOfJoined(a: string, sep: char, b: string)
    requires sep !in a
    ensures sep in a + [sep] + b && IndexOf(a + [sep] + b, sep) == |a|
  {
    var s := a + [sep] + b;
    assert s[|a|] == sep;
  }

  /** Splitting a joined list of separator-free parts gives the parts back. */
  lemma {:induction false} SplitJoin(parts: seq<string>, sep: char)
    requires |parts| >= 1
    requires forall i | 0 <= i < |parts| :: sep !in parts[i]
    ensures Split(Join(parts, sep), sep) == parts
  {
    if |parts| > 1 {
      var rest := Join(parts[1..], sep);
      var s := parts[0] + [sep] + rest;
      IndexOfJoined(parts[0], sep, rest);
      assert s[..|parts[0]|] == parts[0];
      assert s[|parts[0]| + 1..] == rest;
      SplitJoin(parts[1..], sep);
      assert parts == [parts[0]] + parts[1..];
    }
  }

  /** Text with no separator in it splits into itself alone. */
  lemma SplitNone(a: string, sep: char)
    requires sep !in a
    ensures Split(a, sep) == [a]
  {
  }

  /** The first piece is the text before the first separator; the rest is the split of what follows it. */
  lemma SplitFirst(a: string, sep: char, b: string)
    requires sep !in a
    ensures Split(a + [sep] + b, sep) == [a] + Split(b, sep)
  {
    var rest := Split(b, sep);
    var parts := [a] + rest;
    assert parts[1..] == rest;
    JoinSplit(b, sep);
    assert Join(parts, sep) == a + [sep] + b;
    SplitJoin(parts, sep);
  }

  // ---------------------------------------------------------------- parseInt

  /** The longest prefix of `s` whose characters all satisfy `p`. */
  function PrefixWhile(s: string, p: char -> bool): (r: string)
    ensures |r| <= |s| && r == s[..|r|]
    ensures forall i | 0 <= i < |r| :: p(r[i])
    ensures |r| < |s| ==> !p(s[|r|])
  {
    if s != [] && p(s[0]) then
      var r := [s[0]] + PrefixWhile(s[1..], p);
      assert r == s[..|r|];
      r
    else []
  }

  /** Any prefix all of whose characters satisfy `p`, followed by one that does not, is the longest. */
  lemma {:induction false} PrefixWhileExact(d: string, rest: string, p: char -> bool)
    requires forall i | 0 <= i < |d| :: p(d[i])
    requires rest == [] || !p(rest[0])
    ensures PrefixWhile(d + rest, p) == d
  {
    if d == [] {
      assert d + rest == rest;
    } else {
      assert (d + rest)[1..] == d[1..] + rest;
      PrefixWhileExact(d[1..], rest, p);
    }
  }

  function HexDigitValue(c: char): (v: nat)
    requires IsHexDigit(c)
    ensures v < 16
    ensures IsDigit(c) ==> v < 10
  {
    if IsDigit(c) then c as int - '0' as int
    else if 'a' <= c <= 'f' then c as int - 'a' as int + 10
    else c as int - 'A' as int + 10
  }

  /** The value of a digit string, most significant digit first. */
  function Value(ds: string, base: nat): (v: nat)
    requires forall i | 0 <= i < |ds| :: IsHexDigit(ds[i])
  {
    if ds == [] then 0 else Value(ds[..|ds| - 1], base) * base + HexDigitValue(ds[|ds| - 1])
  }

  /** The digits after the sign: hexadecimal after a `0x`/`0X` prefix, decimal otherwise. */
  function ParseUnsigned(u: string): (r: Option<int>)
    ensures r.Some? ==> r.value >= 0
  {
    var hex := |u| >= 2 && u[0] == '0' && (u[1] == 'x' || u[1] == 'X');
    var ds := if hex then PrefixWhile(u[2..], IsHexDigit) else PrefixWhile(u, IsDigit);
    if ds == [] then None else Some(Value(ds, if hex then 16 else 10))
  }

  /** One optional sign, then the digits. */
  function ParseSigned(t: string): (r: Option<int>)
  {
    if t != [] && t[0] == '-' then
      match ParseUnsigned(t[1..])
      case None => None
      case Some(v) => Some(-v)
    else if t != [] && t[0] == '+' then ParseUnsigned(t[1..])
    else ParseUnsigned(t)
  }

  /**
   * `parseInt(s)`: skip leading white space, take one optional sign, then read digits
   * up to the first character that cannot continue the number; `None` stands for NaN,
   * the outcome when no digit is read.
   */
  function ParseInt(s: string): (r: Option<int>)
    ensures r.Some? ==> var t := TrimStart(s); t != [] && (IsDigit(t[0]) || t[0] == '-' || t[0] == '+')
  {
    ParseSigned(TrimStart(s))
  }

  /** Decimal rendering of a natural number, without leading zeros: the inverse of `ParseInt`. */
  function ToDecimal(n: nat): (s: string)
    ensures s != [] && AllDigits(s)
    ensures Value(s, 10) == n
  {
    var d := ['0' + (n % 10) as char];
    if n < 10 then
      assert Value(d, 10) == n by { assert d[..0] == []; }
      d
    else
      var s := ToDecimal(n / 10) + d;
      assert s[..|s| - 1] == ToDecimal(n / 10);
      s
  }

  /** A run of decimal digits, followed by anything that cannot continue the number, reads back as its value. */
  lemma ParseUnsignedDigits(d: string, tail: string)
    requires d != [] && AllDigits(d)
    requires tail == [] || (!IsDigit(tail[0]) && !(d == "0" && (tail[0] == 'x' || tail[0] == 'X')))
    ensures ParseUnsigned(d + tail) == Some(Value(d, 10))
  {
    var u := d + tail;
    if |u| >= 2 {
      if |d| >= 2 {
        assert u[1] == d[1];
      } else {
        assert u[1] == tail[0];
      }
    }
    PrefixWhileExact(d, tail, IsDigit);
  }

  /** `parseInt` reads past leading white space. */
  lemma ParseIntPadded(w: string, t: string)
    requires AllSpace(w)
    requires t == [] || !IsSpace(t[0])
    ensures ParseInt(w + t) == ParseSigned(t)
  {
    TrimStartPadded(w, t);
  }

  /** Leading white space, then digits and a tail that cannot continue them: the digits' value. */
  lemma ParseIntDigits(w: string, d: string, tail: string)
    requires AllSpace(w)
    requires d != [] && AllDigits(d)
    requires tail == [] || (!IsDigit(tail[0]) && !(d == "0" && (tail[0] == 'x' || tail[0] == 'X')))
    ensures ParseInt(w + (d + tail)) == Some(Value(d, 10))
  {
    assert (d + tail)[0] == d[0];
    ParseIntPadded(w, d + tail);
    ParseUnsignedDigits(d, tail);
  }

  /** A minus sign negates what follows it. */
  lemma ParseSignedNegative(u: string, v: int)
    requires ParseUnsigned(u) == Some(v)
    ensures ParseSigned(['-'] + u) == Some(-v)
  {
    assert (['-'] + u)[1..] == u;
  }

  /** Leading white space, a minus sign, then an unsigned number: that number negated. */
  lemma ParseIntNegative(w: string, u: string, v: int)
    requires AllSpace(w)
    requires ParseUnsigned(u) == Some(v)
    ensures ParseInt(w + (['-'] + u)) == Some(-v)
  {
    ParseIntPadded(w, ['-'] + u);
    ParseSignedNegative(u, v);
  }

  /** `ToDecimal` and `ParseInt` are inverse on the naturals. */
  lemma ParseIntToDecimal(n: nat)
    ensures ParseInt(ToDecimal(n)) == Some(n)
  {
    var d := ToDecimal(n);
    ParseIntDigits([], d, []);
    assert [] + (d + []) == d;
  }

  /** A number followed by text: `parseInt` stops at the first character that cannot continue it. */
  lemma ParseIntTrailingText()
    ensures ParseInt("12x") == Some(12)
  {
    assert "12x" == [] + ("12" + "x");
    ParseIntDigits([], "12", "x");
    assert Value("12", 10) == 12 by { assert "12"[..1] == "1"; }
  }

  /** Text whose first non-space character is neither a sign nor a digit is NaN. */
  lemma ParseIntNoDigits(s: string)
    requires var t := TrimStart(s); t == [] || (!IsDigit(t[0]) && t[0] != '-' && t[0] != '+')
    ensures ParseInt(s) == None
  {
  }
}
