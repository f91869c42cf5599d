/**
 * `Array.prototype.sort` with a consistent comparator: a stable sort. The
 * comparator is given as `le(a, b)`, "the comparator returns a value <= 0 for
 * (a, b)", which must be a total preorder. The sort is written as an insertion
 * sort; `SortedStableUnique` shows that every stable sort returns the same
 * sequence, so the choice of algorithm does not matter.
 */
module StableSort {

  ghost predicate TotalPreorder<T(!new)>(le: (T, T) -> bool) {
    && (forall a, b :: le(a, b) || le(b, a))
    && (forall a, b, c :: le(a, b) && le(b, c) ==> le(a, c))
  }

  predicate SortedBy<T>(s: seq<T>, le: (T, T) -> bool) {
    forall i, j | 0 <= i < j < |s| :: le(s[i], s[j])
  }

  /** The elements of `s` that tie with `y` under `le`, in the order `s` has them. */
  function Ties<T>(s: seq<T>, le: (T, T) -> bool, y: T): (t: seq<T>)
  {
    if s == [] then []
    else (if le(s[0], y) && le(y, s[0]) then [s[0]] else []) + Ties(s[1..], le, y)
  }

  /** The ties of `y` are elements of `s` that tie with `y`. */
  lemma {:induction false} TiesIn<T>(s: seq<T>, le: (T, T) -> bool, y: T)
    ensures forall z | z in Ties(s, le, y) :: z in s && le(z, y) && le(y, z)
  {
    if s != [] {
      TiesIn(s[1..], le, y);
      TiesCons(s[0], s[1..], le, y);
      assert [s[0]] + s[1..] == s;
    }
  }

  /** A sort is stable when every class of tied elements keeps its relative order. */
  ghost predicate SameTies<T(!new)>(a: seq<T>, b: seq<T>, le: (T, T) -> bool) {
    forall y :: Ties(a, le, y) == Ties(b, le, y)
  }

  /** Puts `x` before the first element it does not come after. */
  function Insert<T>(x: T, s: seq<T>, le: (T, T) -> bool): (r: seq<T>)
    ensures multiset(r) == multiset(s) + multiset{x}
  {
    if s == [] || le(x, s[0]) then [x] + s
    else
      var r := [s[0]] + Insert(x, s[1..], le);
      assert s == [s[0]] + s[1..];
      r
  }

  /** A lower bound of `x` and of every element of `s` bounds every element of the insertion. */
  lemma {:induction false} InsertLowerBound<T>(x: T, s: seq<T>, le: (T, T) -> bool, lo: T)
    requires le(lo, x)
    requires forall i | 0 <= i < |s| :: le(lo, s[i])
    ensures forall i | 0 <= i < |Insert(x, s, le)| :: le(lo, Insert(x, s, le)[i])
  {
    if s == [] || le(x, s[0]) {
    } else {
      var tail := Insert(x, s[1..], le);
      InsertLowerBound(x, s[1..], le, lo);
      assert Insert(x, s, le) == [s[0]] + tail;
    }
  }

  lemma SortedCons<T>(h: T, t: seq<T>, le: (T, T) -> bool)
    requires SortedBy(t, le)
    requires forall i | 0 <= i < |t| :: le(h, t[i])
    ensures SortedBy([h] + t, le)
  {
    var r := [h] + t;
    forall i, j | 0 <= i < j < |r| ensures le(r[i], r[j]) {
      assert r[j] == t[j - 1];
      if i > 0 {
        assert r[i] == t[i - 1];
      }
    }
  }

  lemma {:induction false} InsertSorted<T(!new)>(x: T, s: seq<T>, le: (T, T) -> bool)
    requires TotalPreorder(le)
    requires SortedBy(s, le)
    ensures SortedBy(Insert(x, s, le), le)
  {
    if s == [] || le(x, s[0]) {
      SortedCons(x, s, le);
    } else {
      var rest := s[1..];
      var tail := Insert(x, rest, le);
      assert SortedBy(rest, le);
      InsertSorted(x, rest, le);
      assert forall i | 0 <= i < |rest| :: rest[i] == s[i + 1];
      InsertLowerBound(x, rest, le, s[0]);
      SortedCons(s[0], tail, le);
    }
  }

  /** The ties of `[z] + s`: `z` when it ties, then the ties of `s`. */
  lemma TiesCons<T>(z: T, s: seq<T>, le: (T, T) -> bool, y: T)
    ensures Ties([z] + s, le, y) == (if le(z, y) && le(y, z) then [z] else []) + Ties(s, le, y)
  {
    assert ([z] + s)[1..] == s;
  }

  lemma {:induction false} InsertTies<T(!new)>(x: T, s: seq<T>, le: (T, T) -> bool, y: T)
    requires TotalPreorder(le)
    ensures Ties(Insert(x, s, le), le, y) == Ties([x] + s, le, y)
  {
    if s == [] || le(x, s[0]) {
    } else {
      var rest := s[1..];
      var tail := Insert(x, rest, le);
      assert Insert(x, s, le) == [s[0]] + tail;
      assert [s[0]] + rest == s;
      InsertTies(x, rest, le, y);
      var hx := if le(x, y) && le(y, x) then [x] else [];
      var hs := if le(s[0], y) && le(y, s[0]) then [s[0]] else [];
      TiesCons(s[0], tail, le, y);
      TiesCons(x, rest, le, y);
      TiesCons(x, s, le, y);
      TiesCons(s[0], rest, le, y);
      NotBothTie(x, s[0], y, le);
      SwapEmpty(hx, hs, Ties(rest, le, y));
    }
  }

  lemma SwapEmpty<T>(a: seq<T>, b: seq<T>, t: seq<T>)
    requires a == [] || b == []
    ensures b + (a + t) == a + (b + t)
  {
  }

  /** When `x` does not come before `z`, no element ties with both. */
  lemma NotBothTie<T(!new)>(x: T, z: T, y: T, le: (T, T) -> bool)
    requires TotalPreorder(le)
    requires !le(x, z)
    ensures !(le(x, y) && le(y, z))
  {
  }

  /** Inserting the head of `s` into a stable ordering of its tail gives a stable ordering of `s`. */
  lemma InsertSameTies<T(!new)>(s: seq<T>, rest: seq<T>, le: (T, T) -> bool)
    requires TotalPreorder(le)
    requires s != [] && SameTies(rest, s[1..], le)
    ensures SameTies(Insert(s[0], rest, le), s, le)
  {
    var r := Insert(s[0], rest, le);
    var t := s[1..];
    assert [s[0]] + t == s;
    forall y ensures Ties(r, le, y) == Ties(s, le, y) {
      InsertTies(s[0], rest, le, y);
      TiesCons(s[0], rest, le, y);
      TiesCons(s[0], t, le, y);
      assert Ties(rest, le, y) == Ties(t, le, y);
    }
  }

  /** Every stable sort by `le`: a sorted permutation of `s` in which tied elements keep their order. */
  function SortBy<T(!new)>(s: seq<T>, le: (T, T) -> bool): (r: seq<T>)
    requires TotalPreorder(le)
    ensures multiset(r) == multiset(s)
    ensures SortedBy(r, le)
    ensures SameTies(r, s, le)
  {
    if s == [] then []
    else
      var rest := SortBy(s[1..], le);
      InsertSorted(s[0], rest, le);
      InsertSameTies(s, rest, le);
      assert s == [s[0]] + s[1..];
      Insert(s[0], rest, le)
  }

  lemma {:induction false} TiesHead<T(!new)>(s: seq<T>, le: (T, T) -> bool)
    requires s != []
    requires TotalPreorder(le)
    ensures Ties(s, le, s[0]) != [] && Ties(s, le, s[0])[0] == s[0]
  {
  }

  /** Sorted sequences with the same ties start with the same element. */
  lemma HeadsEqual<T(!new)>(a: seq<T>, b: seq<T>, le: (T, T) -> bool)
    requires TotalPreorder(le)
    requires a != [] && b != []
    requires SortedBy(a, le) && SortedBy(b, le)
    requires SameTies(a, b, le)
    ensures a[0] == b[0]
  {
    // a[0] and b[0] tie: each is a least element and has a tie in the other sequence.
    TiesHead(a, le);
    TiesHead(b, le);
    var ta := Ties(a, le, b[0]);
    assert ta == Ties(b, le, b[0]);
    TiesIn(a, le, b[0]);
    assert ta[0] in a;
    var k :| 0 <= k < |a| && a[k] == ta[0];
    assert le(a[0], a[k]);
    assert le(a[0], b[0]);
    var tb := Ties(b, le, a[0]);
    assert tb == Ties(a, le, a[0]);
    TiesIn(b, le, a[0]);
    assert tb[0] in b;
    var m :| 0 <= m < |b| && b[m] == tb[0];
    assert le(b[0], b[m]);
    assert le(b[0], a[0]);
    // So both heads lead the class of a[0], which is the same in a and in b.
    assert Ties(a, le, a[0])[0] == a[0];
    assert Ties(b, le, a[0])[0] == b[0];
  }

  /** Removing one shared head keeps the ties equal. */
  lemma TailsSameTies<T(!new)>(a: seq<T>, b: seq<T>, le: (T, T) -> bool)
    requires a != [] && b != [] && a[0] == b[0]
    requires SameTies(a, b, le)
    ensures SameTies(a[1..], b[1..], le)
  {
    forall y ensures Ties(a[1..], le, y) == Ties(b[1..], le, y) {
      var h := if le(a[0], y) && le(y, a[0]) then [a[0]] else [];
      var ta, tb := Ties(a[1..], le, y), Ties(b[1..], le, y);
      assert h + ta == Ties(a, le, y) == Ties(b, le, y) == h + tb;
      assert ta == (h + ta)[|h|..] && tb == (h + tb)[|h|..];
    }
  }

  /** Two sorted sequences with the same ties are equal: a stable sort has only one possible result. */
  lemma {:induction false} SortedStableUnique<T(!new)>(a: seq<T>, b: seq<T>, le: (T, T) -> bool)
    requires TotalPreorder(le)
    requires SortedBy(a, le) && SortedBy(b, le)
    requires SameTies(a, b, le)
    ensures a == b
  {
    if a == [] {
      if b != [] {
        TiesHead(b, le);
        assert false;
      }
    } else if b == [] {
      TiesHead(a, le);
      assert false;
    } else {
      HeadsEqual(a, b, le);
      TailsSameTies(a, b, le);
      assert SortedBy(a[1..], le);
      assert SortedBy(b[1..], le);
      SortedStableUnique(a[1..], b[1..], le);
      assert a == [a[0]] + a[1..] && b == [b[0]] + b[1..];
    }
  }

  /** Whatever stable sort the runtime uses, its result is `SortBy`'s. */
  lemma StableSortIsSortBy<T(!new)>(s: seq<T>, t: seq<T>, le: (T, T) -> bool)
    requires TotalPreorder(le)
    requires SortedBy(t, le) && SameTies(t, s, le)
    ensures t == SortBy(s, le)
  {
    var r := SortBy(s, le);
    SortedStableUnique(t, r, le);
  }
}
