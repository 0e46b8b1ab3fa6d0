/** Small shared vocabulary: optional values, results with the pipeline's
    error kinds, and counting/uniqueness helpers over sequences. */
module Common {

  datatype Option<+T> = None | Some(value: T)

  /** The ways an operation of the pipeline can fail. */
  datatype Error =
    | DecodeError      // a grid key that is not valid Base64
    | OverflowError    // a packed grid value outside [0, 2^128)

  datatype Result<+T> = Success(value: T) | Failure(error: Error)

  /** A Python float as the pipeline meets it: a finite value or NaN (the
      marker pandas uses for a missing cell).  Every comparison with NaN is
      false. */
  datatype Float = NaN | Num(v: real)

  /** A text cell of a CSV row: a column the row does not have, an empty
      cell (NaN to pandas), or some text. */
  datatype Cell = Absent | Blank | Text(s: string)

  /** `str(row.get(column, default))`: the default for a missing column and
      "nan" for an empty cell. */
  function CellStr(c: Cell, default: string): (r: string)
    ensures c.Text? ==> r == c.s
    ensures c.Absent? ==> r == default
  {
    match c
    case Absent => default
    case Blank => "nan"
    case Text(s) => s
  }

  function Min(a: int, b: int): int { if a <= b then a else b }

  function Max(a: int, b: int): int { if a <= b then b else a }

  /** Quotient and remainder are determined by the division equation. */
  lemma DivUnique(c: int, d: int, q: int, r: int)
    requires d > 0 && c == d * q + r && 0 <= r < d
    ensures c / d == q && c % d == r
  {
    var q', r' := c / d, c % d;
    assert c == d * q' + r';
    if q' > q {
      assert d * q' >= d * (q + 1) by { MulMono(d, q + 1, q'); }
    } else if q' < q {
      assert d * q >= d * (q' + 1) by { MulMono(d, q' + 1, q); }
    }
  }

  lemma MulMono(d: int, a: int, b: int)
    requires d > 0 && a <= b
    ensures d * a <= d * b
  {
  }

  /** Number of elements of `s` satisfying `p`. */
  function CountIf<T>(s: seq<T>, p: T -> bool): (n: nat)
    ensures n <= |s|
  {
    if |s| == 0 then 0 else (if p(s[0]) then 1 else 0) + CountIf(s[1..], p)
  }

  /** Nothing is counted when no element has the property. */
  lemma {:induction false} CountIfNone<T>(s: seq<T>, p: T -> bool)
    requires forall i :: 0 <= i < |s| ==> !p(s[i])
    ensures CountIf(s, p) == 0
  {
    if |s| > 0 {
      CountIfNone(s[1..], p);
    }
  }

  lemma {:induction false} CountIfAppend<T>(a: seq<T>, b: seq<T>, p: T -> bool)
    ensures CountIf(a + b, p) == CountIf(a, p) + CountIf(b, p)
  {
    if |a| == 0 {
      assert a + b == b;
    } else {
      assert (a + b)[1..] == a[1..] + b;
      CountIfAppend(a[1..], b, p);
    }
  }

  /** Elements of `s` satisfying `p`, in order. */
  function Filter<T>(s: seq<T>, p: T -> bool): (r: seq<T>)
    ensures |r| == CountIf(s, p)
    ensures forall i :: 0 <= i < |r| ==> p(r[i]) && r[i] in s
    ensures forall i :: 0 <= i < |s| && p(s[i]) ==> s[i] in r
  {
    if |s| == 0 then [] else (if p(s[0]) then [s[0]] else []) + Filter(s[1..], p)
  }

  /** Filtering by a property every element already has changes nothing. */
  lemma {:induction false} FilterAll<T>(s: seq<T>, p: T -> bool)
    requires forall i :: 0 <= i < |s| ==> p(s[i])
    ensures Filter(s, p) == s
  {
    if |s| > 0 {
      FilterAll(s[1..], p);
    }
  }

  /** Filtering by a property no element has leaves nothing. */
  lemma {:induction false} FilterNone<T>(s: seq<T>, p: T -> bool)
    requires forall i :: 0 <= i < |s| ==> !p(s[i])
    ensures Filter(s, p) == []
  {
    if |s| > 0 {
      FilterNone(s[1..], p);
    }
  }

  lemma {:induction false} FilterAppend<T>(a: seq<T>, b: seq<T>, p: T -> bool)
    ensures Filter(a + b, p) == Filter(a, p) + Filter(b, p)
  {
    if |a| == 0 {
      assert a + b == b;
    } else {
      assert (a + b)[1..] == a[1..] + b;
      FilterAppend(a[1..], b, p);
    }
  }

  /** The sequences of `ss`, one after another. */
  function Concat<T>(ss: seq<seq<T>>): (r: seq<T>) {
    if |ss| == 0 then [] else ss[0] + Concat(ss[1..])
  }

  lemma ConcatSix<T>(a: seq<T>, b: seq<T>, c: seq<T>, d: seq<T>, e: seq<T>, f: seq<T>)
    ensures Concat([a, b, c, d, e, f]) == a + b + c + d + e + f
  {
    assert [f][1..] == [];
    assert Concat([f]) == f;
    assert [e, f][1..] == [f];
    assert Concat([e, f]) == e + f;
    assert [d, e, f][1..] == [e, f];
    assert Concat([d, e, f]) == d + (e + f);
    assert [c, d, e, f][1..] == [d, e, f];
    assert Concat([c, d, e, f]) == c + (d + (e + f));
    assert [b, c, d, e, f][1..] == [c, d, e, f];
    assert Concat([b, c, d, e, f]) == b + (c + (d + (e + f)));
    assert [a, b, c, d, e, f][1..] == [b, c, d, e, f];
  }

  /** When only the `k`-th part holds elements with the property, and it
      holds only such elements, filtering the whole gives that part (and
      nothing when `k` names no part). */
  lemma {:induction false} FilterConcat<T>(ss: seq<seq<T>>, p: T -> bool, k: int)
    requires forall j, i :: 0 <= j < |ss| && 0 <= i < |ss[j]| ==> (p(ss[j][i]) <==> j == k)
    ensures Filter(Concat(ss), p) == if 0 <= k < |ss| then ss[k] else []
  {
    if |ss| > 0 {
      var head, tail := ss[0], ss[1..];
      assert Concat(ss) == head + Concat(tail);
      forall j, i | 0 <= j < |tail| && 0 <= i < |tail[j]|
        ensures p(tail[j][i]) <==> j == k - 1
      {
        assert tail[j] == ss[j + 1];
      }
      FilterConcat(tail, p, k - 1);
      FilterAppend(head, Concat(tail), p);
      if k == 0 {
        FilterAll(head, p);
      } else {
        FilterNone(head, p);
        assert (if 0 <= k - 1 < |tail| then tail[k - 1] else []) == (if 0 <= k < |ss| then ss[k] else []);
      }
    }
  }

  /** `pandas.Series.value_counts()` / `collections.Counter`: how often each
      value occurs. */
  function ValueCounts<T(==)>(s: seq<T>): (m: map<T, nat>)
    ensures m.Keys == set x | x in s
    ensures forall x :: x in m ==> m[x] == multiset(s)[x]
  {
    if |s| == 0 then map[]
    else
      var init, last := s[..|s| - 1], s[|s| - 1];
      assert s == init + [last];
      var m := ValueCounts(init);
      m[last := (if last in m then m[last] else 0) + 1]
  }

  predicate NoDups<T(==)>(s: seq<T>) {
    forall i, j :: 0 <= i < j < |s| ==> s[i] != s[j]
  }

  /** Without duplicates every value occurs at most once. */
  lemma {:induction false} NoDupsCount<T>(s: seq<T>, x: T)
    requires NoDups(s)
    ensures multiset(s)[x] <= 1
  {
    if |s| > 0 {
      assert s == [s[0]] + s[1..];
      NoDupsCount(s[1..], x);
      assert s[0] !in s[1..];
    }
  }

  /** A rearrangement of a list without duplicates has none either. */
  lemma PermutationNoDups<T>(a: seq<T>, b: seq<T>)
    requires multiset(a) == multiset(b) && NoDups(a)
    ensures NoDups(b)
  {
    forall i, j | 0 <= i < j < |b|
      ensures b[i] != b[j]
    {
      var x := b[j];
      assert b == b[..j] + b[j..];
      assert multiset(b)[x] == multiset(b[..j])[x] + multiset(b[j..])[x];
      assert b[j..][0] == x;
      NoDupsCount(a, x);
      assert x !in b[..j];
      assert b[..j][i] == b[i];
    }
  }

  function MapSeq<A, B>(s: seq<A>, f: A -> B): (r: seq<B>)
    ensures |r| == |s| && forall i :: 0 <= i < |s| ==> r[i] == f(s[i])
  {
    seq(|s|, i requires 0 <= i < |s| => f(s[i]))
  }

  /** Position of the first occurrence of `x` in `s`. */
  function FirstIndex<T(==)>(s: seq<T>, x: T): (i: nat)
    requires x in s
    ensures i < |s| && s[i] == x && forall j :: 0 <= j < i ==> s[j] != x
  {
    if s[0] == x then 0 else 1 + FirstIndex(s[1..], x)
  }

  lemma FirstIndexPrefix<T>(p: seq<T>, x: T, y: T)
    requires y in p
    ensures y in p + [x] && FirstIndex(p + [x], y) == FirstIndex(p, y)
  {
    var q := p + [x];
    var i := FirstIndex(p, y);
    assert q[i] == y;
    var k := FirstIndex(q, y);
    assert k <= i;
    assert p[k] == y;
  }

  /** `pandas.Series.unique()`: each distinct value once, in order of first
      appearance. */
  function Unique<T(==,!new)>(s: seq<T>): (r: seq<T>)
    ensures NoDups(r) && |r| <= |s|
    ensures forall x :: x in r <==> x in s
  {
    if |s| == 0 then []
    else
      var init, last := s[..|s| - 1], s[|s| - 1];
      assert s == init + [last];
      var u := Unique(init);
      if last in u then u else u + [last]
  }

  /** A sequence is the part before position `i`, the element there and
      the part after. */
  lemma SplitAt<T>(s: seq<T>, i: nat)
    requires i < |s|
    ensures s == s[..i] + [s[i]] + s[i + 1..]
  {
  }

  /** A prefix of a suffix is a middle slice. */
  lemma SliceOfSlice<T>(s: seq<T>, i: nat, n: nat)
    requires i + n <= |s|
    ensures s[i..][..n] == s[i..i + n]
  {
  }

  /** Moving the head of `ts` onto the end of `s` keeps the concatenation. */
  lemma ShiftHead<T>(s: seq<T>, ts: seq<T>)
    requires |ts| > 0
    ensures (s + [ts[0]]) + ts[1..] == s + ts
  {
    assert ts == [ts[0]] + ts[1..];
  }

  /** A value appended to a sequence is added to its distinct values
      exactly when it is new. */
  lemma UniqueSnoc<T(!new)>(s: seq<T>, x: T)
    ensures Unique(s + [x]) == if x in Unique(s) then Unique(s) else Unique(s) + [x]
  {
    assert (s + [x])[..|s|] == s;
  }

  /** The values of `Unique(s)` are listed in the order of their first
      occurrence in `s`. */
  lemma {:induction false} UniqueOrder<T(!new)>(s: seq<T>, i: nat, j: nat)
    requires i < j < |Unique(s)|
    ensures FirstIndex(s, Unique(s)[i]) < FirstIndex(s, Unique(s)[j])
  {
    var init, last := s[..|s| - 1], s[|s| - 1];
    assert s == init + [last];
    var u := Unique(init);
    var r := Unique(s);
    assert r[i] in init by {
      if last in u { assert r == u; } else { assert r == u + [last]; assert r[i] == u[i]; }
    }
    FirstIndexPrefix(init, last, r[i]);
    if last in u || j < |u| {
      assert r[i] == u[i] && r[j] == u[j];
      FirstIndexPrefix(init, last, r[j]);
      UniqueOrder(init, i, j);
    } else {
      assert r[j] == last && last !in init;
      assert FirstIndex(s, last) == |init|;
    }
  }

  /** Number of occurrences of `x` in `s`. */
  function Occurrences<T(==)>(s: seq<T>, x: T): (n: nat)
    ensures n == multiset(s)[x]
  {
    if |s| == 0 then 0
    else
      assert s == [s[0]] + s[1..];
      (if s[0] == x then 1 else 0) + Occurrences(s[1..], x)
  }
}
