/** Randomness as an injected oracle.  The generator draws from Python's
    `random` module and, for moon counts, from NumPy's Poisson sampler; here
    both are fixed infinite streams read through cursors, so every property
    proved about the generator holds for every possible sequence of draws. */
module Rng {
  import opened Common

  /** The streams: raw integers for `randint`/`choice`, reals for
      `uniform`, and NumPy's Poisson samples. */
  datatype Source = Source(ints: nat -> nat, units: nat -> real, counts: nat -> nat)

  /** How far each stream has been read. */
  datatype Cursor = Cursor(pos: nat, npPos: nat)

  /** One draw and the cursor after it. */
  datatype Draw<T> = Draw(value: T, next: Cursor)

  /** A draw from `random` consumes one position of the Python stream. */
  predicate Step(g: Cursor, next: Cursor) {
    next == Cursor(g.pos + 1, g.npPos)
  }

  /** `x % n` by repeated subtraction: which of the `n` outcomes a raw
      draw selects. */
  function Reduce(x: nat, n: nat): (r: nat)
    requires n > 0
    ensures r < n
    decreases x
  {
    if x < n then x else Reduce(x - n, n)
  }

  lemma {:induction false} ReduceIsMod(x: nat, n: nat)
    requires n > 0
    ensures Reduce(x, n) == x % n
    decreases x
  {
    if x >= n {
      ReduceIsMod(x - n, n);
      assert x % n == (x - n) % n by {
        DivUnique(x, n, (x - n) / n + 1, (x - n) % n);
      }
    }
  }

  /** `random.randint(a, b)`: an integer of [a, b]. */
  function RandInt(src: Source, g: Cursor, a: int, b: int): (d: Draw<int>)
    requires a <= b
    ensures a <= d.value <= b
    ensures Step(g, d.next)
  {
    Draw(a + Reduce(src.ints(g.pos), b - a + 1), Cursor(g.pos + 1, g.npPos))
  }

  /** `random.uniform(lo, hi)`: a real between the two bounds, in
      whichever order they come.  The stream supplies the real drawn and
      the draw is kept within the bounds, which is all Python promises of
      `lo + (hi - lo) * random()` up to rounding. */
  function Uniform(src: Source, g: Cursor, lo: real, hi: real): (d: Draw<real>)
    ensures lo <= hi ==> lo <= d.value <= hi
    ensures hi <= lo ==> hi <= d.value <= lo
    ensures Step(g, d.next)
  {
    var a, b := if lo <= hi then lo else hi, if lo <= hi then hi else lo;
    var x := src.units(g.pos);
    Draw(if x < a then a else if x > b then b else x, Cursor(g.pos + 1, g.npPos))
  }

  /** Every real between the bounds can come out of `uniform`. */
  lemma UniformReaches(src: Source, g: Cursor, lo: real, hi: real, x: real)
    requires lo <= x <= hi && src.units(g.pos) == x
    ensures Uniform(src, g, lo, hi).value == x
  {
  }

  /** `random.choice(s)`: an element of the non-empty `s` (Python raises on
      an empty sequence). */
  function Choice<T>(src: Source, g: Cursor, s: seq<T>): (d: Draw<T>)
    requires |s| > 0
    ensures d.value in s
    ensures Step(g, d.next)
  {
    Draw(s[Reduce(src.ints(g.pos), |s|)], Cursor(g.pos + 1, g.npPos))
  }

  /** `np.random.poisson(mean)`: a count from NumPy's own stream, the
      Python stream untouched; NumPy answers a zero mean with 0 and takes
      no sample. */
  function Poisson(src: Source, g: Cursor, mean: real): (d: Draw<nat>)
    ensures mean == 0.0 ==> d.value == 0 && d.next == g
    ensures mean != 0.0 ==> d.next == Cursor(g.pos, g.npPos + 1)
  {
    if mean == 0.0 then Draw(0, g) else Draw(src.counts(g.npPos), Cursor(g.pos, g.npPos + 1))
  }

  /** With a non-zero mean every count can come out of `poisson`. */
  lemma PoissonReaches(src: Source, g: Cursor, mean: real, n: nat)
    requires mean != 0.0 && src.counts(g.npPos) == n
    ensures Poisson(src, g, mean).value == n
  {
  }

  /** Every element can come out of `choice`: the draw is the element at the
      raw value's residue. */
  lemma ChoiceReaches<T>(src: Source, g: Cursor, s: seq<T>, i: nat)
    requires i < |s| && src.ints(g.pos) == i
    ensures Choice(src, g, s).value == s[i]
  {
  }

  /** Every integer of the range can come out of `randint`. */
  lemma RandIntReaches(src: Source, g: Cursor, a: int, b: int, v: int)
    requires a <= v <= b && src.ints(g.pos) == v - a
    ensures RandInt(src, g, a, b).value == v
  {
  }
}
