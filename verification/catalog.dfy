/** The per-star lookups of the catalogue builder: spectral class from the
    effective temperature, luminosity class from the absolute magnitude,
    the sprite table, the Galactic quadrant, the binary-candidate flag and
    the `Name_two` identifier. */
module Catalog {
  import opened Common
  import opened Text

  // ---------------------------------------------------------------- spectral class

  /** `classify_star(teff)`: a missing temperature and every temperature no
      band claims (below 3700, or exactly 30000) give "M". */
  function ClassifyStar(teff: Float): (c: string)
    ensures c in ClassLetters
    ensures teff.NaN? ==> c == "M"
  {
    match teff
    case NaN => "M"
    case Num(t) =>
      if t > 30000.0 then "O"
      else if 10000.0 <= t < 30000.0 then "B"
      else if 7500.0 <= t < 10000.0 then "A"
      else if 6000.0 <= t < 7500.0 then "F"
      else if 5200.0 <= t < 6000.0 then "G"
      else if 3700.0 <= t < 5200.0 then "K"
      else "M"
  }

  const ClassLetters: seq<string> := ["O", "B", "A", "F", "G", "K", "M"]

  /** A half-open temperature band [lo, hi) and the class it stands for. */
  datatype Band = Band(lo: real, hi: real, letter: string)

  /** The bounded bands, hottest first, as a table. */
  const Bands: seq<Band> := [
    Band(10000.0, 30000.0, "B"), Band(7500.0, 10000.0, "A"), Band(6000.0, 7500.0, "F"),
    Band(5200.0, 6000.0, "G"), Band(3700.0, 5200.0, "K")]

  predicate InBand(b: Band, t: real) { b.lo <= t < b.hi }

  /** The bands are disjoint, so "the band containing t" is well defined. */
  lemma BandsDisjoint(i: nat, j: nat, t: real)
    requires i < j < |Bands|
    ensures !(InBand(Bands[i], t) && InBand(Bands[j], t))
  {
  }

  /** The classifier agrees with the band table: a temperature above 30000
      is "O", one inside a band gets that band's letter, and one in no band
      and not above 30000 is "M". */
  lemma ClassifyMatchesBands(t: real)
    ensures t > 30000.0 ==> ClassifyStar(Num(t)) == "O"
    ensures forall i :: 0 <= i < |Bands| && InBand(Bands[i], t) ==>
              ClassifyStar(Num(t)) == Bands[i].letter
    ensures t <= 30000.0 && (forall i :: 0 <= i < |Bands| ==> !InBand(Bands[i], t)) ==>
              ClassifyStar(Num(t)) == "M"
  {
    if t <= 30000.0 && forall i :: 0 <= i < |Bands| ==> !InBand(Bands[i], t) {
      assert !InBand(Bands[0], t) && !InBand(Bands[1], t) && !InBand(Bands[2], t);
      assert !InBand(Bands[3], t) && !InBand(Bands[4], t);
    }
  }

  /** How hot a class is: M coolest (0) up to O hottest (6). */
  function Heat(c: string): (h: nat)
    requires c in ClassLetters
    ensures h < 7 && ClassLetters[6 - h] == c
  {
    if c == "M" then 0 else if c == "K" then 1 else if c == "G" then 2
    else if c == "F" then 3 else if c == "A" then 4 else if c == "B" then 5 else 6
  }

  /** As written, exactly 30000 falls between the "O" test (strictly above)
      and the "B" band (strictly below), so a hotter star gets a cooler class
      than a star one kelvin cooler. */
  lemma ClassifyStarGap()
    ensures ClassifyStar(Num(29999.0)) == "B"
    ensures ClassifyStar(Num(30000.0)) == "M"
    ensures Heat(ClassifyStar(Num(30000.0))) < Heat(ClassifyStar(Num(29999.0)))
  {
  }

  /** The classifier with the "O" band closed at 30000, as the adjoining
      half-open bands evidently intend. */
  function ClassifyStarIntended(teff: Float): (c: string)
    ensures c in ClassLetters
    ensures teff.Num? && teff.v != 30000.0 ==> c == ClassifyStar(teff)
  {
    match teff
    case NaN => "M"
    case Num(t) => if t == 30000.0 then "O" else ClassifyStar(teff)
  }

  /** With the gap closed, the class never gets cooler as the star gets
      hotter. */
  lemma IntendedMonotone(t1: real, t2: real)
    requires t1 <= t2
    ensures Heat(ClassifyStarIntended(Num(t1))) <= Heat(ClassifyStarIntended(Num(t2)))
  {
  }

  // ---------------------------------------------------------------- luminosity

  /** `determine_luminosity_class(abs_mag)`: "I" for a negative absolute
      magnitude, "V" otherwise, missing values included. */
  function LuminosityClass(absMag: Float): (l: string)
    ensures l == "I" || l == "V"
    ensures l == "I" <==> absMag.Num? && absMag.v < 0.0
  {
    match absMag
    case NaN => "V"
    case Num(m) => if m < 0.0 then "I" else "V"
  }

  /** `sub_class_map.get(luminosity_class, "normal")`. */
  function SubClass(lum: string): (k: string)
    ensures k in SubClasses
    ensures k == "giant" <==> lum == "I"
    ensures k == "dwarf" <==> lum == "V"
  {
    if lum == "I" then "giant" else if lum == "V" then "dwarf" else "normal"
  }

  const SubClasses: seq<string> := ["giant", "normal", "dwarf"]

  // ---------------------------------------------------------------- sprite table

  datatype ImageKey = ImageKey(letter: string, kind: string, sprites: seq<string>)

  /** The sprite lists of `star_image_key`, row by row: classes O, B, A, F,
      G, K, M, each as giant, normal, dwarf. */
  const SpriteLists: seq<seq<string>> := [
    /* O giant  */ ["star/o0", "star/o0_supergiant", "star/o1"],
    /* O normal */ ["star/o2", "star/o3", "star/o1_giant"],
    /* O dwarf  */ ["star/o4", "star/o5", "star/o2_dwarf", "star/o6"],
    /* B giant  */ ["star/b0", "star/b0_supergiant"],
    /* B normal */ ["star/b1", "star/b1_giant", "star/b3"],
    /* B dwarf  */ ["star/b2", "star/b2_dwarf", "star/b4", "star/b5"],
    /* A giant  */ ["star/a0"],
    /* A normal */ ["star/a1", "star/a3", "star/a5"],
    /* A dwarf  */ ["star/a6", "star/a8"],
    /* F giant  */ ["star/f0", "star/f0_supergiant"],
    /* F normal */ ["star/f1", "star/f1_giant", "star/f3"],
    /* F dwarf  */ ["star/f2", "star/f2_dwarf", "star/f4"],
    /* G giant  */ ["star/g0", "star/g0_supergiant"],
    /* G normal */ ["star/g1", "star/g1_giant", "star/g3"],
    /* G dwarf  */ ["star/g2", "star/g2_dwarf", "star/g4", "star/g5"],
    /* K giant  */ ["star/k0", "star/k0_supergiant"],
    /* K normal */ ["star/k1", "star/k1_giant", "star/k3"],
    /* K dwarf  */ ["star/k2", "star/k2_dwarf", "star/k4", "star/k5"],
    /* M giant  */ ["star/m0", "star/m0_supergiant"],
    /* M normal */ ["star/m1", "star/m1_giant", "star/m2", "star/m2_giant"],
    /* M dwarf  */ ["star/m3", "star/m3_dwarf", "star/m4", "star/m4_dwarf", "star/m5", "star/m6"]]

  /** `star_image_key`: row i is class ClassLetters[i / 3], sub-class
      SubClasses[i % 3] and the sprites SpriteLists[i], first one preferred. */
  function StarImageKey(): seq<ImageKey> {
    seq(21, i requires 0 <= i < 21 => ImageKey(ClassLetters[i / 3], SubClasses[i % 3], SpriteLists[i]))
  }

  predicate Matches(e: ImageKey, letter: string, kind: string) {
    e.letter == letter && e.kind == kind
  }

  /** The first row at or after `from` for (letter, kind), if any. */
  function FindEntry(table: seq<ImageKey>, letter: string, kind: string, from: nat): (r: Option<nat>)
    requires from <= |table|
    ensures r.Some? ==> from <= r.value < |table| && Matches(table[r.value], letter, kind)
    ensures r.Some? ==> forall j :: from <= j < r.value ==> !Matches(table[j], letter, kind)
    ensures r.None? ==> forall j :: from <= j < |table| ==> !Matches(table[j], letter, kind)
    decreases |table| - from
  {
    if from == |table| then None
    else if Matches(table[from], letter, kind) then Some(from)
    else FindEntry(table, letter, kind, from + 1)
  }

  datatype Classification = Classification(starClass: string, subClass: string, icon: string)

  predicate SpritesPresent(table: seq<ImageKey>) {
    forall i :: 0 <= i < |table| ==> |table[i].sprites| > 0
  }

  /** `get_star_classification(star_class, luminosity_class)` over a sprite
      table: the first sprite of the first matching row, or "star/<class>0"
      when no row matches. */
  function ClassificationIn(table: seq<ImageKey>, starClass: string, lum: string): (r: Classification)
    requires SpritesPresent(table)
    ensures r.starClass == starClass && r.subClass == SubClass(lum)
    ensures forall i :: 0 <= i < |table| && Matches(table[i], starClass, SubClass(lum)) ==>
              exists j :: 0 <= j <= i && Matches(table[j], starClass, SubClass(lum)) &&
                r.icon == table[j].sprites[0]
    ensures (forall i :: 0 <= i < |table| ==> !Matches(table[i], starClass, SubClass(lum)))
              ==> r.icon == "star/" + starClass + "0"
  {
    var kind := SubClass(lum);
    match FindEntry(table, starClass, kind, 0)
    case Some(i) => Classification(starClass, kind, table[i].sprites[0])
    case None => Classification(starClass, kind, "star/" + starClass + "0")
  }

  lemma StarImageKeySprites()
    ensures SpritesPresent(StarImageKey())
  {
  }

  /** The classification against `star_image_key`. */
  function StarClassification(starClass: string, lum: string): (r: Classification)
    ensures r.starClass == starClass && r.subClass == SubClass(lum)
  {
    StarImageKeySprites();
    ClassificationIn(StarImageKey(), starClass, lum)
  }

  /** Row i of `star_image_key` is class ClassLetters[i / 3] with sub-class
      SubClasses[i % 3], and has at least one sprite. */
  /** Row i is class ClassLetters[i / 3] with sub-class SubClasses[i % 3]. */
  predicate Layout(table: seq<ImageKey>) {
    |table| == 21 &&
    forall i :: 0 <= i < 21 ==>
      table[i].letter == ClassLetters[i / 3] && table[i].kind == SubClasses[i % 3]
  }

  lemma StarImageKeyShape()
    ensures Layout(StarImageKey())
  {
  }

  /** A table laid out by class and sub-class covers every pair exactly once. */
  lemma TableLayout(table: seq<ImageKey>, c: nat, k: nat)
    requires Layout(table) && c < 7 && k < 3
    ensures Matches(table[3 * c + k], ClassLetters[c], SubClasses[k])
    ensures forall j :: 0 <= j < |table| && j != 3 * c + k ==>
              !Matches(table[j], ClassLetters[c], SubClasses[k])
  {
    assert (3 * c + k) / 3 == c && (3 * c + k) % 3 == k;
    forall j | 0 <= j < |table| && j != 3 * c + k
      ensures !Matches(table[j], ClassLetters[c], SubClasses[k])
    {
      assert j / 3 != c || j % 3 != k;
    }
  }

  /** Every class the classifier produces finds its row in a table laid out
      by class and sub-class, so the "star/<class>0" fallback is not used. */
  lemma ClassifiedStarHasRow(table: seq<ImageKey>, teff: Float, absMag: Float)
    requires Layout(table) && SpritesPresent(table)
    ensures var letter := ClassifyStar(teff);
      var lum := LuminosityClass(absMag);
      exists i :: 0 <= i < |table| && Matches(table[i], letter, SubClass(lum)) &&
        ClassificationIn(table, letter, lum).icon == table[i].sprites[0]
  {
    var letter := ClassifyStar(teff);
    var kind := SubClass(LuminosityClass(absMag));
    var c := 6 - Heat(letter);
    var k := if kind == "giant" then 0 else if kind == "normal" then 1 else 2;
    assert SubClasses[k] == kind;
    TableLayout(table, c, k);
  }

  /** The catalogue's stars all take their icon from `star_image_key`. */
  lemma ClassifiedStarHasSprite(teff: Float, absMag: Float)
    ensures var letter := ClassifyStar(teff);
      var lum := LuminosityClass(absMag);
      exists i :: 0 <= i < |StarImageKey()| && Matches(StarImageKey()[i], letter, SubClass(lum)) &&
        0 < |StarImageKey()[i].sprites| && StarClassification(letter, lum).icon == StarImageKey()[i].sprites[0]
  {
    StarImageKeyShape();
    StarImageKeySprites();
    ClassifiedStarHasRow(StarImageKey(), teff, absMag);
  }

  // ---------------------------------------------------------------- quadrant

  /** `determine_quadrant(row)`: `l` is the Galactic longitude, None when the
      row has no such column (then 0 is used). */
  function Quadrant(l: Option<Float>): (q: string)
    ensures q in ["1", "2", "3", "4"]
  {
    var lon := if l.None? then Num(0.0) else l.value;
    match lon
    case NaN => "4"
    case Num(x) =>
      if 0.0 <= x < 90.0 then "1"
      else if 90.0 <= x < 180.0 then "2"
      else if 180.0 <= x < 270.0 then "3"
      else "4"
  }

  /** The quadrant is one more than the number of whole right angles in the
      longitude for longitudes in [0, 270); everything else, a NaN
      longitude included, is quadrant 4. */
  lemma QuadrantIsRightAngles(x: real)
    ensures 0.0 <= x < 270.0 ==> Quadrant(Some(Num(x))) == NatToDecimal((x / 90.0).Floor + 1)
    ensures !(0.0 <= x < 270.0) ==> Quadrant(Some(Num(x))) == "4"
    ensures Quadrant(Some(NaN)) == "4"
  {
    if 0.0 <= x < 270.0 {
      var f := (x / 90.0).Floor;
      assert 0 <= f < 3 by {
        assert f as real <= x / 90.0 < f as real + 1.0;
      }
      assert f as real * 90.0 <= x < (f as real + 1.0) * 90.0;
    }
  }

  // ---------------------------------------------------------------- batches

  /** `value_counts` then `map(cube_counts == 2)`: a star is a binary
      candidate when exactly two stars of the batch share its cube code. */
  function BinaryCandidates(codes: seq<string>): (flags: seq<bool>)
    ensures |flags| == |codes|
    ensures forall i :: 0 <= i < |codes| ==> (flags[i] <==> multiset(codes)[codes[i]] == 2)
  {
    var counts := ValueCounts(codes);
    seq(|codes|, i requires 0 <= i < |codes| => counts[codes[i]] == 2)
  }

  /** Binary candidates come in pairs: the flagged stars sharing one code are
      exactly two. */
  lemma CandidatesPair(codes: seq<string>, i: nat)
    requires i < |codes| && BinaryCandidates(codes)[i]
    ensures exists j :: 0 <= j < |codes| && j != i && codes[j] == codes[i] && BinaryCandidates(codes)[j]
  {
    var c := codes[i];
    var a, b := codes[..i], codes[i + 1..];
    SplitAt(codes, i);
    var j := OtherOccurrence(a, c, b);
    assert codes[j] == c;
  }

  /** A value occurring twice in a + [c] + b occurs in a or in b. */
  lemma OtherOccurrence<T>(a: seq<T>, c: T, b: seq<T>) returns (j: nat)
    requires multiset(a + [c] + b)[c] == 2
    ensures j < |a + [c] + b| && j != |a| && (a + [c] + b)[j] == c
  {
    assert multiset(a + [c] + b) == multiset(a) + multiset{c} + multiset(b);
    if c in multiset(a) {
      var k :| 0 <= k < |a| && a[k] == c;
      j := k;
    } else {
      assert c in multiset(b);
      var k :| 0 <= k < |b| && b[k] == c;
      j := |a| + 1 + k;
    }
  }

  /** The grid cell's index: 180 declination columns per right-ascension
      row. */
  function GridIndex(raIdx: nat, decIdx: nat): nat { raIdx * 180 + decIdx }

  /** `Name_two`: "S", the quadrant, the grid index zero-filled to 4 digits,
      "-" and the row counter zero-filled to 4 digits. */
  function NameTwo(quadrant: string, raIdx: nat, decIdx: nat, counter: nat): (name: string)
    ensures |name| > 0 && name[0] == 'S'
    ensures var n := Max(4, |NatToDecimal(counter)|);
      n < |name| && name[|name| - n - 1] == '-' && AllDigits(name[|name| - n..])
  {
    var grid := ZFill(NatToDecimal(GridIndex(raIdx, decIdx)), 4);
    var count := ZFill(NatToDecimal(counter), 4);
    ZFillDigits(NatToDecimal(counter), 4);
    "S" + quadrant + grid + "-" + count
  }

  lemma ZFillDigits(s: string, width: nat)
    requires AllDigits(s)
    ensures AllDigits(ZFill(s, width))
  {
  }

  /** `name` is "S", the text `quadrant`, `width` digits spelling `grid`,
      '-' and digits spelling `counter`. */
  predicate NameFields(name: string, quadrant: string, grid: nat, width: nat, counter: nat) {
    var k := 1 + |quadrant|;
    var m := k + width;
    && m < |name| && name[0] == 'S' && name[1..k] == quadrant
    && AllDigits(name[k..m]) && DigitsValue(name[k..m]) == grid
    && name[m] == '-'
    && AllDigits(name[m + 1..]) && DigitsValue(name[m + 1..]) == counter
  }

  /** Every field of a `Name_two` can be read back: after the 'S' come the
      quadrant, the grid index in at least four digits, a '-' and the
      counter in at least four digits.  Below 10000 the grid index takes
      exactly four characters. */
  lemma NameTwoFields(quadrant: string, raIdx: nat, decIdx: nat, counter: nat)
    ensures NameFields(NameTwo(quadrant, raIdx, decIdx, counter), quadrant, GridIndex(raIdx, decIdx),
                       Max(4, |NatToDecimal(GridIndex(raIdx, decIdx))|), counter)
    ensures GridIndex(raIdx, decIdx) < 10000 ==> Max(4, |NatToDecimal(GridIndex(raIdx, decIdx))|) == 4
  {
    var grid := GridIndex(raIdx, decIdx);
    var g, c := ZFill(NatToDecimal(grid), 4), ZFill(NatToDecimal(counter), 4);
    var name := NameTwo(quadrant, raIdx, decIdx, counter);
    assert name == "S" + quadrant + g + "-" + c;
    assert Max(4, |NatToDecimal(grid)|) == |g|;
    PaddedDecimalValue(grid, 4);
    PaddedDecimalValue(counter, 4);
    Fields(name, quadrant, g, c, grid, counter);
    DecimalLength(grid);
  }

  /** The pieces of "S" + q + g + "-" + c sit at fixed offsets, so two digit
      fields keep their values. */
  lemma Fields(name: string, q: string, g: string, c: string, grid: nat, counter: nat)
    requires name == "S" + q + g + "-" + c
    requires AllDigits(g) && DigitsValue(g) == grid
    requires AllDigits(c) && DigitsValue(c) == counter
    ensures NameFields(name, q, grid, |g|, counter)
  {
    NameLayout(q, g, c);
  }

  /** Where the pieces of "S" + q + g + "-" + c begin and end. */
  lemma NameLayout(q: string, g: string, c: string)
    ensures var name := "S" + q + g + "-" + c;
            var k := 1 + |q|;
            var m := k + |g|;
            && m < |name| && name[0] == 'S' && name[1..k] == q && name[k..m] == g
            && name[m] == '-' && name[m + 1..] == c
  {
  }

  /** The names of one batch: one per star, counter = row position. */
  function BatchNames(quadrants: seq<string>, raIdx: nat, decIdx: nat): (names: seq<string>)
    ensures |names| == |quadrants|
    ensures forall i :: 0 <= i < |quadrants| ==> names[i] == NameTwo(quadrants[i], raIdx, decIdx, i)
  {
    seq(|quadrants|, i requires 0 <= i < |quadrants| => NameTwo(quadrants[i], raIdx, decIdx, i))
  }

  /** Within a batch every star gets its own name, whichever quadrant each
      star falls in. */
  lemma BatchNamesDistinct(quadrants: seq<string>, raIdx: nat, decIdx: nat)
    requires forall i :: 0 <= i < |quadrants| ==> |quadrants[i]| == 1
    ensures NoDups(BatchNames(quadrants, raIdx, decIdx))
  {
    var names := BatchNames(quadrants, raIdx, decIdx);
    forall i, j | 0 <= i < j < |names|
      ensures names[i] != names[j]
    {
      NamesDiffer(quadrants[i], quadrants[j], raIdx, decIdx, i, j);
    }
  }

  /** Two names of the same grid cell with one-character quadrants differ
      when their counters differ: the counter is everything after the
      fixed-length prefix. */
  lemma NamesDiffer(q1: string, q2: string, raIdx: nat, decIdx: nat, c1: nat, c2: nat)
    requires |q1| == 1 && |q2| == 1 && c1 != c2
    ensures NameTwo(q1, raIdx, decIdx, c1) != NameTwo(q2, raIdx, decIdx, c2)
  {
    var grid := ZFill(NatToDecimal(GridIndex(raIdx, decIdx)), 4);
    var s1, s2 := ZFill(NatToDecimal(c1), 4), ZFill(NatToDecimal(c2), 4);
    var n1, n2 := NameTwo(q1, raIdx, decIdx, c1), NameTwo(q2, raIdx, decIdx, c2);
    assert n1 == "S" + q1 + grid + "-" + s1;
    assert n2 == "S" + q2 + grid + "-" + s2;
    var p := 3 + |grid|;
    if n1 == n2 {
      assert |s1| == |s2|;
      assert s1 == n1[p..];
      assert s2 == n2[p..];
      PaddedDecimalInjective(c1, c2, 4);
    }
  }
}
