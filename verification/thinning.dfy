/** Local-rarity thinning: every occupied 2-D cell keeps one star, the one
    whose (class, sub-class) pair is least common in the 3x3 block of cells
    around it. */
module Thinning {
  import opened Common
  import opened Base64
  import opened GridCodec

  /** A catalogue row as the thinning step sees it; `id` stands for the
      remaining columns, which are carried along unchanged. */
  datatype Star = Star(id: int, key: string, starClass: string, subClass: string)

  /** `StarClass + "/" + Sub_Class`. */
  function Combo(s: Star): string { s.starClass + "/" + s.subClass }

  function Keys(stars: seq<Star>): seq<string> { MapSeq(stars, (s: Star) => s.key) }

  /** `Counter(...)` over the combos of the stars whose key is one of `block`. */
  function NeighbourCounts(stars: seq<Star>, block: seq<string>): (m: map<string, nat>)
    ensures forall c :: c in m ==> m[c] > 0
  {
    var inBlock := Filter(stars, (s: Star) => s.key in block);
    ValueCounts(MapSeq(inBlock, Combo))
  }

  /** A `Counter` answers 0 for a combo it has not seen. */
  function CountOf(m: map<string, nat>, c: string): nat {
    if c in m then m[c] else 0
  }

  /** `1 / (count if count else 1)`. */
  function Rarity(m: map<string, nat>, c: string): (r: real)
    ensures 0.0 < r <= 1.0
    ensures CountOf(m, c) > 0 ==> r * CountOf(m, c) as real == 1.0
  {
    var n := if CountOf(m, c) != 0 then CountOf(m, c) else 1;
    1.0 / n as real
  }

  /** A higher rarity is exactly a smaller (non-zero) count. */
  lemma RarityOrder(m: map<string, nat>, a: string, b: string)
    requires CountOf(m, a) > 0 && CountOf(m, b) > 0
    ensures Rarity(m, a) <= Rarity(m, b) <==> CountOf(m, b) <= CountOf(m, a)
  {
    var na, nb := CountOf(m, a) as real, CountOf(m, b) as real;
    assert Rarity(m, a) == 1.0 / na && Rarity(m, b) == 1.0 / nb;
    if nb <= na {
      assert 1.0 / na <= 1.0 / nb by { Reciprocal(nb, na); }
    } else {
      assert 1.0 / nb < 1.0 / na by { Reciprocal(na, nb); }
    }
  }

  lemma Reciprocal(x: real, y: real)
    requires 0.0 < x <= y
    ensures 1.0 / y <= 1.0 / x && (x < y ==> 1.0 / y < 1.0 / x)
  {
    assert 1.0 / x - 1.0 / y == (y - x) / (x * y);
    assert x * y > 0.0;
  }

  /** The first star of `local` with the highest rarity: one of the stars
      `sort_values('rarity_score', ascending=False).iloc[0]` may pick. */
  function Rarest(local: seq<Star>, m: map<string, nat>): (best: Star)
    requires |local| > 0
    ensures best in local
    ensures forall s :: s in local ==> Rarity(m, Combo(s)) <= Rarity(m, Combo(best))
  {
    if |local| == 1 then local[0]
    else
      var rest := Rarest(local[1..], m);
      assert forall s :: s in local ==> s == local[0] || s in local[1..];
      if Rarity(m, Combo(local[0])) >= Rarity(m, Combo(rest)) then local[0] else rest
  }

  /** The star kept for the cell `key`, given what `get_neighbor_keys(key)`
      returned: None when no star sits in the cell, a failure when the
      neighbour keys could not be built. */
  function ThinCell(stars: seq<Star>, key: string, block: Result<seq<string>>): (r: Result<Option<Star>>)
    ensures r.Success? <==> block.Success?
    ensures r.Success? && r.value.Some? ==> r.value.value in stars && r.value.value.key == key
    ensures r.Success? ==> (r.value.Some? <==> key in Keys(stars))
  {
    match block
    case Failure(e) => Failure(e)
    case Success(b) =>
      var m := NeighbourCounts(stars, b);
      var local := Filter(stars, (s: Star) => s.key == key);
      LocalStars(stars, key);
      if |local| == 0 then
        Success(None)
      else
        var best := Rarest(local, m);
        assert best.key == key;
        Success(Some(best))
  }

  /** The stars of a cell: some exactly when the key occurs in the catalogue. */
  lemma LocalStars(stars: seq<Star>, key: string)
    ensures |Filter(stars, (s: Star) => s.key == key)| > 0 <==> key in Keys(stars)
  {
    var local := Filter(stars, (s: Star) => s.key == key);
    if key in Keys(stars) {
      var i :| 0 <= i < |stars| && Keys(stars)[i] == key;
      assert stars[i] in local;
    }
    if |local| > 0 {
      var t := local[0];
      var i :| 0 <= i < |stars| && stars[i] == t;
      assert Keys(stars)[i] == key;
    }
  }

  /** The first components of a list of pairs. */
  function CellKeys(out: seq<(string, Star)>): (ks: seq<string>)
    ensures |ks| == |out| && forall i :: 0 <= i < |out| ==> ks[i] == out[i].0
  {
    if |out| == 0 then [] else [out[0].0] + CellKeys(out[1..])
  }

  /** The loop over `unique()` keys, `blocks[i]` being what
      `get_neighbor_keys(keys[i])` returned: one (key, star) pair per
      occupied cell, in the order of the keys; the first failure aborts the
      run. */
  function ThinKeys(stars: seq<Star>, keys: seq<string>, blocks: seq<Result<seq<string>>>)
    : (r: Result<seq<(string, Star)>>)
    requires |blocks| == |keys|
    ensures r.Success? <==> AllSucceed(blocks)
    ensures r.Success? ==> forall i :: 0 <= i < |r.value| ==>
              r.value[i].1 in stars && r.value[i].1.key == r.value[i].0
  {
    if |keys| == 0 then Success([])
    else
      AllSucceedCons(blocks);
      match ThinCell(stars, keys[0], blocks[0])
      case Failure(e) => Failure(e)
      case Success(cell) =>
        match ThinKeys(stars, keys[1..], blocks[1..])
        case Failure(e) => Failure(e)
        case Success(rest) =>
          if cell.None? then Success(rest)
          else
            ConsPairs(stars, keys[0], cell.value, rest);
            Success([(keys[0], cell.value)] + rest)
  }

  predicate AllSucceed(blocks: seq<Result<seq<string>>>) {
    forall i :: 0 <= i < |blocks| ==> blocks[i].Success?
  }

  lemma AllSucceedCons(blocks: seq<Result<seq<string>>>)
    requires |blocks| > 0
    ensures AllSucceed(blocks) <==> blocks[0].Success? && AllSucceed(blocks[1..])
  {
    assert forall i :: 1 <= i < |blocks| ==> blocks[i] == blocks[1..][i - 1];
  }

  /** Prepending a pair whose star sits in its cell keeps every pair so. */
  lemma ConsPairs(stars: seq<Star>, k: string, s: Star, rest: seq<(string, Star)>)
    requires s in stars && s.key == k
    requires forall i :: 0 <= i < |rest| ==> rest[i].1 in stars && rest[i].1.key == rest[i].0
    ensures var out := [(k, s)] + rest;
      forall i :: 0 <= i < |out| ==> out[i].1 in stars && out[i].1.key == out[i].0
  {
    var out := [(k, s)] + rest;
    assert forall i :: 1 <= i < |out| ==> out[i] == rest[i - 1];
  }

  /** When every key is occupied, the run keeps one pair per key, in the
      order of the keys. */
  lemma {:induction false} ThinKeysCovers(stars: seq<Star>, keys: seq<string>, blocks: seq<Result<seq<string>>>)
    requires |blocks| == |keys| && ThinKeys(stars, keys, blocks).Success?
    requires forall k :: k in keys ==> k in Keys(stars)
    ensures CellKeys(ThinKeys(stars, keys, blocks).value) == keys
  {
    if |keys| > 0 {
      var cell := ThinCell(stars, keys[0], blocks[0]);
      var tail := ThinKeys(stars, keys[1..], blocks[1..]);
      assert keys[0] in keys;
      assert cell.Success? && cell.value.Some?;
      assert tail.Success?;
      var rest := tail.value;
      assert forall k :: k in keys[1..] ==> k in keys;
      ThinKeysCovers(stars, keys[1..], blocks[1..]);
      ConsCellKeys(keys[0], cell.value.value, rest, ThinKeys(stars, keys, blocks).value);
      assert keys == [keys[0]] + keys[1..];
    }
  }

  lemma ConsCellKeys(k: string, s: Star, rest: seq<(string, Star)>, out: seq<(string, Star)>)
    requires out == [(k, s)] + rest
    ensures CellKeys(out) == [k] + CellKeys(rest)
  {
    assert out[1..] == rest;
  }

  /** `get_neighbor_keys` of every key. */
  function Blocks(keys: seq<string>): (blocks: seq<Result<seq<string>>>)
    ensures |blocks| == |keys| && forall i :: 0 <= i < |keys| ==> blocks[i] == NeighborKeys(keys[i])
  {
    MapSeq(keys, NeighborKeys)
  }

  /** The whole thinning pass over a catalogue. */
  function Thin(stars: seq<Star>): (r: Result<seq<(string, Star)>>)
    ensures r.Success? <==> forall k :: k in Keys(stars) ==> NeighborKeys(k).Success?
    ensures r.Success? ==> forall i :: 0 <= i < |r.value| ==>
              r.value[i].1 in stars && r.value[i].1.key == r.value[i].0
  {
    var keys := Unique(Keys(stars));
    var blocks := Blocks(keys);
    assert AllSucceed(blocks) <==> (forall k :: k in Keys(stars) ==> NeighborKeys(k).Success?) by {
      if AllSucceed(blocks) {
        forall k | k in Keys(stars) ensures NeighborKeys(k).Success? {
          assert k in keys;
          var i :| 0 <= i < |keys| && keys[i] == k;
          assert blocks[i] == NeighborKeys(k);
        }
      }
    }
    ThinKeys(stars, keys, blocks)
  }

  /** The cells of the output are the distinct keys of the catalogue in
      order of first appearance. */
  lemma ThinCells(stars: seq<Star>)
    requires Thin(stars).Success?
    ensures CellKeys(Thin(stars).value) == Unique(Keys(stars))
  {
    var keys := Unique(Keys(stars));
    ThinKeysCovers(stars, keys, Blocks(keys));
  }

  // ---------------------------------------------------------------- properties

  /** One star per distinct key: no cell appears twice in the output, every
      occupied cell appears, and cells come in first-appearance order. */
  lemma OnePerCell(stars: seq<Star>, i: nat, j: nat)
    requires Thin(stars).Success?
    requires i < j < |Thin(stars).value|
    ensures var out := Thin(stars).value;
      out[i].0 != out[j].0 && FirstIndex(Keys(stars), out[i].0) < FirstIndex(Keys(stars), out[j].0)
  {
    var out := Thin(stars).value;
    var u := Unique(Keys(stars));
    ThinCells(stars);
    assert out[i].0 == u[i] && out[j].0 == u[j];
    UniqueOrder(Keys(stars), i, j);
  }

  /** The kept star is a rarest one of its cell: no star of the same cell has
      a rarity above it. */
  lemma KeepsRarest(stars: seq<Star>, key: string, block: seq<string>, s: Star)
    requires ThinCell(stars, key, Success(block)).value.Some?
    requires s in stars && s.key == key
    ensures var m := NeighbourCounts(stars, block);
      Rarity(m, Combo(s)) <= Rarity(m, Combo(ThinCell(stars, key, Success(block)).value.value))
  {
    var m := NeighbourCounts(stars, block);
    var local := Filter(stars, (t: Star) => t.key == key);
    assert s in local;
    assert ThinCell(stars, key, Success(block)).value.value == Rarest(local, m);
  }

  /** Among stars whose combos are counted, the kept one has the smallest
      neighbourhood count. */
  lemma KeepsLeastCommon(stars: seq<Star>, key: string, block: seq<string>, s: Star)
    requires ThinCell(stars, key, Success(block)).value.Some?
    requires s in stars && s.key == key
    requires var m := NeighbourCounts(stars, block);
      CountOf(m, Combo(s)) > 0 && CountOf(m, Combo(ThinCell(stars, key, Success(block)).value.value)) > 0
    ensures var m := NeighbourCounts(stars, block);
      CountOf(m, Combo(ThinCell(stars, key, Success(block)).value.value)) <= CountOf(m, Combo(s))
  {
    var m := NeighbourCounts(stars, block);
    var best := ThinCell(stars, key, Success(block)).value.value;
    KeepsRarest(stars, key, block, s);
    RarityOrder(m, Combo(s), Combo(best));
  }

  /** For a key `encode_2d` produced, the block contains the key itself, so
      every star of the cell counts its own combo: the count is at least 1
      and the rarity is exactly 1/count. */
  lemma CentreCounted(stars: seq<Star>, key: string, g: (int, int), block: seq<string>, s: Star)
    requires Decode2D(key) == Success(g) && Encode2D(g.0, g.1) == Success(key)
    requires NeighborKeys(key) == Success(block)
    requires s in stars && s.key == key
    ensures var m := NeighbourCounts(stars, block);
      CountOf(m, Combo(s)) >= 1 && Rarity(m, Combo(s)) * CountOf(m, Combo(s)) as real == 1.0
  {
    CentreIsKey(key);
    assert block[4] == key;
    CountsInclude(stars, block, s);
  }

  /** A star whose key is in the block counts towards its own combo. */
  lemma CountsInclude(stars: seq<Star>, block: seq<string>, s: Star)
    requires s in stars && s.key in block
    ensures CountOf(NeighbourCounts(stars, block), Combo(s)) >= 1
  {
    var inBlock := Filter(stars, (t: Star) => t.key in block);
    assert s in inBlock;
    var combos := MapSeq(inBlock, Combo);
    var k :| 0 <= k < |inBlock| && inBlock[k] == s;
    assert combos[k] == Combo(s);
  }

  /** The same for a cell given by coordinates in the unsigned 64-bit range. */
  lemma CanonicalKeyIsCentre(x: int, y: int)
    requires 0 <= x < Two64 && 0 <= y < Two64
    ensures var key := Encode2D(x, y).value;
      Decode2D(key) == Success((x, y)) &&
      Encode2D(Decode2D(key).value.0, Decode2D(key).value.1) == Success(key)
  {
    RoundTrip2D(x, y);
  }
}
