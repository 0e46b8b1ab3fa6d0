/** The static tables the system generator draws from: planetary zones,
    planet classes, star images, trade goods, asteroid kinds and minables.
    Only the fields the generator reads are kept. */
module SkyData {
  import opened Common
  import opened Text
  import Catalog

  // ---------------------------------------------------------------- zones

  /** A formation zone: its distance band in AU, the materials that
      condense there, the caps per planet category, its processing rank and
      its mean number of major moons. */
  datatype Zone = Zone(name: string, dmin: real, dmax: real, materials: seq<string>,
                       maxTerrestrial: nat, maxGas: nat, maxIce: nat, order: nat, moons: real)

  /** The zones in the table's own (insertion) order. */
  function Zones(): seq<Zone> {
    [ Zone("inner_rocky_zone", 0.3, 0.7, ["silicon", "iron", "nickel"], 6, 0, 0, 7, 0.0),
      Zone("goldilocks_zone", 0.7, 1.5, ["silicon", "iron", "water"], 4, 0, 0, 6, 1.2),
      Zone("asteroid_belt_zone", 1.5, 4.0, ["silicon", "iron"], 0, 0, 0, 8, 0.0),
      Zone("snow_line_zone", 3.0, 5.0, ["silicon", "water"], 1, 1, 0, 1, 6.0),
      Zone("outer_gas_giant_zone", 5.0, 15.0, ["metal", "ice"], 0, 2, 1, 2, 5.0),
      Zone("ice_giant_zone", 15.0, 35.0, ["water", "metal"], 0, 0, 3, 3, 4.0),
      Zone("kuiper_belt_zone", 35.0, 100.0, ["ice", "tungsten"], 0, 0, 1, 4, 3.0) ]
  }

  const AsteroidBelt: string := "asteroid_belt_zone"

  /** `sorted(planetary_zones.items(), key=processing_order)`. */
  function ZonesByOrder(): seq<Zone> {
    var z := Zones();
    [z[3], z[4], z[5], z[6], z[1], z[0], z[2]]
  }

  /** The processing ranks are pairwise distinct, so sorting by them has
      exactly one outcome. */
  lemma ZoneOrdersDistinct()
    ensures forall i, j :: 0 <= i < j < |Zones()| ==> Zones()[i].order != Zones()[j].order
  {
  }

  /** `ZonesByOrder` is that outcome: every zone once, with strictly rising
      rank, the snow line first and the asteroid belt last. */
  lemma ZonesByOrderIsSorted()
    ensures |ZonesByOrder()| == |Zones()| && forall i :: 0 <= i < |Zones()| ==> Zones()[i] in ZonesByOrder()
    ensures forall i :: 0 < i < |ZonesByOrder()| ==> ZonesByOrder()[i - 1].order < ZonesByOrder()[i].order
    ensures MapSeq(ZonesByOrder(), (z: Zone) => z.name) ==
            ["snow_line_zone", "outer_gas_giant_zone", "ice_giant_zone", "kuiper_belt_zone",
             "goldilocks_zone", "inner_rocky_zone", "asteroid_belt_zone"]
  {
    ZonesByOrderPermutes();
    ZonesByOrderRises();
  }

  lemma ZonesByOrderPermutes()
    ensures |ZonesByOrder()| == |Zones()| && forall i :: 0 <= i < |Zones()| ==> Zones()[i] in ZonesByOrder()
  {
  }

  lemma ZonesByOrderRises()
    ensures forall i :: 0 < i < |ZonesByOrder()| ==> ZonesByOrder()[i - 1].order < ZonesByOrder()[i].order
  {
  }

  /** In processing order the asteroid belt comes last and only there. */
  lemma BeltLast()
    ensures |ZonesByOrder()| == 7 && ZonesByOrder()[6].name == AsteroidBelt
    ensures forall j :: 0 <= j < 6 ==> ZonesByOrder()[j].name != AsteroidBelt
  {
  }

  /** Every zone's band is non-empty, and the asteroid belt (1.5, 4.0)
      overlaps the snow line (3.0, 5.0). */
  lemma ZoneBands()
    ensures forall i :: 0 <= i < |Zones()| ==> Zones()[i].dmin < Zones()[i].dmax
    ensures Zones()[2].name == AsteroidBelt && Zones()[3].name == "snow_line_zone"
    ensures Zones()[2].dmin < Zones()[3].dmax && Zones()[3].dmin < Zones()[2].dmax
  {
  }

  /** The asteroid belt spawns nothing: all three caps are zero. */
  lemma AsteroidBeltCaps(z: Zone)
    requires z in Zones() && z.name == AsteroidBelt
    ensures z.maxTerrestrial == 0 && z.maxGas == 0 && z.maxIce == 0
  {
  }

  // ---------------------------------------------------------------- planet classes

  /** A planet class: its orbital band in AU, sprites, base habitability and
      dominant materials. */
  datatype PlanetClass = PlanetClass(id: string, omin: real, omax: real, sprites: seq<string>,
                                     habitability: nat, materials: seq<string>)

  /** The planet classes in the table's own order. */
  function PlanetClasses(): seq<PlanetClass> {
    [ PlanetClass("A", 0.1, 0.7, ["planet/lava0", "planet/lava1", "planet/lava2"], 500, ["silicon", "iron", "aluminum"]),
      PlanetClass("B", 0.1, 0.7, ["planet/lava3"], 500, ["silicon", "iron", "titanium"]),
      PlanetClass("C", 0.8, 1.5, ["planet/rock12", "planet/rock13", "planet/rock14"], 1000, ["gold", "platinum", "neodymium"]),
      PlanetClass("D", 0.7, 4.0, ["planet/rock0", "planet/rock1", "planet/rock2", "planet/dust0"], 600, ["silicon", "iron", "aluminum"]),
      PlanetClass("E", 5.0, 100.0, ["planet/gas8", "planet/gas9", "planet/cloud5"], 100, ["uranium", "platinum", "silver"]),
      PlanetClass("F", 0.7, 1.5, ["planet/cloud0", "planet/cloud1", "planet/cloud4"], 1000, ["silicon", "copper", "titanium"]),
      PlanetClass("G", 0.7, 1.5, ["planet/forest0", "planet/forest1", "planet/forest3", "planet/earth0"], 5000, ["silicon", "iron", "aluminum", "copper"]),
      PlanetClass("H", 0.7, 1.7, ["planet/desert0", "planet/desert1", "planet/desert2"], 3000, ["silicon", "iron", "titanium"]),
      PlanetClass("I", 15.0, 35.0, ["planet/gas0", "planet/gas1", "planet/gas4"], 0, ["iron", "silicon"]),
      PlanetClass("J1", 4.0, 15.0, ["planet/gas2", "planet/gas3", "planet/gas5"], 0, ["iron", "silicon"]),
      PlanetClass("J2", 5.0, 15.0, ["planet/gas6", "planet/gas7"], 0, ["iron", "silicon"]),
      PlanetClass("K", 1.5, 4.0, ["planet/rock10", "planet/rock11", "planet/desert3"], 3000, ["silicon", "iron", "aluminum"]),
      PlanetClass("L", 0.7, 1.5, ["planet/forest2", "planet/ocean0", "planet/earth2"], 4000, ["silicon", "iron", "copper"]),
      PlanetClass("M", 0.7, 1.5, ["planet/earth1", "planet/earth2", "planet/ocean2"], 5000, ["silicon", "iron", "aluminum", "copper"]),
      PlanetClass("N", 0.7, 4.0, ["planet/rock8", "planet/cloud5", "planet/cloud6"], 500, ["silicon", "iron", "titanium"]),
      PlanetClass("O", 0.7, 1.5, ["planet/ocean1", "planet/ocean2", "planet/ice6"], 4000, ["silicon", "iron", "aluminum"]),
      PlanetClass("P", 4.0, 100.0, ["planet/ice0", "planet/ice4", "planet/ice8"], 1000, ["tungsten", "lead", "silicon"]),
      PlanetClass("Q", 0.7, 4.0, ["planet/rock15", "planet/desert3", "planet/rock7"], 200, ["gold", "silver", "neodymium"]),
      PlanetClass("R", 1.0, 4.0, ["planet/station/station0", "planet/station/station1", "planet/station/station2"], 5000, ["titanium", "aluminum", "copper"]),
      PlanetClass("S", 0.7, 4.0, ["planet/rock5", "planet/rock6", "planet/rock4"], 2100, ["silicon", "iron", "aluminum", "titanium"]),
      PlanetClass("T1", 5.0, 100.0, ["planet/gas4", "planet/gas9", "planet/gas3"], 0, ["iron", "silicon"]),
      PlanetClass("T2", 5.0, 100.0, ["planet/gas8", "planet/star/m0", "planet/gas9"], 0, ["iron", "silicon"]),
      PlanetClass("U", 0.1, 100.0, ["planet/dust3", "planet/dust7", "planet/dust2"], 100, ["silicon", "iron"]),
      PlanetClass("V", 0.1, 0.7, ["planet/lava0", "planet/lava1", "planet/lava3"], 500, ["silicon", "iron", "titanium"]),
      PlanetClass("W", 4.0, 100.0, ["planet/ice1", "planet/ice5", "planet/ice7"], 600, ["tungsten", "lead", "silicon"]),
      PlanetClass("Y", 0.1, 0.7, ["planet/lava3", "planet/rock9", "planet/cloud7"], 500, ["uranium", "platinum", "silver"]),
      PlanetClass("Z", 0.1, 100.0, ["planet/dust0", "planet/dust1", "planet/dust4"], 0, ["silicon", "iron"]) ]
  }

  /** A class table is usable by the generator: ids are distinct, every
      orbital band is non-empty and every class has a sprite. */
  predicate WellFormedClasses(classes: seq<PlanetClass>) {
    && NoDups(MapSeq(classes, (c: PlanetClass) => c.id))
    && (forall c :: c in classes ==> c.omin < c.omax && |c.sprites| > 0)
  }

  lemma PlanetClassesWellFormed()
    ensures WellFormedClasses(PlanetClasses())
  {
    ClassIdsAscending();
    ClassBands();
    AscendingNoDups(MapSeq(PlanetClasses(), (c: PlanetClass) => c.id));
  }

  lemma ClassIdsAscending()
    ensures forall i :: 0 < i < |PlanetClasses()| ==> StrLess(PlanetClasses()[i - 1].id, PlanetClasses()[i].id)
  {
  }

  lemma ClassBands()
    ensures forall i :: 0 <= i < |PlanetClasses()| ==>
              PlanetClasses()[i].omin < PlanetClasses()[i].omax && |PlanetClasses()[i].sprites| > 0
  {
  }

  /** The classes whose base habitability reaches 3000 are exactly
      G, H, K, L, M, O and R. */
  lemma HabitableClasses()
    ensures forall i :: 0 <= i < |PlanetClasses()| ==>
              (PlanetClasses()[i].habitability >= 3000 <==> PlanetClasses()[i].id in {"G", "H", "K", "L", "M", "O", "R"})
  {
  }

  // ---------------------------------------------------------------- stars

  /** A star image row: spectral class, size type, sprites and base
      habitability. */
  datatype StarRow = StarRow(cls: string, kind: string, sprites: seq<string>, habitability: nat)

  function StarImage(): seq<StarRow> {
    [ StarRow("O", "giant", ["star/station0"], 100),
      StarRow("O", "normal", ["star/station0"], 100),
      StarRow("O", "dwarf", ["star/station0"], 100),
      StarRow("B", "giant", ["star/station0"], 200),
      StarRow("B", "normal", ["star/station0"], 200),
      StarRow("B", "dwarf", ["star/station0"], 200),
      StarRow("A", "giant", ["star/station0"], 300),
      StarRow("A", "normal", ["star/station0"], 300),
      StarRow("A", "dwarf", ["star/station0"], 300),
      StarRow("F", "giant", ["star/planet0"], 600),
      StarRow("F", "normal", ["star/station0"], 600),
      StarRow("F", "dwarf", ["star/station0"], 600),
      StarRow("G", "giant", ["star/station0"], 1000),
      StarRow("G", "normal", ["star/station0"], 1000),
      StarRow("G", "dwarf", ["star/station0"], 1000),
      StarRow("K", "giant", ["star/station0"], 800),
      StarRow("K", "normal", ["star/station0"], 800),
      StarRow("K", "dwarf", ["star/station0"], 800),
      StarRow("M", "giant", ["star/station0"], 500),
      StarRow("M", "normal", ["star/station0"], 500),
      StarRow("M", "dwarf", ["star/station0"], 500) ]
  }

  /** Row `i` is the class `i / 3` (in O B A F G K M order) and the size
      type `i % 3` (giant, normal, dwarf), so each (class, type) pair has
      exactly one row, and every row has a sprite. */
  lemma StarImageLayout()
    ensures |StarImage()| == 21
    ensures forall i :: 0 <= i < 21 ==>
              StarImage()[i].cls == Catalog.ClassLetters[i / 3] &&
              StarImage()[i].kind == Catalog.SubClasses[i % 3] &&
              |StarImage()[i].sprites| > 0
  {
    StarImageByClass();
    forall i | 0 <= i < 21
      ensures StarImage()[i].cls == Catalog.ClassLetters[i / 3]
      ensures StarImage()[i].kind == Catalog.SubClasses[i % 3]
      ensures |StarImage()[i].sprites| > 0
    {
      assert i == 3 * (i / 3) + i % 3;
    }
  }

  lemma StarImageByClass()
    ensures |StarImage()| == 21
    ensures forall k, t :: 0 <= k < 7 && 0 <= t < 3 ==>
              StarImage()[3 * k + t].cls == Catalog.ClassLetters[k] &&
              StarImage()[3 * k + t].kind == Catalog.SubClasses[t] &&
              |StarImage()[3 * k + t].sprites| > 0
  {
    StarImageHotRows();
    StarImageCoolRows();
  }

  /** Classes O, B, A and F. */
  lemma StarImageHotRows()
    ensures |StarImage()| == 21
    ensures forall k, t :: 0 <= k < 4 && 0 <= t < 3 ==>
              StarImage()[3 * k + t].cls == Catalog.ClassLetters[k] &&
              StarImage()[3 * k + t].kind == Catalog.SubClasses[t] &&
              |StarImage()[3 * k + t].sprites| > 0
  {
  }

  /** Classes G, K and M. */
  lemma StarImageCoolRows()
    ensures forall k, t :: 4 <= k < 7 && 0 <= t < 3 ==>
              StarImage()[3 * k + t].cls == Catalog.ClassLetters[k] &&
              StarImage()[3 * k + t].kind == Catalog.SubClasses[t] &&
              |StarImage()[3 * k + t].sprites| > 0
  {
  }

  /** Base habitability depends on the spectral class only. */
  lemma StarHabitabilityByClass()
    ensures forall i, j :: 0 <= i < 21 && 0 <= j < 21 && StarImage()[i].cls == StarImage()[j].cls ==>
              StarImage()[i].habitability == StarImage()[j].habitability
  {
    StarImageLayout();
    StarHabitabilityRows();
    ClassLettersDistinct();
  }

  lemma StarHabitabilityRows()
    ensures forall i :: 0 <= i < 21 ==> StarImage()[i].habitability == [100, 200, 300, 600, 1000, 800, 500][i / 3]
  {
  }

  lemma ClassLettersDistinct()
    ensures forall a, b :: 0 <= a < 7 && 0 <= b < 7 && Catalog.ClassLetters[a] == Catalog.ClassLetters[b] ==> a == b
  {
  }

  // ---------------------------------------------------------------- goods

  function TradeGoods(): seq<string> {
    ["Clothing", "Electronics", "Equipment", "Food", "Heavy Metals", "Industrial",
     "Luxury Goods", "Medical", "Metal", "Plastic"]
  }

  function AsteroidTypes(): seq<string> {
    ["small rock", "medium rock", "large rock", "small metal", "medium metal", "large metal"]
  }

  function ValidMinables(): seq<string> {
    ["aluminum", "copper", "gold", "iron", "lead", "neodymium", "platinum", "silicon",
     "silver", "titanium", "tungsten", "uranium"]
  }

  /** Ten goods, already in ascending order (so `sorted` leaves them as they
      are and they are distinct); exactly the fifth and seventh, "Heavy
      Metals" and "Luxury Goods", contain a space. */
  lemma TradeGoodsShape()
    ensures |TradeGoods()| == 10 && Ascending(TradeGoods()) && NoDups(TradeGoods())
    ensures TradeGoods()[4] == "Heavy Metals" && TradeGoods()[6] == "Luxury Goods"
    ensures forall i :: 0 <= i < |TradeGoods()| ==> (' ' in TradeGoods()[i] <==> i == 4 || i == 6)
  {
    TradeGoodsAscending(0, 5);
    TradeGoodsAscending(5, 10);
    AscendingNoDups(TradeGoods());
  }

  lemma TradeGoodsAscending(lo: nat, hi: nat)
    requires (lo, hi) in {(0, 5), (5, 10)}
    ensures forall i :: lo < i < hi ==> StrLess(TradeGoods()[i - 1], TradeGoods()[i])
    ensures lo > 0 ==> StrLess(TradeGoods()[lo - 1], TradeGoods()[lo])
  {
  }

  /** Twelve minables, already ascending and so distinct. */
  lemma ValidMinablesShape()
    ensures |ValidMinables()| == 12 && Ascending(ValidMinables()) && NoDups(ValidMinables())
  {
    MinablesAscending(0, 4);
    MinablesAscending(4, 8);
    MinablesAscending(8, 12);
    AscendingNoDups(ValidMinables());
  }

  lemma MinablesAscending(lo: nat, hi: nat)
    requires (lo, hi) in {(0, 4), (4, 8), (8, 12)}
    ensures forall i :: lo < i < hi ==> StrLess(ValidMinables()[i - 1], ValidMinables()[i])
    ensures lo > 0 ==> StrLess(ValidMinables()[lo - 1], ValidMinables()[lo])
  {
  }
}
