/** `generate_planets_from_zones`: zone by zone in processing order (the
    asteroid belt skipped), the planet classes whose orbital band meets the
    zone's scaled band and whose category the zone admits are compatible;
    per category a random count up to the cap is drawn, and each planet gets
    a random compatible class of that category and a random distance in the
    band. */
module Planets {
  import opened Common
  import opened SkyData
  import opened Rng

  // ---------------------------------------------------------------- categories

  datatype Category = Terrestrial | GasGiant | IceGiant

  /** The class ids listed under each category. */
  datatype Lists = Lists(terrestrial: seq<string>, gas: seq<string>, ice: seq<string>)

  /** The generator's own lists; E and T2 are in none of them. */
  const CategoryLists: Lists := Lists(
    ["A", "B", "C", "D", "F", "G", "H", "K", "L", "M", "N", "O", "P", "Q", "R", "S", "U", "V", "W", "Y", "Z"],
    ["J1", "J2", "T1"],
    ["I"])

  function Members(lists: Lists, cat: Category): seq<string> {
    match cat
    case Terrestrial => lists.terrestrial
    case GasGiant => lists.gas
    case IceGiant => lists.ice
  }

  /** A zone's cap for a category. */
  function Cap(z: Zone, cat: Category): nat {
    match cat
    case Terrestrial => z.maxTerrestrial
    case GasGiant => z.maxGas
    case IceGiant => z.maxIce
  }

  /** E and T2 are listed under no category. */
  lemma Unlisted(cat: Category)
    ensures "E" !in Members(CategoryLists, cat) && "T2" !in Members(CategoryLists, cat)
  {
    var m := Members(CategoryLists, cat);
    assert forall i :: 0 <= i < |m| ==> m[i] != "E" && m[i] != "T2";
  }

  // ---------------------------------------------------------------- compatibility

  /** The class's orbital band meets the band [lo, hi]. */
  predicate Overlaps(c: PlanetClass, lo: real, hi: real) {
    c.omin <= hi && c.omax >= lo
  }

  /** The `if`/`elif` chain: the class's category, tried terrestrial first,
      must have a positive cap in the zone, whose band is [z.dmin, z.dmax]. */
  predicate Admits(lists: Lists, c: PlanetClass, z: Zone) {
    && Overlaps(c, z.dmin, z.dmax)
    && if c.id in lists.terrestrial then z.maxTerrestrial > 0
       else if c.id in lists.gas then z.maxGas > 0
       else if c.id in lists.ice then z.maxIce > 0
       else false
  }

  /** The admitted classes, in table order. */
  function Admitted(lists: Lists, classes: seq<PlanetClass>, z: Zone): (r: seq<PlanetClass>)
    ensures forall i :: 0 <= i < |r| ==> r[i] in classes && Admits(lists, r[i], z)
  {
    if |classes| == 0 then []
    else
      var rest := Admitted(lists, classes[1..], z);
      if Admits(lists, classes[0], z) then [classes[0]] + rest else rest
  }

  /** Every admitted class of the table is kept: `Admitted` loses nothing. */
  lemma {:induction false} AdmittedComplete(lists: Lists, classes: seq<PlanetClass>, z: Zone, c: PlanetClass)
    requires c in classes && Admits(lists, c, z)
    ensures c in Admitted(lists, classes, z)
  {
    if classes[0] != c {
      AdmittedComplete(lists, classes[1..], z, c);
    }
  }

  /** `compatible_classes`: the ids of the admitted classes, in table order. */
  function Compatible(lists: Lists, classes: seq<PlanetClass>, z: Zone): (r: seq<string>)
    ensures |r| == |Admitted(lists, classes, z)|
    ensures forall i :: 0 <= i < |r| ==> r[i] == Admitted(lists, classes, z)[i].id
  {
    MapSeq(Admitted(lists, classes, z), (c: PlanetClass) => c.id)
  }

  /** A class comes from the table and the zone admits it. */
  predicate FromTable(lists: Lists, id: string, z: Zone, classes: seq<PlanetClass>) {
    exists c :: c in classes && c.id == id && Admits(lists, c, z)
  }

  /** Every compatible id names a table class the zone admits, and every
      such class's id is compatible. */
  lemma CompatibleMeans(lists: Lists, classes: seq<PlanetClass>, z: Zone, id: string)
    ensures id in Compatible(lists, classes, z) <==> FromTable(lists, id, z, classes)
  {
    var a, r := Admitted(lists, classes, z), Compatible(lists, classes, z);
    if id in r {
      var i :| 0 <= i < |r| && r[i] == id;
      assert a[i] in classes && a[i].id == id && Admits(lists, a[i], z);
    }
    if FromTable(lists, id, z, classes) {
      var c :| c in classes && c.id == id && Admits(lists, c, z);
      AdmittedComplete(lists, classes, z, c);
      var i :| 0 <= i < |a| && a[i] == c;
      assert r[i] == id;
    }
  }

  /** The compatible ids of one category, in order. */
  function Pool(lists: Lists, compatible: seq<string>, cat: Category): (r: seq<string>)
    ensures forall i :: 0 <= i < |r| ==> r[i] in compatible && r[i] in Members(lists, cat)
    ensures |r| <= |compatible|
  {
    if |compatible| == 0 then []
    else
      var rest := Pool(lists, compatible[1..], cat);
      if compatible[0] in Members(lists, cat) then [compatible[0]] + rest else rest
  }

  /** The pool keeps every compatible id of its category. */
  lemma {:induction false} PoolComplete(lists: Lists, compatible: seq<string>, cat: Category, id: string)
    requires id in compatible && id in Members(lists, cat)
    ensures id in Pool(lists, compatible, cat)
  {
    if compatible[0] != id {
      PoolComplete(lists, compatible[1..], cat, id);
    }
  }

  // ---------------------------------------------------------------- spawning

  datatype Planet = Planet(cls: string, distance: real)

  /** `for _ in range(k): if compatible_classes: append(choice(pool),
      uniform(lo, hi))`. */
  function SpawnMany(src: Source, g: Cursor, k: nat, any: bool, pool: seq<string>, lo: real, hi: real)
    : (d: Draw<seq<Planet>>)
    requires k > 0 && any ==> |pool| > 0
    decreases k
    ensures |d.value| == (if any then k else 0)
    ensures forall i :: 0 <= i < |d.value| ==> d.value[i].cls in pool
    ensures lo <= hi ==> forall i :: 0 <= i < |d.value| ==> lo <= d.value[i].distance <= hi
  {
    if k == 0 || !any then Draw([], g)
    else
      var c := Choice(src, g, pool);
      var x := Uniform(src, c.next, lo, hi);
      var rest := SpawnMany(src, x.next, k - 1, any, pool, lo, hi);
      Draw([Planet(c.value, x.value)] + rest.value, rest.next)
  }

  /** One category of one zone: `randint(0, min(cap, len(pool)))` planets.
      The `if compatible_classes` guard never skips: a positive count means a
      non-empty pool, so exactly the drawn number of planets appear. */
  function SpawnCategory(lists: Lists, src: Source, g: Cursor, z: Zone, compatible: seq<string>, cat: Category)
    : (d: Draw<seq<Planet>>)
    ensures |d.value| == RandInt(src, g, 0, Min(Cap(z, cat), |Pool(lists, compatible, cat)|)).value
    ensures |d.value| <= Min(Cap(z, cat), |Pool(lists, compatible, cat)|)
    ensures forall i :: 0 <= i < |d.value| ==> d.value[i].cls in Pool(lists, compatible, cat)
    ensures z.dmin <= z.dmax ==> forall i :: 0 <= i < |d.value| ==> z.dmin <= d.value[i].distance <= z.dmax
  {
    var pool := Pool(lists, compatible, cat);
    var n := RandInt(src, g, 0, Min(Cap(z, cat), |pool|));
    SpawnMany(src, n.next, n.value, |compatible| > 0, pool, z.dmin, z.dmax)
  }

  /** What one zone produced, with the zone (already scaled) and its
      compatible ids. */
  datatype Batch = Batch(zone: Zone, compatible: seq<string>,
                         terrestrial: seq<Planet>, gas: seq<Planet>, ice: seq<Planet>)

  function Spawned(b: Batch, cat: Category): seq<Planet> {
    match cat
    case Terrestrial => b.terrestrial
    case GasGiant => b.gas
    case IceGiant => b.ice
  }

  /** The guarantees of one category of a batch, for every draw: at most
      the cap and at most the number of compatible classes of the category;
      every planet has a compatible class of the category and a distance in
      the band (when the band is not reversed). */
  predicate CategoryBounded(lists: Lists, b: Batch, cat: Category) {
    var ps, pool := Spawned(b, cat), Pool(lists, b.compatible, cat);
    && |ps| <= Min(Cap(b.zone, cat), |pool|)
    && (forall i :: 0 <= i < |ps| ==> ps[i].cls in pool)
    && (b.zone.dmin <= b.zone.dmax ==> forall i :: 0 <= i < |ps| ==> b.zone.dmin <= ps[i].distance <= b.zone.dmax)
  }

  predicate Bounded(lists: Lists, b: Batch, classes: seq<PlanetClass>) {
    && b.compatible == Compatible(lists, classes, b.zone)
    && CategoryBounded(lists, b, Terrestrial) && CategoryBounded(lists, b, GasGiant) && CategoryBounded(lists, b, IceGiant)
  }

  /** One zone: the compatible ids, then terrestrial, gas and ice planets
      in that order. */
  function SpawnZone(lists: Lists, src: Source, g: Cursor, z: Zone, classes: seq<PlanetClass>): (d: Draw<Batch>)
    ensures d.value.zone == z
    ensures Bounded(lists, d.value, classes)
  {
    var compatible := Compatible(lists, classes, z);
    var t := SpawnCategory(lists, src, g, z, compatible, Terrestrial);
    var gg := SpawnCategory(lists, src, t.next, z, compatible, GasGiant);
    var i := SpawnCategory(lists, src, gg.next, z, compatible, IceGiant);
    var b := Batch(z, compatible, t.value, gg.value, i.value);
    assert CategoryBounded(lists, b, Terrestrial);
    assert CategoryBounded(lists, b, GasGiant);
    assert CategoryBounded(lists, b, IceGiant);
    Draw(b, i.next)
  }

  // ---------------------------------------------------------------- zones

  /** A zone with its band multiplied by the star's distance scale. */
  function Scaled(z: Zone, scale: real): (r: Zone) {
    z.(dmin := z.dmin * scale, dmax := z.dmax * scale)
  }

  /** A positive scale keeps a band's orientation. */
  lemma ScaledBand(z: Zone, scale: real)
    requires 0.0 < scale && z.dmin <= z.dmax
    ensures Scaled(z, scale).dmin <= Scaled(z, scale).dmax
  {
    var w := z.dmax - z.dmin;
    assert z.dmax * scale - z.dmin * scale == w * scale;
  }

  predicate NotBelt(z: Zone) { z.name != AsteroidBelt }

  /** The zones that are processed: all but the asteroid belt, in order. */
  function Visited(zones: seq<Zone>): (r: seq<Zone>)
    ensures forall i :: 0 <= i < |r| ==> r[i] in zones && NotBelt(r[i])
  {
    if |zones| == 0 then []
    else if NotBelt(zones[0]) then [zones[0]] + Visited(zones[1..])
    else Visited(zones[1..])
  }

  /** Every zone other than the belt is visited. */
  lemma {:induction false} VisitedComplete(zones: seq<Zone>, z: Zone)
    requires z in zones && NotBelt(z)
    ensures z in Visited(zones)
  {
    if zones[0] != z {
      VisitedComplete(zones[1..], z);
    }
  }

  /** The zones in the given order, skipping the asteroid belt. */
  function SpawnZones(lists: Lists, src: Source, g: Cursor, zones: seq<Zone>, classes: seq<PlanetClass>)
    : (d: Draw<seq<Batch>>)
    decreases |zones|
    ensures |d.value| == |Visited(zones)|
  {
    if |zones| == 0 then Draw([], g)
    else if !NotBelt(zones[0]) then SpawnZones(lists, src, g, zones[1..], classes)
    else
      var b := SpawnZone(lists, src, g, zones[0], classes);
      var rest := SpawnZones(lists, src, b.next, zones[1..], classes);
      Draw([b.value] + rest.value, rest.next)
  }

  /** The i-th batch comes from the i-th zone that is not the asteroid belt
      and keeps the batch guarantees. */
  lemma {:induction false} SpawnZonesBatch(lists: Lists, src: Source, g: Cursor, zones: seq<Zone>,
                                           classes: seq<PlanetClass>, i: nat)
    requires i < |SpawnZones(lists, src, g, zones, classes).value|
    decreases |zones|
    ensures var b := SpawnZones(lists, src, g, zones, classes).value[i];
            && i < |Visited(zones)| && b.zone == Visited(zones)[i]
            && Bounded(lists, b, classes)
  {
    if !NotBelt(zones[0]) {
      SpawnZonesBatch(lists, src, g, zones[1..], classes, i);
    } else if i > 0 {
      var b := SpawnZone(lists, src, g, zones[0], classes);
      SpawnZonesBatch(lists, src, b.next, zones[1..], classes, i - 1);
    }
  }

  /** All planets of the batches, zone by zone and, within a zone,
      terrestrial, gas and ice. */
  function Flatten(bs: seq<Batch>): (r: seq<Planet>)
    ensures |r| == Total(bs)
  {
    if |bs| == 0 then [] else bs[0].terrestrial + bs[0].gas + bs[0].ice + Flatten(bs[1..])
  }

  /** The number of planets the batches hold. */
  function Total(bs: seq<Batch>): nat {
    if |bs| == 0 then 0 else |bs[0].terrestrial| + |bs[0].gas| + |bs[0].ice| + Total(bs[1..])
  }

  /** Every flattened planet was spawned by some batch in some category. */
  lemma {:induction false} FlattenFrom(bs: seq<Batch>, p: Planet)
    requires p in Flatten(bs)
    ensures exists i, cat :: 0 <= i < |bs| && p in Spawned(bs[i], cat)
  {
    var b := bs[0];
    if p in b.terrestrial {
      assert p in Spawned(bs[0], Terrestrial);
    } else if p in b.gas {
      assert p in Spawned(bs[0], GasGiant);
    } else if p in b.ice {
      assert p in Spawned(bs[0], IceGiant);
    } else {
      FlattenFrom(bs[1..], p);
      var i, cat :| 0 <= i < |bs[1..]| && p in Spawned(bs[1..][i], cat);
      assert p in Spawned(bs[i + 1], cat);
    }
  }

  /** `generate_planets_from_zones`, with the zones taken in processing
      order and their bands scaled; `scale` stands for
      `sqrt(1000 / max(1, habitability))`. */
  function GeneratePlanets(src: Source, g: Cursor, classes: seq<PlanetClass>, scale: real): (d: Draw<seq<Planet>>)
    ensures |d.value| == Total(SpawnZones(CategoryLists, src, g, ScaledZones(scale), classes).value)
  {
    var bs := SpawnZones(CategoryLists, src, g, ScaledZones(scale), classes);
    Draw(Flatten(bs.value), bs.next)
  }

  /** The zones in processing order, their bands scaled. */
  function ScaledZones(scale: real): (r: seq<Zone>)
    ensures |r| == |ZonesByOrder()|
    ensures forall i :: 0 <= i < |r| ==> r[i] == Scaled(ZonesByOrder()[i], scale)
  {
    MapSeq(ZonesByOrder(), (z: Zone) => Scaled(z, scale))
  }

  // ---------------------------------------------------------------- properties

  /** What one batch promises about one of its planets: the class is a table
      class the zone admits, of the category it was spawned under, never E
      or T2, and the distance lies in the zone's band when the band is not
      reversed. */
  lemma BatchPlanet(b: Batch, classes: seq<PlanetClass>, cat: Category, p: Planet)
    requires Bounded(CategoryLists, b, classes) && p in Spawned(b, cat)
    ensures FromTable(CategoryLists, p.cls, b.zone, classes)
    ensures p.cls in Members(CategoryLists, cat) && p.cls != "E" && p.cls != "T2"
    ensures b.zone.dmin <= b.zone.dmax ==> b.zone.dmin <= p.distance <= b.zone.dmax
  {
    var ps := Spawned(b, cat);
    var k :| 0 <= k < |ps| && ps[k] == p;
    assert CategoryBounded(CategoryLists, b, cat);
    assert p.cls in Pool(CategoryLists, b.compatible, cat);
    CompatibleMeans(CategoryLists, classes, b.zone, p.cls);
    Unlisted(cat);
  }

  /** A zone list whose only belt is its last entry is visited up to that
      entry. */
  lemma {:induction false} VisitedUpToBelt(zones: seq<Zone>)
    requires |zones| > 0 && !NotBelt(zones[|zones| - 1])
    requires forall i :: 0 <= i < |zones| - 1 ==> NotBelt(zones[i])
    ensures Visited(zones) == zones[..|zones| - 1]
  {
    if |zones| > 1 {
      VisitedUpToBelt(zones[1..]);
      assert zones[..|zones| - 1] == [zones[0]] + zones[1..][..|zones| - 2];
    }
  }

  /** The zone bands in processing order are non-empty. */
  lemma OrderedBands()
    ensures |ZonesByOrder()| == 7
    ensures forall j :: 0 <= j < 7 ==> ZonesByOrder()[j].dmin < ZonesByOrder()[j].dmax
  {
    ZoneBands();
  }

  /** Six zones are visited, in rising processing rank: all but the
      asteroid belt, which sorts last. */
  lemma VisitedZones(scale: real)
    ensures Visited(ScaledZones(scale)) == ScaledZones(scale)[..6]
  {
    var zs := ScaledZones(scale);
    BeltLast();
    assert forall j :: 0 <= j < 7 ==> zs[j].name == ZonesByOrder()[j].name;
    VisitedUpToBelt(zs);
  }

  /** The i-th batch of the generator comes from the i-th zone in
      processing order, scaled, and keeps the batch guarantees. */
  lemma GeneratedBatch(src: Source, g: Cursor, classes: seq<PlanetClass>, scale: real, i: nat)
    requires i < |SpawnZones(CategoryLists, src, g, ScaledZones(scale), classes).value|
    ensures var b := SpawnZones(CategoryLists, src, g, ScaledZones(scale), classes).value[i];
            && i < 6 && b.zone == Scaled(ZonesByOrder()[i], scale) && NotBelt(ZonesByOrder()[i])
            && Bounded(CategoryLists, b, classes)
  {
    SpawnZonesBatch(CategoryLists, src, g, ScaledZones(scale), classes, i);
    VisitedZones(scale);
    BeltLast();
  }

  /** Where a planet may come from: a zone other than the asteroid belt,
      whose scaled band admits the planet's class, and, when the scale is
      positive, holds the planet's distance. */
  predicate Origin(p: Planet, z: Zone, scale: real, classes: seq<PlanetClass>) {
    var band := Scaled(z, scale);
    && NotBelt(z)
    && FromTable(CategoryLists, p.cls, band, classes)
    && (0.0 < scale ==> band.dmin <= p.distance <= band.dmax)
  }

  /** Every generated planet has an origin among the zones in processing
      order, and its class is never E or T2.  The scale is positive in the
      generator, being a square root of a positive number. */
  lemma GeneratedPlanet(src: Source, g: Cursor, classes: seq<PlanetClass>, scale: real, p: Planet)
    requires p in GeneratePlanets(src, g, classes, scale).value
    ensures exists j :: 0 <= j < 6 && Origin(p, ZonesByOrder()[j], scale, classes)
    ensures p.cls != "E" && p.cls != "T2"
  {
    var bs := SpawnZones(CategoryLists, src, g, ScaledZones(scale), classes).value;
    FlattenFrom(bs, p);
    var i, cat :| 0 <= i < |bs| && p in Spawned(bs[i], cat);
    GeneratedBatch(src, g, classes, scale, i);
    var z := ZonesByOrder()[i];
    OrderedBands();
    if 0.0 < scale {
      ScaledBand(z, scale);
    }
    BatchPlanet(bs[i], classes, cat, p);
    assert Origin(p, z, scale, classes);
  }
}
