/** `generate_system`: one catalogue row becomes one system definition --
    the header (name, position, government, description, habitability,
    belt radius), asteroid fields, minables, trade prices, the three fleets
    and the objects (stars, planets with their moons, the station). */
module SystemGen {
  import opened Common
  import opened Text
  import opened SkyData
  import opened Rng
  import opened Naming
  import opened Stars
  import opened Planets
  import opened Landing
  import opened Bodies

  // ---------------------------------------------------------------- belt

  /** A draw of [1000, 3000] times a non-negative scale lies between the
      scaled ends. */
  lemma ScaleRange(v: real, scale: real)
    requires 1000.0 <= v <= 3000.0
    ensures 0.0 <= scale ==> 1000.0 * scale <= v * scale <= 3000.0 * scale
  {
    if 0.0 <= scale {
      var a, b := v - 1000.0, 3000.0 - v;
      assert 0.0 <= a * scale && 0.0 <= b * scale;
    }
  }

  /** `randint(1000, 3000) * scale`: the belt radius. */
  function BeltRadius(src: Source, g: Cursor, scale: real): (d: Draw<real>)
    ensures 0.0 <= scale ==> 1000.0 * scale <= d.value <= 3000.0 * scale
    ensures Step(g, d.next)
  {
    var k := RandInt(src, g, 1000, 3000);
    var v := k.value as real;
    ScaleRange(v, scale);
    Draw(v * scale, k.next)
  }

  // ---------------------------------------------------------------- asteroids

  datatype Asteroid = Asteroid(kind: string, count: int, speed: real)

  predicate AsteroidInRange(types: seq<string>, a: Asteroid) {
    a.kind in types && 1 <= a.count <= 50 && 1.0 <= a.speed <= 6.0
  }

  /** `n` asteroid lines: a kind, a count in [1, 50], a speed in [1, 6]. */
  function Asteroids(src: Source, g: Cursor, n: nat, types: seq<string>): (d: Draw<seq<Asteroid>>)
    requires |types| > 0
    decreases n
    ensures |d.value| == n && forall i :: 0 <= i < n ==> AsteroidInRange(types, d.value[i])
  {
    if n == 0 then Draw([], g)
    else
      var kind := Choice(src, g, types);
      var count := RandInt(src, kind.next, 1, 50);
      var speed := Uniform(src, count.next, 1.0, 6.0);
      var rest := Asteroids(src, speed.next, n - 1, types);
      Draw([Asteroid(kind.value, count.value, speed.value)] + rest.value, rest.next)
  }

  /** Some planet lies in the band. */
  function AnyInBand(z: Zone, planets: seq<Planet>): (b: bool)
    ensures b <==> exists i :: 0 <= i < |planets| && Holds(z, planets[i].distance)
  {
    if |planets| == 0 then false
    else if Holds(z, planets[0].distance) then true
    else
      var b := AnyInBand(z, planets[1..]);
      assert b ==> exists i :: 1 <= i < |planets| && Holds(z, planets[i].distance) by {
        if b {
          var i :| 0 <= i < |planets[1..]| && Holds(z, planets[1..][i].distance);
          assert Holds(z, planets[i + 1].distance);
        }
      }
      b
  }

  /** Two to five fields, and one to three more when a planet orbits in the
      asteroid belt's scaled band. */
  function AsteroidField(src: Source, g: Cursor, types: seq<string>, belt: Zone, scale: real, planets: seq<Planet>)
    : (d: Draw<seq<Asteroid>>)
    requires |types| > 0
    ensures 2 <= |d.value| <= 8
    ensures AnyInBand(Scaled(belt, scale), planets) ==> 3 <= |d.value|
    ensures !AnyInBand(Scaled(belt, scale), planets) ==> |d.value| <= 5
    ensures forall i :: 0 <= i < |d.value| ==> AsteroidInRange(types, d.value[i])
  {
    var base := RandInt(src, g, 2, 5);
    var extra := if AnyInBand(Scaled(belt, scale), planets) then RandInt(src, base.next, 1, 3) else Draw(0, base.next);
    Asteroids(src, extra.next, base.value + extra.value, types)
  }

  // ---------------------------------------------------------------- minables

  datatype Minable = Minable(kind: string, count: int, speed: real)

  /** The materials of the listed planets' classes. */
  function ClassMaterials(classes: seq<PlanetClass>, planets: seq<Planet>): set<string> {
    if |planets| == 0 then {}
    else
      var here := match Lookup(classes, planets[0].cls)
                  case Some(c) => set m | m in c.materials
                  case None => {};
      here + ClassMaterials(classes, planets[1..])
  }

  /** The materials of every zone. */
  function ZoneMaterials(zones: seq<Zone>): set<string> {
    if |zones| == 0 then {} else (set m | m in zones[0].materials) + ZoneMaterials(zones[1..])
  }

  /** The valid minables found, in the order of the valid list. */
  function MinableKinds(valid: seq<string>, found: set<string>): (r: seq<string>)
    ensures forall i :: 0 <= i < |r| ==> r[i] in valid && r[i] in found
  {
    if |valid| == 0 then []
    else
      var rest := MinableKinds(valid[1..], found);
      if valid[0] in found then [valid[0]] + rest else rest
  }

  lemma {:induction false} MinableKindsComplete(valid: seq<string>, found: set<string>, x: string)
    requires x in valid && x in found
    ensures x in MinableKinds(valid, found)
  {
    if valid[0] != x {
      MinableKindsComplete(valid[1..], found, x);
    }
  }

  /** Filtering keeps an ascending list ascending. */
  lemma {:induction false} MinableKindsAscending(valid: seq<string>, found: set<string>)
    ensures Ascending(valid) ==> Ascending(MinableKinds(valid, found))
  {
    if Ascending(valid) && |valid| > 0 {
      assert Ascending(valid[1..]);
      MinableKindsAscending(valid[1..], found);
      var rest := MinableKinds(valid[1..], found);
      if valid[0] in found && |rest| > 0 {
        var j :| 1 <= j < |valid| && valid[j] == rest[0];
        AscendingPairwise(valid, 0, j);
      }
    }
  }

  /** `sorted([m for m in system_minables if m in valid_minables])`: the set
      may be listed in any order without repeats, and sorting any such
      listing gives the valid minables found, in the valid list's order
      (which is ascending). */
  lemma MinablesSorted(valid: seq<string>, found: set<string>, listed: seq<string>)
    requires Ascending(valid) && NoDups(listed)
    requires forall x :: x in listed <==> x in valid && x in found
    ensures Sort(listed) == MinableKinds(valid, found)
  {
    var s, k := Sort(listed), MinableKinds(valid, found);
    SortOrdered(listed);
    PermutationNoDups(listed, s);
    OrderedDistinct(s);
    MinableKindsAscending(valid, found);
    forall x ensures x in s <==> x in k {
      assert x in s <==> x in multiset(s);
      assert x in listed <==> x in multiset(listed);
      if x in valid && x in found {
        MinableKindsComplete(valid, found, x);
      }
    }
    AscendingUnique(s, k);
  }

  /** The kinds of the minable lines, in order. */
  function Kinds(ms: seq<Minable>): seq<string> {
    MapSeq(ms, (m: Minable) => m.kind)
  }

  /** One line per kind: a count in [1, 20] and a speed in [2, 6]. */
  function MinableDraws(src: Source, g: Cursor, kinds: seq<string>): (d: Draw<seq<Minable>>)
    decreases |kinds|
    ensures |d.value| == |kinds|
    ensures forall i :: 0 <= i < |kinds| ==>
              d.value[i].kind == kinds[i] && 1 <= d.value[i].count <= 20 && 2.0 <= d.value[i].speed <= 6.0
  {
    if |kinds| == 0 then Draw([], g)
    else
      var count := RandInt(src, g, 1, 20);
      var speed := Uniform(src, count.next, 2.0, 6.0);
      var rest := MinableDraws(src, speed.next, kinds[1..]);
      Draw([Minable(kinds[0], count.value, speed.value)] + rest.value, rest.next)
  }

  // ---------------------------------------------------------------- trade

  datatype Trade = Trade(token: string, value: int)

  /** A name in double quotes when it contains a space, as is otherwise. */
  function Quote(item: string): string {
    if ' ' in item then "\"" + item + "\"" else item
  }

  predicate Quoted(t: string) {
    |t| >= 2 && t[0] == '"' && t[|t| - 1] == '"'
  }

  function Unquote(t: string): string {
    if Quoted(t) then t[1..|t| - 1] else t
  }

  /** For a name without double quotes, the token is quoted exactly when
      the name has a space, and unquoting gives the name back. */
  lemma QuoteMeans(item: string)
    requires '"' !in item
    ensures Quoted(Quote(item)) <==> ' ' in item
    ensures Unquote(Quote(item)) == item
  {
    if ' ' in item {
      var t := Quote(item);
      assert t[1..|t| - 1] == item;
    } else if |item| > 0 {
      assert item[0] in item;
    }
  }

  /** One price per good, in the order given, each in [200, 600]. */
  function TradeLines(src: Source, g: Cursor, goods: seq<string>): (d: Draw<seq<Trade>>)
    decreases |goods|
    ensures |d.value| == |goods|
    ensures forall i :: 0 <= i < |goods| ==>
              d.value[i].token == Quote(goods[i]) && 200 <= d.value[i].value <= 600
  {
    if |goods| == 0 then Draw([], g)
    else
      var value := RandInt(src, g, 200, 600);
      var rest := TradeLines(src, value.next, goods[1..]);
      Draw([Trade(Quote(goods[0]), value.value)] + rest.value, rest.next)
  }

  /** For goods without double quotes, a token is quoted exactly when its
      good has a space. */
  lemma QuotedGoods(goods: seq<string>)
    requires forall i :: 0 <= i < |goods| ==> '"' !in goods[i]
    ensures forall i :: 0 <= i < |goods| ==> (Quoted(Quote(goods[i])) <==> ' ' in goods[i])
  {
    forall i | 0 <= i < |goods| ensures Quoted(Quote(goods[i])) <==> ' ' in goods[i] {
      QuoteMeans(goods[i]);
    }
  }

  /** The generator's goods are already sorted, so the prices follow the
      table's order; exactly "Heavy Metals" and "Luxury Goods" are quoted. */
  lemma TradeTokens()
    ensures forall i :: 0 <= i < |TradeGoods()| ==> (Quoted(Quote(TradeGoods()[i])) <==> i == 4 || i == 6)
  {
    NoQuoteInGoods();
    QuotedGoods(TradeGoods());
    TradeGoodsShape();
  }

  lemma GoodsSorted()
    ensures Sort(TradeGoods()) == TradeGoods()
  {
    TradeGoodsShape();
    SortAscending(TradeGoods());
  }

  lemma NoQuoteInGoods()
    ensures forall i :: 0 <= i < |TradeGoods()| ==> '"' !in TradeGoods()[i]
  {
  }

  // ---------------------------------------------------------------- fleets

  datatype Fleet = Fleet(name: string, period: nat)

  /** The three fleets every system gets. */
  const Fleets: seq<Fleet> := [
    Fleet("Small Northern Planets", 300),
    Fleet("Small Republic Planets", 600),
    Fleet("Small Fields Merchants", 400)]

  // ---------------------------------------------------------------- the system

  /** A generated system. */
  datatype SystemDef = SystemDef(
    name: string, x: real, y: real, attributes: string, habitable: nat, belt: real,
    asteroids: seq<Asteroid>, minables: seq<Minable>, trade: seq<Trade>, fleets: seq<Fleet>,
    stars: seq<StarBody>, planets: seq<Body>, station: Station)

  /** The columns of a catalogue row the generator reads: the name cells,
      `star_image_key`, `binary_candidate`, `flat_x` and `flat_y`. */
  datatype Row = Row(names: NameCells, starKey: Cell, binary: real, x: real, y: real)

  /** The tables the generator reads: star rows, planet classes, zones in
      table order and the asteroid belt among them, goods, asteroid kinds
      and valid minables. */
  datatype Tables = Tables(stars: seq<StarRow>, classes: seq<PlanetClass>, zones: seq<Zone>, belt: Zone,
                           goods: seq<string>, asteroidTypes: seq<string>, minables: seq<string>)

  /** What the generator needs of its tables: rows and classes with
      sprites to choose from, and asteroid kinds. */
  predicate Usable(t: Tables) {
    && StarsUsable(t.stars)
    && (forall c :: c in t.classes ==> |c.sprites| > 0)
    && |t.asteroidTypes| > 0
  }

  function Data(): Tables {
    Tables(StarImage(), PlanetClasses(), Zones(), Zones()[2], TradeGoods(), AsteroidTypes(), ValidMinables())
  }

  lemma DataUsable()
    ensures Usable(Data())
    ensures Data().belt.name == AsteroidBelt
  {
    StarImageLayout();
    ClassBands();
    ZoneBands();
  }

  /** The stars: the primary, then a companion when `binary > 0.5`. */
  function StarStage(src: Source, g: Cursor, stars: seq<StarRow>, cls: string, binary: real)
    : (d: Draw<(Primary, seq<StarBody>)>)
    requires StarsUsable(stars)
    ensures d.value.0.row == StarData(src, g, stars, cls).value
    ensures |d.value.1| == (if binary > 0.5 then 2 else 1) && d.value.1[0] == d.value.0.body
  {
    var primary := PrimaryStar(src, g, stars, cls);
    if binary > 0.5 then
      var companion := Companion(src, primary.next, stars);
      Draw((primary.value, [primary.value.body, companion.value]), companion.next)
    else Draw((primary.value, [primary.value.body]), primary.next)
  }

  /** The planets: spawned by zone, landability decided, entries named,
      objects drawn. */
  datatype PlanetResult = PlanetResult(spawned: seq<Planet>, landable: seq<Planet>, entries: seq<Entry>, bodies: seq<Body>)

  function PlanetStage(src: Source, g: Cursor, t: Tables, system: string, scale: real): (d: Draw<PlanetResult>)
    requires Usable(t)
    ensures d.value.spawned == GeneratePlanets(src, g, t.classes, scale).value
    ensures d.value.landable == Landable(t.classes, d.value.spawned)
    ensures d.value.entries == Entries(system, t.classes, d.value.landable, d.value.spawned, 1)
    ensures |d.value.bodies| == |d.value.entries|
    ensures forall i :: 0 <= i < |d.value.bodies| ==> d.value.bodies[i].name == d.value.entries[i].name
  {
    var spawned := GeneratePlanets(src, g, t.classes, scale);
    var landable := Landable(t.classes, spawned.value);
    var entries := Entries(system, t.classes, landable, spawned.value, 1);
    var bodies := PlanetBodies(src, spawned.next, entries, t.zones, scale);
    Draw(PlanetResult(spawned.value, landable, entries, bodies.value), bodies.next)
  }

  /** The header's random parts, drawn after the station: the belt
      radius, the asteroid fields, the minables and the trade prices. */
  datatype Extras = Extras(belt: real, asteroids: seq<Asteroid>, minables: seq<Minable>, trade: seq<Trade>)

  /** The minables are looked for in the classes of every spawned planet
      and in every zone, then filtered by the valid list. */
  function Found(t: Tables, spawned: seq<Planet>): set<string> {
    ClassMaterials(t.classes, spawned) + ZoneMaterials(t.zones)
  }

  function ExtraStage(src: Source, g: Cursor, t: Tables, scale: real, spawned: seq<Planet>): (d: Draw<Extras>)
    requires |t.asteroidTypes| > 0
    ensures 0.0 <= scale ==> 1000.0 * scale <= d.value.belt <= 3000.0 * scale
    ensures 2 <= |d.value.asteroids| <= 8
    ensures AnyInBand(Scaled(t.belt, scale), spawned) ==> 3 <= |d.value.asteroids|
    ensures !AnyInBand(Scaled(t.belt, scale), spawned) ==> |d.value.asteroids| <= 5
    ensures Kinds(d.value.minables) == MinableKinds(t.minables, Found(t, spawned))
    ensures |d.value.trade| == |t.goods|
    ensures forall i :: 0 <= i < |t.goods| ==>
              d.value.trade[i].token == Quote(Sort(t.goods)[i]) && 200 <= d.value.trade[i].value <= 600
  {
    var belt := BeltRadius(src, g, scale);
    var asteroids := AsteroidField(src, belt.next, t.asteroidTypes, t.belt, scale, spawned);
    var kinds := MinableKinds(t.minables, Found(t, spawned));
    var minables := MinableDraws(src, asteroids.next, kinds);
    var trade := TradeLines(src, minables.next, Sort(t.goods));
    Draw(Extras(belt.value, asteroids.value, minables.value, trade.value), trade.next)
  }

  /** The outcome of one row: the system, the primary star's row, the
      scale and the cursor the planets were spawned with, the planets spawned and those landable, the cursor after the last draw and
      the name counter. */
  datatype Generated = Generated(system: SystemDef, primary: StarRow, scale: real, planetsAt: Cursor,
                                 spawned: seq<Planet>, landable: seq<Planet>, next: Cursor, counter: Counter)

  /** `generate_system(row)`, its draws in the generator's order, the
      module-level name counter passed in and out, and `scaleOf(h)` standing
      for `sqrt(1000 / max(1, h))`. */
  function Generate(src: Source, g: Cursor, t: Tables, scaleOf: nat -> real, row: Row, counter: Counter): (r: Generated)
    requires Usable(t)
    ensures r.system.name == SystemName(row.names, counter).0.name
    ensures r.counter == SystemName(row.names, counter).1
    ensures |r.system.stars| == (if row.binary > 0.5 then 2 else 1)
    ensures r.primary == StarData(src, g, t.stars, CellStr(row.starKey, "G")).value
    ensures r.scale == scaleOf(r.primary.habitability)
    ensures var ps := PlanetStage(src, r.planetsAt, t, r.system.name, r.scale).value;
            r.spawned == ps.spawned && r.landable == ps.landable && r.system.planets == ps.bodies
    ensures r.system.habitable == r.primary.habitability + LandableHabitability(t.classes, r.landable, r.spawned)
    ensures r.system.fleets == Fleets
    ensures |r.system.trade| == |t.goods|
    ensures forall i :: 0 <= i < |t.goods| ==>
              r.system.trade[i].token == Quote(Sort(t.goods)[i]) && 200 <= r.system.trade[i].value <= 600
    ensures Ascending(t.minables) ==> Ascending(Kinds(r.system.minables))
    ensures 2 <= |r.system.asteroids| <= 8
  {
    var (chosen, counter') := SystemName(row.names, counter);
    var stars := StarStage(src, g, t.stars, CellStr(row.starKey, "G"), row.binary);
    var primary := stars.value.0;
    var scale := scaleOf(primary.row.habitability);
    var planets := PlanetStage(src, stars.next, t, chosen.name, scale);
    var p := planets.value;
    var station := StationBody(src, planets.next);
    var extras := ExtraStage(src, station.next, t, scale, p.spawned);
    var e := extras.value;
    LandedIsSum(chosen.name, t.classes, p.landable, p.spawned, 1);
    MinableKindsAscending(t.minables, Found(t, p.spawned));
    var system := SystemDef(chosen.name, row.x, row.y, primary.attributes, primary.row.habitability + Landed(p.entries),
                            e.belt, e.asteroids, e.minables, e.trade, Fleets, stars.value.1, p.bodies, station.value);
    Generated(system, primary.row, scale, stars.next, p.spawned, p.landable, extras.next, counter')
  }

  // ---------------------------------------------------------------- planet objects

  /** A planet spawned from a class table is in it. */
  lemma SpawnedListed(src: Source, g: Cursor, classes: seq<PlanetClass>, scale: real, p: Planet)
    requires p in GeneratePlanets(src, g, classes, scale).value
    ensures Lookup(classes, p.cls).Some?
  {
    GeneratedPlanet(src, g, classes, scale, p);
    var j :| 0 <= j < 6 && Origin(p, ZonesByOrder()[j], scale, classes);
    var c :| c in classes && c.id == p.cls && Admits(CategoryLists, c, Scaled(ZonesByOrder()[j], scale));
  }

  /** No spawned planet is skipped by the naming loop. */
  lemma GeneratedListed(src: Source, g: Cursor, classes: seq<PlanetClass>, scale: real)
    ensures AllListed(classes, GeneratePlanets(src, g, classes, scale).value)
  {
    var ps := GeneratePlanets(src, g, classes, scale).value;
    forall i | 0 <= i < |ps| ensures Lookup(classes, ps[i].cls).Some? {
      SpawnedListed(src, g, classes, scale, ps[i]);
    }
  }

  /** Every spawned planet becomes an object, in order; the i-th is named
      exactly when it is landable, and then it is called
      `{system}-{roman(i + 1)}`; and some planet is named whenever any was
      spawned. */
  lemma PlanetsNamed(src: Source, g: Cursor, t: Tables, system: string, scale: real)
    requires Usable(t)
    ensures var p := PlanetStage(src, g, t, system, scale).value;
            && |p.bodies| == |p.spawned|
            && (forall i :: 0 <= i < |p.spawned| ==> (p.bodies[i].name.Some? <==> p.spawned[i] in p.landable))
            && (forall i :: 0 <= i < |p.spawned| && p.spawned[i] in p.landable ==>
                  p.bodies[i].name == Some(PlanetName(system, i + 1)))
            && (|p.spawned| > 0 ==> exists i :: 0 <= i < |p.spawned| && p.bodies[i].name.Some?)
  {
    var p := PlanetStage(src, g, t, system, scale).value;
    GeneratedListed(src, g, t.classes, scale);
    NamedEntries(system, t.classes, p.spawned);
    var es := p.entries;
    assert |es| == |p.spawned| && |p.bodies| == |es|;
    forall i | 0 <= i < |p.spawned|
      ensures p.bodies[i].name.Some? <==> p.spawned[i] in p.landable
      ensures p.spawned[i] in p.landable ==> p.bodies[i].name == Some(PlanetName(system, i + 1))
    {
      assert p.bodies[i].name == es[i].name;
    }
    if |p.spawned| > 0 {
      var k :| 0 <= k < |p.spawned| && es[k].name.Some?;
      assert p.bodies[k].name.Some?;
    }
  }
}
