/** The objects of a generated system: the primary star and, for a binary,
    a companion; one object per listed planet with its moons; and the
    station.  Draws are taken in the order the generator takes them. */
module Bodies {
  import opened Common
  import opened SkyData
  import opened Rng
  import opened Stars
  import opened Planets
  import opened Landing

  // ---------------------------------------------------------------- objects

  /** A star object: sprite, distance, period and offset. */
  datatype StarBody = StarBody(sprite: string, distance: real, period: real, offset: real)

  /** A moon: sprite `planet/moon{variant}`, distance and period. */
  datatype Moon = Moon(variant: nat, distance: real, period: real)

  /** A planet object: its name if it is landable, sprite, distance,
      period and moons. */
  datatype Body = Body(name: Option<string>, sprite: string, distance: real, period: real, moons: seq<Moon>)

  /** The station: sprite `planet/station/station{variant}`, distance and
      period. */
  datatype Station = Station(variant: nat, distance: real, period: real)

  // ---------------------------------------------------------------- stars

  /** The primary star: its table row, its object and its description. */
  datatype Primary = Primary(row: StarRow, body: StarBody, attributes: string)

  /** Every row has a sprite to choose from. */
  predicate StarsUsable(stars: seq<StarRow>) {
    |stars| > 0 && forall i :: 0 <= i < |stars| ==> |stars[i].sprites| > 0
  }

  /** The primary star: `get_star_data`, a sprite of the row,
      `get_star_attributes` for the requested class and the row's type,
      then `get_star_params` for that type. */
  function PrimaryStar(src: Source, g: Cursor, stars: seq<StarRow>, cls: string): (d: Draw<Primary>)
    requires StarsUsable(stars)
    ensures d.value.row in stars && d.value.body.sprite in d.value.row.sprites
    ensures HasClass(stars, cls) ==> d.value.row.cls == cls
    ensures d.value.attributes in Descriptions
    ensures 0.0 <= d.value.body.distance <= 100.0 && 30.0 <= d.value.body.period <= 1000.0
    ensures 0.0 <= d.value.body.offset <= 360.0
  {
    var row := StarData(src, g, stars, cls);
    assert row.value in stars;
    var sprite := Choice(src, row.next, row.value.sprites);
    var attributes := StarAttributes(src, sprite.next, cls, row.value.kind);
    var orbit := StarParams(src, attributes.next, row.value.kind);
    var o := orbit.value;
    Draw(Primary(row.value, StarBody(sprite.value, o.distance, o.period, o.offset), attributes.value), orbit.next)
  }

  /** The companion of a binary: any row of the table, one of its sprites,
      its type's orbit pushed out by 10 to 50, with the period doubled and
      the offset turned by up to 180. */
  function Companion(src: Source, g: Cursor, stars: seq<StarRow>): (d: Draw<StarBody>)
    requires StarsUsable(stars)
    ensures exists row :: row in stars && d.value.sprite in row.sprites
    ensures 10.0 <= d.value.distance <= 150.0 && 60.0 <= d.value.period <= 2000.0
    ensures 0.0 <= d.value.offset <= 540.0
  {
    var row := Choice(src, g, stars);
    var sprite := Choice(src, row.next, row.value.sprites);
    var orbit := StarParams(src, sprite.next, row.value.kind);
    var push := Uniform(src, orbit.next, 10.0, 50.0);
    var turn := Uniform(src, push.next, 0.0, 180.0);
    var o := orbit.value;
    Draw(StarBody(sprite.value, o.distance + push.value, o.period * 2.0, o.offset + turn.value), turn.next)
  }

  // ---------------------------------------------------------------- moons

  /** The band holds the distance. */
  predicate Holds(z: Zone, distance: real) {
    z.dmin <= distance <= z.dmax
  }

  /** The `next(...)` over the zones in table order: the first whose
      scaled band holds the distance. */
  function MoonZone(zones: seq<Zone>, scale: real, distance: real): (r: Option<Zone>)
    ensures r.Some? ==> r.value in zones && Holds(Scaled(r.value, scale), distance)
    ensures r.None? ==> forall i :: 0 <= i < |zones| ==> !Holds(Scaled(zones[i], scale), distance)
  {
    if |zones| == 0 then None
    else if Holds(Scaled(zones[0], scale), distance) then Some(zones[0])
    else MoonZone(zones[1..], scale, distance)
  }

  /** The zone found is the first that holds the distance: no zone before
      it does. */
  lemma {:induction false} MoonZoneFirst(zones: seq<Zone>, scale: real, distance: real, i: nat)
    requires i < |zones| && Holds(Scaled(zones[i], scale), distance)
    ensures MoonZone(zones, scale, distance) == Some(zones[FirstHolding(zones, scale, distance, i)])
  {
    if !Holds(Scaled(zones[0], scale), distance) {
      MoonZoneFirst(zones[1..], scale, distance, i - 1);
    }
  }

  /** The index of the first zone holding the distance, given that the
      `i`-th does. */
  function FirstHolding(zones: seq<Zone>, scale: real, distance: real, i: nat): (k: nat)
    requires i < |zones| && Holds(Scaled(zones[i], scale), distance)
    ensures k <= i && Holds(Scaled(zones[k], scale), distance)
    ensures forall j :: 0 <= j < k ==> !Holds(Scaled(zones[j], scale), distance)
  {
    if Holds(Scaled(zones[0], scale), distance) then 0
    else 1 + FirstHolding(zones[1..], scale, distance, i - 1)
  }

  /** The number of major moons: a Poisson count with the zone's mean, or
      none (and no draw) when no zone holds the planet or the zone's mean
      is zero. */
  function MoonCount(src: Source, g: Cursor, zones: seq<Zone>, scale: real, distance: real): (d: Draw<nat>)
    ensures var z := MoonZone(zones, scale, distance);
            z.None? || z.value.moons == 0.0 ==> d.value == 0 && d.next == g
    ensures var z := MoonZone(zones, scale, distance);
            z.Some? && z.value.moons != 0.0 ==> d.next == Cursor(g.pos, g.npPos + 1)
  {
    match MoonZone(zones, scale, distance)
    case Some(z) => Poisson(src, g, z.moons)
    case None => Draw(0, g)
  }

  /** The moon's sprite variant, distance and period are in range. */
  predicate MoonInRange(m: Moon) {
    m.variant <= 3 && 0.1 <= m.distance <= 0.5 && 10.0 <= m.period <= 50.0
  }

  /** `count` moons, three draws each. */
  function Moons(src: Source, g: Cursor, count: nat): (d: Draw<seq<Moon>>)
    decreases count
    ensures |d.value| == count && forall i :: 0 <= i < count ==> MoonInRange(d.value[i])
    ensures d.next == Cursor(g.pos + 3 * count, g.npPos)
  {
    if count == 0 then Draw([], g)
    else
      var k := RandInt(src, g, 0, 3);
      var distance := Uniform(src, k.next, 0.1, 0.5);
      var period := Uniform(src, distance.next, 10.0, 50.0);
      var rest := Moons(src, period.next, count - 1);
      Draw([Moon(k.value, distance.value, period.value)] + rest.value, rest.next)
  }

  // ---------------------------------------------------------------- planets

  /** Every entry's class has a sprite to choose from. */
  predicate SpritesUsable(entries: seq<Entry>) {
    forall i :: 0 <= i < |entries| ==> |entries[i].cls.sprites| > 0
  }

  /** One planet object: a sprite of its class, its distance in AU times
      100, a period in [100, 1000], then its moons. */
  function PlanetBody(src: Source, g: Cursor, e: Entry, zones: seq<Zone>, scale: real): (d: Draw<Body>)
    requires |e.cls.sprites| > 0
    ensures d.value.name == e.name && d.value.sprite in e.cls.sprites
    ensures d.value.distance == e.planet.distance * 100.0 && 100.0 <= d.value.period <= 1000.0
    ensures forall i :: 0 <= i < |d.value.moons| ==> MoonInRange(d.value.moons[i])
    ensures var z := MoonZone(zones, scale, e.planet.distance);
            z.None? || z.value.moons == 0.0 ==> d.value.moons == []
  {
    var sprite := Choice(src, g, e.cls.sprites);
    var period := Uniform(src, sprite.next, 100.0, 1000.0);
    var count := MoonCount(src, period.next, zones, scale, e.planet.distance);
    var moons := Moons(src, count.next, count.value);
    Draw(Body(e.name, sprite.value, e.planet.distance * 100.0, period.value, moons.value), moons.next)
  }

  /** With the real zone table, a planet first held by the inner rocky
      zone or the asteroid belt has no moons. */
  lemma MoonlessZones(src: Source, g: Cursor, e: Entry, scale: real)
    requires |e.cls.sprites| > 0
    requires var z := MoonZone(Zones(), scale, e.planet.distance);
             z.Some? && (z.value.name == "inner_rocky_zone" || z.value.name == AsteroidBelt)
    ensures PlanetBody(src, g, e, Zones(), scale).value.moons == []
  {
  }

  /** The planet objects, one per entry, in order. */
  function PlanetBodies(src: Source, g: Cursor, entries: seq<Entry>, zones: seq<Zone>, scale: real): (d: Draw<seq<Body>>)
    requires SpritesUsable(entries)
    decreases |entries|
    ensures |d.value| == |entries|
    ensures forall i :: 0 <= i < |entries| ==>
              && d.value[i].name == entries[i].name && d.value[i].sprite in entries[i].cls.sprites
              && 100.0 <= d.value[i].period <= 1000.0
              && forall j :: 0 <= j < |d.value[i].moons| ==> MoonInRange(d.value[i].moons[j])
  {
    if |entries| == 0 then Draw([], g)
    else
      var b := PlanetBody(src, g, entries[0], zones, scale);
      var rest := PlanetBodies(src, b.next, entries[1..], zones, scale);
      Draw([b.value] + rest.value, rest.next)
  }

  // ---------------------------------------------------------------- station

  /** The station: a sprite variant in [0, 2], a distance in [500, 1000]
      and a period in [500, 1500]. */
  function StationBody(src: Source, g: Cursor): (d: Draw<Station>)
    ensures d.value.variant <= 2 && 500.0 <= d.value.distance <= 1000.0 && 500.0 <= d.value.period <= 1500.0
    ensures d.next == Cursor(g.pos + 3, g.npPos)
  {
    var k := RandInt(src, g, 0, 2);
    var distance := Uniform(src, k.next, 500.0, 1000.0);
    var period := Uniform(src, distance.next, 500.0, 1500.0);
    Draw(Station(k.value, distance.value, period.value), period.next)
  }
}
