/** The text of a system definition as a sequence of lines: the header,
    the asteroid, minable, trade and fleet lines, then the objects.  Each
    line keeps its numbers as numbers; how they are printed is not part of
    the model. */
module Render {
  import opened Common
  import opened Text
  import opened Rng
  import opened Naming
  import opened Landing
  import opened Bodies
  import opened SystemGen

  /** One line of a system definition.  `depth` is the number of leading
      tabs. */
  datatype Line =
    | SystemLine(name: string)
    | PosLine(x: real, y: real)
    | GovernmentLine(government: string)
    | AttributesLine(attributes: string)
    | ArrivalLine
    | LinkLine
    | HabitableLine(habitable: nat)
    | BeltLine(radius: real)
    | AsteroidsLine(kind: string, count: int, speed: real)
    | MinablesLine(kind: string, count: int, speed: real)
    | TradeLine(item: string, price: int)
    | FleetLine(fleet: string, interval: nat)
    | ObjectLine(depth: nat, token: Option<string>)
    | SpriteLine(depth: nat, sprite: string)
    | DistanceLine(depth: nat, distance: real)
    | PeriodLine(depth: nat, period: real)
    | OffsetLine(depth: nat, offset: real)

  // ---------------------------------------------------------------- header

  function Header(sys: SystemDef): seq<Line> {
    [SystemLine(sys.name), PosLine(sys.x, sys.y), GovernmentLine("Republic"), AttributesLine(sys.attributes),
     ArrivalLine, LinkLine, HabitableLine(sys.habitable), BeltLine(sys.belt)]
  }

  function AsteroidLines(asteroids: seq<Asteroid>): seq<Line> {
    MapSeq(asteroids, (a: Asteroid) => AsteroidsLine(a.kind, a.count, a.speed))
  }

  function MinableLines(minables: seq<Minable>): seq<Line> {
    MapSeq(minables, (m: Minable) => MinablesLine(m.kind, m.count, m.speed))
  }

  function TradeLinesOf(trade: seq<Trade>): seq<Line> {
    MapSeq(trade, (t: Trade) => TradeLine(t.token, t.value))
  }

  function FleetLines(fleets: seq<Fleet>): seq<Line> {
    MapSeq(fleets, (f: Fleet) => FleetLine(f.name, f.period))
  }

  // ---------------------------------------------------------------- objects

  /** A star: an unnamed top-level object with sprite, distance, period
      and offset. */
  function StarLines(s: StarBody): seq<Line> {
    [ObjectLine(1, None), SpriteLine(2, s.sprite), DistanceLine(2, s.distance), PeriodLine(2, s.period),
     OffsetLine(2, s.offset)]
  }

  function StarsLines(stars: seq<StarBody>): seq<Line> {
    if |stars| == 0 then [] else StarLines(stars[0]) + StarsLines(stars[1..])
  }

  /** A moon: an unnamed object nested in its planet. */
  function MoonLines(m: Moon): seq<Line> {
    [ObjectLine(2, None), SpriteLine(3, "planet/moon" + NatToDecimal(m.variant)),
     DistanceLine(3, m.distance), PeriodLine(3, m.period)]
  }

  function MoonsLines(moons: seq<Moon>): seq<Line> {
    if |moons| == 0 then [] else MoonLines(moons[0]) + MoonsLines(moons[1..])
  }

  /** A planet: a top-level object, named (without quotes) when landable,
      then its sprite, distance, period and moons. */
  function PlanetLines(b: Body): seq<Line> {
    [ObjectLine(1, b.name), SpriteLine(2, b.sprite), DistanceLine(2, b.distance), PeriodLine(2, b.period)]
      + MoonsLines(b.moons)
  }

  function PlanetsLines(bodies: seq<Body>): seq<Line> {
    if |bodies| == 0 then [] else PlanetLines(bodies[0]) + PlanetsLines(bodies[1..])
  }

  /** The station's name token, in double quotes. */
  function StationToken(system: string): string {
    "\"" + system + "-Station\""
  }

  function StationLines(system: string, st: Station): seq<Line> {
    [ObjectLine(1, Some(StationToken(system))), SpriteLine(2, "planet/station/station" + NatToDecimal(st.variant)),
     DistanceLine(2, st.distance), PeriodLine(2, st.period)]
  }

  function ObjectLines(sys: SystemDef): seq<Line> {
    StarsLines(sys.stars) + PlanetsLines(sys.planets) + StationLines(sys.name, sys.station)
  }

  /** The whole definition: header, asteroids, minables, trade, fleets,
      objects. */
  function RenderSystem(sys: SystemDef): seq<Line> {
    Header(sys) + AsteroidLines(sys.asteroids) + MinableLines(sys.minables) + TradeLinesOf(sys.trade)
      + FleetLines(sys.fleets) + ObjectLines(sys)
  }

  // ---------------------------------------------------------------- kinds of line

  predicate TopObject(l: Line) { l.ObjectLine? && l.depth == 1 }

  predicate MoonObject(l: Line) { l.ObjectLine? && l.depth == 2 }

  predicate IsFleet(l: Line) { l.FleetLine? }

  predicate IsTrade(l: Line) { l.TradeLine? }

  predicate IsStation(system: string, l: Line) { l == ObjectLine(1, Some(StationToken(system))) }

  /** The number of moons of all planets. */
  function MoonTotal(bodies: seq<Body>): nat {
    if |bodies| == 0 then 0 else |bodies[0].moons| + MoonTotal(bodies[1..])
  }

  /** The station test for a system's name. */
  function StationOf(system: string): Line -> bool {
    l => IsStation(system, l)
  }

  // ---------------------------------------------------------------- counts

  /** A block whose only object line is its first counts that line alone. */
  lemma BlockCount(block: seq<Line>, p: Line -> bool)
    requires |block| > 0 && forall i :: 1 <= i < |block| ==> !block[i].ObjectLine?
    requires forall l: Line :: p(l) ==> l.ObjectLine?
    ensures CountIf(block, p) == if p(block[0]) then 1 else 0
  {
    CountIfNone(block[1..], p);
  }

  /** Each star gives one top-level object. */
  lemma {:induction false} StarsTop(stars: seq<StarBody>)
    ensures CountIf(StarsLines(stars), TopObject) == |stars|
    ensures CountIf(StarsLines(stars), MoonObject) == 0
  {
    if |stars| > 0 {
      var block := StarLines(stars[0]);
      BlockCount(block, TopObject);
      BlockCount(block, MoonObject);
      CountIfAppend(block, StarsLines(stars[1..]), TopObject);
      CountIfAppend(block, StarsLines(stars[1..]), MoonObject);
      StarsTop(stars[1..]);
    }
  }

  /** Each moon gives one nested object and no top-level one. */
  lemma {:induction false} MoonsNested(moons: seq<Moon>)
    ensures CountIf(MoonsLines(moons), TopObject) == 0
    ensures CountIf(MoonsLines(moons), MoonObject) == |moons|
  {
    if |moons| > 0 {
      var block := MoonLines(moons[0]);
      BlockCount(block, TopObject);
      BlockCount(block, MoonObject);
      CountIfAppend(block, MoonsLines(moons[1..]), TopObject);
      CountIfAppend(block, MoonsLines(moons[1..]), MoonObject);
      MoonsNested(moons[1..]);
    }
  }

  /** Each planet gives one top-level object and one nested object per
      moon. */
  lemma {:induction false} PlanetsTop(bodies: seq<Body>)
    ensures CountIf(PlanetsLines(bodies), TopObject) == |bodies|
    ensures CountIf(PlanetsLines(bodies), MoonObject) == MoonTotal(bodies)
  {
    if |bodies| > 0 {
      var b := bodies[0];
      var head := [ObjectLine(1, b.name), SpriteLine(2, b.sprite), DistanceLine(2, b.distance), PeriodLine(2, b.period)];
      BlockCount(head, TopObject);
      BlockCount(head, MoonObject);
      MoonsNested(b.moons);
      CountIfAppend(head, MoonsLines(b.moons), TopObject);
      CountIfAppend(head, MoonsLines(b.moons), MoonObject);
      assert PlanetLines(b) == head + MoonsLines(b.moons);
      CountIfAppend(PlanetLines(b), PlanetsLines(bodies[1..]), TopObject);
      CountIfAppend(PlanetLines(b), PlanetsLines(bodies[1..]), MoonObject);
      PlanetsTop(bodies[1..]);
    }
  }

  /** The lines before the objects hold no object. */
  lemma PreambleObjects(sys: SystemDef, p: Line -> bool)
    requires forall l: Line :: p(l) ==> l.ObjectLine?
    ensures CountIf(Header(sys) + AsteroidLines(sys.asteroids) + MinableLines(sys.minables)
                      + TradeLinesOf(sys.trade) + FleetLines(sys.fleets), p) == 0
  {
    var pre := Header(sys) + AsteroidLines(sys.asteroids) + MinableLines(sys.minables)
                 + TradeLinesOf(sys.trade) + FleetLines(sys.fleets);
    CountIfNone(pre, p);
  }

  /** The definition has one top-level object per star, one per planet
      and one for the station, and one nested object per moon. */
  lemma RenderObjects(sys: SystemDef)
    ensures CountIf(RenderSystem(sys), TopObject) == |sys.stars| + |sys.planets| + 1
    ensures CountIf(RenderSystem(sys), MoonObject) == MoonTotal(sys.planets)
  {
    var pre := Header(sys) + AsteroidLines(sys.asteroids) + MinableLines(sys.minables)
                 + TradeLinesOf(sys.trade) + FleetLines(sys.fleets);
    var st, pl, sn := StarsLines(sys.stars), PlanetsLines(sys.planets), StationLines(sys.name, sys.station);
    assert RenderSystem(sys) == pre + (st + pl + sn);
    PreambleObjects(sys, TopObject);
    PreambleObjects(sys, MoonObject);
    StarsTop(sys.stars);
    PlanetsTop(sys.planets);
    BlockCount(sn, TopObject);
    BlockCount(sn, MoonObject);
    CountIfAppend(pre, st + pl + sn, TopObject);
    CountIfAppend(st + pl, sn, TopObject);
    CountIfAppend(st, pl, TopObject);
    CountIfAppend(pre, st + pl + sn, MoonObject);
    CountIfAppend(st + pl, sn, MoonObject);
    CountIfAppend(st, pl, MoonObject);
  }

  // ---------------------------------------------------------------- sections

  /** A line of an object block. */
  predicate ObjectPart(l: Line) {
    l.ObjectLine? || l.SpriteLine? || l.DistanceLine? || l.PeriodLine? || l.OffsetLine?
  }

  lemma {:induction false} MoonsParts(moons: seq<Moon>)
    ensures forall i :: 0 <= i < |MoonsLines(moons)| ==> ObjectPart(MoonsLines(moons)[i])
  {
    if |moons| > 0 {
      MoonsParts(moons[1..]);
      var a, b := MoonLines(moons[0]), MoonsLines(moons[1..]);
      assert forall i :: 0 <= i < |a + b| ==> (a + b)[i] == if i < |a| then a[i] else b[i - |a|];
    }
  }

  lemma {:induction false} StarsParts(stars: seq<StarBody>)
    ensures forall i :: 0 <= i < |StarsLines(stars)| ==> ObjectPart(StarsLines(stars)[i])
  {
    if |stars| > 0 {
      StarsParts(stars[1..]);
      var a, b := StarLines(stars[0]), StarsLines(stars[1..]);
      assert forall i :: 0 <= i < |a + b| ==> (a + b)[i] == if i < |a| then a[i] else b[i - |a|];
    }
  }

  lemma {:induction false} PlanetsParts(bodies: seq<Body>)
    ensures forall i :: 0 <= i < |PlanetsLines(bodies)| ==> ObjectPart(PlanetsLines(bodies)[i])
  {
    if |bodies| > 0 {
      PlanetsParts(bodies[1..]);
      MoonsParts(bodies[0].moons);
      var a, b := PlanetLines(bodies[0]), PlanetsLines(bodies[1..]);
      assert forall i :: 0 <= i < |a| ==> ObjectPart(a[i]);
      assert forall i :: 0 <= i < |a + b| ==> (a + b)[i] == if i < |a| then a[i] else b[i - |a|];
    }
  }

  /** The objects section holds object blocks only. */
  lemma ObjectsParts(sys: SystemDef)
    ensures forall i :: 0 <= i < |ObjectLines(sys)| ==> ObjectPart(ObjectLines(sys)[i])
  {
    StarsParts(sys.stars);
    PlanetsParts(sys.planets);
    var a, b, c := StarsLines(sys.stars), PlanetsLines(sys.planets), StationLines(sys.name, sys.station);
    assert forall i :: 0 <= i < |a + b| ==> (a + b)[i] == if i < |a| then a[i] else b[i - |a|];
    assert forall i :: 0 <= i < |a + b + c| ==> (a + b + c)[i] == if i < |a + b| then (a + b)[i] else c[i - |a + b|];
  }

  /** The six sections of a definition, in order. */
  function Sections(sys: SystemDef): (ss: seq<seq<Line>>)
    ensures |ss| == 6 && RenderSystem(sys) == Concat(ss)
    ensures ss[3] == TradeLinesOf(sys.trade) && ss[4] == FleetLines(sys.fleets) && ss[5] == ObjectLines(sys)
  {
    var ss := [Header(sys), AsteroidLines(sys.asteroids), MinableLines(sys.minables), TradeLinesOf(sys.trade),
               FleetLines(sys.fleets), ObjectLines(sys)];
    ConcatSix(ss[0], ss[1], ss[2], ss[3], ss[4], ss[5]);
    ss
  }

  /** Filtering a definition for one kind of line that only one of its
      sections holds, and holds throughout, gives that section. */
  lemma OnlySection(sys: SystemDef, p: Line -> bool, k: nat)
    requires k < 5
    requires forall l: Line :: p(l) ==> !ObjectPart(l)
    requires forall j, i :: 0 <= j < 5 && 0 <= i < |Sections(sys)[j]| ==> (p(Sections(sys)[j][i]) <==> j == k)
    ensures Filter(RenderSystem(sys), p) == Sections(sys)[k]
  {
    var ss := Sections(sys);
    ObjectsParts(sys);
    assert forall i :: 0 <= i < |ss[5]| ==> !p(ss[5][i]);
    FilterConcat(ss, p, k);
  }

  /** The trade lines of the definition are the system's prices, in order. */
  lemma RenderTrade(sys: SystemDef)
    ensures Filter(RenderSystem(sys), IsTrade) == TradeLinesOf(sys.trade)
  {
    ObjectsParts(sys);
    OnlySection(sys, IsTrade, 3);
  }

  /** The fleet lines of the definition are the system's fleets, in order. */
  lemma RenderFleets(sys: SystemDef)
    ensures Filter(RenderSystem(sys), IsFleet) == FleetLines(sys.fleets)
  {
    ObjectsParts(sys);
    OnlySection(sys, IsFleet, 4);
  }

  // ---------------------------------------------------------------- the station

  /** A planet's name never reads as the station's token: the numeral ends
      the one, a double quote the other. */
  lemma PlanetNotStation(system: string, k: nat)
    requires k >= 1
    ensures PlanetName(system, k) != StationToken(system)
  {
    var r := ToRoman(k);
    var n := PlanetName(system, k);
    assert |n| > |system| + 1;
    RomanAlphabet(k);
    assert n[|n| - 1] == r[|r| - 1];
    assert r[|r| - 1] in RomanLetters;
  }

  /** No planet line is the station's line. */
  lemma {:induction false} PlanetsNoStation(system: string, bodies: seq<Body>)
    requires forall i :: 0 <= i < |bodies| ==> NamedAfter(system, bodies[i].name)
    ensures CountIf(PlanetsLines(bodies), StationOf(system)) == 0
  {
    if |bodies| > 0 {
      var b := bodies[0];
      var head := [ObjectLine(1, b.name), SpriteLine(2, b.sprite), DistanceLine(2, b.distance), PeriodLine(2, b.period)];
      if b.name.Some? {
        var k: nat :| k >= 1 && b.name.value == PlanetName(system, k);
        PlanetNotStation(system, k);
      }
      BlockCount(head, StationOf(system));
      MoonsParts(b.moons);
      assert forall i :: 0 <= i < |MoonsLines(b.moons)| ==> !IsStation(system, MoonsLines(b.moons)[i]) by {
        MoonsOnlyNested(b.moons);
      }
      CountIfNone(MoonsLines(b.moons), StationOf(system));
      CountIfAppend(head, MoonsLines(b.moons), StationOf(system));
      assert PlanetLines(b) == head + MoonsLines(b.moons);
      CountIfAppend(PlanetLines(b), PlanetsLines(bodies[1..]), StationOf(system));
      PlanetsNoStation(system, bodies[1..]);
    }
  }

  /** Moon blocks hold no top-level object. */
  lemma {:induction false} MoonsOnlyNested(moons: seq<Moon>)
    ensures forall i :: 0 <= i < |MoonsLines(moons)| ==>
              !(MoonsLines(moons)[i].ObjectLine? && MoonsLines(moons)[i].depth == 1)
  {
    if |moons| > 0 {
      MoonsOnlyNested(moons[1..]);
      var a, b := MoonLines(moons[0]), MoonsLines(moons[1..]);
      assert forall i :: 0 <= i < |a + b| ==> (a + b)[i] == if i < |a| then a[i] else b[i - |a|];
    }
  }

  /** Star blocks are unnamed. */
  lemma {:induction false} StarsNoStation(system: string, stars: seq<StarBody>)
    ensures CountIf(StarsLines(stars), StationOf(system)) == 0
  {
    if |stars| > 0 {
      BlockCount(StarLines(stars[0]), StationOf(system));
      CountIfAppend(StarLines(stars[0]), StarsLines(stars[1..]), StationOf(system));
      StarsNoStation(system, stars[1..]);
    }
  }

  /** When every planet name is the system's name and a numeral, the
      definition holds exactly one station line. */
  lemma RenderStation(sys: SystemDef)
    requires forall i :: 0 <= i < |sys.planets| ==> NamedAfter(sys.name, sys.planets[i].name)
    ensures CountIf(RenderSystem(sys), StationOf(sys.name)) == 1
  {
    var pre := Header(sys) + AsteroidLines(sys.asteroids) + MinableLines(sys.minables)
                 + TradeLinesOf(sys.trade) + FleetLines(sys.fleets);
    var st, pl, sn := StarsLines(sys.stars), PlanetsLines(sys.planets), StationLines(sys.name, sys.station);
    assert RenderSystem(sys) == pre + (st + pl + sn);
    PreambleObjects(sys, StationOf(sys.name));
    StarsNoStation(sys.name, sys.stars);
    PlanetsNoStation(sys.name, sys.planets);
    BlockCount(sn, StationOf(sys.name));
    CountIfAppend(pre, st + pl + sn, StationOf(sys.name));
    CountIfAppend(st + pl, sn, StationOf(sys.name));
    CountIfAppend(st, pl, StationOf(sys.name));
  }

  // ---------------------------------------------------------------- the generator's output

  /** The definition the generator writes for a row opens with the
      `system` line of the name the row chose, and has one top-level
      object per star (two for a binary), one per planet object and one
      station; exactly one station line; one trade line per good; and the
      three fleets. */
  lemma GeneratedDefinition(src: Source, g: Cursor, t: Tables, scaleOf: nat -> real, row: Row, counter: Counter)
    requires Usable(t)
    ensures var sys := Generate(src, g, t, scaleOf, row, counter).system;
            var lines := RenderSystem(sys);
            && |lines| > 0 && lines[0] == SystemLine(SystemName(row.names, counter).0.name)
            && CountIf(lines, TopObject) == (if row.binary > 0.5 then 2 else 1) + |sys.planets| + 1
            && CountIf(lines, StationOf(sys.name)) == 1
            && |Filter(lines, IsTrade)| == |t.goods|
            && Filter(lines, IsFleet) == FleetLines(Fleets)
  {
    var r := Generate(src, g, t, scaleOf, row, counter);
    var sys := r.system;
    RenderObjects(sys);
    RenderTrade(sys);
    RenderFleets(sys);
    EntriesNamed(sys.name, t.classes, r.landable, r.spawned, 1);
    var ps := PlanetStage(src, r.planetsAt, t, sys.name, r.scale).value;
    RenderStation(sys);
    OpensWithName(sys);
  }

  /** A rendered definition starts with its `system` line. */
  lemma OpensWithName(sys: SystemDef)
    ensures |RenderSystem(sys)| > 0 && RenderSystem(sys)[0] == SystemLine(sys.name)
  {
  }
}
