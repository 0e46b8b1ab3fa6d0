/** Which generated planets are landable, what the landable ones are
    called, and how much habitability they add to the system. */
module Landing {
  import opened Common
  import opened SkyData
  import opened Planets
  import opened Naming

  // ---------------------------------------------------------------- the class table

  /** `planet_classes[id]`: the first class with the id, if any. */
  function Lookup(classes: seq<PlanetClass>, id: string): (r: Option<PlanetClass>)
    ensures r.Some? ==> r.value in classes && r.value.id == id
    ensures r.None? ==> forall i :: 0 <= i < |classes| ==> classes[i].id != id
  {
    if |classes| == 0 then None
    else if classes[0].id == id then Some(classes[0])
    else Lookup(classes[1..], id)
  }

  // ---------------------------------------------------------------- landability

  /** The classes landable whatever their habitability. */
  const Favoured: seq<string> := ["M", "G", "L"]

  /** The landing rule: the class is in the table, and its base
      habitability reaches 3000 or it is one of M, G and L. */
  predicate Qualifies(classes: seq<PlanetClass>, p: Planet) {
    match Lookup(classes, p.cls)
    case None => false
    case Some(c) => c.habitability >= 3000 || p.cls in Favoured
  }

  /** The qualifying planets, in order. */
  function Qualifying(classes: seq<PlanetClass>, planets: seq<Planet>): (r: seq<Planet>)
    ensures forall i :: 0 <= i < |r| ==> r[i] in planets && Qualifies(classes, r[i])
  {
    if |planets| == 0 then []
    else
      var rest := Qualifying(classes, planets[1..]);
      if Qualifies(classes, planets[0]) then [planets[0]] + rest else rest
  }

  lemma {:induction false} QualifyingComplete(classes: seq<PlanetClass>, planets: seq<Planet>, p: Planet)
    requires p in planets && Qualifies(classes, p)
    ensures p in Qualifying(classes, planets)
  {
    if planets[0] != p {
      QualifyingComplete(classes, planets[1..], p);
    }
  }

  /** `landable_planets`: the qualifying planets, or, when none qualifies
      and there is a planet at all, the first planet. */
  function Landable(classes: seq<PlanetClass>, planets: seq<Planet>): (r: seq<Planet>)
    ensures forall i :: 0 <= i < |r| ==> r[i] in planets
  {
    var q := Qualifying(classes, planets);
    if |q| == 0 && |planets| > 0 then [planets[0]] else q
  }

  /** A planet is landable exactly when it qualifies, or when nothing
      qualifies and it is the first planet. */
  lemma LandableMeans(classes: seq<PlanetClass>, planets: seq<Planet>, p: Planet)
    ensures p in Landable(classes, planets) <==>
              || (p in planets && Qualifies(classes, p))
              || (|planets| > 0 && p == planets[0] && forall i :: 0 <= i < |planets| ==> !Qualifies(classes, planets[i]))
  {
    var q := Qualifying(classes, planets);
    if p in planets && Qualifies(classes, p) {
      QualifyingComplete(classes, planets, p);
    }
    if |q| > 0 {
      assert q[0] in planets && Qualifies(classes, q[0]);
    } else {
      forall i | 0 <= i < |planets| ensures !Qualifies(classes, planets[i]) {
        if Qualifies(classes, planets[i]) {
          QualifyingComplete(classes, planets, planets[i]);
        }
      }
    }
  }

  /** There is a landable planet exactly when there is a planet. */
  lemma LandableExists(classes: seq<PlanetClass>, planets: seq<Planet>)
    ensures |Landable(classes, planets)| > 0 <==> |planets| > 0
  {
    var q := Qualifying(classes, planets);
    if |q| > 0 {
      assert q[0] in planets;
    }
  }

  /** With the generator's class table the M/G/L exception changes nothing:
      M, G and L all have base habitability of at least 3000, so a planet
      qualifies exactly when its class is in the table with habitability
      3000 or more. */
  lemma QualifiesByHabitability(p: Planet)
    ensures Qualifies(PlanetClasses(), p) <==>
              Lookup(PlanetClasses(), p.cls).Some? && Lookup(PlanetClasses(), p.cls).value.habitability >= 3000
  {
    var r := Lookup(PlanetClasses(), p.cls);
    if r.Some? {
      HabitableClasses();
      var i :| 0 <= i < |PlanetClasses()| && PlanetClasses()[i] == r.value;
      if p.cls in Favoured {
        assert PlanetClasses()[i].id in {"G", "H", "K", "L", "M", "O", "R"};
      }
    }
  }

  // ---------------------------------------------------------------- names

  /** A planet in the table, as the naming loop sees it: its class and, if
      it is landable, its name. */
  datatype Entry = Entry(planet: Planet, cls: PlanetClass, name: Option<string>)

  /** The name of the `idx`-th processed planet of a system. */
  function PlanetName(system: string, idx: nat): (r: string)
    ensures |r| > |system| + 1 <==> idx > 0
  {
    system + "-" + ToRoman(idx)
  }

  /** The naming loop: planets whose class is not in the table are skipped;
      `idx` counts the processed planets from 1, and a landable planet is
      named after its index (membership in `landable` is by value). */
  function Entries(system: string, classes: seq<PlanetClass>, landable: seq<Planet>, planets: seq<Planet>, idx: nat)
    : (r: seq<Entry>)
    ensures |r| <= |planets|
    ensures forall i :: 0 <= i < |r| ==> r[i].planet in planets && r[i].cls in classes && r[i].cls.id == r[i].planet.cls
    ensures forall i :: 0 <= i < |r| ==> (r[i].name.Some? <==> r[i].planet in landable)
  {
    if |planets| == 0 then []
    else
      var p := planets[0];
      match Lookup(classes, p.cls)
      case None => Entries(system, classes, landable, planets[1..], idx)
      case Some(c) =>
        var name := if p in landable then Some(PlanetName(system, idx)) else None;
        [Entry(p, c, name)] + Entries(system, classes, landable, planets[1..], idx + 1)
  }

  /** The name, if any, is the system's name, a dash and a numeral of a
      positive index. */
  ghost predicate NamedAfter(system: string, name: Option<string>) {
    name.Some? ==> exists k: nat :: k >= 1 && name.value == PlanetName(system, k)
  }

  /** With the index starting at 1 or later, every name the loop gives
      is of that form. */
  lemma {:induction false} EntriesNamed(system: string, classes: seq<PlanetClass>, landable: seq<Planet>,
                                        planets: seq<Planet>, idx: nat)
    requires idx >= 1
    ensures forall i :: 0 <= i < |Entries(system, classes, landable, planets, idx)| ==>
              NamedAfter(system, Entries(system, classes, landable, planets, idx)[i].name)
  {
    if |planets| > 0 {
      var p := planets[0];
      match Lookup(classes, p.cls)
      case None =>
        EntriesNamed(system, classes, landable, planets[1..], idx);
      case Some(c) =>
        EntriesNamed(system, classes, landable, planets[1..], idx + 1);
        var r := Entries(system, classes, landable, planets, idx);
        var rest := Entries(system, classes, landable, planets[1..], idx + 1);
        assert r == [r[0]] + rest;
        assert NamedAfter(system, r[0].name) by {
          if p in landable {
            assert r[0].name.value == PlanetName(system, idx);
          }
        }
        forall i | 0 < i < |r| ensures NamedAfter(system, r[i].name) {
          assert r[i] == rest[i - 1];
        }
    }
  }

  /** Every planet is in the table: nothing is skipped. */
  predicate AllListed(classes: seq<PlanetClass>, planets: seq<Planet>) {
    forall i :: 0 <= i < |planets| ==> Lookup(classes, planets[i].cls).Some?
  }

  /** When nothing is skipped, the i-th entry is the i-th planet, and a
      landable one is called `{system}-{roman(start + i)}`: the index counts
      every planet. */
  lemma {:induction false} EntriesIndexed(system: string, classes: seq<PlanetClass>, landable: seq<Planet>,
                                          planets: seq<Planet>, start: nat, i: nat)
    requires AllListed(classes, planets) && i < |planets|
    ensures |Entries(system, classes, landable, planets, start)| == |planets|
    ensures Entries(system, classes, landable, planets, start)[i].planet == planets[i]
    ensures planets[i] in landable ==>
              Entries(system, classes, landable, planets, start)[i].name == Some(PlanetName(system, start + i))
    decreases |planets|
  {
    if i == 0 {
      if |planets| > 1 {
        EntriesIndexed(system, classes, landable, planets[1..], start + 1, 0);
      }
    } else {
      assert planets[1..][i - 1] == planets[i];
      EntriesIndexed(system, classes, landable, planets[1..], start + 1, i - 1);
    }
  }

  /** The naming loop over a system's planets when all are listed: one
      entry per planet, in order; the i-th is named exactly when it is
      landable, and then after index i + 1; and some entry is named
      whenever there is a planet. */
  lemma NamedEntries(system: string, classes: seq<PlanetClass>, planets: seq<Planet>)
    requires AllListed(classes, planets)
    ensures var es := Entries(system, classes, Landable(classes, planets), planets, 1);
            && |es| == |planets|
            && (forall i :: 0 <= i < |planets| ==> (es[i].name.Some? <==> planets[i] in Landable(classes, planets)))
            && (forall i :: 0 <= i < |planets| && planets[i] in Landable(classes, planets) ==>
                  es[i].name == Some(PlanetName(system, i + 1)))
            && (|planets| > 0 ==> exists i :: 0 <= i < |planets| && es[i].name.Some?)
  {
    var landable := Landable(classes, planets);
    var es := Entries(system, classes, landable, planets, 1);
    forall i | 0 <= i < |planets|
      ensures |es| == |planets| && es[i].planet == planets[i]
      ensures planets[i] in landable ==> es[i].name == Some(PlanetName(system, i + 1))
    {
      EntriesIndexed(system, classes, landable, planets, 1, i);
    }
    if |planets| > 0 {
      LandableExists(classes, planets);
      var k :| 0 <= k < |planets| && planets[k] == landable[0];
      assert es[k].name.Some?;
    }
  }

  /** Distinct indices give distinct planet names: the numeral decodes back
      to its index. */
  lemma PlanetNamesDistinct(system: string, a: nat, b: nat)
    requires a != b
    ensures PlanetName(system, a) != PlanetName(system, b)
  {
    var ra, rb := ToRoman(a), ToRoman(b);
    RomanRoundTrip(a);
    RomanRoundTrip(b);
    var n := |system| + 1;
    assert PlanetName(system, a)[n..] == ra;
    assert PlanetName(system, b)[n..] == rb;
  }

  // ---------------------------------------------------------------- habitability

  /** What the loop adds to `total_habitability`: the base habitability of
      every named (landable) entry. */
  function Landed(entries: seq<Entry>): (h: nat)
    ensures h == 0 <== forall i :: 0 <= i < |entries| ==> entries[i].name.None?
  {
    if |entries| == 0 then 0
    else (if entries[0].name.Some? then entries[0].cls.habitability else 0) + Landed(entries[1..])
  }

  /** The sum of the base habitabilities of the listed planets that are
      landable, read straight off the planets. */
  function LandableHabitability(classes: seq<PlanetClass>, landable: seq<Planet>, planets: seq<Planet>): nat {
    if |planets| == 0 then 0
    else
      var h := match Lookup(classes, planets[0].cls)
               case Some(c) => if planets[0] in landable then c.habitability else 0
               case None => 0;
      h + LandableHabitability(classes, landable, planets[1..])
  }

  /** The loop's running total is that sum, whatever the starting index. */
  lemma {:induction false} LandedIsSum(system: string, classes: seq<PlanetClass>, landable: seq<Planet>,
                                       planets: seq<Planet>, idx: nat)
    ensures Landed(Entries(system, classes, landable, planets, idx)) == LandableHabitability(classes, landable, planets)
  {
    if |planets| > 0 {
      LandedIsSum(system, classes, landable, planets[1..], idx);
      LandedIsSum(system, classes, landable, planets[1..], idx + 1);
    }
  }
}
