/** The topology assembler: an authored table of systems and links becomes
    a name-keyed graph in two passes over the rows.  The first pass makes
    one system per distinct trimmed name and lets later rows overwrite its
    position, government and star; the second adds each row's links without
    repeats, creating a placeholder for every target not yet known. */
module Topology {
  import opened Common
  import opened Text

  // ---------------------------------------------------------------- records

  /** A row of the authored table: `Name_two`, `x`, `y`, `government`,
      `star` and `links`; an absent optional column reads as empty. */
  datatype Row = Row(name: string, x: string, y: string, government: string, star: string, links: string)

  /** `System`: a name, an optional star and government, an optional
      integer position, and the names it links to. */
  datatype System = System(name: string, star: Option<string>, government: Option<string>,
                           pos: Option<(int, int)>, links: seq<string>)

  /** A freshly made system: nothing but its name. */
  function Placeholder(name: string): System {
    System(name, None, None, None, [])
  }

  /** The name-to-system dictionary, with its insertion order. */
  datatype Registry = Registry(order: seq<string>, systems: map<string, System>)

  /** The order lists each key once, and each system is filed under its
      own name. */
  ghost predicate Valid(reg: Registry) {
    && NoDups(reg.order)
    && (forall k :: k in reg.systems <==> k in reg.order)
    && (forall k :: k in reg.systems ==> reg.systems[k].name == k)
  }

  const Empty: Registry := Registry([], map[])

  /** `if name not in systems: systems[name] = System(name)`. */
  function Ensure(reg: Registry, name: string): (r: Registry)
    requires Valid(reg)
    ensures Valid(r)
    ensures forall k :: k in r.systems <==> k in reg.systems || k == name
    ensures forall k :: k in reg.systems ==> r.systems[k] == reg.systems[k]
    ensures name !in reg.systems ==> r.systems[name] == Placeholder(name)
    ensures r.order == if name in reg.systems then reg.order else reg.order + [name]
  {
    if name in reg.systems then reg
    else
      var order := reg.order + [name];
      assert forall i :: 0 <= i < |reg.order| ==> order[i] == reg.order[i] && order[i] != name;
      Registry(order, reg.systems[name := Placeholder(name)])
  }

  /** `systems[name] = s` for a known name. */
  function Update(reg: Registry, name: string, s: System): (r: Registry)
    requires Valid(reg) && name in reg.systems && s.name == name
    ensures Valid(r) && r.order == reg.order
    ensures forall k :: k in r.systems <==> k in reg.systems
    ensures forall k :: k in reg.systems && k != name ==> r.systems[k] == reg.systems[k]
    ensures r.systems[name] == s
  {
    Registry(reg.order, reg.systems[name := s])
  }

  // ---------------------------------------------------------------- the first pass

  /** `(int(row["x"]), int(row["y"]))`, or nothing when either fails. */
  function Position(row: Row): (p: Option<(int, int)>)
    ensures p.Some? <==> ParseInt(row.x).Some? && ParseInt(row.y).Some?
    ensures p.Some? ==> p.value == (ParseInt(row.x).value, ParseInt(row.y).value)
  {
    match (ParseInt(row.x), ParseInt(row.y))
    case (Some(x), Some(y)) => Some((x, y))
    case _ => None
  }

  /** The government a row sets: its trimmed cell, if the cell is not
      empty. */
  function GovernmentOf(row: Row): Option<string> {
    if row.government != "" then Some(Strip(row.government)) else None
  }

  /** The star a row sets: its trimmed cell, if the cell is not empty. */
  function StarOf(row: Row): Option<string> {
    if row.star != "" then Some(Strip(row.star)) else None
  }

  /** The key a row is filed under. */
  function Key(row: Row): string {
    Strip(row.name)
  }

  /** One row of the first pass. */
  function FirstRow(reg: Registry, row: Row): (r: Registry)
    requires Valid(reg)
    ensures Valid(r)
    ensures forall k :: k in r.systems <==> k in reg.systems || k == Key(row)
    ensures forall k :: k in reg.systems && k != Key(row) ==> r.systems[k] == reg.systems[k]
    ensures var s := if Key(row) in reg.systems then reg.systems[Key(row)] else Placeholder(Key(row));
            r.systems[Key(row)] == s.(pos := if Position(row).Some? then Position(row) else s.pos,
                                      government := if GovernmentOf(row).Some? then GovernmentOf(row) else s.government,
                                      star := if StarOf(row).Some? then StarOf(row) else s.star)
  {
    var name := Key(row);
    var r := Ensure(reg, name);
    var s := r.systems[name];
    var pos := if Position(row).Some? then Position(row) else s.pos;
    var government := if GovernmentOf(row).Some? then GovernmentOf(row) else s.government;
    var star := if StarOf(row).Some? then StarOf(row) else s.star;
    Update(r, name, s.(pos := pos, government := government, star := star))
  }

  /** The first pass over all rows, in order. */
  function FirstPass(rows: seq<Row>): (r: Registry)
    ensures Valid(r)
    decreases |rows|
  {
    if |rows| == 0 then Empty else FirstRow(FirstPass(rows[..|rows| - 1]), rows[|rows| - 1])
  }

  /** The trimmed names of the rows. */
  function Names(rows: seq<Row>): set<string>
    decreases |rows|
  {
    if |rows| == 0 then {} else Names(rows[..|rows| - 1]) + {Key(rows[|rows| - 1])}
  }

  /** Every row's trimmed name is among the names. */
  lemma {:induction false} NamesHas(rows: seq<Row>, i: nat)
    requires i < |rows|
    ensures Key(rows[i]) in Names(rows)
    decreases |rows|
  {
    if i < |rows| - 1 {
      assert rows[..|rows| - 1][i] == rows[i];
      NamesHas(rows[..|rows| - 1], i);
    }
  }

  /** The value the last row of the name that sets one sets, if any. */
  function Latest<T>(rows: seq<Row>, k: string, f: Row -> Option<T>): (v: Option<T>)
    decreases |rows|
  {
    if |rows| == 0 then None
    else
      var last := rows[|rows| - 1];
      if Key(last) == k && f(last).Some? then f(last) else Latest(rows[..|rows| - 1], k, f)
  }

  /** A name no row has is set by none. */
  lemma {:induction false} LatestAbsent<T>(rows: seq<Row>, k: string, f: Row -> Option<T>)
    requires k !in Names(rows)
    ensures Latest(rows, k, f) == None
    decreases |rows|
  {
    if |rows| > 0 {
      LatestAbsent(rows[..|rows| - 1], k, f);
    }
  }

  /** The first pass makes exactly one system per distinct trimmed name,
      without links; its position, government and star are those set by
      the last row of the name that sets them. */
  lemma {:induction false} FirstPassSystems(rows: seq<Row>, k: string)
    ensures k in FirstPass(rows).systems <==> k in Names(rows)
    ensures k in Names(rows) ==>
              FirstPass(rows).systems[k] == System(k, Latest(rows, k, StarOf), Latest(rows, k, GovernmentOf),
                                                   Latest(rows, k, Position), [])
    decreases |rows|
  {
    if |rows| > 0 {
      var init, last := rows[..|rows| - 1], rows[|rows| - 1];
      FirstPassSystems(init, k);
      var before := FirstPass(init);
      assert FirstPass(rows) == FirstRow(before, last);
      assert Names(rows) == Names(init) + {Key(last)};
      if k == Key(last) {
        if k !in Names(init) {
          LatestAbsent(init, k, StarOf);
          LatestAbsent(init, k, GovernmentOf);
          LatestAbsent(init, k, Position);
        }
        assert Latest(rows, k, StarOf) == if StarOf(last).Some? then StarOf(last) else Latest(init, k, StarOf);
        assert Latest(rows, k, GovernmentOf) ==
               if GovernmentOf(last).Some? then GovernmentOf(last) else Latest(init, k, GovernmentOf);
        assert Latest(rows, k, Position) == if Position(last).Some? then Position(last) else Latest(init, k, Position);
      } else {
        assert Latest(rows, k, StarOf) == Latest(init, k, StarOf);
        assert Latest(rows, k, GovernmentOf) == Latest(init, k, GovernmentOf);
        assert Latest(rows, k, Position) == Latest(init, k, Position);
      }
    }
  }

  // ---------------------------------------------------------------- the second pass

  /** The stripped names of a non-empty links cell. */
  function Items(cell: string): seq<string> {
    MapSeq(Split(cell, ','), Strip)
  }

  /** `ts` appended one by one, each only if not already there. */
  function AppendNew(l: seq<string>, ts: seq<string>): (r: seq<string>)
    ensures forall x :: x in r <==> x in l || x in ts
    ensures NoDups(l) ==> NoDups(r)
    decreases |ts|
  {
    if |ts| == 0 then l
    else
      var l' := if ts[0] in l then l else l + [ts[0]];
      assert NoDups(l) ==> NoDups(l') by {
        if NoDups(l) && ts[0] !in l {
          assert forall i :: 0 <= i < |l| ==> l'[i] == l[i];
        }
      }
      AppendNew(l', ts[1..])
  }

  /** Appending the new ones of `ts` to the distinct values of `s` gives
      the distinct values of `s + ts`, in order of first appearance. */
  lemma {:induction false} AppendNewUnique(s: seq<string>, ts: seq<string>)
    ensures AppendNew(Unique(s), ts) == Unique(s + ts)
    decreases |ts|
  {
    if |ts| > 0 {
      var s' := s + [ts[0]];
      UniqueSnoc(s, ts[0]);
      assert AppendNew(Unique(s), ts) == AppendNew(Unique(s'), ts[1..]);
      AppendNewUnique(s', ts[1..]);
      ShiftHead(s, ts);
    } else {
      assert s + ts == s;
    }
  }

  /** Appending the new ones of `ts` to nothing keeps their distinct
      values. */
  lemma AppendNewEmpty(ts: seq<string>)
    ensures AppendNew([], ts) == Unique(ts)
  {
    AppendNewUnique([], ts);
    assert [] + ts == ts;
  }

  /** One link of a row: the target is made known, then added to the row's
      system unless already there. */
  function AddLink(reg: Registry, name: string, t: string): (r: Registry)
    requires Valid(reg) && name in reg.systems
    ensures Valid(r)
    ensures forall k :: k in r.systems <==> k in reg.systems || k == t
    ensures forall k :: k in reg.systems && k != name ==> r.systems[k] == reg.systems[k]
    ensures t !in reg.systems ==> r.systems[t] == Placeholder(t)
    ensures r.systems[name] == reg.systems[name].(links := AppendNew(reg.systems[name].links, [t]))
  {
    var r := Ensure(reg, t);
    var s := r.systems[name];
    if t in s.links then r else Update(r, name, s.(links := s.links + [t]))
  }

  /** All links of a row, in order. */
  function AddLinks(reg: Registry, name: string, ts: seq<string>): (r: Registry)
    requires Valid(reg) && name in reg.systems
    ensures Valid(r)
    ensures forall k :: k in r.systems <==> k in reg.systems || k in ts
    ensures forall k :: k in reg.systems && k != name ==> r.systems[k] == reg.systems[k]
    ensures forall k :: k in r.systems && k !in reg.systems ==> r.systems[k] == Placeholder(k)
    ensures r.systems[name] == reg.systems[name].(links := AppendNew(reg.systems[name].links, ts))
    decreases |ts|
  {
    if |ts| == 0 then reg
    else
      var r := AddLink(reg, name, ts[0]);
      var l := reg.systems[name].links;
      assert AppendNew(l, [ts[0]]) == if ts[0] in l then l else l + [ts[0]];
      AddLinks(r, name, ts[1..])
  }

  /** The link names a row gives its own system: its items, or none for
      an empty cell or a row of another name. */
  function Here(row: Row, k: string): seq<string> {
    if Key(row) == k && row.links != "" then Items(row.links) else []
  }

  /** The link names a row gives any system. */
  function RowItems(row: Row): set<string> {
    if row.links != "" then set x | x in Items(row.links) else {}
  }

  /** One row of the second pass: `systems[name]` raises when the name is
      unknown; an empty links cell adds nothing. Otherwise the row's system
      gains the new names of its items, each item becomes a key, and
      nothing else changes. */
  function SecondRow(reg: Registry, row: Row): (r: Option<Registry>)
    requires Valid(reg)
    ensures r.Some? <==> Key(row) in reg.systems
    ensures r.Some? ==> Valid(r.value)
    ensures r.Some? ==> forall k :: k in r.value.systems <==> k in reg.systems || k in RowItems(row)
    ensures r.Some? ==> forall k :: k in reg.systems && k != Key(row) ==> r.value.systems[k] == reg.systems[k]
    ensures r.Some? ==> var s := reg.systems[Key(row)];
              r.value.systems[Key(row)] == s.(links := AppendNew(s.links, Here(row, Key(row))))
    ensures r.Some? ==> forall k :: k in r.value.systems && k !in reg.systems ==> r.value.systems[k] == Placeholder(k)
  {
    var name := Key(row);
    if name !in reg.systems then None
    else if row.links == "" then Some(reg)
    else Some(AddLinks(reg, name, Items(row.links)))
  }

  /** The second pass over all rows, in order; it stops at the first
      failure. */
  function SecondPass(reg: Registry, rows: seq<Row>): (r: Option<Registry>)
    requires Valid(reg)
    ensures r.Some? ==> Valid(r.value)
    decreases |rows|
  {
    if |rows| == 0 then Some(reg)
    else
      match SecondRow(reg, rows[0])
      case None => None
      case Some(r) => SecondPass(r, rows[1..])
  }

  /** The link names the rows of a name give, in row order. */
  function LinkItems(rows: seq<Row>, k: string): seq<string> {
    if |rows| == 0 then [] else Here(rows[0], k) + LinkItems(rows[1..], k)
  }

  /** The link names of all rows. */
  function AllItems(rows: seq<Row>): set<string> {
    if |rows| == 0 then {} else RowItems(rows[0]) + AllItems(rows[1..])
  }

  /** Every row's name is known. */
  ghost predicate Known(reg: Registry, rows: seq<Row>) {
    forall i :: 0 <= i < |rows| ==> Key(rows[i]) in reg.systems
  }

  /** A row with a known name hands its result to the rest of the pass. */
  lemma SecondPassStep(reg: Registry, rows: seq<Row>)
    requires Valid(reg) && |rows| > 0 && Key(rows[0]) in reg.systems
    ensures SecondPass(reg, rows) == SecondPass(SecondRow(reg, rows[0]).value, rows[1..])
  {
  }

  /** The rest of the rows stay known once the first is processed. */
  lemma KnownTail(reg: Registry, r: Registry, rows: seq<Row>)
    requires Known(reg, rows) && |rows| > 0
    requires forall k :: k in reg.systems ==> k in r.systems
    ensures Known(r, rows[1..])
  {
    assert forall i :: 0 <= i < |rows| - 1 ==> rows[1..][i] == rows[i + 1];
  }

  /** When every row's name is known, the second pass succeeds, and its keys
      are the known names and the link names. */
  lemma {:induction false} SecondPassKeys(reg: Registry, rows: seq<Row>)
    requires Valid(reg) && Known(reg, rows)
    ensures SecondPass(reg, rows).Some?
    ensures forall k :: k in SecondPass(reg, rows).value.systems <==> k in reg.systems || k in AllItems(rows)
    decreases |rows|
  {
    if |rows| > 0 {
      var r := SecondRow(reg, rows[0]).value;
      KnownTail(reg, r, rows);
      SecondPassKeys(r, rows[1..]);
    }
  }

  /** A known system gains the new names of its rows' links, in order. */
  lemma {:induction false} SecondPassKept(reg: Registry, rows: seq<Row>, k: string)
    requires Valid(reg) && Known(reg, rows) && k in reg.systems
    ensures SecondPass(reg, rows).Some? && k in SecondPass(reg, rows).value.systems
    ensures SecondPass(reg, rows).value.systems[k] ==
              reg.systems[k].(links := AppendNew(reg.systems[k].links, LinkItems(rows, k)))
    decreases |rows|
  {
    if |rows| > 0 {
      var r := SecondRow(reg, rows[0]).value;
      KnownTail(reg, r, rows);
      var s := reg.systems[k];
      SecondRowKept(reg, rows[0], k);
      SecondPassKept(r, rows[1..], k);
      SecondPassStep(reg, rows);
      AppendNewAppend(s.links, Here(rows[0], k), LinkItems(rows[1..], k));
    }
  }

  /** One row adds its new link names to a known system, and only when the
      row is filed under that system. */
  lemma SecondRowKept(reg: Registry, row: Row, k: string)
    requires Valid(reg) && Key(row) in reg.systems && k in reg.systems
    ensures SecondRow(reg, row).Some? && k in SecondRow(reg, row).value.systems
    ensures var s := reg.systems[k];
            SecondRow(reg, row).value.systems[k] == s.(links := AppendNew(s.links, Here(row, k)))
  {
    var s := reg.systems[k];
    if k != Key(row) {
      assert Here(row, k) == [] && AppendNew(s.links, []) == s.links;
    }
  }

  /** Every system the second pass creates is a placeholder: no row is
      filed under its name. */
  lemma {:induction false} SecondPassFresh(reg: Registry, rows: seq<Row>, k: string)
    requires Valid(reg) && Known(reg, rows) && k !in reg.systems
    ensures SecondPass(reg, rows).Some?
    ensures k in SecondPass(reg, rows).value.systems ==> SecondPass(reg, rows).value.systems[k] == Placeholder(k)
    decreases |rows|
  {
    if |rows| > 0 {
      var r := SecondRow(reg, rows[0]).value;
      KnownTail(reg, r, rows);
      SecondPassStep(reg, rows);
      if k in r.systems {
        StrangerTail(reg, rows, k);
        PlaceholderStays(r, rows[1..], k);
      } else {
        SecondPassFresh(r, rows[1..], k);
      }
    }
  }

  /** No row is filed under a name the registry does not know. */
  lemma StrangerTail(reg: Registry, rows: seq<Row>, k: string)
    requires Known(reg, rows) && k !in reg.systems && |rows| > 0
    ensures forall i :: 0 <= i < |rows[1..]| ==> Key(rows[1..][i]) != k
  {
    assert forall i :: 0 <= i < |rows| - 1 ==> rows[1..][i] == rows[i + 1];
  }

  /** A placeholder no row is filed under stays a placeholder. */
  lemma PlaceholderStays(reg: Registry, rows: seq<Row>, k: string)
    requires Valid(reg) && Known(reg, rows) && k in reg.systems && reg.systems[k] == Placeholder(k)
    requires forall i :: 0 <= i < |rows| ==> Key(rows[i]) != k
    ensures SecondPass(reg, rows).Some? && k in SecondPass(reg, rows).value.systems
    ensures SecondPass(reg, rows).value.systems[k] == Placeholder(k)
  {
    SecondPassKept(reg, rows, k);
    NoItemsForStranger(rows, k);
  }

  /** Rows of other names give a name no links. */
  lemma {:induction false} NoItemsForStranger(rows: seq<Row>, k: string)
    requires forall i :: 0 <= i < |rows| ==> Key(rows[i]) != k
    ensures LinkItems(rows, k) == []
    ensures forall l :: AppendNew(l, LinkItems(rows, k)) == l
    decreases |rows|
  {
    if |rows| > 0 {
      NoItemsForStranger(rows[1..], k);
    }
  }

  lemma {:induction false} AppendNewAppend(l: seq<string>, a: seq<string>, b: seq<string>)
    ensures AppendNew(l, a + b) == AppendNew(AppendNew(l, a), b)
    decreases |a|
  {
    if |a| == 0 {
      assert a + b == b;
    } else {
      assert (a + b)[1..] == a[1..] + b;
      var l' := if a[0] in l then l else l + [a[0]];
      AppendNewAppend(l', a[1..], b);
    }
  }

  // ---------------------------------------------------------------- loading

  /** `load_systems_from_csv` on the rows read. */
  function Load(rows: seq<Row>): Option<Registry> {
    SecondPass(FirstPass(rows), rows)
  }

  /** The first pass knows every row's name. */
  lemma FirstPassKnown(rows: seq<Row>)
    ensures Known(FirstPass(rows), rows)
  {
    forall i | 0 <= i < |rows| ensures Key(rows[i]) in FirstPass(rows).systems {
      NamesHas(rows, i);
      FirstPassSystems(rows, Key(rows[i]));
    }
  }

  /** Loading never fails, since the first pass knows every row's name.
      The keys are the rows' trimmed names and their link names; each
      named system has the last position, government and star its rows set
      and the distinct names its rows link to, in order of first
      appearance; every other system is a placeholder. */
  lemma LoadSpec(rows: seq<Row>, k: string)
    ensures Load(rows).Some?
    ensures k in Load(rows).value.systems <==> k in Names(rows) || k in AllItems(rows)
    ensures k in Names(rows) ==>
              Load(rows).value.systems[k] == System(k, Latest(rows, k, StarOf), Latest(rows, k, GovernmentOf),
                                                     Latest(rows, k, Position), Unique(LinkItems(rows, k)))
    ensures k in Load(rows).value.systems && k !in Names(rows) ==> Load(rows).value.systems[k] == Placeholder(k)
  {
    var first := FirstPass(rows);
    FirstPassKnown(rows);
    FirstPassSystems(rows, k);
    SecondPassKeys(first, rows);
    if k in Names(rows) {
      SecondPassKept(first, rows, k);
      AppendNewEmpty(LinkItems(rows, k));
    } else {
      SecondPassFresh(first, rows, k);
    }
  }

  /** The loaded graph is closed: every link names a system of the map,
      and no system lists a link twice. */
  lemma LoadClosed(rows: seq<Row>, k: string, l: string)
    ensures Load(rows).Some?
    ensures k in Load(rows).value.systems ==> NoDups(Load(rows).value.systems[k].links)
    ensures k in Load(rows).value.systems && l in Load(rows).value.systems[k].links ==> l in Load(rows).value.systems
  {
    LoadSpec(rows, k);
    LoadSpec(rows, l);
    if k in Names(rows) && l in Load(rows).value.systems[k].links {
      LinkItemsAll(rows, k, l);
    }
  }

  /** Every link name of a row is among all link names. */
  lemma {:induction false} LinkItemsAll(rows: seq<Row>, k: string, l: string)
    requires l in LinkItems(rows, k)
    ensures l in AllItems(rows)
    decreases |rows|
  {
    if l !in Here(rows[0], k) {
      LinkItemsAll(rows[1..], k, l);
    }
  }

  // ---------------------------------------------------------------- serialising

  /** `to_dict()`: the position as a two-element list, or nothing. */
  datatype Record = Record(name: string, star: Option<string>, government: Option<string>,
                           pos: Option<seq<int>>, links: seq<string>)

  function ToDict(s: System): (d: Record)
    ensures d.pos.Some? <==> s.pos.Some?
    ensures s.pos.Some? ==> d.pos.value == [s.pos.value.0, s.pos.value.1]
    ensures d.name == s.name && d.star == s.star && d.government == s.government && d.links == s.links
  {
    Record(s.name, s.star, s.government, match s.pos case Some(p) => Some([p.0, p.1]) case None => None, s.links)
  }

  /** Reading a record back. */
  function FromDict(d: Record): Option<System> {
    match d.pos
    case None => Some(System(d.name, d.star, d.government, None, d.links))
    case Some(p) => if |p| == 2 then Some(System(d.name, d.star, d.government, Some((p[0], p[1])), d.links)) else None
  }

  /** Serialising loses nothing. */
  lemma DictRoundTrip(s: System)
    ensures FromDict(ToDict(s)) == Some(s)
  {
  }

  /** The exported list: one record per key, in insertion order. */
  function Export(reg: Registry): (out: seq<Record>)
    requires Valid(reg)
    ensures |out| == |reg.order|
    ensures forall i :: 0 <= i < |out| ==> out[i] == ToDict(reg.systems[reg.order[i]])
    ensures forall i, j :: 0 <= i < j < |out| ==> out[i].name != out[j].name
  {
    seq(|reg.order|, i requires 0 <= i < |reg.order| => ToDict(reg.systems[reg.order[i]]))
  }
}
