/** The link graph between gravity-well peaks: peaks are sorted into
    rivers, creeks and brooks by two force thresholds, and linked by
    Manhattan distance on the 2-D grid — every pair of close rivers, each
    creek to its nearest river, each brook to its nearest creek or river. */
module LinkMap {
  import opened Common

  /** A peak: its cell key, grid coordinates and gravitational force. */
  datatype Peak = Peak(key: string, x: int, y: int, g: real)

  /** One `G.add_edge(a, b, weight=w)` call. */
  datatype Edge = Edge(a: string, b: string, w: int)

  datatype Graph = Graph(nodes: set<string>, edges: seq<Edge>)

  function Abs(n: int): nat { if n < 0 then -n else n }

  /** `abs(x1 - x2) + abs(y1 - y2)`. */
  function Dist(p: Peak, q: Peak): nat { Abs(p.x - q.x) + Abs(p.y - q.y) }

  function Keys(peaks: seq<Peak>): seq<string> { MapSeq(peaks, (p: Peak) => p.key) }

  // ---------------------------------------------------------------- tiers

  predicate IsRiver(p: Peak, high: real) { p.g >= high }
  predicate IsCreek(p: Peak, med: real, high: real) { med <= p.g < high }
  predicate IsBrook(p: Peak, med: real) { p.g < med }

  function Rivers(peaks: seq<Peak>, high: real): seq<Peak> { Filter(peaks, (p: Peak) => IsRiver(p, high)) }
  function Creeks(peaks: seq<Peak>, med: real, high: real): seq<Peak> { Filter(peaks, (p: Peak) => IsCreek(p, med, high)) }
  function Brooks(peaks: seq<Peak>, med: real): seq<Peak> { Filter(peaks, (p: Peak) => IsBrook(p, med)) }

  /** With med <= high every peak is in exactly one tier, and the three
      tiers together have as many entries as there are peaks. */
  lemma {:induction false} TiersPartition(peaks: seq<Peak>, med: real, high: real)
    requires med <= high
    ensures forall p :: p in peaks ==>
              (IsRiver(p, high) && !IsCreek(p, med, high) && !IsBrook(p, med)) ||
              (!IsRiver(p, high) && IsCreek(p, med, high) && !IsBrook(p, med)) ||
              (!IsRiver(p, high) && !IsCreek(p, med, high) && IsBrook(p, med))
    ensures |Rivers(peaks, high)| + |Creeks(peaks, med, high)| + |Brooks(peaks, med)| == |peaks|
  {
    if |peaks| > 0 {
      TiersPartition(peaks[1..], med, high);
    }
  }

  // ---------------------------------------------------------------- rivers

  /** `e` is the edge the river loop adds for positions i < j. */
  predicate RiverEdge(rivers: seq<Peak>, i: int, j: int, e: Edge) {
    0 <= i < j < |rivers| && Dist(rivers[i], rivers[j]) < 50 &&
    e == Edge(rivers[i].key, rivers[j].key, Dist(rivers[i], rivers[j]))
  }

  /** The edges `(rivers[i], rivers[j])` for j from `j0` on, closer than 50. */
  function PairsFrom(rivers: seq<Peak>, i: nat, j0: nat): (es: seq<Edge>)
    requires i < |rivers| && j0 <= |rivers|
    ensures forall e :: e in es <==> exists j :: j0 <= j && i < j && RiverEdge(rivers, i, j, e)
    requires i < j0
    decreases |rivers| - j0
  {
    if j0 == |rivers| then []
    else
      var d := Dist(rivers[i], rivers[j0]);
      var rest := PairsFrom(rivers, i, j0 + 1);
      assert d < 50 ==> RiverEdge(rivers, i, j0, Edge(rivers[i].key, rivers[j0].key, d));
      (if d < 50 then [Edge(rivers[i].key, rivers[j0].key, d)] else []) + rest
  }

  /** The river loops from row `i0` on. */
  function RiverLinksFrom(rivers: seq<Peak>, i0: nat): (es: seq<Edge>)
    requires i0 <= |rivers|
    ensures forall e :: e in es <==> exists i, j :: i0 <= i && RiverEdge(rivers, i, j, e)
    decreases |rivers| - i0
  {
    if i0 == |rivers| then []
    else PairsFrom(rivers, i0, i0 + 1) + RiverLinksFrom(rivers, i0 + 1)
  }

  /** Some `add_edge` call in `es` joins `a` to `b`. */
  predicate Linked(es: seq<Edge>, a: string, b: string) {
    exists e :: e in es && e.a == a && e.b == b
  }

  /** Two different rivers (by position) are linked exactly when they are
      closer than 50: distance 49 links, distance 50 does not. */
  lemma RiverLinkIff(rivers: seq<Peak>, i: nat, j: nat)
    requires i < j < |rivers| && NoDups(Keys(rivers))
    ensures Linked(RiverLinksFrom(rivers, 0), rivers[i].key, rivers[j].key) <==> Dist(rivers[i], rivers[j]) < 50
  {
    var es := RiverLinksFrom(rivers, 0);
    if Dist(rivers[i], rivers[j]) < 50 {
      var e := Edge(rivers[i].key, rivers[j].key, Dist(rivers[i], rivers[j]));
      assert RiverEdge(rivers, i, j, e);
      assert e in es;
    } else if Linked(es, rivers[i].key, rivers[j].key) {
      var e :| e in es && e.a == rivers[i].key && e.b == rivers[j].key;
      RiverLinkPositions(rivers, i, j, e);
    }
  }

  /** A river edge names the two rivers it was added for. */
  lemma RiverLinkPositions(rivers: seq<Peak>, i: nat, j: nat, e: Edge)
    requires i < j < |rivers| && NoDups(Keys(rivers))
    requires e in RiverLinksFrom(rivers, 0) && e.a == rivers[i].key && e.b == rivers[j].key
    ensures RiverEdge(rivers, i, j, e)
  {
    var i', j' :| 0 <= i' && RiverEdge(rivers, i', j', e);
    KeyDeterminesPosition(rivers, i', i);
    KeyDeterminesPosition(rivers, j', j);
  }

  // ---------------------------------------------------------------- nearest

  /** Index of the first target at minimum distance from `p`: the loop keeps
      a candidate and replaces it only by a strictly closer one. */
  function Nearest(p: Peak, targets: seq<Peak>): (k: nat)
    requires |targets| > 0
    ensures k < |targets|
    ensures forall j :: 0 <= j < |targets| ==> Dist(p, targets[k]) <= Dist(p, targets[j])
    ensures forall j :: 0 <= j < k ==> Dist(p, targets[k]) < Dist(p, targets[j])
    decreases |targets|
  {
    if |targets| == 1 then 0
    else
      var init := targets[..|targets| - 1];
      var k := Nearest(p, init);
      assert forall j :: 0 <= j < |init| ==> targets[j] == init[j];
      if Dist(p, targets[|targets| - 1]) < Dist(p, targets[k]) then |targets| - 1 else k
  }

  /** The one edge a creek or brook gets: to its nearest target, when there
      is a target, the target's key is non-empty (`if nearest` treats "" as
      no target) and the distance is below `limit`. */
  function LinkToNearest(p: Peak, targets: seq<Peak>, limit: int): (r: Option<Edge>)
    ensures r.Some? <==> |targets| > 0 && targets[Nearest(p, targets)].key != "" &&
                         Dist(p, targets[Nearest(p, targets)]) < limit
    ensures r.Some? ==> exists k :: 0 <= k < |targets| && r.value == Edge(p.key, targets[k].key, Dist(p, targets[k])) &&
                          (forall j :: 0 <= j < |targets| ==> Dist(p, targets[k]) <= Dist(p, targets[j])) &&
                          (forall j :: 0 <= j < k ==> Dist(p, targets[k]) < Dist(p, targets[j]))
  {
    if |targets| == 0 then None
    else
      var k := Nearest(p, targets);
      var d := Dist(p, targets[k]);
      if targets[k].key != "" && d < limit then Some(Edge(p.key, targets[k].key, d)) else None
  }

  /** The present values, in order. */
  function Somes<T(!new)>(s: seq<Option<T>>): (r: seq<T>)
    ensures forall x :: x in r <==> Some(x) in s
    ensures |r| <= |s|
  {
    if |s| == 0 then []
    else (if s[0].Some? then [s[0].value] else []) + Somes(s[1..])
  }

  function CreekLinks(creeks: seq<Peak>, rivers: seq<Peak>): seq<Edge> {
    Somes(MapSeq(creeks, (c: Peak) => LinkToNearest(c, rivers, 75)))
  }

  function BrookLinks(brooks: seq<Peak>, creeks: seq<Peak>, rivers: seq<Peak>): seq<Edge> {
    Somes(MapSeq(brooks, (b: Peak) => LinkToNearest(b, creeks + rivers, 100)))
  }

  /** Each creek's edges all come from its own single `LinkToNearest`. */
  lemma CreekAtMostOne(creeks: seq<Peak>, rivers: seq<Peak>, e: Edge)
    requires e in CreekLinks(creeks, rivers)
    ensures exists i :: 0 <= i < |creeks| && LinkToNearest(creeks[i], rivers, 75) == Some(e)
  {
    var opts := MapSeq(creeks, (c: Peak) => LinkToNearest(c, rivers, 75));
    assert Some(e) in opts;
    var i :| 0 <= i < |opts| && opts[i] == Some(e);
  }

  // ---------------------------------------------------------------- the graph

  /** The graph of the peaks for the two thresholds. */
  function LinkGraph(peaks: seq<Peak>, med: real, high: real): (g: Graph)
    ensures g.nodes == set p | p in peaks :: p.key
  {
    var rivers := Rivers(peaks, high);
    var creeks := Creeks(peaks, med, high);
    var brooks := Brooks(peaks, med);
    Graph(set p | p in peaks :: p.key,
          RiverLinksFrom(rivers, 0) + CreekLinks(creeks, rivers) + BrookLinks(brooks, creeks, rivers))
  }

  /** Every edge joins two peaks and weighs their Manhattan distance; its
      endpoints are nodes of the graph. */
  lemma EdgesAreDistances(peaks: seq<Peak>, med: real, high: real, e: Edge)
    requires e in LinkGraph(peaks, med, high).edges
    ensures exists p, q :: p in peaks && q in peaks && e == Edge(p.key, q.key, Dist(p, q))
    ensures e.a in LinkGraph(peaks, med, high).nodes && e.b in LinkGraph(peaks, med, high).nodes
  {
    var rivers := Rivers(peaks, high);
    var creeks := Creeks(peaks, med, high);
    var brooks := Brooks(peaks, med);
    var p, q := EdgeEnds(peaks, med, high, e);
  }

  /** The tiers the two ends of an edge come from. */
  lemma EdgeEnds(peaks: seq<Peak>, med: real, high: real, e: Edge) returns (p: Peak, q: Peak)
    requires e in LinkGraph(peaks, med, high).edges
    ensures p in peaks && q in peaks && e == Edge(p.key, q.key, Dist(p, q))
    ensures IsRiver(p, high) ==> IsRiver(q, high)
    ensures IsCreek(p, med, high) ==> IsRiver(q, high)
    ensures IsBrook(p, med) ==> IsRiver(q, high) || IsCreek(q, med, high)
    ensures IsRiver(p, high) || IsCreek(p, med, high) || IsBrook(p, med)
  {
    var rivers := Rivers(peaks, high);
    var creeks := Creeks(peaks, med, high);
    var brooks := Brooks(peaks, med);
    var rl, cl, bl := RiverLinksFrom(rivers, 0), CreekLinks(creeks, rivers), BrookLinks(brooks, creeks, rivers);
    assert e in rl + cl + bl;
    if e in rl {
      p, q := RiverEnds(rivers, e);
    } else if e in cl {
      p, q := LinkEnds(creeks, rivers, 75, e);
    } else {
      p, q := LinkEnds(brooks, creeks + rivers, 100, e);
      assert q in creeks || q in rivers;
    }
  }

  lemma RiverEnds(rivers: seq<Peak>, e: Edge) returns (p: Peak, q: Peak)
    requires e in RiverLinksFrom(rivers, 0)
    ensures p in rivers && q in rivers && e == Edge(p.key, q.key, Dist(p, q))
  {
    var i, j :| 0 <= i && RiverEdge(rivers, i, j, e);
    p, q := rivers[i], rivers[j];
  }

  /** An edge of the nearest-target pass joins a source to a target. */
  lemma LinkEnds(sources: seq<Peak>, targets: seq<Peak>, limit: int, e: Edge) returns (p: Peak, q: Peak)
    requires e in Somes(MapSeq(sources, (c: Peak) => LinkToNearest(c, targets, limit)))
    ensures p in sources && q in targets && e == Edge(p.key, q.key, Dist(p, q))
  {
    var opts := MapSeq(sources, (c: Peak) => LinkToNearest(c, targets, limit));
    assert Some(e) in opts;
    var i :| 0 <= i < |opts| && opts[i] == Some(e);
    var k :| 0 <= k < |targets| && e == Edge(sources[i].key, targets[k].key, Dist(sources[i], targets[k]));
    p, q := sources[i], targets[k];
  }

  /** With distinct keys, no edge joins two creeks or two brooks. */
  lemma NoCreekCreekOrBrookBrook(peaks: seq<Peak>, med: real, high: real, e: Edge, p: Peak, q: Peak)
    requires med <= high && NoDups(Keys(peaks))
    requires e in LinkGraph(peaks, med, high).edges
    requires p in peaks && q in peaks && e.a == p.key && e.b == q.key
    ensures !(IsCreek(p, med, high) && IsCreek(q, med, high))
    ensures !(IsBrook(p, med) && IsBrook(q, med))
  {
    var p', q' := EdgeEnds(peaks, med, high, e);
    SameKeySamePeak(peaks, p, p');
    SameKeySamePeak(peaks, q, q');
    TiersPartition(peaks, med, high);
  }

  lemma KeyDeterminesPosition(peaks: seq<Peak>, i: int, j: int)
    requires NoDups(Keys(peaks)) && 0 <= i < |peaks| && 0 <= j < |peaks| && peaks[i].key == peaks[j].key
    ensures i == j
  {
    var ks := Keys(peaks);
    assert ks[i] == ks[j];
  }

  lemma SameKeySamePeak(peaks: seq<Peak>, p: Peak, q: Peak)
    requires NoDups(Keys(peaks)) && p in peaks && q in peaks && p.key == q.key
    ensures p == q
  {
    var ks := Keys(peaks);
    var i :| 0 <= i < |peaks| && peaks[i] == p;
    var j :| 0 <= j < |peaks| && peaks[j] == q;
    assert ks[i] == ks[j];
  }
}
