/** Sharing the maps of a journal: the trees stand in the other journal, and
    exactly when no two chains come with the same steps the chains do too. */
module MapShared {
  import opened Base
  import opened MapStore
  import opened MapLoad
  import opened MapRows
  import opened MapChains
  import opened MapCopy
  import opened MapMerge
  import opened MapShare
  import MapRuns
  import MapTrip

  /** The orders in which the rows of map `m` came. */
  ghost predicate RowsOfMap(s: Store, m: int, rows: seq<int>, edgeRows: seq<int>) {
    && m in s.maps && AnyOrder(rows, NodesOf(s.nodes, m)) && AnyOrder(edgeRows, EdgesOf(s, m))
    && Inside(rows, s.nodes.Keys) && Inside(edgeRows, s.edges.Keys)
  }

  lemma SharedNodes(s: Store, m: int, d: Store, rows: seq<int>, edgeRows: seq<int>)
    requires WellFormed(s) && Homed(d) && RowsOfMap(s, m, rows, edgeRows)
    ensures var m' := NextRowId(d.maps.Keys);
            var c := Settle(Copying(d.nodes, map[]), s.nodes, m', rows).0;
            c.ids.Keys == NodesOf(s.nodes, m) && Faithful(c, s.nodes, d.nodes, m') && m' !in d.maps
              && EndsIn(s, edgeRows, c.ids)
  {
    var m' := NextRowId(d.maps.Keys);
    NodesMerged(s, m, rows, d.nodes, m');
    var c := Settle(Copying(d.nodes, map[]), s.nodes, m', rows).0;
    assert m' !in d.maps.Keys;
    forall i | 0 <= i < |edgeRows|
      ensures edgeRows[i] in s.edges && s.edges[edgeRows[i]].from in c.ids && s.edges[edgeRows[i]].to in c.ids
    {
      var e := edgeRows[i];
      assert e in Elems(edgeRows);
      assert e in EdgesOf(s, m);
      assert e in s.edges && s.edges[e].map_ == m;
      assert s.edges[e].from in NodesOf(s.nodes, m) && s.edges[e].to in NodesOf(s.nodes, m);
    }
  }

  /** No arrow is written twice, so no insert of an arrow is ignored. */
  lemma ArrowsApart(s: Store, rows: seq<int>, m: int, ids: map<int, int>)
    requires EdgesOk(s) && EndsIn(s, rows, ids) && OneToOne(ids) && NoDup(rows) && OneMap(s, rows)
    ensures forall i, j | 0 <= i < j < |rows| ::
            MovedEdge(s.edges[rows[i]], m, ids) != MovedEdge(s.edges[rows[j]], m, ids)
  {
    forall i, j | 0 <= i < j < |rows|
      ensures MovedEdge(s.edges[rows[i]], m, ids) != MovedEdge(s.edges[rows[j]], m, ids) {
      var a, b := s.edges[rows[i]], s.edges[rows[j]];
      assert rows[i] != rows[j] && a != b;
      assert a.from == b.from || ids[a.from] != ids[b.from];
      assert a.to == b.to || ids[a.to] != ids[b.to];
    }
  }

  ghost predicate OneMap(s: Store, rows: seq<int>) {
    && (forall i | 0 <= i < |rows| :: rows[i] in s.edges)
    && forall i, j | 0 <= i < |rows| && 0 <= j < |rows| :: s.edges[rows[i]].map_ == s.edges[rows[j]].map_
  }

  /** What the copy of a map is, table by table. */
  ghost predicate Tables(s: Store, m: int, d: Store, entries: map<int, int>, edgeRows: seq<int>, r: Shared, top: int) {
    && Homed(d) && m in s.maps && r.m !in d.maps && r.t.maps == d.maps[r.m := s.maps[m]] && r.t.entries == d.entries
    && r.ids.Keys == NodesOf(s.nodes, m) && Faithful(Copying(r.t.nodes, r.ids), s.nodes, d.nodes, r.m)
    && r.t.nodeRefs == d.nodeRefs + MovedRefs(s.nodeRefs, r.ids, entries)
    && AnyOrder(edgeRows, EdgesOf(s, m)) && EndsIn(s, edgeRows, r.ids)
    && Appended(d.edges, r.t.edges, MovedEdges(s, edgeRows, r.m, r.ids))
    && EdgeRefsMoved(d.edgeRefs, r.t.edgeRefs, s.edgeRefs, edgeRows, NextRowId(d.edges.Keys), entries)
    && ShareChains(s, m, d, r.m, entries, top).Ok? && r.t.chains == ShareChains(s, m, d, r.m, entries, top).value.chains
  }

  lemma ShareTables(s: Store, m: int, d: Store, entries: map<int, int>, rows: seq<int>, edgeRows: seq<int>, top: int)
    requires WellFormed(s) && Homed(d) && RowsOfMap(s, m, rows, edgeRows)
    ensures ShareSpec(s, m, d, entries, rows, edgeRows, top).Ok? <==>
              ShareChains(s, m, d, NextRowId(d.maps.Keys), entries, top).Ok?
    ensures var r := ShareSpec(s, m, d, entries, rows, edgeRows, top); r.Ok? ==>
              Tables(s, m, d, entries, edgeRows, r.value, top)
  {
    SharedNodes(s, m, d, rows, edgeRows);
    var r := ShareSpec(s, m, d, entries, rows, edgeRows, top);
    if r.Ok? {
      EdgesShared(d, s, edgeRows, r.value.m, r.value.ids, entries);
      EdgeRefsShared(d, s, edgeRows, r.value.m, r.value.ids, entries);
    }
  }

  // ---------------------------------------------------------------------
  // The journal around it.

  lemma NodesExtend(s: Store, m: int, d: Store, entries: map<int, int>, edgeRows: seq<int>, r: Shared, top: int)
    requires Tables(s, m, d, entries, edgeRows, r, top)
    ensures forall n | n in r.t.nodes && n !in d.nodes :: r.t.nodes[n].map_ == r.m
    ensures forall n, e | n in d.nodes :: (n, e) in r.t.nodeRefs <==> (n, e) in d.nodeRefs
    ensures forall q | q in r.t.nodeRefs :: q.0 in r.t.nodes
  {
    var c := Copying(r.t.nodes, r.ids);
    forall n | n in r.t.nodes && n !in d.nodes ensures r.t.nodes[n].map_ == r.m {
      assert IsCopy(r.ids, n);
      var x :| x in r.ids && r.ids[x] == n;
      assert CopyAt(c, s.nodes, d.nodes, r.m, x);
    }
    forall q | q in MovedRefs(s.nodeRefs, r.ids, entries) ensures q.0 in r.t.nodes && q.0 !in d.nodes {
      MovedMember(s.nodeRefs, r.ids, entries, q);
      var x :| x in r.ids && r.ids[x] == q.0;
      assert CopyAt(c, s.nodes, d.nodes, r.m, x);
    }
  }

  lemma EdgesExtend(s: Store, m: int, d: Store, entries: map<int, int>, edgeRows: seq<int>, r: Shared, top: int)
    requires Tables(s, m, d, entries, edgeRows, r, top)
    ensures forall e | e in r.t.edges && e !in d.edges :: r.t.edges[e].map_ == r.m
  {
    var out := MovedEdges(s, edgeRows, r.m, r.ids);
    EdgesShared(d, s, edgeRows, r.m, r.ids, entries);
    forall i | 0 <= i < |out| ensures out[i].map_ == r.m { MovedEdgeAt(s, edgeRows, r.m, r.ids, i); }
  }

  lemma EdgeRefsExtend(d: map<int, EdgeRow>, t: map<int, EdgeRow>, out: seq<EdgeRow>, was: set<(int, int)>,
                       now: set<(int, int)>,
                       refs: set<(int, int)>, rows: seq<int>, entries: map<int, int>)
    requires Appended(d, t, out) && |out| == |rows| && EdgeRefsMoved(was, now, refs, rows, NextRowId(d.Keys), entries)
    requires forall q | q in was :: q.0 in d
    ensures forall n, e | n in d :: (n, e) in now <==> (n, e) in was
    ensures forall q | q in now :: q.0 in t
  {
    forall n, e | n in d ensures (n, e) in now <==> (n, e) in was { assert n in d.Keys; }
    forall q | q in now ensures q.0 in t {
      if q !in was { RowOf(d, t, out, q.0 - NextRowId(d.Keys)); }
    }
  }

  lemma NewMapHasNone(d: Store, m: int)
    requires Homed(d) && m !in d.maps
    ensures NoneOf(d.chains, m)
  {
    forall c | c in d.chains ensures d.chains[c].map_ != m { assert ChainOk(d, c); }
  }

  lemma ChainsEnlarge(s: Store, m: int, d: Store, entries: map<int, int>, edgeRows: seq<int>, r: Shared, top: int)
    requires Tables(s, m, d, entries, edgeRows, r, top) && EntriesThere(entries, d)
    ensures RowsKept(d.chains, r.t.chains) && ChainsDistinct(r.t)
    ensures forall c | c in r.t.chains && c !in d.chains :: r.t.chains[c].map_ == r.m
    ensures forall c | c in r.t.chains :: ChainOk(r.t, c)
  {
    var rows := SharedChains(s, ChainRows(s, m), r.m, entries);
    SharedWanted(s, ChainRows(s, m), r.m, entries, d);
    assert AllKnown(d.chains, d.entries) by {
      forall c | c in d.chains ensures StepsKnown(d.chains[c].steps, d.entries) { assert ChainOk(d, c); }
    }
    PutChainsKeep(Writing(d.chains, top, r.m), rows, d.entries);
    assert Unique(r.t.chains);
    forall c | c in r.t.chains && c !in d.chains
      ensures r.t.chains[c].map_ == r.m { assert WroteSome(r.t.chains, c, rows); }
    forall c | c in r.t.chains ensures ChainOk(r.t, c) {
      if c in d.chains { assert ChainOk(d, c) && RowKept(d.chains[c], r.t.chains[c]); }
    }
  }

  lemma RefsEnlarge(s: Store, m: int, d: Store, entries: map<int, int>, edgeRows: seq<int>, r: Shared, top: int)
    requires Tables(s, m, d, entries, edgeRows, r, top) && EntriesThere(entries, d)
    ensures forall q | q in r.t.nodeRefs :: q.1 in r.t.entries
    ensures forall q | q in r.t.edgeRefs :: q.1 in r.t.entries
  {
    forall q | q in MovedRefs(s.nodeRefs, r.ids, entries) ensures q.1 in d.entries {
      MovedMember(s.nodeRefs, r.ids, entries, q);
      var x :| x in r.ids && r.ids[x] == q.0 && Referred(s.nodeRefs, x, q.1, entries);
      ReferredThere(s.nodeRefs, x, q.1, entries, d);
    }
    forall q | q in r.t.edgeRefs ensures q.1 in d.entries {
      if q !in d.edgeRefs { ReferredThere(s.edgeRefs, edgeRows[q.0 - NextRowId(d.edges.Keys)], q.1, entries, d); }
    }
  }

  lemma ReferredThere(refs: set<(int, int)>, row: int, e: int, entries: map<int, int>, d: Store)
    requires Referred(refs, row, e, entries) && EntriesThere(entries, d)
    ensures e in d.entries
  {
    var r :| r in refs && r.0 == row && r.1 in entries && entries[r.1] == e;
    EntryThere(entries, d, r.1);
  }

  lemma ShareEnlarges(s: Store, m: int, d: Store, entries: map<int, int>, edgeRows: seq<int>, r: Shared, top: int)
    requires Tables(s, m, d, entries, edgeRows, r, top) && EntriesThere(entries, d)
    ensures Enlarges(d, r.t) && Homed(r.t)
  {
    NodesExtend(s, m, d, entries, edgeRows, r, top);
    EdgesExtend(s, m, d, entries, edgeRows, r, top);
    NewEdgeRefs(s, m, d, entries, edgeRows, r, top);
    ChainsEnlarge(s, m, d, entries, edgeRows, r, top);
    assert RefsOk(r.t) by { RefsEnlarge(s, m, d, entries, edgeRows, r, top); }
  }

  lemma NewEdgeRefs(s: Store, m: int, d: Store, entries: map<int, int>, edgeRows: seq<int>, r: Shared, top: int)
    requires Tables(s, m, d, entries, edgeRows, r, top)
    ensures forall n, e | n in d.edges :: (n, e) in r.t.edgeRefs <==> (n, e) in d.edgeRefs
    ensures forall q | q in r.t.edgeRefs :: q.0 in r.t.edges
  {
    EdgesShared(d, s, edgeRows, r.m, r.ids, entries);
    EdgeRefsExtend(d.edges, r.t.edges, MovedEdges(s, edgeRows, r.m, r.ids), d.edgeRefs, r.t.edgeRefs, s.edgeRefs,
      edgeRows, entries);
  }

  // ---------------------------------------------------------------------
  // The map stands.

  lemma NodesStand(s: Store, m: int, d: Store, entries: map<int, int>, edgeRows: seq<int>, r: Shared, top: int)
    requires Tables(s, m, d, entries, edgeRows, r, top)
    ensures forall x | x in r.ids :: NodeCopy(s, x, r.t, r.m, r.ids, entries)
    ensures forall y | y in r.t.nodes && r.t.nodes[y].map_ == r.m :: IsCopy(r.ids, y)
  {
    var c := Copying(r.t.nodes, r.ids);
    forall x | x in r.ids ensures NodeCopy(s, x, r.t, r.m, r.ids, entries) {
      assert CopyAt(c, s.nodes, d.nodes, r.m, x);
      forall e ensures (r.ids[x], e) in r.t.nodeRefs <==> Referred(s.nodeRefs, x, e, entries) {
        MovedMember(s.nodeRefs, r.ids, entries, (r.ids[x], e));
      }
    }
  }

  lemma EdgeStands(s: Store, m: int, d: Store, entries: map<int, int>, edgeRows: seq<int>, r: Shared, top: int, i: nat)
    requires Tables(s, m, d, entries, edgeRows, r, top) && i < |edgeRows|
    ensures EdgeCopy(s, edgeRows[i], r.t, NextRowId(d.edges.Keys) + i, r.m, r.ids, entries)
  {
    var out := MovedEdges(s, edgeRows, r.m, r.ids);
    MovedEdgeAt(s, edgeRows, r.m, r.ids, i);
    RowOf(d.edges, r.t.edges, out, i);
  }

  lemma EdgesArrive(s: Store, m: int, d: Store, entries: map<int, int>, edgeRows: seq<int>, r: Shared, top: int, e: int)
    requires Tables(s, m, d, entries, edgeRows, r, top) && e in s.edges && s.edges[e].map_ == m
    ensures exists e' :: EdgeCopy(s, e, r.t, e', r.m, r.ids, entries)
  {
    assert e in Elems(edgeRows);
    var i :| 0 <= i < |edgeRows| && edgeRows[i] == e;
    EdgeStands(s, m, d, entries, edgeRows, r, top, i);
  }

  lemma NoOtherEdges(s: Store, m: int, d: Store, entries: map<int, int>, edgeRows: seq<int>, r: Shared, top: int,
                     e': int)
    requires Tables(s, m, d, entries, edgeRows, r, top) && e' in r.t.edges && r.t.edges[e'].map_ == r.m
    ensures exists e :: EdgeCopy(s, e, r.t, e', r.m, r.ids, entries)
  {
    var i := NewRowAt(s, m, d, entries, edgeRows, r, top, e');
    EdgeStands(s, m, d, entries, edgeRows, r, top, i);
  }

  lemma NewRowAt(s: Store, m: int, d: Store, entries: map<int, int>, edgeRows: seq<int>, r: Shared, top: int, e': int)
      returns (i: nat)
    requires Tables(s, m, d, entries, edgeRows, r, top) && e' in r.t.edges && r.t.edges[e'].map_ == r.m
    ensures i < |edgeRows| && e' == NextRowId(d.edges.Keys) + i
  {
    EdgesShared(d, s, edgeRows, r.m, r.ids, entries);
    assert e' !in d.edges;
    i := e' - NextRowId(d.edges.Keys);
  }

  /** Chains that come apart arrive, and leave those there were alone. */
  lemma ChainsArrive(s: Store, m: int, d: Store, entries: map<int, int>, edgeRows: seq<int>, r: Shared, top: int)
    requires Tables(s, m, d, entries, edgeRows, r, top) && EntriesThere(entries, d) && ChainsDistinct(s)
             && SharedApart(s, m, entries)
    ensures ChainsStand(s, m, r.t, r.m, entries) && SameChains(d, r.t)
  {
    var rows := ChainRows(s, m);
    var out := SharedChains(s, rows, r.m, entries);
    NewMapHasNone(d, r.m);
    ApartAreShared(s, m, d, r.m, entries, top);
    forall c | StepsCome(s, c, entries) && s.chains[c].map_ == m
      ensures exists c' :: c' in r.t.chains && IsSharedRow(s, c, r.m, entries, r.t.chains[c'])
    {
      InRows(map[], ChainsOf(s, m), c);
      var j :| 0 <= j < |rows| && rows[j] == c;
      SharedChainsAll(s, rows, r.m, entries, j);
      var i :| 0 <= i < |out| && IsSharedRow(s, c, r.m, entries, out[i]);
      RowOf(d.chains, r.t.chains, out, i);
    }
    forall c' | c' in r.t.chains && r.t.chains[c'].map_ == r.m
      ensures exists c :: c in s.chains && s.chains[c].map_ == m && IsSharedRow(s, c, r.m, entries, r.t.chains[c'])
    {
      NoOtherChains(s, m, d, entries, r, c');
    }
  }

  lemma NoOtherChains(s: Store, m: int, d: Store, entries: map<int, int>, r: Shared, c': int)
    requires Appended(d.chains, r.t.chains, SharedChains(s, ChainRows(s, m), r.m, entries)) && NoneOf(d.chains, r.m)
    requires c' in r.t.chains && r.t.chains[c'].map_ == r.m
    ensures exists c :: c in s.chains && s.chains[c].map_ == m && IsSharedRow(s, c, r.m, entries, r.t.chains[c'])
  {
    var rows := ChainRows(s, m);
    SharedChainsFrom(s, rows, r.m, entries);
    assert FromRow(s, rows, r.m, entries, r.t.chains[c']);
    var j :| 0 <= j < |rows| && IsSharedRow(s, rows[j], r.m, entries, r.t.chains[c']);
    InRows(map[], ChainsOf(s, m), rows[j]);
  }

  /** The tree of the map came, whatever became of its chains. */
  lemma TreeArrives(s: Store, m: int, d: Store, entries: map<int, int>, edgeRows: seq<int>, r: Shared, top: int)
    requires Tables(s, m, d, entries, edgeRows, r, top)
    ensures TreeStands(s, m, r.t, r.m, r.ids, entries)
  {
    NodesStand(s, m, d, entries, edgeRows, r, top);
    forall e | e in s.edges && s.edges[e].map_ == m ensures exists e' :: EdgeCopy(s, e, r.t, e', r.m, r.ids, entries) {
      EdgesArrive(s, m, d, entries, edgeRows, r, top, e);
    }
    forall e' | e' in r.t.edges && r.t.edges[e'].map_ == r.m
      ensures exists e :: EdgeCopy(s, e, r.t, e', r.m, r.ids, entries) {
      NoOtherEdges(s, m, d, entries, edgeRows, r, top, e');
    }
  }

  /** Sharing one map. If it goes through, its tree stands in the other journal
      on new rows. It goes through and the whole map stands, chains and all,
      if and only if no two chains come with the same steps; and then nothing
      else there changed. */
  lemma ShareStands(s: Store, m: int, d: Store, entries: map<int, int>, rows: seq<int>, edgeRows: seq<int>, top: int)
    requires WellFormed(s) && Homed(d) && EntriesThere(entries, d) && RowsOfMap(s, m, rows, edgeRows)
    ensures var r := ShareSpec(s, m, d, entries, rows, edgeRows, top);
            && (r.Ok? ==>
                Enlarges(d, r.value.t) && Homed(r.value.t)
                && TreeStands(s, m, r.value.t, r.value.m, r.value.ids, entries))
            && (SharedApart(s, m, entries) ==> r.Ok? && Extends(d, r.value.t))
            && ((r.Ok? && Stands(s, m, r.value.t, r.value.m, r.value.ids, entries)) <==> SharedApart(s, m, entries))
  {
    var r := ShareSpec(s, m, d, entries, rows, edgeRows, top);
    ShareTables(s, m, d, entries, rows, edgeRows, top);
    if SharedApart(s, m, entries) {
      NewMapHasNone(d, NextRowId(d.maps.Keys));
      ApartAreShared(s, m, d, NextRowId(d.maps.Keys), entries, top);
    }
    if r.Ok? {
      ShareEnlarges(s, m, d, entries, edgeRows, r.value, top);
      TreeArrives(s, m, d, entries, edgeRows, r.value, top);
      ChainsArriveIff(s, m, d, entries, edgeRows, r.value, top);
    }
  }

  lemma ChainsArriveIff(s: Store, m: int, d: Store, entries: map<int, int>, edgeRows: seq<int>, r: Shared, top: int)
    requires Tables(s, m, d, entries, edgeRows, r, top) && EntriesThere(entries, d) && ChainsDistinct(s)
             && ChainsDistinct(r.t)
    ensures ChainsStand(s, m, r.t, r.m, entries) <==> SharedApart(s, m, entries)
    ensures SharedApart(s, m, entries) ==> SameChains(d, r.t)
  {
    if SharedApart(s, m, entries) { ChainsArrive(s, m, d, entries, edgeRows, r, top); }
    if ChainsStand(s, m, r.t, r.m, entries) { StandingIsApart(s, m, r.t, r.m, entries); }
  }

  /** In a run without deleted entries the chains come apart wherever different
      entries have different numbers. */
  lemma FreshSharedApart(s: Store, m: int, entries: map<int, int>)
    requires ChainsDistinct(s) && MapRuns.Fresh(s)
    requires forall x, y | x in entries && y in entries && x != y :: entries[x] != entries[y]
    ensures SharedApart(s, m, entries)
  {
    MapRuns.FreshHolds(s);
    forall c, e | StepsCome(s, c, entries) && StepsCome(s, e, entries) && c != e
      && s.chains[c].map_ == m == s.chains[e].map_
      ensures StepsOver(s.chains[c], entries) != StepsOver(s.chains[e], entries)
    {
      assert Held(s.chains[c].steps) != Held(s.chains[e].steps);
      if StepsOver(s.chains[c], entries) == StepsOver(s.chains[e], entries) {
        MapTrip.SameSteps(Held(s.chains[c].steps), Held(s.chains[e].steps), entries);
      }
    }
  }

  // ---------------------------------------------------------------------
  // Chains that do not come apart.

  /** One map with the chains 1, 2 and 1, 3. */
  function TwoChains(): Store {
    Store({1, 2, 3}, map[1 := MapRow("plan", "a", None, true, false, MindMap, false, 0, 0)],
          map[1 := NodeRow(1, None, Topic, "plan", Open, 0, 0, None)], map[], {}, {},
          map[1 := ChainRow(1, "A", [1, 2], [Some(1), Some(2)], 0), 2 :=
            ChainRow(1, "B", [1, 3], [Some(1), Some(3)], 0)])
  }

  /** The entries 2 and 3 are deleted. */
  ghost function Shortened(): Store { ForgetSpec(ForgetSpec(TwoChains(), 2), 3) }

  lemma ShortenedChains()
    ensures Shortened().chains
            == map[1 := ChainRow(1, "A", [1, 2], [Some(1), None], 0), 2 := ChainRow(1, "B", [1, 3], [Some(1), None], 0)]
  {
    assert Keep([Some(1), Some(2)], 2) == [Some(1), None] && Keep([Some(1), None], 3) == [Some(1), None];
    assert Keep([Some(1), Some(3)], 2) == [Some(1), Some(3)] && Keep([Some(1), Some(3)], 3) == [Some(1), None];
  }

  /** Then both chains come with the one step that is left, and so the map does
      not stand whole wherever it is shared. */
  lemma ShortenedClash(entries: map<int, int>)
    requires 1 in entries
    ensures !SharedApart(Shortened(), 1, entries)
  {
    var s := Shortened();
    ShortenedChains();
    assert Held([Some(1), None]) == [1] by {
      var steps: seq<Option<int>> := [Some(1), None];
      assert steps[1..] == [None] && steps[1..][1..] == [];
    }
    assert Renumbered([1], entries) == [entries[1]] by { assert [1][1..] == []; }
    assert StepsCome(s, 1, entries) && StepsCome(s, 2, entries);
  }

  function OneStep(name: string): ChainRow { ChainRow(1, name, [1], [Some(1)], 0) }

  lemma FirstOfTwo(top: int)
    ensures var w := PutChain(Writing(map[], top, 1), OneStep("A"), {1});
              w == Ok(Writing(map[1 := OneStep("A")], top + 1, top + 1))
  {
    var w, row := Writing(map[], top, 1), OneStep("A");
    assert NextRowId(w.chains.Keys) == 1;
    var v := PutRow(w, row);
    assert v == Writing(map[1 := row.(steps := [])], top, 1);
    assert PlaceSteps(v, 1, [1], 0, {1}) == Ok(v);
    assert Placed([], 0, 1) == [Some(1)];
    assert v.chains[1 := v.chains[1].(steps := [Some(1)])] == map[1 := row];
    assert PlaceStep(v, 1, 0, 1, {1}) == Ok(Writing(map[1 := row], top + 1, top + 1));
  }

  /** What becomes of the second chain in an empty journal: with an empty table
      of steps it is lost in silence, its step falling on the first chain's
      place; otherwise there is no chain of that id and the copy fails. */
  lemma SecondIsLost(top: int)
    requires top >= 0
    ensures var r := PutChains(Writing(map[], top, 1), [OneStep("A"), OneStep("B")], {1});
            if top == 0 then r.Ok? && r.value.chains == map[1 := OneStep("A")] else r.Err?
  {
    var w, a, b := Writing(map[], top, 1), OneStep("A"), OneStep("B");
    FirstOfTwo(top);
    assert PutChains(w, [], {1}) == Ok(w);
    OneMore(w, [], a, {1});
    assert [] + [a] == [a] && [a] + [b] == [a, b];
    OneMore(w, [a], b, {1});
    var v := PutChains(w, [a], {1}).value;
    assert Clash(v.chains[1], b);
    if top == 0 {
      assert PlaceSteps(v, 1, [1], 0, {1}) == Ok(v);
      assert PlaceStep(v, 1, 0, 1, {1}) == Ok(v);
    } else {
      PutChainIgnored(v, b, {1});
    }
  }

  /** The map with both is one that `add_chain` makes. */
  lemma TwoChainsFit()
    ensures WellFormed(TwoChains())
  {
    assert Ranked(TwoChains().nodes, map[1 := 0]);
    assert IsRoot(TwoChains(), 1, 1);
  }

  // ---------------------------------------------------------------------
  // All maps.

  /** What `merge_into` brings: journals as their operations left them, and
      entry numbers that are there. */
  ghost predicate Mergeable(s: Store, d: Store, entries: map<int, int>) {
    WellFormed(s) && Homed(d) && EntriesThere(entries, d)
  }

  ghost predicate TreeCopied(s: Store, m: int, t: Store, entries: map<int, int>) {
    exists m', ids :: TreeStands(s, m, t, m', ids, entries)
  }

  ghost predicate Copied(s: Store, m: int, t: Store, entries: map<int, int>) {
    exists m', ids :: Stands(s, m, t, m', ids, entries)
  }

  /** The chains of every map come apart. */
  ghost predicate AllApart(s: Store, entries: map<int, int>) { forall m | m in s.maps :: SharedApart(s, m, entries) }

  lemma CopiedOn(s: Store, m: int, t: Store, u: Store, entries: map<int, int>)
    requires Enlarges(t, u)
    ensures TreeCopied(s, m, t, entries) ==> TreeCopied(s, m, u, entries)
    ensures Copied(s, m, t, entries) && SameChains(t, u) ==> Copied(s, m, u, entries)
  {
    if TreeCopied(s, m, t, entries) {
      var m', ids :| TreeStands(s, m, t, m', ids, entries);
      TreeStandsOn(s, m, t, u, m', ids, entries);
    }
    if Copied(s, m, t, entries) && SameChains(t, u) {
      var m', ids :| Stands(s, m, t, m', ids, entries);
      StandsOn(s, m, t, u, m', ids, entries);
      assert Stands(s, m, u, m', ids, entries);
    }
  }

  lemma EnlargesOn(a: Store, b: Store, c: Store)
    requires Enlarges(a, b) && Enlarges(b, c)
    ensures Enlarges(a, c) && (SameChains(a, b) && SameChains(b, c) ==> SameChains(a, c))
  {
    RowsKeptOn(a.chains, b.chains, c.chains);
  }

  /** A map stands whole only where its chains came apart. */
  lemma CopiedIsApart(s: Store, m: int, t: Store, entries: map<int, int>)
    requires ChainsDistinct(s) && ChainsDistinct(t) && Copied(s, m, t, entries)
    ensures SharedApart(s, m, entries)
  {
    var m', ids :| Stands(s, m, t, m', ids, entries);
    StandingIsApart(s, m, t, m', entries);
  }

  ghost predicate TreesIn(s: Store, t: Store, done: set<int>, entries: map<int, int>) {
    forall m | m in done :: TreeCopied(s, m, t, entries)
  }

  ghost predicate MapsIn(s: Store, t: Store, done: set<int>, entries: map<int, int>) {
    forall m | m in done :: Copied(s, m, t, entries)
  }

  /** What was shared still stands, and what was there still is. */
  ghost predicate SharedSoFar(s: Store, d: Store, t: Store, done: set<int>, entries: map<int, int>) {
    && Enlarges(d, t) && TreesIn(s, t, done, entries)
    && (AllApart(s, entries) ==> SameChains(d, t) && MapsIn(s, t, done, entries))
  }

  /** Map `m` came to stand in `t`, which was `d`. */
  ghost predicate SharedOne(s: Store, m: int, d: Store, t: Store, entries: map<int, int>) {
    && Enlarges(d, t) && TreeCopied(s, m, t, entries)
    && (SharedApart(s, m, entries) ==> SameChains(d, t) && Copied(s, m, t, entries))
  }

  lemma TreesOn(s: Store, t: Store, u: Store, done: set<int>, m: int, entries: map<int, int>)
    requires TreesIn(s, t, done, entries) && Enlarges(t, u) && TreeCopied(s, m, u, entries)
    ensures TreesIn(s, u, done + {m}, entries)
  {
    forall x | x in done ensures TreeCopied(s, x, u, entries) { CopiedOn(s, x, t, u, entries); }
  }

  lemma MapsOn(s: Store, t: Store, u: Store, done: set<int>, m: int, entries: map<int, int>)
    requires MapsIn(s, t, done, entries) && Enlarges(t, u) && SameChains(t, u) && Copied(s, m, u, entries)
    ensures MapsIn(s, u, done + {m}, entries)
  {
    forall x | x in done ensures Copied(s, x, u, entries) { CopiedOn(s, x, t, u, entries); }
  }

  lemma SharedNext(s: Store, d: Store, t: Store, u: Store, done: set<int>, m: int, entries: map<int, int>)
    requires SharedSoFar(s, d, t, done, entries) && m in s.maps && SharedOne(s, m, t, u, entries)
    ensures SharedSoFar(s, d, u, done + {m}, entries)
  {
    EnlargesOn(d, t, u);
    TreesOn(s, t, u, done, m, entries);
    if AllApart(s, entries) { MapsOn(s, t, u, done, m, entries); }
  }
}
