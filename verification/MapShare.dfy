/** One whole map shared into another journal: its nodes, then references,
    arrows and chains through the node and entry numbers. */
module MapShare {
  import opened Base
  import opened MapStore
  import opened MapLoad
  import opened MapRows
  import opened MapChains
  import opened MapCopy
  import opened MapMerge

  /** References follow: the copies of those whose node and entry came along. */
  function MovedRefs(refs: set<(int, int)>, ids: map<int, int>, entries: map<int, int>): set<(int, int)> {
    set r | r in refs && r.0 in ids && r.1 in entries :: (ids[r.0], entries[r.1])
  }

  /** An arrow with its ends renumbered. */
  function MovedEdge(e: EdgeRow, m: int, ids: map<int, int>): EdgeRow
    requires e.from in ids && e.to in ids
  {
    EdgeRow(m, ids[e.from], ids[e.to], e.caption)
  }

  ghost function ShareEdge(p: EdgesSoFar, s: Store, e: int, m: int, ids: map<int, int>, entries: map<int,
                           int>): EdgesSoFar
    requires e in s.edges
  {
    if s.edges[e].from !in ids || s.edges[e].to !in ids then p
    else
      var id := NextRowId(p.edges.Keys);
      EdgesSoFar(p.edges[id := MovedEdge(s.edges[e], m, ids)], p.refs + MovedRefs(s.edgeRefs, map[e := id], entries))
  }

  ghost function ShareEdges(d: Store, s: Store, rows: seq<int>, m: int, ids: map<int, int>, entries: map<int,
                            int>): EdgesSoFar
    requires Inside(rows, s.edges.Keys)
    decreases |rows|
  {
    if rows == [] then EdgesSoFar(d.edges, d.edgeRefs)
    else ShareEdge(ShareEdges(d, s, rows[..|rows| - 1], m, ids, entries), s, rows[|rows| - 1], m, ids, entries)
  }

  /** The steps of a chain, renumbered as far as they came along. */
  function StepsOver(c: ChainRow, entries: map<int, int>): seq<int> { Renumbered(Held(c.steps), entries) }

  /** The rows wanted: the chains none of whose steps stayed behind. */
  ghost function SharedChains(s: Store, rows: seq<int>, m: int, entries: map<int, int>): seq<ChainRow>
    requires Inside(rows, s.chains.Keys)
    decreases |rows|
  {
    if rows == [] then []
    else
      var c := rows[|rows| - 1];
      SharedChains(s, rows[..|rows| - 1], m, entries)
        + if StepsCome(s, c, entries) then [SharedRow(s.chains[c], m, entries)] else []
  }

  function SharedRow(c: ChainRow, m: int, entries: map<int, int>): ChainRow {
    ChainRow(m, c.name, StepsOver(c, entries), Slots(StepsOver(c, entries)), c.createdAt)
  }

  ghost function ShareChains(s: Store, m: int, d: Store, m': int, entries: map<int, int>, top: int): Result<Writing,
      Error> {
    PutChains(Writing(d.chains, top, m'), SharedChains(s, ChainRows(s, m), m', entries), d.entries)
  }

  datatype Shared = Shared(t: Store, m: int, ids: map<int, int>, top: int)

  ghost function ShareSpec(s: Store, m: int, d: Store, entries: map<int, int>, rows: seq<int>, edgeRows: seq<int>,
                           top: int): Result<Shared, Error>
    requires m in s.maps && Inside(rows, s.nodes.Keys) && Inside(edgeRows, s.edges.Keys)
  {
    var m' := NextRowId(d.maps.Keys);
    var c := Settle(Copying(d.nodes, map[]), s.nodes, m', rows).0;
    var p := ShareEdges(d, s, edgeRows, m', c.ids, entries);
    match ShareChains(s, m, d, m', entries, top)
    case Err(e) => Err(e)
    case Ok(w) =>
      Ok(Shared(d.(maps := d.maps[m' := s.maps[m]], nodes := c.nodes, nodeRefs :=
        d.nodeRefs + MovedRefs(s.nodeRefs, c.ids, entries),
                   edges := p.edges, edgeRefs := p.refs, chains := w.chains), m', c.ids, w.top))
  }

  // ---------------------------------------------------------------------
  // The arrows.

  ghost predicate EndsIn(s: Store, rows: seq<int>, ids: map<int, int>) {
    forall i | 0 <= i < |rows| :: rows[i] in s.edges && s.edges[rows[i]].from in ids && s.edges[rows[i]].to in ids
  }

  ghost function MovedEdges(s: Store, rows: seq<int>, m: int, ids: map<int, int>): seq<EdgeRow>
    requires EndsIn(s, rows, ids)
    decreases |rows|
  {
    if rows == [] then []
    else MovedEdges(s, rows[..|rows| - 1], m, ids) + [MovedEdge(s.edges[rows[|rows| - 1]], m, ids)]
  }

  /** The row `row` of the source referred to an entry that is now `e`. */
  ghost predicate Referred(refs: set<(int, int)>, row: int, e: int, entries: map<int, int>) {
    exists r :: r in refs && r.0 == row && r.1 in entries && entries[r.1] == e
  }

  lemma MovedMember(refs: set<(int, int)>, ids: map<int, int>, entries: map<int, int>, r: (int, int))
    ensures r in MovedRefs(refs, ids, entries) <==>
              exists x :: x in ids && ids[x] == r.0 && Referred(refs, x, r.1, entries)
  {
    if r in MovedRefs(refs, ids, entries) {
      var q :| q in refs && q.0 in ids && q.1 in entries && (ids[q.0], entries[q.1]) == r;
      assert q.0 in ids && ids[q.0] == r.0 && Referred(refs, q.0, r.1, entries);
    }
    if x :| x in ids && ids[x] == r.0 && Referred(refs, x, r.1, entries) {
      var q :| q in refs && q.0 == x && q.1 in entries && entries[q.1] == r.1;
      assert (ids[q.0], entries[q.1]) == r;
    }
  }

  /** Each copied arrow gets what its original referred to. */
  ghost predicate EdgeRefsMoved(was: set<(int, int)>, now: set<(int, int)>, refs: set<(int, int)>, rows: seq<int>,
                                base: int, entries: map<int, int>) {
    forall r :: r in now <==>
      r in was || (base <= r.0 < base + |rows| && Referred(refs, rows[r.0 - base], r.1, entries))
  }

  lemma EdgeRefsNext(was: set<(int, int)>, now: set<(int, int)>, refs: set<(int, int)>, rows: seq<int>, base: int,
                     entries: map<int, int>, e: int)
    requires EdgeRefsMoved(was, now, refs, rows, base, entries)
    ensures EdgeRefsMoved(was, now + MovedRefs(refs, map[e := base + |rows|], entries), refs, rows + [e], base, entries)
  {
    var ids, next := map[e := base + |rows|], rows + [e];
    forall r ensures r in now + MovedRefs(refs, ids, entries) <==>
                     r in was || (base <= r.0 < base + |next| && Referred(refs, next[r.0 - base], r.1, entries)) {
      MovedMember(refs, ids, entries, r);
      if r.0 == base + |rows| && Referred(refs, e, r.1, entries) { assert e in ids && ids[e] == r.0; }
    }
  }

  lemma EdgeRefsGrow(d: Store, s: Store, rows: seq<int>, m: int, ids: map<int, int>, entries: map<int, int>, id: int)
    requires EndsIn(s, rows, ids) && Inside(rows, s.edges.Keys) && rows != []
             && id == NextRowId(d.edges.Keys) + |rows| - 1
    ensures Inside(rows[..|rows| - 1], s.edges.Keys)
    ensures ShareEdges(d, s, rows, m, ids, entries).refs ==
            ShareEdges(d, s, rows[..|rows| - 1], m, ids, entries).refs
              + MovedRefs(s.edgeRefs, map[rows[|rows| - 1] := id], entries)
  {
    var front, e := rows[..|rows| - 1], rows[|rows| - 1];
    NextEdgeId(d, s, front, m, ids, entries);
    ShareLast(d, s, rows, m, ids, entries);
    ShareEdgeRefs(ShareEdges(d, s, front, m, ids, entries), s, e, m, ids, entries);
  }

  lemma NextEdgeId(d: Store, s: Store, rows: seq<int>, m: int, ids: map<int, int>, entries: map<int, int>)
    requires EndsIn(s, rows, ids) && Inside(rows, s.edges.Keys)
    ensures NextRowId(ShareEdges(d, s, rows, m, ids, entries).edges.Keys) == NextRowId(d.edges.Keys) + |rows|
  {
    EdgesShared(d, s, rows, m, ids, entries);
    NextAfter(d.edges.Keys, |rows|);
  }

  lemma ShareLast(d: Store, s: Store, rows: seq<int>, m: int, ids: map<int, int>, entries: map<int, int>)
    requires Inside(rows, s.edges.Keys) && rows != []
    ensures Inside(rows[..|rows| - 1], s.edges.Keys)
    ensures ShareEdges(d, s, rows, m, ids, entries) ==
            ShareEdge(ShareEdges(d, s, rows[..|rows| - 1], m, ids, entries), s, rows[|rows| - 1], m, ids, entries)
  {
  }

  lemma ShareEdgeRefs(p: EdgesSoFar, s: Store, e: int, m: int, ids: map<int, int>, entries: map<int, int>)
    requires e in s.edges && s.edges[e].from in ids && s.edges[e].to in ids
    ensures ShareEdge(p, s, e, m, ids, entries).refs == p.refs
            + MovedRefs(s.edgeRefs, map[e := NextRowId(p.edges.Keys)], entries)
  {
  }

  lemma EdgeRefsStep(was: set<(int, int)>, before: set<(int, int)>, after: set<(int, int)>, refs: set<(int, int)>,
                     rows: seq<int>,
                     base: int, entries: map<int, int>, id: int)
    requires rows != [] && EdgeRefsMoved(was, before, refs, rows[..|rows| - 1], base, entries)
             && id == base + |rows| - 1
    requires after == before + MovedRefs(refs, map[rows[|rows| - 1] := id], entries)
    ensures EdgeRefsMoved(was, after, refs, rows, base, entries)
  {
    EdgeRefsNext(was, before, refs, rows[..|rows| - 1], base, entries, rows[|rows| - 1]);
    assert base + |rows[..|rows| - 1]| == id;
    assert rows[..|rows| - 1] + [rows[|rows| - 1]] == rows;
  }

  lemma {:induction false} EdgeRefsShared(d: Store, s: Store, rows: seq<int>, m: int, ids: map<int, int>,
                                          entries: map<int, int>)
    requires EndsIn(s, rows, ids) && Inside(rows, s.edges.Keys)
    ensures EdgeRefsMoved(d.edgeRefs, ShareEdges(d, s, rows, m, ids, entries).refs, s.edgeRefs, rows,
              NextRowId(d.edges.Keys), entries)
    decreases |rows|
  {
    if rows != [] {
      EdgeRefsShared(d, s, rows[..|rows| - 1], m, ids, entries);
      EdgeRefsOn(d, s, rows, m, ids, entries, ShareEdges(d, s, rows[..|rows| - 1], m, ids, entries).refs);
    }
  }

  lemma EdgeRefsOn(d: Store, s: Store, rows: seq<int>, m: int, ids: map<int, int>, entries: map<int, int>,
                   before: set<(int, int)>)
    requires EndsIn(s, rows, ids) && Inside(rows, s.edges.Keys) && rows != []
    requires Inside(rows[..|rows| - 1], s.edges.Keys)
             && before == ShareEdges(d, s, rows[..|rows| - 1], m, ids, entries).refs
    requires EdgeRefsMoved(d.edgeRefs, before, s.edgeRefs, rows[..|rows| - 1], NextRowId(d.edges.Keys), entries)
    ensures EdgeRefsMoved(d.edgeRefs, ShareEdges(d, s, rows, m, ids, entries).refs, s.edgeRefs, rows,
              NextRowId(d.edges.Keys), entries)
  {
    var id := NextRowId(d.edges.Keys) + |rows| - 1;
    EdgeRefsGrow(d, s, rows, m, ids, entries, id);
    EdgeRefsStep(d.edgeRefs, before, ShareEdges(d, s, rows, m, ids, entries).refs, s.edgeRefs, rows,
      NextRowId(d.edges.Keys), entries, id);
  }

  lemma {:induction false} MovedEdgeAt(s: Store, rows: seq<int>, m: int, ids: map<int, int>, i: nat)
    requires EndsIn(s, rows, ids) && i < |rows|
    ensures |MovedEdges(s, rows, m, ids)| == |rows|
            && MovedEdges(s, rows, m, ids)[i] == MovedEdge(s.edges[rows[i]], m, ids)
    decreases |rows|
  {
    var front := rows[..|rows| - 1];
    if front != [] { MovedEdgeAt(s, front, m, ids, if i < |front| then i else 0); }
  }

  lemma {:induction false} EdgesShared(d: Store, s: Store, rows: seq<int>, m: int, ids: map<int, int>, entries: map<int,
                                       int>)
    requires EndsIn(s, rows, ids) && Inside(rows, s.edges.Keys)
    ensures Appended(d.edges, ShareEdges(d, s, rows, m, ids, entries).edges, MovedEdges(s, rows, m, ids))
    ensures |MovedEdges(s, rows, m, ids)| == |rows|
    decreases |rows|
  {
    if rows != [] {
      var front, e := rows[..|rows| - 1], rows[|rows| - 1];
      EdgesShared(d, s, front, m, ids, entries);
      Append(d.edges, ShareEdges(d, s, front, m, ids, entries).edges, MovedEdges(s, front, m, ids),
        MovedEdge(s.edges[e], m, ids));
    }
  }

  ghost predicate FromRow(s: Store, rows: seq<int>, m: int, entries: map<int, int>, row: ChainRow) {
    exists j :: 0 <= j < |rows| && IsSharedRow(s, rows[j], m, entries, row)
  }

  ghost predicate Arrived(s: Store, c: int, m: int, entries: map<int, int>, out: seq<ChainRow>) {
    exists i :: 0 <= i < |out| && IsSharedRow(s, c, m, entries, out[i])
  }

  lemma {:induction false} SharedChainsFrom(s: Store, rows: seq<int>, m: int, entries: map<int, int>)
    requires Inside(rows, s.chains.Keys)
    ensures forall i | 0 <= i < |SharedChains(s, rows, m, entries)| ::
            FromRow(s, rows, m, entries, SharedChains(s, rows, m, entries)[i])
    decreases |rows|
  {
    if rows != [] {
      var front, last := rows[..|rows| - 1], rows[|rows| - 1];
      var before, all := SharedChains(s, front, m, entries), SharedChains(s, rows, m, entries);
      SharedChainsFrom(s, front, m, entries);
      forall i | 0 <= i < |all| ensures FromRow(s, rows, m, entries, all[i]) {
        if i < |before| {
          assert all[i] == before[i] && FromRow(s, front, m, entries, before[i]);
          var j :| 0 <= j < |front| && IsSharedRow(s, front[j], m, entries, before[i]);
          assert rows[j] == front[j];
        } else {
          assert rows[|front|] == last && IsSharedRow(s, last, m, entries, all[i]);
        }
      }
    }
  }

  lemma {:induction false} SharedChainsAll(s: Store, rows: seq<int>, m: int, entries: map<int, int>, j: nat)
    requires Inside(rows, s.chains.Keys) && j < |rows| && StepsCome(s, rows[j], entries)
    ensures Arrived(s, rows[j], m, entries, SharedChains(s, rows, m, entries))
    decreases |rows|
  {
    var front := rows[..|rows| - 1];
    var before, all := SharedChains(s, front, m, entries), SharedChains(s, rows, m, entries);
    if j < |front| {
      SharedChainsAll(s, front, m, entries, j);
      var i :| 0 <= i < |before| && IsSharedRow(s, front[j], m, entries, before[i]);
      assert all[i] == before[i];
    } else {
      assert IsSharedRow(s, rows[j], m, entries, all[|before|]);
    }
  }

  /** No step of the chain stays behind. */
  predicate StepsCome(s: Store, c: int, entries: map<int, int>) {
    c in s.chains && |StepsOver(s.chains[c], entries)| == |Held(s.chains[c].steps)|
  }

  predicate IsSharedRow(s: Store, c: int, m: int, entries: map<int, int>, row: ChainRow) {
    StepsCome(s, c, entries) && row == SharedRow(s.chains[c], m, entries)
  }

  /** No two chains of map `m` that come whole come with the same steps. */
  ghost predicate SharedApart(s: Store, m: int, entries: map<int, int>) {
    forall c, e | StepsCome(s, c, entries) && StepsCome(s, e, entries) && c != e
      && s.chains[c].map_ == m == s.chains[e].map_ ::
      StepsOver(s.chains[c], entries) != StepsOver(s.chains[e], entries)
  }

  /** Every entry has its number in the other journal. */
  ghost predicate EntriesThere(entries: map<int, int>, d: Store) { forall e | e in entries :: entries[e] in d.entries }

  lemma EntryThere(entries: map<int, int>, d: Store, e: int)
    requires EntriesThere(entries, d) && e in entries
    ensures entries[e] in d.entries
  {
  }

  lemma SharedWanted(s: Store, rows: seq<int>, m: int, entries: map<int, int>, d: Store)
    requires Inside(rows, s.chains.Keys) && EntriesThere(entries, d)
    ensures WantedFor(SharedChains(s, rows, m, entries), m, d.entries)
  {
    var out := SharedChains(s, rows, m, entries);
    SharedChainsFrom(s, rows, m, entries);
    forall i | 0 <= i < |out|
      ensures out[i].map_ == m && out[i].steps == Slots(out[i].signature)
      ensures forall k | 0 <= k < |out[i].signature| :: out[i].signature[k] in d.entries
    {
      assert FromRow(s, rows, m, entries, out[i]);
      var j :| 0 <= j < |rows| && IsSharedRow(s, rows[j], m, entries, out[i]);
      forall k | 0 <= k < |out[i].signature| ensures out[i].signature[k] in d.entries {
        var es, x := Held(s.chains[rows[j]].steps), out[i].signature[k];
        assert x in StepsOver(s.chains[rows[j]], entries);
        RenumberedMember(es, entries, x);
        var q :| 0 <= q < |es| && es[q] in entries && entries[es[q]] == x;
        EntryThere(entries, d, es[q]);
      }
    }
  }

  /** Chains with names of their own are wanted under names of their own. */
  lemma {:induction false} SharedNamed(s: Store, rows: seq<int>, m: int, entries: map<int, int>)
    requires Inside(rows, s.chains.Keys)
    requires forall i, j | 0 <= i < j < |rows| :: s.chains[rows[i]].name != s.chains[rows[j]].name
    ensures RowsNamed(SharedChains(s, rows, m, entries))
    decreases |rows|
  {
    if rows != [] {
      var front := rows[..|rows| - 1];
      var before := SharedChains(s, front, m, entries);
      SharedNamed(s, front, m, entries);
      SharedChainsFrom(s, front, m, entries);
      forall i | 0 <= i < |before| ensures before[i].name != s.chains[rows[|front|]].name {
        assert FromRow(s, front, m, entries, before[i]);
        var j :| 0 <= j < |front| && IsSharedRow(s, front[j], m, entries, before[i]);
        assert rows[j] == front[j] && s.chains[rows[j]].name != s.chains[rows[|front|]].name;
      }
      var out := SharedChains(s, rows, m, entries);
      assert out == before + if StepsCome(s, rows[|front|], entries) then
             [SharedRow(s.chains[rows[|front|]], m, entries)] else [];
      forall i, j | 0 <= i < j < |out| ensures out[i].name != out[j].name {
        assert out[i] == before[i];
        if j < |before| { assert out[j] == before[j]; }
      }
    }
  }

  lemma RowsOfOneMap(s: Store, m: int)
    requires ChainsDistinct(s)
    ensures var rows := ChainRows(s, m);
            && (forall i | 0 <= i < |rows| :: s.chains[rows[i]].map_ == m)
            && forall i, j | 0 <= i < j < |rows| ::
                rows[i] != rows[j] && s.chains[rows[i]].name != s.chains[rows[j]].name
  {
    var rows := ChainRows(s, m);
    RowsAre(map[], ChainsOf(s, m));
    forall i | 0 <= i < |rows| ensures s.chains[rows[i]].map_ == m { InRows(map[], ChainsOf(s, m), rows[i]); }
  }

  /** The rows wanted differ when the chains come apart. */
  lemma ApartRows(s: Store, m: int, m': int, entries: map<int, int>)
    requires ChainsDistinct(s) && SharedApart(s, m, entries)
    ensures RowsApart(SharedChains(s, ChainRows(s, m), m', entries))
  {
    var rows := ChainRows(s, m);
    var out := SharedChains(s, rows, m', entries);
    RowsOfOneMap(s, m);
    SharedNamed(s, rows, m', entries);
    SharedChainsFrom(s, rows, m', entries);
    forall i, j | 0 <= i < j < |out| ensures out[i].signature != out[j].signature {
      assert FromRow(s, rows, m', entries, out[i]) && FromRow(s, rows, m', entries, out[j]);
      var p :| 0 <= p < |rows| && IsSharedRow(s, rows[p], m', entries, out[i]);
      var q :| 0 <= q < |rows| && IsSharedRow(s, rows[q], m', entries, out[j]);
      assert out[i].name != out[j].name;
      assert rows[p] != rows[q];
    }
  }

  /** Writing the chains that come apart: each is written as it is wanted. */
  lemma ApartAreShared(s: Store, m: int, d: Store, m': int, entries: map<int, int>, top: int)
    requires ChainsDistinct(s) && SharedApart(s, m, entries) && EntriesThere(entries, d) && NoneOf(d.chains, m')
    ensures ShareChains(s, m, d, m', entries, top).Ok?
    ensures Appended(d.chains, ShareChains(s, m, d, m', entries, top).value.chains,
              SharedChains(s, ChainRows(s, m), m', entries))
  {
    ApartRows(s, m, m', entries);
    SharedWanted(s, ChainRows(s, m), m', entries, d);
    ApartAreWritten(Writing(d.chains, top, m'), SharedChains(s, ChainRows(s, m), m', entries), m', d.entries);
  }

  /** Two chains that came with the same steps cannot both be there: they have
      two names, and the second insert would have been ignored. */
  lemma StandingIsApart(s: Store, m: int, t: Store, m': int, entries: map<int, int>)
    requires ChainsDistinct(s) && ChainsDistinct(t) && ChainsStand(s, m, t, m', entries)
    ensures SharedApart(s, m, entries)
  {
    forall c, e | StepsCome(s, c, entries) && StepsCome(s, e, entries) && c != e
      && s.chains[c].map_ == m == s.chains[e].map_
      ensures StepsOver(s.chains[c], entries) != StepsOver(s.chains[e], entries)
    {
      var c' :| c' in t.chains && IsSharedRow(s, c, m', entries, t.chains[c']);
      var e' :| e' in t.chains && IsSharedRow(s, e, m', entries, t.chains[e']);
      assert s.chains[c].name != s.chains[e].name;
      assert c' != e';
    }
  }

  // ---------------------------------------------------------------------
  // The map that arrived, and the journal around it.

  /** What the foreign keys and UNIQUE constraints of the tables ask. */
  ghost predicate Homed(s: Store) {
    && (forall n | n in s.nodes :: s.nodes[n].map_ in s.maps)
    && (forall e | e in s.edges :: s.edges[e].map_ in s.maps)
    && (forall c | c in s.chains :: ChainOk(s, c)) && ChainsDistinct(s) && RefsOk(s)
  }

  /** Rows are only added, on maps that were not there; to chains there were,
      steps may be added. */
  ghost predicate Enlarges(a: Store, b: Store) {
    && (forall m | m in a.maps :: m in b.maps && b.maps[m] == a.maps[m])
    && (forall n | n in a.nodes :: n in b.nodes && b.nodes[n] == a.nodes[n])
    && (forall n | n in b.nodes && n !in a.nodes :: b.nodes[n].map_ !in a.maps)
    && (forall e | e in a.edges :: e in b.edges && b.edges[e] == a.edges[e])
    && (forall e | e in b.edges && e !in a.edges :: b.edges[e].map_ !in a.maps)
    && RowsKept(a.chains, b.chains)
    && (forall c | c in b.chains && c !in a.chains :: b.chains[c].map_ !in a.maps)
    && (forall n, e | n in a.nodes :: (n, e) in b.nodeRefs <==> (n, e) in a.nodeRefs)
    && (forall n, e | n in a.edges :: (n, e) in b.edgeRefs <==> (n, e) in a.edgeRefs)
    && a.entries == b.entries
  }

  ghost predicate SameChains(a: Store, b: Store) {
    forall c | c in a.chains :: c in b.chains && b.chains[c] == a.chains[c]
  }

  /** Rows are only added, and only on maps that were not there. */
  ghost predicate Extends(a: Store, b: Store) { Enlarges(a, b) && SameChains(a, b) }

  /** `e'` is the copy of the arrow `e`, with what it referred to. */
  ghost predicate EdgeCopy(s: Store, e: int, t: Store, e': int, m: int, ids: map<int, int>, entries: map<int, int>) {
    && e in s.edges && s.edges[e].from in ids && s.edges[e].to in ids
    && e' in t.edges && t.edges[e'] == MovedEdge(s.edges[e], m, ids)
    && forall x :: (e', x) in t.edgeRefs <==> Referred(s.edgeRefs, e, x, entries)
  }

  /** The node `x` is copied under the copy of its parent, with what it referred to. */
  ghost predicate NodeCopy(s: Store, x: int, t: Store, m: int, ids: map<int, int>, entries: map<int, int>)
    requires x in ids
  {
    && x in s.nodes && !Waits(s.nodes[x], ids)
    && ids[x] in t.nodes && t.nodes[ids[x]] == ImageRow(s.nodes[x], m, ids)
    && forall e :: (ids[x], e) in t.nodeRefs <==> Referred(s.nodeRefs, x, e, entries)
  }

  /** Map `m` of `s` stands in `t` as map `m'`, chains aside: a bijection of
      nodes that keeps parents, with the arrows and references, and no more. */
  ghost predicate TreeStands(s: Store, m: int, t: Store, m': int, ids: map<int, int>, entries: map<int, int>) {
    && m in s.maps && m' in t.maps && t.maps[m'] == s.maps[m]
    && ids.Keys == NodesOf(s.nodes, m) && OneToOne(ids)
    && (forall x | x in ids :: NodeCopy(s, x, t, m', ids, entries))
    && (forall y | y in t.nodes && t.nodes[y].map_ == m' :: IsCopy(ids, y))
    && (forall e | e in s.edges && s.edges[e].map_ == m :: exists e' :: EdgeCopy(s, e, t, e', m', ids, entries))
    && (forall e' | e' in t.edges && t.edges[e'].map_ == m' :: exists e :: EdgeCopy(s, e, t, e', m', ids, entries))
  }

  /** The chains that come whole are all there, and no others. */
  ghost predicate ChainsStand(s: Store, m: int, t: Store, m': int, entries: map<int, int>) {
    && (forall c | StepsCome(s, c, entries) && s.chains[c].map_ == m ::
          exists c' :: c' in t.chains && IsSharedRow(s, c, m', entries, t.chains[c']))
    && (forall c' | c' in t.chains && t.chains[c'].map_ == m' ::
          exists c :: c in s.chains && s.chains[c].map_ == m && IsSharedRow(s, c, m', entries, t.chains[c']))
  }

  ghost predicate Stands(s: Store, m: int, t: Store, m': int, ids: map<int, int>, entries: map<int, int>) {
    TreeStands(s, m, t, m', ids, entries) && ChainsStand(s, m, t, m', entries)
  }

  lemma NodesStandOn(s: Store, m: int, t: Store, u: Store, m': int, ids: map<int, int>, entries: map<int, int>)
    requires TreeStands(s, m, t, m', ids, entries) && Enlarges(t, u)
    ensures m' in u.maps && u.maps[m'] == s.maps[m]
    ensures forall x | x in ids :: NodeCopy(s, x, u, m', ids, entries)
    ensures forall y | y in u.nodes && u.nodes[y].map_ == m' :: IsCopy(ids, y)
  {
    forall y | y in u.nodes && u.nodes[y].map_ == m' ensures IsCopy(ids, y) { assert y in t.nodes; }
    forall x | x in ids ensures NodeCopy(s, x, u, m', ids, entries) {
      assert NodeCopy(s, x, t, m', ids, entries);
      NodeKept(t, u, ids[x]);
    }
  }

  lemma NodeKept(t: Store, u: Store, n: int)
    requires Enlarges(t, u) && n in t.nodes
    ensures n in u.nodes && u.nodes[n] == t.nodes[n]
    ensures forall e :: (n, e) in u.nodeRefs <==> (n, e) in t.nodeRefs
  {
  }

  lemma EdgeStandsOn(s: Store, e: int, t: Store, u: Store, e': int, m: int, ids: map<int, int>, entries: map<int, int>)
    requires EdgeCopy(s, e, t, e', m, ids, entries) && Enlarges(t, u)
    ensures EdgeCopy(s, e, u, e', m, ids, entries)
  {
  }

  lemma EdgesStandOn(s: Store, m: int, t: Store, u: Store, m': int, ids: map<int, int>, entries: map<int, int>)
    requires TreeStands(s, m, t, m', ids, entries) && Enlarges(t, u)
    ensures forall e | e in s.edges && s.edges[e].map_ == m :: exists e' :: EdgeCopy(s, e, u, e', m', ids, entries)
    ensures forall e' | e' in u.edges && u.edges[e'].map_ == m' :: exists e :: EdgeCopy(s, e, u, e', m', ids, entries)
  {
    forall e | e in s.edges && s.edges[e].map_ == m ensures exists e' :: EdgeCopy(s, e, u, e', m', ids, entries) {
      var e' :| EdgeCopy(s, e, t, e', m', ids, entries);
      EdgeStandsOn(s, e, t, u, e', m', ids, entries);
    }
    forall e' | e' in u.edges && u.edges[e'].map_ == m' ensures exists e :: EdgeCopy(s, e, u, e', m', ids, entries) {
      assert e' in t.edges;
      var e :| EdgeCopy(s, e, t, e', m', ids, entries);
      EdgeStandsOn(s, e, t, u, e', m', ids, entries);
    }
  }

  lemma ChainsStandOn(s: Store, m: int, t: Store, u: Store, m': int, entries: map<int, int>)
    requires ChainsStand(s, m, t, m', entries) && Extends(t, u) && m' in t.maps
    ensures ChainsStand(s, m, u, m', entries)
  {
    forall c | StepsCome(s, c, entries) && s.chains[c].map_ == m
      ensures exists c' :: c' in u.chains && IsSharedRow(s, c, m', entries, u.chains[c'])
    {
      var c' :| c' in t.chains && IsSharedRow(s, c, m', entries, t.chains[c']);
      assert c' in u.chains && u.chains[c'] == t.chains[c'];
    }
    forall c' | c' in u.chains && u.chains[c'].map_ == m'
      ensures exists c :: c in s.chains && s.chains[c].map_ == m && IsSharedRow(s, c, m', entries, u.chains[c'])
    {
      assert c' in t.chains && t.chains[c'] == u.chains[c'];
    }
  }

  /** Later maps leave the tree standing. */
  lemma TreeStandsOn(s: Store, m: int, t: Store, u: Store, m': int, ids: map<int, int>, entries: map<int, int>)
    requires TreeStands(s, m, t, m', ids, entries) && Enlarges(t, u)
    ensures TreeStands(s, m, u, m', ids, entries)
  {
    NodesStandOn(s, m, t, u, m', ids, entries);
    EdgesStandOn(s, m, t, u, m', ids, entries);
  }

  /** And its chains, when none of theirs went astray. */
  lemma StandsOn(s: Store, m: int, t: Store, u: Store, m': int, ids: map<int, int>, entries: map<int, int>)
    requires Stands(s, m, t, m', ids, entries) && Extends(t, u)
    ensures Stands(s, m, u, m', ids, entries)
  {
    TreeStandsOn(s, m, t, u, m', ids, entries);
    ChainsStandOn(s, m, t, u, m', entries);
  }
}
