/** `merge` of `src/mindmap.rs` as it runs, on two journals' tables. */
module MapSharing {
  import opened Base
  import opened MapStore
  import opened MapLoad
  import opened MapRows
  import opened MapChains
  import opened MapCopy
  import opened MapMerge
  import opened MapShare
  import opened MapShared
  import opened MapSharedKept
  import opened MindMaps

  method AnyRows(ids: set<int>) returns (rows: seq<int>)
    ensures AnyOrder(rows, ids)
  {
    rows := [];
    var rest := ids;
    while rest != {}
      invariant rest <= ids && NoDup(rows) && Elems(rows) == ids - rest
      decreases rest
    {
      ghost var some := SomeMember(rest);
      var x :| x in rest;
      assert x in rows ==> x in Elems(rows);
      NoDupConcat(rows, [x]);
      assert Elems(rows + [x]) == Elems(rows) + {x};
      rows, rest := rows + [x], rest - {x};
    }
  }

  method MoveRefs(was: set<(int, int)>, refs: set<(int, int)>, ids: map<int, int>, entries: map<int, int>)
      returns (now: set<(int, int)>)
    ensures now == was + MovedRefs(refs, ids, entries)
  {
    now := was;
    var rest := refs;
    while rest != {}
      invariant rest <= refs && now == was + MovedRefs(refs - rest, ids, entries)
      decreases rest
    {
      var r :| r in rest;
      assert refs - (rest - {r}) == (refs - rest) + {r};
      if r.0 in ids && r.1 in entries { now := now + {(ids[r.0], entries[r.1])}; }
      rest := rest - {r};
    }
    assert refs - rest == refs;
  }

  method CopyEdges(d: Store, s: Store, rows: seq<int>, m: int, ids: map<int, int>, entries: map<int, int>)
      returns (p: EdgesSoFar)
    requires Inside(rows, s.edges.Keys)
    ensures p == ShareEdges(d, s, rows, m, ids, entries)
  {
    p := EdgesSoFar(d.edges, d.edgeRefs);
    for i := 0 to |rows|
      invariant p == ShareEdges(d, s, rows[..i], m, ids, entries)
    {
      assert rows[..i + 1][..i] == rows[..i];
      var e := s.edges[rows[i]];
      if e.from !in ids || e.to !in ids { continue; }
      var id := NextRow(p.edges.Keys);
      var refs := MoveRefs(p.refs, s.edgeRefs, map[rows[i] := id], entries);
      p := EdgesSoFar(p.edges[id := MovedEdge(e, m, ids)], refs);
    }
    assert rows[..|rows|] == rows;
  }

  lemma {:induction false} SharedFront(s: Store, rows: seq<int>, m: int, entries: map<int, int>, i: nat)
    requires Inside(rows, s.chains.Keys) && i <= |rows|
    ensures SharedChains(s, rows[..i], m, entries) <= SharedChains(s, rows, m, entries)
    decreases |rows|
  {
    if i < |rows| {
      var front := rows[..|rows| - 1];
      assert front[..i] == rows[..i];
      SharedFront(s, front, m, entries, i);
    } else {
      assert rows[..i] == rows;
    }
  }

  /** The chains of `rows` that come whole, written one after the other. */
  method CopyChains(w: Writing, s: Store, rows: seq<int>, m: int, entries: map<int, int>, known: set<int>)
      returns (r: Result<Writing, Error>)
    requires Inside(rows, s.chains.Keys)
    ensures r == PutChains(w, SharedChains(s, rows, m, entries), known)
  {
    var v := w;
    for i := 0 to |rows|
      invariant PutChains(w, SharedChains(s, rows[..i], m, entries), known) == Ok(v)
    {
      assert rows[..i + 1][..i] == rows[..i];
      ghost var before := SharedChains(s, rows[..i], m, entries);
      var c := s.chains[rows[i]];
      var held := Held(c.steps);
      var steps := RenumberList(held, entries);
      if |steps| != |held| {
        assert SharedChains(s, rows[..i + 1], m, entries) == before;
        continue;
      }
      var row := ChainRow(m, c.name, steps, Slots(steps), c.createdAt);
      assert SharedChains(s, rows[..i + 1], m, entries) == before + [row];
      OneMore(w, before, row, known);
      r := WriteChain(v, row, known);
      if r.Err? {
        SharedFront(s, rows, m, entries, i + 1);
        ChainsFail(w, before + [row], SharedChains(s, rows, m, entries), known);
        return;
      }
      v := r.value;
    }
    assert rows[..|rows|] == rows;
    return Ok(v);
  }

  /** One map: its row, its nodes pass by pass, then what points at them. */
  method CopyMap(d: Store, s: Store, m: int, entries: map<int, int>, top: int) returns (r: Result<Shared, Error>)
    requires Mergeable(s, d, entries) && m in s.maps
    ensures r.Ok? ==> SharedOne(s, m, d, r.value.t, entries) && Homed(r.value.t) && r.value.t.entries == d.entries
    ensures r.Ok? && WellFormed(d) ==> WellFormed(r.value.t)
    ensures SharedApart(s, m, entries) ==> r.Ok?
  {
    var nodeRows := AnyRows(NodesOf(s.nodes, m));
    var arrowRows := AnyRows(EdgesOf(s, m));
    var chainRows := Select(map[], ChainsOf(s, m));
    assert chainRows == ChainRows(s, m);
    InsideElems(arrowRows, s.edges.Keys);
    InsideElems(nodeRows, s.nodes.Keys);
    var m' := NextRow(d.maps.Keys);
    var c := CopyNodes(s, m, nodeRows, d.nodes, m');
    var refs := MoveRefs(d.nodeRefs, s.nodeRefs, c.ids, entries);
    var p := CopyEdges(d, s, arrowRows, m', c.ids, entries);
    var w := CopyChains(Writing(d.chains, top, m'), s, chainRows, m', entries, d.entries);
    ShareStands(s, m, d, entries, nodeRows, arrowRows, top);
    if WellFormed(d) { ShareKeepsTrees(s, m, d, entries, nodeRows, arrowRows, top); }
    if w.Err? { return Err(w.error); }
    var t := Store(d.entries, d.maps[m' := s.maps[m]], c.nodes, p.edges, refs, p.refs, w.value.chains);
    r := Ok(Shared(t, m', c.ids, w.value.top));
    assert r == ShareSpec(s, m, d, entries, nodeRows, arrowRows, top);
    assert TreeStands(s, m, t, m', c.ids, entries);
    assert SharedApart(s, m, entries) ==> Stands(s, m, t, m', c.ids, entries);
  }

  /** What a merge of all maps leaves, when it goes through. */
  ghost predicate MapsMerged(s: Store, d: Store, t: Store, entries: map<int, int>) {
    && Enlarges(d, t) && Homed(t) && TreesIn(s, t, s.maps.Keys, entries)
    && (AllApart(s, entries) ==> SameChains(d, t))
    && (MapsIn(s, t, s.maps.Keys, entries) <==> AllApart(s, entries))
  }

  lemma MergedIff(s: Store, d: Store, t: Store, entries: map<int, int>)
    requires WellFormed(s) && Homed(t) && SharedSoFar(s, d, t, s.maps.Keys, entries)
    ensures MapsMerged(s, d, t, entries)
  {
    if MapsIn(s, t, s.maps.Keys, entries) {
      forall m | m in s.maps ensures SharedApart(s, m, entries) { CopiedIsApart(s, m, t, entries); }
    }
  }

  lemma NothingShared(s: Store, d: Store, entries: map<int, int>)
    ensures SharedSoFar(s, d, d, {}, entries)
  {
  }

  /** The maps one after the other, on the tables as the transaction sees them. */
  method ShareAll(d: Store, s: Store, entries: map<int, int>, top0: int) returns (r: Result<Store, Error>)
    requires Mergeable(s, d, entries)
    ensures r.Ok? ==> r.value.entries == d.entries && MapsMerged(s, d, r.value, entries)
    ensures r.Ok? && WellFormed(d) ==> WellFormed(r.value)
    ensures AllApart(s, entries) ==> r.Ok?
  {
    var ids := Select(map[], s.maps.Keys);
    var t, top := d, top0;
    RowsAre(map[], s.maps.Keys);
    NothingShared(s, d, entries);
    ghost var done: set<int> := {};
    for i := 0 to |ids|
      invariant t.entries == d.entries && Homed(t) && SharedSoFar(s, d, t, done, entries)
      invariant WellFormed(d) ==> WellFormed(t)
      invariant done == Elems(ids[..i]) && (i == |ids| ==> done == Elems(ids))
    {
      ElemsNext(ids, i);
      var one := CopyMap(t, s, ids[i], entries, top);
      if one.Err? { return Err(one.error); }
      SharedNext(s, d, t, one.value.t, done, ids[i], entries);
      t, top, done := one.value.t, one.value.top, done + {ids[i]};
    }
    MergedIff(s, d, t, entries);
    return Ok(t);
  }

  method Commit(d: MindMapTables, t: Store)
    requires t.entries == d.entries
    modifies d
    ensures d.View() == t
  {
    d.maps, d.nodes, d.nodeRefs := t.maps, t.nodes, t.nodeRefs;
    d.edges, d.edgeRefs, d.chains := t.edges, t.edgeRefs, t.chains;
  }

  /** `merge`, as one transaction: every map of `src` comes to stand in `d` as a
      tree with its arrows and references, where nothing but steps of chains
      could change; or `d` is left as it was. Where the chains of every map come
      apart it goes through, nothing else changes, and the chains stand too;
      where they do not, some map does not stand whole. */
  method MergeMaps(d: MindMapTables, src: MindMapTables, entries: map<int, int>, top: int)
      returns (r: Result<nat, Error>)
    requires src != d && Mergeable(src.View(), d.View(), entries)
    modifies d
    ensures src.View() == old(src.View()) && (r.Ok? ==> r.value == |src.maps|)
    ensures if r.Ok? then MapsMerged(src.View(), old(d.View()), d.View(), entries) else d.View() == old(d.View())
    ensures old(WellFormed(d.View())) ==> WellFormed(d.View())
    ensures AllApart(src.View(), entries) ==> r.Ok?
  {
    var all := ShareAll(d.View(), src.View(), entries, top);
    if all.Err? { return Err(all.error); }
    Commit(d, all.value);
    return Ok(|src.maps|);
  }
}
