/** An import leaves every map of the journal one tree, the new one included. */
module MapKept {
  import opened Base
  import opened MapStore
  import opened MapLoad
  import opened MapOrder
  import opened MapRows
  import opened MapChains
  import opened MapCopy
  import opened MapRoundTrip
  import opened MapImport
  import opened MapTrip

  /** The list holds one root, its first node, with the title; no arrow is a loop. */
  ghost predicate OneTree(l: Loaded) {
    && l.nodes != [] && l.nodes[0].parent.None? && l.nodes[0].text == l.row.title
    && (forall i | 0 < i < |l.nodes| :: l.nodes[i].parent.Some? && !l.nodes[i].kind.Topic?)
    && forall e | 0 <= e < |l.edges| :: l.edges[e].from != l.edges[e].to
  }

  /** The row of a new node. */
  lemma NewNodeIs(s: Store, m: int, l: Loaded, p: NodesSoFar, x: int)
    requires Importable(l) && NodesPut(s, m, l, |l.nodes|, p) && x in p.nodes && x !in s.nodes
    ensures var base := NextRowId(s.nodes.Keys);
              base <= x < base + |l.nodes| && p.nodes[x] == RowAt(l, m, base, x - base)
  {
    RowsUpToAt(l, m, NextRowId(s.nodes.Keys), |l.nodes|);
  }

  /** A new node lies under an earlier new node, or is the root. */
  lemma NewParent(s: Store, m: int, l: Loaded, p: NodesSoFar, n: int)
    requires Importable(l) && NodesPut(s, m, l, |l.nodes|, p) && n in p.nodes && n !in s.nodes
    ensures p.nodes[n].map_ == m
    ensures match p.nodes[n].parent
            case None => true
            case Some(q) => q in p.nodes && q !in s.nodes && q < n && p.nodes[q].map_ == m
  {
    NewNodeIs(s, m, l, p, n);
    if p.nodes[n].parent.Some? { CopyRow(s, m, l, p, ParentOf(l, n - NextRowId(s.nodes.Keys))); }
  }

  lemma ImportedRanks(s: Store, m: int, l: Loaded, p: NodesSoFar, rank: map<int, int>)
    requires Importable(l) && NodesPut(s, m, l, |l.nodes|, p) && Ranked(s.nodes, rank)
    ensures exists more :: Ranked(p.nodes, more)
  {
    var base := NextRowId(s.nodes.Keys);
    var more := map n | n in p.nodes :: if n in s.nodes && n in rank then rank[n] else n - base;
    forall n | n in p.nodes ensures RankOk(p.nodes, more, n) {
      if n in s.nodes {
        assert RankOk(s.nodes, rank, n);
        if s.nodes[n].parent.Some? { assert s.nodes[n].parent.value in s.nodes; }
      } else {
        NewParent(s, m, l, p, n);
      }
    }
    assert Ranked(p.nodes, more);
  }

  lemma ImportedRoot(s: Store, t: Store, m: int, l: Loaded, p: NodesSoFar)
    requires NoRows(s, m) && Importable(l) && OneTree(l) && NodesPut(s, m, l, |l.nodes|, p) && t.nodes == p.nodes
    requires m in t.maps && t.maps[m].title == l.row.title
    ensures IsRoot(t, m, NextRowId(s.nodes.Keys))
  {
    var base := NextRowId(s.nodes.Keys);
    CopyRow(s, m, l, p, 0);
    forall n | n in t.nodes && t.nodes[n].map_ == m && n != base
      ensures t.nodes[n].parent.Some? && !t.nodes[n].kind.Topic? {
      NewNodeIs(s, m, l, p, n);
    }
  }

  lemma OtherRoots(s: Store, t: Store, m: int, l: Loaded, p: NodesSoFar, q: int, r: int)
    requires Importable(l) && NodesPut(s, m, l, |l.nodes|, p) && t.nodes == p.nodes && q != m && IsRoot(s, q, r)
    requires q in t.maps && t.maps[q] == s.maps[q]
    ensures IsRoot(t, q, r)
  {
    forall n | n in t.nodes && t.nodes[n].map_ == q && n != r
      ensures t.nodes[n].parent.Some? && !t.nodes[n].kind.Topic? {
      if n !in s.nodes { NewNodeIs(s, m, l, p, n); }
    }
  }

  lemma ImportedNodes(s: Store, t: Store, m: int, l: Loaded, p: NodesSoFar)
    requires NodesOk(s) && m !in s.maps && Importable(l) && NodesPut(s, m, l, |l.nodes|, p) && t.nodes == p.nodes
    requires t.maps.Keys == s.maps.Keys + {m} && t.maps[m].layout == l.row.layout
    requires forall q | q in s.maps :: q in t.maps && t.maps[q] == s.maps[q]
    ensures NodesOk(t)
  {
    var rank :| Ranked(s.nodes, rank);
    ImportedRanks(s, m, l, p, rank);
    forall n | n in t.nodes ensures t.nodes[n].map_ in t.maps && KindFits(t, n) {
      if n in s.nodes {
        assert s.nodes[n].map_ in s.maps && KindFits(s, n);
      } else {
        NewNodeIs(s, m, l, p, n);
      }
    }
  }

  // ---------------------------------------------------------------------
  // Arrows and references.

  lemma NewEdgeIs(s: Store, m: int, l: Loaded, ids: map<int, int>, p: EdgesSoFar, x: int)
    requires Drawable(s, m, l, ids) && EdgesPut(s, m, l, ids, |l.edges|, p) && x in p.edges && x !in s.edges
    ensures var i := x - NextRowId(s.edges.Keys); 0 <= i < |l.edges| && p.edges[x] == NewEdge(m, ids, l.edges[i])
  {
    EdgesUpToAt(s, m, l, ids, |l.edges|);
  }

  /** A numbered end is a new node of the map. */
  lemma EndIsNode(s: Store, m: int, l: Loaded, p: NodesSoFar, x: int)
    requires Importable(l) && NodesPut(s, m, l, |l.nodes|, p) && x in p.ids
    ensures p.ids[x] in p.nodes && p.nodes[p.ids[x]].map_ == m
  {
    var i :| 0 <= i < |l.nodes| && l.nodes[i].id == x;
    CopyRow(s, m, l, p, i);
  }

  lemma ImportedEdges(s: Store, t: Store, m: int, l: Loaded, p: NodesSoFar, q: EdgesSoFar)
    requires EdgesOk(s) && Importable(l) && OneTree(l) && NodesPut(s, m, l, |l.nodes|, p) && t.nodes == p.nodes
    requires Drawable(s, m, l, p.ids) && EdgesPut(s, m, l, p.ids, |l.edges|, q) && t.edges == q.edges
    ensures EdgesOk(t)
  {
    forall e | e in t.edges
      ensures t.edges[e].from in t.nodes && t.edges[e].to in t.nodes && t.edges[e].from != t.edges[e].to
      ensures t.nodes[t.edges[e].from].map_ == t.edges[e].map_ == t.nodes[t.edges[e].to].map_
    {
      if e !in s.edges {
        NewEdgeIs(s, m, l, p.ids, q, e);
        var x := l.edges[e - NextRowId(s.edges.Keys)];
        EndIsNode(s, m, l, p, x.from);
        EndIsNode(s, m, l, p, x.to);
      } else {
        OldNode(s, t, l, m, p, s.edges[e].from);
        OldNode(s, t, l, m, p, s.edges[e].to);
      }
    }
    forall e, f | e in t.edges && f in t.edges && e != f ensures t.edges[e] != t.edges[f] {
      EdgesDiffer(s, t, m, l, p.ids, q, e, f);
    }
  }

  lemma OldNode(s: Store, t: Store, l: Loaded, m: int, p: NodesSoFar, x: int)
    requires Importable(l) && NodesPut(s, m, l, |l.nodes|, p) && t.nodes == p.nodes && x in s.nodes
    ensures x in t.nodes && t.nodes[x] == s.nodes[x]
  {
  }

  lemma EdgesDiffer(s: Store, t: Store, m: int, l: Loaded, ids: map<int, int>, q: EdgesSoFar, e: int, f: int)
    requires EdgesOk(s) && Drawable(s, m, l, ids) && EdgesPut(s, m, l, ids, |l.edges|, q) && t.edges == q.edges
    requires e in t.edges && f in t.edges && e != f
    ensures t.edges[e] != t.edges[f]
  {
    var base := NextRowId(s.edges.Keys);
    if e !in s.edges { NewEdgeIs(s, m, l, ids, q, e); }
    if f !in s.edges { NewEdgeIs(s, m, l, ids, q, f); }
    if e !in s.edges && f !in s.edges {
      var i, j := e - base, f - base;
      if i < j { RowsDiffer(s, m, l, ids, i, j); } else { RowsDiffer(s, m, l, ids, j, i); }
    }
  }

  lemma ImportedRefs(s: Store, t: Store, m: int, l: Loaded, p: NodesSoFar, q: EdgesSoFar)
    requires RefsOk(s) && Importable(l) && NodesPut(s, m, l, |l.nodes|, p) && t.nodes == p.nodes && t.nodeRefs == p.refs
    requires Drawable(s, m, l, p.ids) && EdgesPut(s, m, l, p.ids, |l.edges|, q) && t.edges == q.edges
             && t.edgeRefs == q.refs
    requires t.entries == s.entries
    ensures RefsOk(t)
  {
    forall r | r in t.nodeRefs ensures r.0 in t.nodes && r.1 in t.entries {
      if r !in s.nodeRefs { CopyRow(s, m, l, p, r.0 - NextRowId(s.nodes.Keys)); }
    }
    forall r | r in t.edgeRefs ensures r.0 in t.edges && r.1 in t.entries { EdgeRefLands(s, m, l, p.ids, q, r); }
  }

  lemma EdgeRefLands(s: Store, m: int, l: Loaded, ids: map<int, int>, q: EdgesSoFar, r: (int, int))
    requires RefsOk(s) && Drawable(s, m, l, ids) && EdgesPut(s, m, l, ids, |l.edges|, q) && r in q.refs
    ensures r.0 in q.edges && r.1 in s.entries
  {
    EdgesUpToAt(s, m, l, ids, |l.edges|);
    if r !in s.edgeRefs { RowOf(s.edges, q.edges, EdgesUpTo(s, m, l, ids, |l.edges|), r.0 - NextRowId(s.edges.Keys)); }
  }

  // ---------------------------------------------------------------------
  // Chains.

  /** Whether or not inserts were ignored, the chains stay unlike and hold
      entries there are. */
  lemma ImportedChains(s: Store, t: Store, m: int, l: Loaded, top: int)
    requires (forall c | c in s.chains :: ChainOk(s, c)) && ChainsDistinct(s)
    requires ChainsPut(s, m, l, top).Ok? && t.chains == ChainsPut(s, m, l, top).value.chains
    requires t.entries == s.entries && m in t.maps && forall q | q in s.maps :: q in t.maps
    ensures (forall c | c in t.chains :: ChainOk(t, c)) && ChainsDistinct(t)
  {
    var rows := Survivors(m, l.row.createdAt, l.chains, s.entries);
    SurvivorsWanted(m, l.row.createdAt, l.chains, s.entries);
    assert AllKnown(s.chains, s.entries) by {
      forall c | c in s.chains ensures StepsKnown(s.chains[c].steps, s.entries) { assert ChainOk(s, c); }
    }
    PutChainsKeep(Writing(s.chains, top, m), rows, s.entries);
    forall c | c in t.chains ensures ChainOk(t, c) {
      if c in s.chains {
        assert ChainOk(s, c) && RowKept(s.chains[c], t.chains[c]);
      } else {
        assert WroteSome(t.chains, c, rows);
      }
    }
    assert Unique(t.chains);
  }

  // ---------------------------------------------------------------------

  /** Importing a whole tree keeps every map of the journal a tree. */
  lemma WrittenKeeps(s: Store, t: Store, m: int, l: Loaded, row: MapRow, ids: map<int, int>, top: int)
    requires WellFormed(s) && Written(s, t, m, l, row, ids, top) && OneTree(l)
    requires row.title == l.row.title && row.layout == l.row.layout
    ensures WellFormed(t)
  {
    NewMapHasNoRows(s);
    assert m !in s.maps.Keys;
    WrittenNodes(s, t, m, l, row, NodesSoFar(t.nodes, t.nodeRefs, ids));
    WrittenEdges(s, t, m, l, row, ids, top);
    ImportedChains(s, t, m, l, top);
  }

  lemma WrittenNodes(s: Store, t: Store, m: int, l: Loaded, row: MapRow, p: NodesSoFar)
    requires NodesOk(s) && (forall q | q in s.maps :: exists r :: IsRoot(s, q, r)) && NoRows(s, m) && m !in s.maps
    requires Importable(l) && NodesPut(s, m, l, |l.nodes|, p) && OneTree(l) && t.nodes == p.nodes
    requires t.maps == s.maps[m := row] && row.title == l.row.title && row.layout == l.row.layout
    ensures NodesOk(t) && forall q | q in t.maps :: exists r :: IsRoot(t, q, r)
  {
    ImportedNodes(s, t, m, l, p);
    ImportedRoots(s, t, m, l, p);
  }

  lemma WrittenEdges(s: Store, t: Store, m: int, l: Loaded, row: MapRow, ids: map<int, int>, top: int)
    requires EdgesOk(s) && RefsOk(s) && Written(s, t, m, l, row, ids, top) && OneTree(l)
    ensures EdgesOk(t) && RefsOk(t)
  {
    var p, q := NodesSoFar(t.nodes, t.nodeRefs, ids), EdgesSoFar(t.edges, t.edgeRefs);
    ImportedEdges(s, t, m, l, p, q);
    ImportedRefs(s, t, m, l, p, q);
  }

  lemma ImportedRoots(s: Store, t: Store, m: int, l: Loaded, p: NodesSoFar)
    requires (forall q | q in s.maps :: exists r :: IsRoot(s, q, r)) && NoRows(s, m) && m !in s.maps
    requires Importable(l) && OneTree(l) && NodesPut(s, m, l, |l.nodes|, p) && t.nodes == p.nodes
    requires t.maps.Keys == s.maps.Keys + {m} && t.maps[m].title == l.row.title
    requires forall q | q in s.maps :: q in t.maps && t.maps[q] == s.maps[q]
    ensures forall q | q in t.maps :: exists r :: IsRoot(t, q, r)
  {
    forall q | q in t.maps ensures exists r :: IsRoot(t, q, r) {
      if q == m {
        ImportedRoot(s, t, m, l, p);
      } else {
        assert q in s.maps.Keys;
        var r :| IsRoot(s, q, r);
        OtherRoots(s, t, m, l, p, q, r);
      }
    }
  }

  lemma LoadedIsOneTree(s: Store, m: int, entries: map<int, int>)
    requires WellFormed(s) && m in s.maps && LoadSpec(s, m).Ok?
    ensures OneTree(Renumber(LoadSpec(s, m).value, entries))
  {
    var r := RootOf(s, m);
    var l := Renumber(LoadSpec(s, m).value, entries);
    LoadGivesTheTree(s, m, r);
    NodesCarried(s, m, entries, 0);
    forall i | 0 < i < |l.nodes| ensures l.nodes[i].parent.Some? && !l.nodes[i].kind.Topic? {
      NodesCarried(s, m, entries, i);
      OrderMember(s, m, Order(s, m)[i]);
      assert Order(s, m)[i] != Order(s, m)[0];
    }
    forall e | 0 <= e < |l.edges| ensures l.edges[e].from != l.edges[e].to {
      InRows(map[], EdgesOf(s, m), EdgeRows(s, m)[e]);
    }
  }

  /** An import of any one tree that goes through keeps the journal's maps
      trees, with everything on them pointing at what is there. */
  lemma ImportKeeps(d: Store, l: Loaded, host: Option<string>, now: int, top: int)
    requires WellFormed(d) && Importable(l) && Joined(l) && OneTree(l)
    ensures var r := ImportSpec(d, l, host, now, top);
            r.Ok? && r.value.Some? ==> WellFormed(r.value.value.0)
  {
    if !Seen(d, l.row) {
      var t, m, ids := ImportWrites(d, l, host, now, top);
      if ChainsPut(d, m, l, top).Ok? { WrittenKeeps(d, t, m, l, ImportedRow(l.row, host, now), ids, top); }
    }
  }

  /** What `load` gave is one tree, so importing it keeps them. */
  lemma ImportKeepsTrees(s: Store, m: int, d: Store, entries: map<int, int>, host: Option<string>, now: int, top: int)
    requires WellFormed(s) && m in s.maps && LoadSpec(s, m).Ok? && WellFormed(d)
    ensures var r := ImportSpec(d, Renumber(LoadSpec(s, m).value, entries), host, now, top);
            r.Ok? && r.value.Some? ==> WellFormed(r.value.value.0)
  {
    LoadedIsImportable(s, m, entries);
    LoadedIsJoined(s, m, entries);
    LoadedIsOneTree(s, m, entries);
    ImportKeeps(d, Renumber(LoadSpec(s, m).value, entries), host, now, top);
  }
}
