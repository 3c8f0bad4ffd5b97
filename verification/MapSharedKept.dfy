/** Sharing leaves every map of the other journal one tree, the new one included. */
module MapSharedKept {
  import opened Base
  import opened MapStore
  import opened MapLoad
  import opened MapRows
  import opened MapChains
  import opened MapCopy
  import opened MapMerge
  import opened MapShare
  import opened MapShared

  /** The constraints of the tables hold where every map is a tree. */
  lemma TreesAreHomed(d: Store)
    requires WellFormed(d)
    ensures Homed(d)
  {
  }

  /** The node that was copied. */
  ghost function SourceOf(ids: map<int, int>, y: int): (x: int)
    requires IsCopy(ids, y)
    ensures x in ids && ids[x] == y
  {
    var x :| x in ids && ids[x] == y; x
  }

  lemma OnlySource(ids: map<int, int>, x: int)
    requires OneToOne(ids) && x in ids
    ensures IsCopy(ids, ids[x]) && SourceOf(ids, ids[x]) == x
  {
    assert IsCopy(ids, ids[x]);
  }

  /** A node that is new: whose copy it is, and under whose copy it lies. */
  lemma NewNode(src: Nodes, old_: Nodes, c: Copying, m: int, y: int)
    requires Faithful(c, src, old_, m) && y in c.nodes && y !in old_
    ensures IsCopy(c.ids, y)
    ensures var x := SourceOf(c.ids, y);
            && x in src && c.nodes[y] == ImageRow(src[x], m, c.ids) && !Waits(src[x], c.ids)
            && match src[x].parent
               case None => c.nodes[y].parent == None
               case Some(p) => p in c.ids && c.nodes[y].parent == Some(c.ids[p]) && CopyAt(c, src, old_, m, p)
  {
    assert IsCopy(c.ids, y);
    assert CopyAt(c, src, old_, m, SourceOf(c.ids, y));
  }

  /** The ranks of both journals, together. */
  ghost function BothRanks(old_: Nodes, c: Copying, rd: map<int, int>, rs: map<int, int>): map<int, int> {
    map y | y in c.nodes ::
      if y in old_ then (if y in rd then rd[y] else 0)
      else if IsCopy(c.ids, y) && SourceOf(c.ids, y) in rs then rs[SourceOf(c.ids, y)] else 0
  }

  lemma NewRankOk(src: Nodes, old_: Nodes, c: Copying, m: int, rd: map<int, int>, rs: map<int, int>, y: int)
    requires Faithful(c, src, old_, m) && Ranked(src, rs) && y in c.nodes && y !in old_
    ensures RankOk(c.nodes, BothRanks(old_, c, rd, rs), y)
  {
    NewNode(src, old_, c, m, y);
    var x := SourceOf(c.ids, y);
    assert RankOk(src, rs, x);
    if src[x].parent.Some? {
      var p := src[x].parent.value;
      OnlySource(c.ids, p);
    }
  }

  lemma CopiesRanked(src: Nodes, old_: Nodes, c: Copying, m: int)
    requires Faithful(c, src, old_, m) && (exists rs :: Ranked(src, rs)) && (exists rd :: Ranked(old_, rd))
    ensures exists rank :: Ranked(c.nodes, rank)
  {
    var rs :| Ranked(src, rs);
    var rd :| Ranked(old_, rd);
    var rank := BothRanks(old_, c, rd, rs);
    forall y | y in c.nodes ensures RankOk(c.nodes, rank, y) {
      if y in old_ { assert RankOk(old_, rd, y); } else { NewRankOk(src, old_, c, m, rd, rs, y); }
    }
    assert Ranked(c.nodes, rank);
  }

  lemma NodesKept(s: Store, m: int, d: Store, t: Store, m': int, ids: map<int, int>)
    requires NodesOk(s) && NodesOk(d) && m in s.maps && ids.Keys == NodesOf(s.nodes, m)
    requires Faithful(Copying(t.nodes, ids), s.nodes, d.nodes, m') && m' !in d.maps && t.maps == d.maps[m' := s.maps[m]]
    ensures NodesOk(t)
  {
    var c := Copying(t.nodes, ids);
    CopiesRanked(s.nodes, d.nodes, c, m');
    forall n | n in t.nodes ensures t.nodes[n].map_ in t.maps && KindFits(t, n) {
      if n in d.nodes {
        assert d.nodes[n].map_ in d.maps && KindFits(d, n);
      } else {
        NewNode(s.nodes, d.nodes, c, m', n);
        assert SourceOf(ids, n) in NodesOf(s.nodes, m) && KindFits(s, SourceOf(ids, n));
      }
    }
  }

  lemma OldRoot(s: Store, d: Store, t: Store, m': int, ids: map<int, int>, q: int, r: int)
    requires IsRoot(d, q, r) && q != m' && q in t.maps && t.maps[q] == d.maps[q]
    requires Faithful(Copying(t.nodes, ids), s.nodes, d.nodes, m')
    ensures IsRoot(t, q, r)
  {
    forall n | n in t.nodes && t.nodes[n].map_ == q && n != r
      ensures t.nodes[n].parent.Some? && !t.nodes[n].kind.Topic? {
      if n !in d.nodes { NewNode(s.nodes, d.nodes, Copying(t.nodes, ids), m', n); }
    }
  }

  lemma NewRoot(s: Store, m: int, d: Store, t: Store, m': int, ids: map<int, int>, r: int)
    requires IsRoot(s, m, r) && NodesOk(d) && m' !in d.maps && m' in t.maps && t.maps[m'] == s.maps[m]
    requires ids.Keys == NodesOf(s.nodes, m) && Faithful(Copying(t.nodes, ids), s.nodes, d.nodes, m')
    ensures r in ids && IsRoot(t, m', ids[r])
  {
    var c := Copying(t.nodes, ids);
    assert r in NodesOf(s.nodes, m);
    assert CopyAt(c, s.nodes, d.nodes, m', r);
    forall n | n in t.nodes && t.nodes[n].map_ == m' && n != ids[r]
      ensures t.nodes[n].parent.Some? && !t.nodes[n].kind.Topic? {
      assert n !in d.nodes;
      NewNode(s.nodes, d.nodes, c, m', n);
      assert SourceOf(ids, n) in NodesOf(s.nodes, m);
    }
  }

  lemma RootsKept(s: Store, m: int, d: Store, t: Store, m': int, ids: map<int, int>)
    requires (exists r :: IsRoot(s, m, r)) && (forall q | q in d.maps :: exists r :: IsRoot(d, q, r)) && NodesOk(d)
             && m in s.maps
    requires ids.Keys == NodesOf(s.nodes, m) && m' !in d.maps && t.maps == d.maps[m' := s.maps[m]]
    requires Faithful(Copying(t.nodes, ids), s.nodes, d.nodes, m')
    ensures forall q | q in t.maps :: exists r :: IsRoot(t, q, r)
  {
    forall q | q in t.maps ensures exists r :: IsRoot(t, q, r) {
      if q == m' {
        var r :| IsRoot(s, m, r);
        NewRoot(s, m, d, t, m', ids, r);
      } else {
        var r :| IsRoot(d, q, r);
        OldRoot(s, d, t, m', ids, q, r);
      }
    }
  }

  // ---------------------------------------------------------------------
  // Arrows.

  /** The arrows of the copy, as they were drawn. */
  ghost predicate Drawn(s: Store, m: int, d: Store, t: Store, m': int, ids: map<int, int>, edgeRows: seq<int>) {
    && AnyOrder(edgeRows, EdgesOf(s, m)) && EndsIn(s, edgeRows, ids)
    && Appended(d.edges, t.edges, MovedEdges(s, edgeRows, m', ids))
    && OneToOne(ids) && EdgesOk(s)
  }

  lemma NewEdge(s: Store, m: int, d: Store, t: Store, m': int, ids: map<int, int>, edgeRows: seq<int>, e: int)
    requires Drawn(s, m, d, t, m', ids, edgeRows) && e in t.edges && e !in d.edges
    ensures var i := e - NextRowId(d.edges.Keys);
            0 <= i < |edgeRows| && edgeRows[i] in s.edges && t.edges[e] == MovedEdge(s.edges[edgeRows[i]], m', ids)
  {
    if edgeRows != [] {
      MovedEdgeAt(s, edgeRows, m', ids, 0);
      MovedEdgeAt(s, edgeRows, m', ids, e - NextRowId(d.edges.Keys));
    }
  }

  lemma ArrowsDiffer(s: Store, m: int, d: Store, t: Store, m': int, ids: map<int, int>, edgeRows: seq<int>, e: int,
                     f: int)
    requires Drawn(s, m, d, t, m', ids, edgeRows) && e in t.edges && f in t.edges && e != f && e !in d.edges
             && f !in d.edges
    ensures t.edges[e] != t.edges[f]
  {
    NewEdge(s, m, d, t, m', ids, edgeRows, e);
    NewEdge(s, m, d, t, m', ids, edgeRows, f);
    forall i | 0 <= i < |edgeRows| ensures edgeRows[i] in s.edges && s.edges[edgeRows[i]].map_ == m {
      assert edgeRows[i] in Elems(edgeRows);
    }
    ArrowsApart(s, edgeRows, m', ids);
  }

  /** The end of a copied arrow. */
  lemma EndKept(s: Store, d: Store, t: Store, m': int, ids: map<int, int>, x: int)
    requires Faithful(Copying(t.nodes, ids), s.nodes, d.nodes, m') && x in ids
    ensures ids[x] in t.nodes && t.nodes[ids[x]].map_ == m'
  {
    assert CopyAt(Copying(t.nodes, ids), s.nodes, d.nodes, m', x);
  }

  lemma EdgeKept(s: Store, m: int, d: Store, t: Store, m': int, ids: map<int, int>, edgeRows: seq<int>, e: int)
    requires EdgesOk(d) && Drawn(s, m, d, t, m', ids, edgeRows) && Faithful(Copying(t.nodes, ids), s.nodes, d.nodes, m')
             && e in t.edges
    ensures t.edges[e].from in t.nodes && t.edges[e].to in t.nodes && t.edges[e].from != t.edges[e].to
    ensures t.nodes[t.edges[e].from].map_ == t.edges[e].map_ == t.nodes[t.edges[e].to].map_
  {
    if e in d.edges {
      OldEnd(s, d, t, m', ids, d.edges[e].from);
      OldEnd(s, d, t, m', ids, d.edges[e].to);
    } else {
      NewEdge(s, m, d, t, m', ids, edgeRows, e);
      var was := s.edges[edgeRows[e - NextRowId(d.edges.Keys)]];
      NoLoop(s, edgeRows[e - NextRowId(d.edges.Keys)]);
      assert ids[was.from] != ids[was.to];
      EndKept(s, d, t, m', ids, was.from);
      EndKept(s, d, t, m', ids, was.to);
    }
  }

  lemma NoLoop(s: Store, e: int)
    requires EdgesOk(s) && e in s.edges
    ensures s.edges[e].from != s.edges[e].to
  {
  }

  lemma OldEnd(s: Store, d: Store, t: Store, m': int, ids: map<int, int>, x: int)
    requires Faithful(Copying(t.nodes, ids), s.nodes, d.nodes, m') && x in d.nodes
    ensures x in t.nodes && t.nodes[x] == d.nodes[x]
  {
  }

  lemma EdgesKept(s: Store, m: int, d: Store, t: Store, m': int, ids: map<int, int>, edgeRows: seq<int>)
    requires EdgesOk(d) && Drawn(s, m, d, t, m', ids, edgeRows) && Faithful(Copying(t.nodes, ids), s.nodes, d.nodes, m')
    requires m' !in d.maps && forall e | e in d.edges :: d.edges[e].map_ in d.maps
    ensures EdgesOk(t)
  {
    forall e | e in t.edges
      ensures t.edges[e].from in t.nodes && t.edges[e].to in t.nodes && t.edges[e].from != t.edges[e].to
      ensures t.nodes[t.edges[e].from].map_ == t.edges[e].map_ == t.nodes[t.edges[e].to].map_
    {
      EdgeKept(s, m, d, t, m', ids, edgeRows, e);
    }
    forall e, f | e in t.edges && f in t.edges && e != f ensures t.edges[e] != t.edges[f] {
      if e !in d.edges { NewEdge(s, m, d, t, m', ids, edgeRows, e); }
      if f !in d.edges { NewEdge(s, m, d, t, m', ids, edgeRows, f); }
      if e !in d.edges && f !in d.edges { ArrowsDiffer(s, m, d, t, m', ids, edgeRows, e, f); }
    }
  }

  /** Sharing a map keeps every map of the journal a tree, with everything on
      them pointing at what is there — chains that clash or not. */
  lemma ShareKeepsTrees(s: Store, m: int, d: Store, entries: map<int, int>, rows: seq<int>, edgeRows: seq<int>,
                        top: int)
    requires WellFormed(s) && WellFormed(d) && EntriesThere(entries, d) && RowsOfMap(s, m, rows, edgeRows)
    ensures var r := ShareSpec(s, m, d, entries, rows, edgeRows, top); r.Ok? ==> WellFormed(r.value.t)
  {
    TreesAreHomed(d);
    ShareTables(s, m, d, entries, rows, edgeRows, top);
    var r := ShareSpec(s, m, d, entries, rows, edgeRows, top);
    if r.Ok? { TablesKeep(s, m, d, entries, edgeRows, r.value, top); }
  }

  lemma TablesKeep(s: Store, m: int, d: Store, entries: map<int, int>, edgeRows: seq<int>, r: Shared, top: int)
    requires WellFormed(s) && WellFormed(d) && EntriesThere(entries, d) && Tables(s, m, d, entries, edgeRows, r, top)
    ensures WellFormed(r.t)
  {
    assert Homed(r.t) by { ShareEnlarges(s, m, d, entries, edgeRows, r, top); }
    NodesKept(s, m, d, r.t, r.m, r.ids);
    RootsKept(s, m, d, r.t, r.m, r.ids);
    EdgesKept(s, m, d, r.t, r.m, r.ids, edgeRows);
  }
}
