/** Writing a loaded map into a journal: `renumber` and `import` of
    `src/mindmap.rs`. */
module MapCopy {
  import opened Base
  import opened MapStore
  import opened MapLoad
  import opened MapRows
  import opened MapChains

  // ---------------------------------------------------------------------
  // `renumber`: journal references pass through `entries`.

  function Renumbered(refs: seq<int>, entries: map<int, int>): seq<int> {
    if refs == [] then []
    else (if refs[0] in entries then [entries[refs[0]]] else []) + Renumbered(refs[1..], entries)
  }

  lemma {:induction false} RenumberedMember(refs: seq<int>, entries: map<int, int>, x: int)
    ensures x in Renumbered(refs, entries) <==>
              exists i :: 0 <= i < |refs| && refs[i] in entries && entries[refs[i]] == x
  {
    if refs != [] {
      RenumberedMember(refs[1..], entries, x);
      if i :| 0 <= i < |refs| && refs[i] in entries && entries[refs[i]] == x {
        if i > 0 { assert refs[1..][i - 1] == refs[i]; }
      }
      if i :| 0 <= i < |refs| - 1 && refs[1..][i] in entries && entries[refs[1..][i]] == x {
        assert refs[i + 1] == refs[1..][i];
      }
    }
  }

  function RenumberNodes(nodes: seq<LoadedNode>, entries: map<int, int>): seq<LoadedNode> {
    seq(|nodes|, i requires 0 <= i < |nodes| => nodes[i].(refs := Renumbered(nodes[i].refs, entries)))
  }

  function RenumberEdges(edges: seq<LoadedEdge>, entries: map<int, int>): seq<LoadedEdge> {
    seq(|edges|, i requires 0 <= i < |edges| => edges[i].(refs := Renumbered(edges[i].refs, entries)))
  }

  /** A chain that loses a step goes whole. */
  function RenumberChains(chains: seq<LoadedChain>, entries: map<int, int>): seq<LoadedChain> {
    if chains == [] then []
    else
      var c := chains[|chains| - 1];
      var steps := Renumbered(c.entries, entries);
      RenumberChains(chains[..|chains| - 1], entries) + if |steps| == |c.entries| then [c.(entries := steps)] else []
  }

  function Renumber(l: Loaded, entries: map<int, int>): Loaded {
    l.(nodes := RenumberNodes(l.nodes, entries), edges := RenumberEdges(l.edges, entries), chains :=
      RenumberChains(l.chains, entries))
  }

  method RenumberList(refs: seq<int>, entries: map<int, int>) returns (out: seq<int>)
    ensures out == Renumbered(refs, entries)
  {
    out := [];
    for i := 0 to |refs|
      invariant out + Renumbered(refs[i..], entries) == Renumbered(refs, entries)
    {
      assert refs[i..][0] == refs[i] && refs[i..][1..] == refs[i + 1..];
      if refs[i] in entries { out := out + [entries[refs[i]]]; }
    }
  }

  /** The map as `renumber` leaves it. */
  method RenumberMap(l: Loaded, entries: map<int, int>) returns (r: Loaded)
    ensures r == Renumber(l, entries)
  {
    r := l;
    for i := 0 to |l.nodes|
      invariant r == l.(nodes := r.nodes) && |r.nodes| == |l.nodes|
      invariant forall j | 0 <= j < |l.nodes| :: r.nodes[j] == if j < i then RenumberNodes(l.nodes, entries)[j]
                else l.nodes[j]
    {
      var refs := RenumberList(l.nodes[i].refs, entries);
      r := r.(nodes := r.nodes[i := l.nodes[i].(refs := refs)]);
    }
    for i := 0 to |l.edges|
      invariant r == l.(nodes := RenumberNodes(l.nodes, entries), edges := r.edges) && |r.edges| == |l.edges|
      invariant forall j | 0 <= j < |l.edges| :: r.edges[j] == if j < i then RenumberEdges(l.edges, entries)[j]
                else l.edges[j]
    {
      var refs := RenumberList(l.edges[i].refs, entries);
      r := r.(edges := r.edges[i := l.edges[i].(refs := refs)]);
    }
    var chains := [];
    for i := 0 to |l.chains|
      invariant chains == RenumberChains(l.chains[..i], entries)
    {
      var c := l.chains[i];
      assert l.chains[..i + 1][..i] == l.chains[..i];
      var mapped := RenumberList(c.entries, entries);
      if |mapped| == |c.entries| { chains := chains + [c.(entries := mapped)]; }
    }
    assert l.chains[..|l.chains|] == l.chains;
    r := r.(chains := chains);
  }

  // ---------------------------------------------------------------------
  // `import`.

  datatype NodesSoFar = NodesSoFar(nodes: Nodes, refs: set<(int, int)>, ids: map<int, int>)

  /** The references that `id` gets: those to entries the journal has. */
  function Known(id: int, refs: seq<int>, entries: set<int>): set<(int, int)> {
    set e | e in entries && e in refs :: (id, e)
  }

  ghost function PutNode(p: NodesSoFar, s: Store, m: int, l: Loaded, i: nat): Result<NodesSoFar, Error>
    requires i < |l.nodes|
  {
    var x := l.nodes[i];
    if x.parent.Some? && x.parent.value !in p.ids then Ok(p)
    else if x.parent.Some? && !Allowed(x.kind, l.row.layout) then Err(UnknownKind)
    else
      var id := NextRowId(p.nodes.Keys);
      var parent := if x.parent.None? then None else Some(p.ids[x.parent.value]);
      var row := NodeRow(m, parent, if x.parent.None? then Topic
        else x.kind, x.text, x.state, i, l.row.createdAt, x.author);
      Ok(NodesSoFar(p.nodes[id := row], p.refs + Known(id, x.refs, s.entries), p.ids[x.id := id]))
  }

  ghost function PutNodes(s: Store, m: int, l: Loaded, n: nat): Result<NodesSoFar, Error>
    requires n <= |l.nodes|
  {
    if n == 0 then Ok(NodesSoFar(s.nodes, s.nodeRefs, map[]))
    else match PutNodes(s, m, l, n - 1)
      case Err(e) => Err(e)
      case Ok(p) => PutNode(p, s, m, l, n - 1)
  }

  datatype EdgesSoFar = EdgesSoFar(edges: map<int, EdgeRow>, refs: set<(int, int)>)

  /** `INSERT OR IGNORE`, then the row found again. */
  ghost function PutEdge(p: EdgesSoFar, s: Store, m: int, x: LoadedEdge, ids: map<int, int>): EdgesSoFar {
    if x.from !in ids || x.to !in ids then p
    else
      var row := EdgeRow(m, ids[x.from], ids[x.to], x.caption);
      var t := s.(edges := p.edges);
      var id := if exists e :: e in t.edges && t.edges[e] == row then EdgeOf(t, row) else NextRowId(p.edges.Keys);
      EdgesSoFar(p.edges[id := row], p.refs + Known(id, x.refs, s.entries))
  }

  ghost function PutEdges(s: Store, m: int, l: Loaded, ids: map<int, int>, n: nat): EdgesSoFar
    requires n <= |l.edges|
  {
    if n == 0 then EdgesSoFar(s.edges, s.edgeRefs)
    else PutEdge(PutEdges(s, m, l, ids, n - 1), s, m, l.edges[n - 1], ids)
  }

  predicate Whole(c: LoadedChain, entries: set<int>) {
    |c.entries| >= 2 && forall i | 0 <= i < |c.entries| :: c.entries[i] in entries
  }

  /** The rows of the chains whose steps are all here. */
  function Survivors(m: int, at: int, chains: seq<LoadedChain>, entries: set<int>): seq<ChainRow> {
    if chains == [] then []
    else
      var c := chains[|chains| - 1];
      Survivors(m, at, chains[..|chains| - 1], entries)
        + if Whole(c, entries) then [ChainRow(m, c.name, c.entries, Slots(c.entries), at)] else []
  }

  predicate Seen(s: Store, row: MapRow) {
    exists q :: q in s.maps && s.maps[q].title == row.title && s.maps[q].nick == row.nick
      && s.maps[q].createdAt == row.createdAt
  }

  function ImportedRow(row: MapRow, host: Option<string>, now: int): MapRow {
    row.(host := if host.Some? then host else row.host, updatedAt := if row.updatedAt < now then row.updatedAt else now)
  }

  /** `top` is the last rowid of the table of steps. */
  ghost function ImportSpec(s: Store, l: Loaded, host: Option<string>, now: int, top: int): Result<Option<(Store, int)>,
      Error> {
    if Seen(s, l.row) then Ok(None)
    else
      var m := NextRowId(s.maps.Keys);
      match PutNodes(s, m, l, |l.nodes|)
      case Err(e) => Err(e)
      case Ok(p) =>
        var q := PutEdges(s, m, l, p.ids, |l.edges|);
        match PutChains(Writing(s.chains, top, m), Survivors(m, l.row.createdAt, l.chains, s.entries), s.entries)
        case Err(e) => Err(e)
        case Ok(w) =>
          Ok(Some((s.(maps := s.maps[m := ImportedRow(l.row, host, now)], nodes := p.nodes, nodeRefs := p.refs,
                      edges := q.edges, edgeRefs := q.refs, chains := w.chains), m)))
  }

  // ---------------------------------------------------------------------
  // References of new rows.

  /** The references of the new rows, as far as the entries exist. */
  ghost predicate RefsAppended(was: set<(int, int)>, now: set<(int, int)>, base: int, lists: seq<seq<int>>,
                               entries: set<int>) {
    forall r :: r in now <==> r in was || (base <= r.0 < base + |lists| && r.1 in lists[r.0 - base] && r.1 in entries)
  }

  lemma KnownMember(id: int, refs: seq<int>, entries: set<int>, r: (int, int))
    ensures r in Known(id, refs, entries) <==> r.0 == id && r.1 in refs && r.1 in entries
  {
    if r.0 == id && r.1 in refs && r.1 in entries {
      var e := r.1;
      assert e in entries && e in refs;
      assert (id, e) in Known(id, refs, entries);
    }
  }

  lemma AppendRefs(was: set<(int, int)>, now: set<(int, int)>, base: int, lists: seq<seq<int>>, entries: set<int>,
                   refs: seq<int>)
    requires RefsAppended(was, now, base, lists, entries)
    ensures RefsAppended(was, now + Known(base + |lists|, refs, entries), base, lists + [refs], entries)
  {
    var more := lists + [refs];
    forall r ensures r in now + Known(base + |lists|, refs, entries) <==>
                     r in was || (base <= r.0 < base + |more| && r.1 in more[r.0 - base] && r.1 in entries) {
      KnownMember(base + |lists|, refs, entries, r);
    }
  }

  // ---------------------------------------------------------------------
  // The nodes written, when parents come first.

  ghost predicate DistinctIds(l: Loaded) {
    forall i, j | 0 <= i < j < |l.nodes| :: l.nodes[i].id != l.nodes[j].id
  }

  /** Where the parent of the i-th node stands in the list. */
  ghost predicate ParentAt(l: Loaded, i: nat, j: nat)
    requires i < |l.nodes|
  {
    j < i && l.nodes[i].parent == Some(l.nodes[j].id)
  }

  ghost predicate Importable(l: Loaded) {
    && DistinctIds(l)
    && forall i | 0 <= i < |l.nodes| ::
         l.nodes[i].parent.Some? ==> Allowed(l.nodes[i].kind, l.row.layout) && exists j :: ParentAt(l, i, j)
  }

  ghost function ParentOf(l: Loaded, i: nat): (j: nat)
    requires Importable(l) && i < |l.nodes| && l.nodes[i].parent.Some?
    ensures ParentAt(l, i, j)
  {
    var j :| ParentAt(l, i, j); j
  }

  /** The row of the i-th node: same place in the tree, numbers from `base`. */
  ghost function RowAt(l: Loaded, m: int, base: int, i: nat): NodeRow
    requires Importable(l) && i < |l.nodes|
  {
    var x := l.nodes[i];
    NodeRow(m, if x.parent.None? then None else Some(base + ParentOf(l, i)), if x.parent.None? then Topic else x.kind,
            x.text, x.state, i, l.row.createdAt, x.author)
  }

  ghost function RowsUpTo(l: Loaded, m: int, base: int, n: nat): seq<NodeRow>
    requires Importable(l) && n <= |l.nodes|
  {
    if n == 0 then [] else RowsUpTo(l, m, base, n - 1) + [RowAt(l, m, base, n - 1)]
  }

  lemma {:induction false} RowsUpToAt(l: Loaded, m: int, base: int, n: nat)
    requires Importable(l) && n <= |l.nodes|
    ensures |RowsUpTo(l, m, base, n)| == n
    ensures forall i | 0 <= i < n :: RowsUpTo(l, m, base, n)[i] == RowAt(l, m, base, i)
  {
    if n > 0 { RowsUpToAt(l, m, base, n - 1); }
  }

  function NodeLists(nodes: seq<LoadedNode>, n: nat): (r: seq<seq<int>>)
    requires n <= |nodes|
    ensures |r| == n
  {
    if n == 0 then [] else NodeLists(nodes, n - 1) + [nodes[n - 1].refs]
  }

  /** The first `n` nodes are written, each id known under its new number. */
  ghost predicate NodesPut(s: Store, m: int, l: Loaded, n: nat, p: NodesSoFar)
    requires Importable(l) && n <= |l.nodes|
  {
    var base := NextRowId(s.nodes.Keys);
    && Appended(s.nodes, p.nodes, RowsUpTo(l, m, base, n))
    && RefsAppended(s.nodeRefs, p.refs, base, NodeLists(l.nodes, n), s.entries)
    && Numbered(l, base, n, p.ids)
  }

  ghost predicate Numbered(l: Loaded, base: int, n: nat, ids: map<int, int>)
    requires n <= |l.nodes|
  {
    && (forall i | 0 <= i < n :: l.nodes[i].id in ids && ids[l.nodes[i].id] == base + i)
    && (forall x | x in ids :: exists i :: 0 <= i < n && l.nodes[i].id == x)
  }

  lemma NumberNext(l: Loaded, base: int, n: nat, ids: map<int, int>)
    requires n < |l.nodes| && DistinctIds(l) && Numbered(l, base, n, ids)
    ensures Numbered(l, base, n + 1, ids[l.nodes[n].id := base + n])
  {
    var next := ids[l.nodes[n].id := base + n];
    forall x | x in next ensures exists i :: 0 <= i < n + 1 && l.nodes[i].id == x {
      if x != l.nodes[n].id { var i :| 0 <= i < n && l.nodes[i].id == x; }
    }
  }

  lemma PutNodeIs(s: Store, m: int, l: Loaded, n: nat, p: NodesSoFar)
    requires Importable(l) && n < |l.nodes| && Numbered(l, NextRowId(s.nodes.Keys), n, p.ids)
    requires NextRowId(p.nodes.Keys) == NextRowId(s.nodes.Keys) + n
    ensures var base, x := NextRowId(s.nodes.Keys), l.nodes[n];
            PutNode(p, s, m, l, n) == Ok(NodesSoFar(p.nodes[NextRowId(p.nodes.Keys) := RowAt(l, m, base, n)],
                                                   p.refs + Known(base + n, x.refs, s.entries),
                                                     p.ids[x.id := base + n]))
  {
    if l.nodes[n].parent.Some? {
      var j := ParentOf(l, n);
      assert l.nodes[j].id in p.ids;
    }
  }

  lemma {:induction false} PutNodesDo(s: Store, m: int, l: Loaded, n: nat)
    requires Importable(l) && n <= |l.nodes|
    ensures PutNodes(s, m, l, n).Ok? && NodesPut(s, m, l, n, PutNodes(s, m, l, n).value)
  {
    if n > 0 {
      PutNodesDo(s, m, l, n - 1);
      NodesNext(s, m, l, n, PutNodes(s, m, l, n - 1).value);
    }
  }

  lemma NodesNext(s: Store, m: int, l: Loaded, n: nat, p: NodesSoFar)
    requires Importable(l) && 0 < n <= |l.nodes| && NodesPut(s, m, l, n - 1, p)
    ensures PutNode(p, s, m, l, n - 1).Ok? && NodesPut(s, m, l, n, PutNode(p, s, m, l, n - 1).value)
  {
    var base, i, x := NextRowId(s.nodes.Keys), n - 1, l.nodes[n - 1];
    assert NextRowId(p.nodes.Keys) == base + i by { TableNext(s, m, l, n, p.nodes); }
    var q := NodesSoFar(p.nodes[NextRowId(p.nodes.Keys) := RowAt(l, m, base, i)],
      p.refs + Known(base + i, x.refs, s.entries), p.ids[x.id := base + i]);
    assert PutNode(p, s, m, l, i) == Ok(q) by { PutNodeIs(s, m, l, i, p); }
    assert Appended(s.nodes, q.nodes, RowsUpTo(l, m, base, n)) by { TableNext(s, m, l, n, p.nodes); }
    assert RefsAppended(s.nodeRefs, q.refs, base, NodeLists(l.nodes, n),
           s.entries) by { ListNext(s, l.nodes, n, p.refs); }
    assert Numbered(l, base, n, q.ids) by { NumberNext(l, base, i, p.ids); }
  }

  lemma ListNext(s: Store, nodes: seq<LoadedNode>, n: nat, refs: set<(int, int)>)
    requires 0 < n <= |nodes|
             && RefsAppended(s.nodeRefs, refs, NextRowId(s.nodes.Keys), NodeLists(nodes, n - 1), s.entries)
    ensures RefsAppended(s.nodeRefs, refs + Known(NextRowId(s.nodes.Keys) + n - 1, nodes[n - 1].refs, s.entries),
                         NextRowId(s.nodes.Keys), NodeLists(nodes, n), s.entries)
  {
    AppendRefs(s.nodeRefs, refs, NextRowId(s.nodes.Keys), NodeLists(nodes, n - 1), s.entries, nodes[n - 1].refs);
  }

  /** The table with one more copied row. */
  lemma TableNext(s: Store, m: int, l: Loaded, n: nat, nodes: Nodes)
    requires Importable(l) && 0 < n <= |l.nodes|
             && Appended(s.nodes, nodes, RowsUpTo(l, m, NextRowId(s.nodes.Keys), n - 1))
    ensures var base := NextRowId(s.nodes.Keys);
            && NextRowId(nodes.Keys) == base + n - 1
            && Appended(s.nodes, nodes[NextRowId(nodes.Keys) := RowAt(l, m, base, n - 1)], RowsUpTo(l, m, base, n))
  {
    var base := NextRowId(s.nodes.Keys);
    var rows := RowsUpTo(l, m, base, n - 1);
    assert |rows| == n - 1 by { RowsUpToAt(l, m, base, n - 1); }
    Append(s.nodes, nodes, rows, RowAt(l, m, base, n - 1));
  }

  // ---------------------------------------------------------------------
  // The arrows written, when they differ and their ends are there.

  function Ends(e: LoadedEdge): (int, int, string) { (e.from, e.to, e.caption) }

  /** Different ids for different nodes. */
  ghost predicate OneToOne(ids: map<int, int>) {
    forall x, y | x in ids && y in ids && x != y :: ids[x] != ids[y]
  }

  /** The ends are numbered; none of the journal's arrows is on this map. */
  ghost predicate Drawable(s: Store, m: int, l: Loaded, ids: map<int, int>) {
    && (forall i, j | 0 <= i < j < |l.edges| :: Ends(l.edges[i]) != Ends(l.edges[j]))
    && (forall i | 0 <= i < |l.edges| :: l.edges[i].from in ids && l.edges[i].to in ids)
    && OneToOne(ids) && (forall e | e in s.edges :: s.edges[e].map_ != m)
  }

  function NewEdge(m: int, ids: map<int, int>, x: LoadedEdge): EdgeRow
    requires x.from in ids && x.to in ids
  {
    EdgeRow(m, ids[x.from], ids[x.to], x.caption)
  }

  ghost function EdgesUpTo(s: Store, m: int, l: Loaded, ids: map<int, int>, n: nat): seq<EdgeRow>
    requires n <= |l.edges| && Drawable(s, m, l, ids)
  {
    if n == 0 then [] else EdgesUpTo(s, m, l, ids, n - 1) + [NewEdge(m, ids, l.edges[n - 1])]
  }

  lemma {:induction false} EdgesUpToAt(s: Store, m: int, l: Loaded, ids: map<int, int>, n: nat)
    requires n <= |l.edges| && Drawable(s, m, l, ids)
    ensures |EdgesUpTo(s, m, l, ids, n)| == n
    ensures forall i | 0 <= i < n :: EdgesUpTo(s, m, l, ids, n)[i] == NewEdge(m, ids, l.edges[i])
  {
    if n > 0 { EdgesUpToAt(s, m, l, ids, n - 1); }
  }

  function EdgeLists(edges: seq<LoadedEdge>, n: nat): (r: seq<seq<int>>)
    requires n <= |edges|
    ensures |r| == n
  {
    if n == 0 then [] else EdgeLists(edges, n - 1) + [edges[n - 1].refs]
  }

  ghost predicate EdgesPut(s: Store, m: int, l: Loaded, ids: map<int, int>, n: nat, p: EdgesSoFar)
    requires n <= |l.edges| && Drawable(s, m, l, ids)
  {
    && Appended(s.edges, p.edges, EdgesUpTo(s, m, l, ids, n))
    && RefsAppended(s.edgeRefs, p.refs, NextRowId(s.edges.Keys), EdgeLists(l.edges, n), s.entries)
  }

  lemma RowIsNew(s: Store, m: int, l: Loaded, ids: map<int, int>, n: nat, edges: map<int, EdgeRow>)
    requires n < |l.edges| && Drawable(s, m, l, ids) && Appended(s.edges, edges, EdgesUpTo(s, m, l, ids, n))
    ensures forall e | e in edges :: edges[e] != NewEdge(m, ids, l.edges[n])
  {
    forall e | e in edges ensures edges[e] != NewEdge(m, ids, l.edges[n]) {
      if e in s.edges {
        assert edges[e] == s.edges[e] && s.edges[e].map_ != m;
      } else {
        EdgesUpToAt(s, m, l, ids, n);
        RowsDiffer(s, m, l, ids, e - NextRowId(s.edges.Keys), n);
      }
    }
  }

  lemma RowsDiffer(s: Store, m: int, l: Loaded, ids: map<int, int>, i: nat, n: nat)
    requires i < n < |l.edges| && Drawable(s, m, l, ids)
    ensures NewEdge(m, ids, l.edges[i]) != NewEdge(m, ids, l.edges[n])
  {
    assert Ends(l.edges[i]) != Ends(l.edges[n]);
  }

  lemma EdgesNext(s: Store, m: int, l: Loaded, ids: map<int, int>, n: nat, p: EdgesSoFar)
    requires 0 < n <= |l.edges| && Drawable(s, m, l, ids) && EdgesPut(s, m, l, ids, n - 1, p)
    ensures EdgesPut(s, m, l, ids, n, PutEdge(p, s, m, l.edges[n - 1], ids))
  {
    var i, row, rows := n - 1, NewEdge(m, ids, l.edges[n - 1]), EdgesUpTo(s, m, l, ids, n - 1);
    assert |rows| == i by { EdgesUpToAt(s, m, l, ids, i); }
    Append(s.edges, p.edges, rows, row);
    assert EdgesUpTo(s, m, l, ids, n) == rows + [row];
    AppendRefs(s.edgeRefs, p.refs, NextRowId(s.edges.Keys), EdgeLists(l.edges, i), s.entries, l.edges[i].refs);
    assert EdgeLists(l.edges, n) == EdgeLists(l.edges, i) + [l.edges[i].refs];
    RowIsNew(s, m, l, ids, i, p.edges);
    NewEdgePut(p, s, m, l.edges[i], ids);
  }

  /** An arrow whose row is new gets the next rowid. */
  lemma NewEdgePut(p: EdgesSoFar, s: Store, m: int, x: LoadedEdge, ids: map<int, int>)
    requires x.from in ids && x.to in ids && forall e | e in p.edges :: p.edges[e] != NewEdge(m, ids, x)
    ensures PutEdge(p, s, m, x, ids) ==
            EdgesSoFar(p.edges[NextRowId(p.edges.Keys) := NewEdge(m, ids, x)],
              p.refs + Known(NextRowId(p.edges.Keys), x.refs, s.entries))
  {
    var t := s.(edges := p.edges);
    assert !exists e :: e in t.edges && t.edges[e] == NewEdge(m, ids, x);
  }

  lemma {:induction false} PutEdgesDo(s: Store, m: int, l: Loaded, ids: map<int, int>, n: nat)
    requires n <= |l.edges| && Drawable(s, m, l, ids)
    ensures EdgesPut(s, m, l, ids, n, PutEdges(s, m, l, ids, n))
  {
    if n > 0 {
      PutEdgesDo(s, m, l, ids, n - 1);
      EdgesNext(s, m, l, ids, n, PutEdges(s, m, l, ids, n - 1));
    }
  }

  // ---------------------------------------------------------------------
  // The chains written.

  lemma {:induction false} StepsFail(w: Writing, id: int, es: seq<int>, i: nat, n: nat, entries: set<int>)
    requires i <= n <= |es| && PlaceSteps(w, id, es, i, entries).Err?
    ensures PlaceSteps(w, id, es, n, entries) == PlaceSteps(w, id, es, i, entries)
    decreases n
  {
    if i < n { StepsFail(w, id, es, i, n - 1, entries); }
  }

  /** One chain: its row, unless the insert is ignored, and its steps. */
  method WriteChain(w: Writing, row: ChainRow, entries: set<int>) returns (r: Result<Writing, Error>)
    ensures r == PutChain(w, row, entries)
  {
    var v := w;
    if !Ignored(w.chains, row) {
      var next := NextRow(w.chains.Keys);
      v := Writing(w.chains[next := row.(steps := [])], w.top, next);
    }
    var id, at := v.last, v;
    for pos := 0 to |row.signature|
      invariant PlaceSteps(v, id, row.signature, pos, entries) == Ok(at)
    {
      var one := PlaceStep(at, id, pos, row.signature[pos], entries);
      if one.Err? {
        StepsFail(v, id, row.signature, pos + 1, |row.signature|, entries);
        return one;
      }
      at := one.value;
    }
    return Ok(at);
  }

  /** After a failure the rest is not tried. */
  lemma {:induction false} ChainsFail(w: Writing, rows: seq<ChainRow>, all: seq<ChainRow>, entries: set<int>)
    requires rows <= all && PutChains(w, rows, entries).Err?
    ensures PutChains(w, all, entries) == PutChains(w, rows, entries)
    decreases |all|
  {
    if |rows| < |all| {
      assert rows <= all[..|all| - 1];
      ChainsFail(w, rows, all[..|all| - 1], entries);
    } else {
      assert rows == all;
    }
  }

  lemma {:induction false} SurvivorsFront(m: int, at: int, chains: seq<LoadedChain>, entries: set<int>, i: nat)
    requires i <= |chains|
    ensures Survivors(m, at, chains[..i], entries) <= Survivors(m, at, chains, entries)
    decreases |chains|
  {
    if i < |chains| {
      var front := chains[..|chains| - 1];
      assert front[..i] == chains[..i];
      SurvivorsFront(m, at, front, entries, i);
    } else {
      assert chains[..i] == chains;
    }
  }

  /** The loop of `import` over the chains: those that are whole are written. */
  method WriteSurvivors(w: Writing, m: int, at: int, chains: seq<LoadedChain>, entries: set<int>)
      returns (r: Result<Writing, Error>)
    ensures r == PutChains(w, Survivors(m, at, chains, entries), entries)
  {
    var v := w;
    for i := 0 to |chains|
      invariant PutChains(w, Survivors(m, at, chains[..i], entries), entries) == Ok(v)
    {
      var c := chains[i];
      assert chains[..i + 1][..i] == chains[..i];
      if !Whole(c, entries) {
        assert Survivors(m, at, chains[..i + 1], entries) == Survivors(m, at, chains[..i], entries);
        continue;
      }
      var row := ChainRow(m, c.name, c.entries, Slots(c.entries), at);
      ghost var rows := Survivors(m, at, chains[..i], entries);
      assert Survivors(m, at, chains[..i + 1], entries) == rows + [row];
      OneMore(w, rows, row, entries);
      r := WriteChain(v, row, entries);
      if r.Err? {
        SurvivorsFront(m, at, chains, entries, i + 1);
        ChainsFail(w, rows + [row], Survivors(m, at, chains, entries), entries);
        return;
      }
      v := r.value;
    }
    assert chains[..|chains|] == chains;
    return Ok(v);
  }
}
