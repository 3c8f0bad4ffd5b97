/** Over every run of mind-map operations each map stays one tree. */
module MapRuns {
  import opened Base
  import opened Text
  import opened MapStore

  datatype Step =
    | Create(title: string, nick: string, host: Option<string>, layout: Layout, right: bool, shared: bool, now: int)
    | AddNode(m: int, spec: NewNode, now: int)
    | Edit(m: int, n: int, text: Option<string>, kind: Option<Kind>, now: int)
    | Move(m: int, n: int, p: int, now: int)
    | SetNodeState(m: int, n: int, state: NodeState, now: int)
    | Remove(m: int, n: int, now: int)
    | AddEdge(m: int, from: int, to: int, caption: string, refs: set<int>, now: int)
    | RemoveEdge(m: int, e: int, now: int)
    | AddRefs(m: int, at: Target, refs: set<int>, now: int)
    | RemoveRefs(m: int, at: Target, refs: set<int>, now: int)
    | AddChain(m: int, name: string, steps: seq<int>, now: int)
    | RemoveChain(m: int, name: string, now: int)
    | SetState(m: int, open: bool, now: int)
    | DeleteMap(m: int)
    | Forget(e: int)

  ghost function First<A>(r: Result<(Store, A), Error>, s: Store): Store {
    match r case Ok(p) => p.0 case Err(_) => s
  }

  ghost function Only(r: Result<Store, Error>, s: Store): Store {
    match r case Ok(t) => t case Err(_) => s
  }

  ghost function Apply(s: Store, x: Step): Store {
    match x
    case Create(title, nick, host, layout, right, shared,
      now) => First(CreateSpec(s, title, nick, host, layout, right, shared, now), s)
    case AddNode(m, spec, now) => First(AddSpec(s, m, spec, now), s)
    case Edit(m, n, text, kind, now) => Only(EditSpec(s, m, n, text, kind, now), s)
    case Move(m, n, p, now) => Only(MoveSpec(s, m, n, p, now), s)
    case SetNodeState(m, n, st, now) => Only(SetNodeStateSpec(s, m, n, st, now), s)
    case Remove(m, n, now) => First(RemoveSpec(s, m, n, now), s)
    case AddEdge(m, from, to, caption, refs, now) => First(AddEdgeSpec(s, m, from, to, caption, refs, now), s)
    case RemoveEdge(m, e, now) => Only(RemoveEdgeSpec(s, m, e, now), s)
    case AddRefs(m, at, refs, now) => Only(AddRefsSpec(s, m, at, refs, now), s)
    case RemoveRefs(m, at, refs, now) => Only(RemoveRefsSpec(s, m, at, refs, now), s)
    case AddChain(m, name, steps, now) => First(AddChainSpec(s, m, name, steps, now), s)
    case RemoveChain(m, name, now) => Only(RemoveChainSpec(s, m, name, now), s)
    case SetState(m, open, now) => Only(SetStateSpec(s, m, open, now), s)
    case DeleteMap(m) => Only(DeleteSpec(s, m), s)
    case Forget(e) => ForgetSpec(s, e)
  }

  ghost function Run(s: Store, steps: seq<Step>): Store
    decreases |steps|
  {
    if steps == [] then s else Run(Apply(s, steps[0]), steps[1..])
  }

  // ---------------------------------------------------------------------
  // Ancestors.

  lemma {:induction false} UpFalls(nodes: Nodes, rank: map<int, int>, n: int, k: nat)
    requires Ranked(nodes, rank) && n in nodes && Up(nodes, n, k).Some?
    ensures var a := Up(nodes, n, k).value;
            a in nodes && n in rank && a in rank && nodes[a].map_ == nodes[n].map_ && rank[a] + k <= rank[n]
    decreases k
  {
    assert RankOk(nodes, rank, n);
    if k > 0 { UpFalls(nodes, rank, nodes[n].parent.value, k - 1); }
  }

  lemma {:induction false} UpUp(nodes: Nodes, n: int, j: nat, k: nat)
    requires Up(nodes, n, j).Some?
    ensures Up(nodes, n, j + k) == Up(nodes, Up(nodes, n, j).value, k)
    decreases j
  {
    if j > 0 { UpUp(nodes, nodes[n].parent.value, j - 1, k); }
  }

  lemma UnderItself(nodes: Nodes, n: int)
    ensures Under(nodes, n, n)
  {
    assert Up(nodes, n, 0) == Some(n);
  }

  lemma UnderParent(nodes: Nodes, n: int, a: int)
    requires n in nodes
    ensures Under(nodes, n, a) <==> n == a || (nodes[n].parent.Some? && Under(nodes, nodes[n].parent.value, a))
  {
    if Under(nodes, n, a) {
      var k: nat :| Up(nodes, n, k) == Some(a);
      if k > 0 { assert Up(nodes, nodes[n].parent.value, k - 1) == Some(a); }
    }
    if n == a { UnderItself(nodes, n); }
    if nodes[n].parent.Some? && Under(nodes, nodes[n].parent.value, a) {
      var k: nat :| Up(nodes, nodes[n].parent.value, k) == Some(a);
      assert Up(nodes, n, k + 1) == Some(a);
    }
  }

  /** Following parents from any node ends at the topic of its map. */
  lemma {:induction false} ReachesRoot(s: Store, rank: map<int, int>, n: int, r: int)
    requires Ranked(s.nodes, rank) && n in s.nodes && IsRoot(s, s.nodes[n].map_, r)
    ensures Under(s.nodes, n, r)
    decreases set x | x in s.nodes && x in rank && n in rank && rank[x] < rank[n]
  {
    assert RankOk(s.nodes, rank, n);
    UnderParent(s.nodes, n, r);
    if s.nodes[n].parent.Some? {
      var p := s.nodes[n].parent.value;
      assert RankOk(s.nodes, rank, p);
      var here := set x | x in s.nodes && x in rank && n in rank && rank[x] < rank[n];
      var there := set x | x in s.nodes && x in rank && p in rank && rank[x] < rank[p];
      assert p in here && p !in there && there <= here;
      ReachesRoot(s, rank, p, r);
    }
  }

  // ---------------------------------------------------------------------
  // What leaves the tree alone.

  /** Maps keep their titles and layouts. */
  ghost predicate SameMaps(s: Store, t: Store) {
    t.maps.Keys == s.maps.Keys && forall m | m in s.maps ::
        t.maps[m].title == s.maps[m].title && t.maps[m].layout == s.maps[m].layout
  }

  lemma TreesKept(s: Store, t: Store)
    requires NodesOk(s) && (forall m | m in s.maps :: exists r :: IsRoot(s, m, r))
    requires t.nodes == s.nodes && SameMaps(s, t)
    ensures NodesOk(t) && forall m | m in t.maps :: exists r :: IsRoot(t, m, r)
  {
    forall n | n in t.nodes ensures t.nodes[n].map_ in t.maps && KindFits(t, n) { assert KindFits(s, n); }
    forall m | m in t.maps ensures exists r :: IsRoot(t, m, r) {
      var r :| IsRoot(s, m, r);
      assert IsRoot(t, m, r);
    }
  }

  lemma ChainsKept(s: Store, t: Store)
    requires (forall c | c in s.chains :: ChainOk(s, c)) && ChainsDistinct(s)
    requires t.chains == s.chains && s.maps.Keys <= t.maps.Keys && t.entries == s.entries
    ensures (forall c | c in t.chains :: ChainOk(t, c)) && ChainsDistinct(t)
  {
    forall c | c in t.chains ensures ChainOk(t, c) { assert ChainOk(s, c); }
  }

  /** Only arrows and references change. */
  lemma OnlyLinks(s: Store, t: Store)
    requires WellFormed(s) && t.nodes == s.nodes && SameMaps(s, t) && t.chains == s.chains && t.entries == s.entries
    requires EdgesOk(t) && RefsOk(t)
    ensures WellFormed(t)
  {
    TreesKept(s, t);
    ChainsKept(s, t);
  }

  /** Only chains change. */
  lemma OnlyChains(s: Store, t: Store)
    requires WellFormed(s) && t.nodes == s.nodes && SameMaps(s, t) && t.edges == s.edges
    requires t.nodeRefs == s.nodeRefs && t.edgeRefs == s.edgeRefs && t.entries == s.entries
    requires (forall c | c in t.chains :: ChainOk(t, c)) && ChainsDistinct(t)
    ensures WellFormed(t)
  {
    TreesKept(s, t);
    EdgesKept(s, t);
  }

  lemma FewerEdges(s: Store, t: Store, gone: int)
    requires EdgesOk(s) && RefsOk(s) && t.nodes == s.nodes && t.entries == s.entries && t.edges == s.edges - {gone}
    requires t.nodeRefs == s.nodeRefs && t.edgeRefs == set r | r in s.edgeRefs && r.0 != gone
    ensures EdgesOk(t) && RefsOk(t)
  {
  }

  lemma OtherRefs(s: Store, t: Store)
    requires EdgesOk(s) && RefsOk(s) && t.nodes == s.nodes && t.entries == s.entries && t.edges == s.edges
    requires forall r | r in t.nodeRefs :: r in s.nodeRefs || (r.0 in s.nodes && r.1 in s.entries)
    requires forall r | r in t.edgeRefs :: r in s.edgeRefs || (r.0 in s.edges && r.1 in s.entries)
    ensures EdgesOk(t) && RefsOk(t)
  {
  }

  // ---------------------------------------------------------------------
  // Moving.

  ghost function MovedRank(nodes: Nodes, rank: map<int, int>, n: int, p: int): map<int, int>
    requires n in rank && p in rank
  {
    map x | x in rank :: if Under(nodes, x, n) then rank[x] - rank[n] + rank[p] + 1 else rank[x]
  }

  /** The subtree goes along, below its new parent: still no cycle. */
  lemma MoveKeepsRanks(nodes: Nodes, rank: map<int, int>, n: int, p: int, row: NodeRow)
    requires Ranked(nodes, rank) && n in nodes && p in nodes && nodes[p].map_ == nodes[n].map_
    requires !Under(nodes, p, n) && row.parent == Some(p) && row.map_ == nodes[n].map_
    ensures n in rank && p in rank && Ranked(nodes[n := row], MovedRank(nodes, rank, n, p))
  {
    assert RankOk(nodes, rank, n) && RankOk(nodes, rank, p);
    var rank' := MovedRank(nodes, rank, n, p);
    var nodes' := nodes[n := row];
    forall x | x in nodes' ensures RankOk(nodes', rank', x) {
      assert RankOk(nodes, rank, x);
      UnderParent(nodes, x, n);
      UnderItself(nodes, n);
    }
  }

  lemma MoveKeeps(s: Store, m: int, n: int, p: int, now: int)
    requires WellFormed(s) && MoveSpec(s, m, n, p, now).Ok?
    ensures WellFormed(MoveSpec(s, m, n, p, now).value)
  {
    var t := MoveSpec(s, m, n, p, now).value;
    var rank :| Ranked(s.nodes, rank);
    MoveKeepsRanks(s.nodes, rank, n, p, t.nodes[n]);
    SameShape(s, t);
    ChainsKept(s, t);
  }

  /** Changing rows in place, ids, maps, root and kinds staying, keeps the rest. */
  lemma SameShape(s: Store, t: Store)
    requires WellFormed(s) && SameMaps(s, t) && t.nodes.Keys == s.nodes.Keys
    requires exists rank :: Ranked(t.nodes, rank)
    requires forall n | n in s.nodes ::
               && t.nodes[n].map_ == s.nodes[n].map_ && (t.nodes[n].parent.None? <==> s.nodes[n].parent.None?)
               && t.nodes[n].kind == s.nodes[n].kind && t.nodes[n].text == s.nodes[n].text
    requires t.edges == s.edges && t.nodeRefs == s.nodeRefs && t.edgeRefs == s.edgeRefs && t.entries == s.entries
    ensures NodesOk(t) && (forall m | m in t.maps :: exists r :: IsRoot(t, m, r)) && EdgesOk(t) && RefsOk(t)
  {
    forall n | n in t.nodes ensures t.nodes[n].map_ in t.maps && KindFits(t, n) { assert KindFits(s, n); }
    forall m | m in t.maps ensures exists r :: IsRoot(t, m, r) {
      var r :| IsRoot(s, m, r);
      assert IsRoot(t, m, r);
    }
  }

  lemma SetNodeStateKeeps(s: Store, m: int, n: int, state: NodeState, now: int)
    requires WellFormed(s) && SetNodeStateSpec(s, m, n, state, now).Ok?
    ensures WellFormed(SetNodeStateSpec(s, m, n, state, now).value)
  {
    var t := SetNodeStateSpec(s, m, n, state, now).value;
    var rank :| Ranked(s.nodes, rank);
    RanksOf(s.nodes, t.nodes, rank);
    SameShape(s, t);
    ChainsKept(s, t);
  }

  lemma RanksOf(nodes: Nodes, nodes': Nodes, rank: map<int, int>)
    requires Ranked(nodes, rank) && nodes'.Keys == nodes.Keys
    requires forall n | n in nodes :: nodes'[n].map_ == nodes[n].map_ && nodes'[n].parent == nodes[n].parent
    ensures Ranked(nodes', rank)
  {
    forall n | n in nodes' ensures RankOk(nodes', rank, n) { assert RankOk(nodes, rank, n); }
  }

  lemma EditShape(s: Store, m: int, n: int, text: Option<string>, kind: Option<Kind>, now: int)
      returns (k: Kind, t: string)
    requires EditSpec(s, m, n, text, kind, now).Ok?
    ensures m in s.maps && InMap(s, m, n) && EditSpec(s, m, n, text, kind, now).value == Edited(s, m, n, k, t, now)
    ensures k == s.nodes[n].kind
            || (if s.nodes[n].parent.None? then k.Topic? else !k.Topic? && Allowed(k, s.maps[m].layout))
  {
    k := if kind.Some? then kind.value else s.nodes[n].kind;
    t := if text.None? then s.nodes[n].text else Trim(text.value);
  }

  lemma EditKeeps(s: Store, m: int, n: int, text: Option<string>, kind: Option<Kind>, now: int)
    requires WellFormed(s) && EditSpec(s, m, n, text, kind, now).Ok?
    ensures WellFormed(EditSpec(s, m, n, text, kind, now).value)
  {
    var k, t := EditShape(s, m, n, text, kind, now);
    EditedKeeps(s, m, n, k, t, now);
  }

  lemma EditedKeeps(s: Store, m: int, n: int, k: Kind, text: string, now: int)
    requires WellFormed(s) && m in s.maps && InMap(s, m, n)
    requires k == s.nodes[n].kind
             || (if s.nodes[n].parent.None? then k.Topic? else !k.Topic? && Allowed(k, s.maps[m].layout))
    ensures WellFormed(Edited(s, m, n, k, text, now))
  {
    RootRow(s, m, n);
    var t, row := EditedFacts(s, m, n, k, text, now);
    EditedTree(s, t, m, n, row);
    ChainsKept(s, t);
    EdgesKept(s, t);
  }

  lemma RootRow(s: Store, m: int, n: int)
    requires NodesOk(s) && InMap(s, m, n) && m in s.maps && exists r :: IsRoot(s, m, r)
    ensures s.nodes[n].parent.None? <==> s.nodes[n].kind.Topic?
    ensures s.nodes[n].parent.None? ==> s.nodes[n].text == s.maps[m].title
    ensures s.nodes[n].kind.Topic? || Allowed(s.nodes[n].kind, s.maps[m].layout)
  {
    assert KindFits(s, n);
  }

  lemma EditedFacts(s: Store, m: int, n: int, k: Kind, text: string, now: int) returns (t: Store, row: NodeRow)
    requires m in s.maps && InMap(s, m, n) && (s.nodes[n].parent.None? ==> s.nodes[n].text == s.maps[m].title)
    ensures t.nodes.Keys == s.nodes.Keys && forall x | x in s.nodes :: t.nodes[x].map_ == s.nodes[x].map_
    ensures t == Edited(s, m, n, k, text, now) && row == s.nodes[n].(kind := k, text := text)
            && t.nodes == s.nodes[n := row]
    ensures t.maps.Keys == s.maps.Keys && (forall k | k in s.maps :: t.maps[k].layout == s.maps[k].layout)
    ensures forall k | k in s.maps && k != m :: t.maps[k].title == s.maps[k].title
    ensures t.maps[m].title == if s.nodes[n].parent.None? then text else s.maps[m].title
    ensures t.chains == s.chains && t.entries == s.entries && t.edges == s.edges && t.nodeRefs == s.nodeRefs
            && t.edgeRefs == s.edgeRefs
  {
    t := Edited(s, m, n, k, text, now);
    row := t.nodes[n];
  }

  lemma EditedTree(s: Store, t: Store, m: int, n: int, row: NodeRow)
    requires NodesOk(s) && (forall k | k in s.maps :: exists r :: IsRoot(s, k, r))
    requires m in s.maps && InMap(s, m, n) && t.nodes == s.nodes[n := row] && row.map_ == m
             && row.parent == s.nodes[n].parent
    requires row.kind.Topic? <==> row.parent.None?
    requires row.kind.Topic? || Allowed(row.kind, s.maps[m].layout)
    requires t.maps.Keys == s.maps.Keys && forall k | k in s.maps :: t.maps[k].layout == s.maps[k].layout
    requires forall k | k in s.maps && k != m :: t.maps[k].title == s.maps[k].title
    requires t.maps[m].title == if row.parent.None? then row.text else s.maps[m].title
    ensures NodesOk(t) && forall k | k in t.maps :: exists r :: IsRoot(t, k, r)
  {
    var rank :| Ranked(s.nodes, rank);
    RanksOf(s.nodes, t.nodes, rank);
    forall x | x in t.nodes ensures t.nodes[x].map_ in t.maps && KindFits(t, x) { assert KindFits(s, x); }
    forall k | k in t.maps ensures exists r :: IsRoot(t, k, r) {
      var q :| IsRoot(s, k, q);
      assert IsRoot(t, k, q);
    }
  }

  /** Arrows and references stand while nodes and entries stay. */
  lemma EdgesKept(s: Store, t: Store)
    requires EdgesOk(s) && RefsOk(s)
    requires t.edges == s.edges && t.nodeRefs == s.nodeRefs && t.edgeRefs == s.edgeRefs && t.entries == s.entries
    requires s.nodes.Keys <= t.nodes.Keys && forall n | n in s.nodes :: t.nodes[n].map_ == s.nodes[n].map_
    ensures EdgesOk(t) && RefsOk(t)
  {
  }

  // ---------------------------------------------------------------------
  // Growing and shrinking.

  lemma PlantedKeeps(s: Store, m: int, r: int, row: MapRow)
    requires WellFormed(s) && m !in s.maps && r !in s.nodes
    ensures WellFormed(Planted(s, m, r, row))
  {
    var t := Planted(s, m, r, row);
    PlantedTree(s, t, m, r, row, t.nodes[r]);
    ChainsKept(s, t);
    EdgesKept(s, t);
  }

  lemma PlantedTree(s: Store, t: Store, m: int, r: int, map_: MapRow, row: NodeRow)
    requires NodesOk(s) && (forall k | k in s.maps :: exists q :: IsRoot(s, k, q))
    requires m !in s.maps && r !in s.nodes && t.maps == s.maps[m := map_] && t.nodes == s.nodes[r := row]
    requires row.map_ == m && row.parent.None? && row.kind.Topic? && row.text == map_.title
    ensures NodesOk(t) && forall k | k in t.maps :: exists q :: IsRoot(t, k, q)
  {
    var rank :| Ranked(s.nodes, rank);
    forall n | n in t.nodes ensures RankOk(t.nodes, rank[r := 0], n) { if n != r { assert RankOk(s.nodes, rank, n); } }
    assert Ranked(t.nodes, rank[r := 0]);
    forall n | n in t.nodes ensures t.nodes[n].map_ in t.maps && KindFits(t, n) { if n != r { assert KindFits(s, n); } }
    forall k | k in t.maps ensures exists q :: IsRoot(t, k, q) {
      if k == m { assert IsRoot(t, m, r); } else {
        var q :| IsRoot(s, k, q);
        assert IsRoot(t, k, q);
      }
    }
  }

  lemma AddShape(s: Store, m: int, spec: NewNode, now: int) returns (p: int, kind: Kind, text: string)
    requires AddSpec(s, m, spec, now).Ok?
    ensures m in s.maps && InMap(s, m, p) && !kind.Topic? && Allowed(kind, s.maps[m].layout)
    ensures spec.refs <= s.entries && (spec.after.Some? ==> InMap(s, m, spec.after.value))
    ensures AddSpec(s, m, spec, now).value.0 == AddedNode(s, m, p, kind, text, spec, now)
  {
    kind := if spec.kind.None? then (if s.maps[m].layout.FlowChart? then Process else Note) else spec.kind.value;
    text := Trim(spec.text);
    p := if spec.parent.Some? then spec.parent.value else RootOf(s, m);
  }

  lemma AddKeeps(s: Store, m: int, spec: NewNode, now: int)
    requires WellFormed(s) && AddSpec(s, m, spec, now).Ok?
    ensures WellFormed(AddSpec(s, m, spec, now).value.0)
  {
    var p, kind, text := AddShape(s, m, spec, now);
    AddedKeeps(s, m, p, kind, text, spec, now);
  }

  lemma AddedFacts(s: Store, m: int, p: int, kind: Kind, text: string, spec: NewNode, now: int)
      returns (t: Store, id: int, row: NodeRow)
    requires m in s.maps
    ensures t == AddedNode(s, m, p, kind, text, spec, now) && id !in s.nodes && t.nodes == s.nodes[id := row]
    ensures row.map_ == m && row.parent == Some(p) && row.kind == kind
    ensures SameMaps(s, t) && t.chains == s.chains && t.entries == s.entries && t.edgeRefs == s.edgeRefs
    ensures t.nodeRefs == s.nodeRefs + set e | e in spec.refs :: (id, e)
    ensures t.edges == if spec.after.None? then s.edges
                       else s.edges[NextRowId(s.edges.Keys) := EdgeRow(m, spec.after.value, id, Trim(spec.caption))]
  {
    t := AddedNode(s, m, p, kind, text, spec, now);
    id := NextRowId(s.nodes.Keys);
    row := t.nodes[id];
  }

  lemma AddedKeeps(s: Store, m: int, p: int, kind: Kind, text: string, spec: NewNode, now: int)
    requires WellFormed(s) && m in s.maps && InMap(s, m, p) && !kind.Topic? && Allowed(kind, s.maps[m].layout)
    requires spec.refs <= s.entries && (spec.after.Some? ==> InMap(s, m, spec.after.value))
    ensures WellFormed(AddedNode(s, m, p, kind, text, spec, now))
  {
    var t, id, row := AddedFacts(s, m, p, kind, text, spec, now);
    AddKeepsTree(s, t, m, id, p);
    ChainsKept(s, t);
    AddKeepsEdges(s, t, m, id, spec, row);
  }

  lemma AddKeepsEdges(s: Store, t: Store, m: int, id: int, spec: NewNode, row: NodeRow)
    requires EdgesOk(s) && RefsOk(s) && id !in s.nodes && t.nodes == s.nodes[id := row] && row.map_ == m
             && t.entries == s.entries
    requires t.nodeRefs == s.nodeRefs + (set e | e in spec.refs :: (id, e)) && t.edgeRefs == s.edgeRefs
             && spec.refs <= s.entries
    requires spec.after.Some? ==> InMap(s, m, spec.after.value)
    requires t.edges == if spec.after.None? then s.edges
                        else s.edges[NextRowId(s.edges.Keys) := EdgeRow(m, spec.after.value, id, Trim(spec.caption))]
    ensures EdgesOk(t) && RefsOk(t)
  {
  }

  lemma AddKeepsTree(s: Store, t: Store, m: int, id: int, p: int)
    requires NodesOk(s) && (forall k | k in s.maps :: exists r :: IsRoot(s, k, r)) && SameMaps(s, t)
    requires InMap(s, m, p) && m in s.maps && id !in s.nodes && id in t.nodes && t.nodes == s.nodes[id := t.nodes[id]]
    requires t.nodes[id].map_ == m && t.nodes[id].parent == Some(p) && !t.nodes[id].kind.Topic? && KindFits(t, id)
    ensures NodesOk(t) && forall k | k in t.maps :: exists r :: IsRoot(t, k, r)
  {
    var rank :| Ranked(s.nodes, rank);
    assert RankOk(s.nodes, rank, p);
    var rank' := rank[id := rank[p] + 1];
    forall n | n in t.nodes ensures RankOk(t.nodes, rank', n) { if n != id { assert RankOk(s.nodes, rank, n); } }
    assert Ranked(t.nodes, rank');
    forall n | n in t.nodes
      ensures t.nodes[n].map_ in t.maps && KindFits(t, n)
    {
      if n != id { assert KindFits(s, n); }
    }
    forall k | k in t.maps ensures exists q :: IsRoot(t, k, q) {
      var q :| IsRoot(s, k, q);
      assert IsRoot(t, k, q);
    }
  }

  lemma RemoveKeeps(s: Store, m: int, n: int, now: int)
    requires WellFormed(s) && RemoveSpec(s, m, n, now).Ok?
    ensures WellFormed(RemoveSpec(s, m, n, now).value.0)
  {
    var t := RemoveSpec(s, m, n, now).value.0;
    PrunedTree(s, t, n);
    ChainsKept(s, t);
    PrunedEdges(s, Subtree(s.nodes, n));
  }

  lemma PrunedEdges(s: Store, gone: set<int>)
    requires EdgesOk(s) && RefsOk(s)
    ensures EdgesOk(WithoutNodes(s, gone)) && RefsOk(WithoutNodes(s, gone))
  {
  }

  lemma PrunedTree(s: Store, t: Store, n: int)
    requires NodesOk(s) && (forall k | k in s.maps :: exists q :: IsRoot(s, k, q)) && SameMaps(s, t)
    requires n in s.nodes && s.nodes[n].parent.Some? && t.nodes == s.nodes - Subtree(s.nodes, n)
    ensures NodesOk(t) && forall k | k in t.maps :: exists q :: IsRoot(t, k, q)
  {
    var rank :| Ranked(s.nodes, rank);
    forall x | x in t.nodes ensures RankOk(t.nodes, rank, x) {
      assert RankOk(s.nodes, rank, x);
      UnderParent(s.nodes, x, n);
    }
    assert Ranked(t.nodes, rank);
    forall x | x in t.nodes ensures t.nodes[x].map_ in t.maps && KindFits(t, x) { assert KindFits(s, x); }
    forall k | k in t.maps ensures exists r :: IsRoot(t, k, r) {
      var r :| IsRoot(s, k, r);
      UnderParent(s.nodes, r, n);
      assert IsRoot(t, k, r);
    }
  }

  /** Removing a node takes exactly its subtree: that many nodes of the map go,
      nothing else of it does. */
  lemma RemoveCounts(s: Store, m: int, n: int, now: int)
    requires WellFormed(s) && RemoveSpec(s, m, n, now).Ok?
    ensures var r := RemoveSpec(s, m, n, now).value;
            && r.1 == |NodesOf(s.nodes, m)| - |NodesOf(r.0.nodes, m)| && r.1 >= 1
            && (forall x | x in s.nodes :: x in r.0.nodes <==> !Under(s.nodes, x, n))
            && (forall x | x in r.0.nodes :: r.0.nodes[x] == s.nodes[x])
  {
    var r := RemoveSpec(s, m, n, now).value;
    var sub := Subtree(s.nodes, n);
    var rank :| Ranked(s.nodes, rank);
    forall x | x in sub ensures x in NodesOf(s.nodes, m) {
      var k: nat :| Up(s.nodes, x, k) == Some(n);
      UpFalls(s.nodes, rank, x, k);
    }
    assert NodesOf(r.0.nodes, m) == NodesOf(s.nodes, m) - sub;
    UnderItself(s.nodes, n);
    assert n in sub;
    assert sub <= NodesOf(s.nodes, m);
  }

  lemma DeleteKeeps(s: Store, m: int)
    requires WellFormed(s) && m in s.maps
    ensures WellFormed(DeleteSpec(s, m).value)
  {
    var t := DeleteSpec(s, m).value;
    var rank :| Ranked(s.nodes, rank);
    forall n | n in t.nodes ensures RankOk(t.nodes, rank, n) { assert RankOk(s.nodes, rank, n); }
    assert Ranked(t.nodes, rank);
    forall n | n in t.nodes ensures t.nodes[n].map_ in t.maps && KindFits(t, n) { assert KindFits(s, n); }
    forall k | k in t.maps ensures exists r :: IsRoot(t, k, r) {
      var r :| IsRoot(s, k, r);
      assert IsRoot(t, k, r);
    }
    assert NodesOk(t);
    forall c | c in t.chains ensures ChainOk(t, c) { assert ChainOk(s, c); }
  }

  lemma ForgetKeeps(s: Store, e: int)
    requires WellFormed(s)
    ensures WellFormed(ForgetSpec(s, e))
  {
    var t := ForgetSpec(s, e);
    TreesKept(s, t);
    forall c | c in t.chains ensures ChainOk(t, c) {
      assert ChainOk(s, c);
    }
  }

  lemma AddChainShape(s: Store, m: int, name: string, steps: seq<int>, now: int)
    requires AddChainSpec(s, m, name, steps, now).Ok?
    ensures m in s.maps && |steps| >= 2 && NoDup(steps) && Elems(steps) <= s.entries
    ensures forall c | c in s.chains && s.chains[c].map_ == m ::
        s.chains[c].name != Trim(name) && s.chains[c].signature != steps
    ensures AddChainSpec(s, m, name, steps, now).value.0
            == WithChain(s, m, NextRowId(s.chains.Keys), Trim(name), steps, now)
  {
  }

  lemma AddChainKeeps(s: Store, m: int, name: string, steps: seq<int>, now: int)
    requires WellFormed(s) && AddChainSpec(s, m, name, steps, now).Ok?
    ensures WellFormed(AddChainSpec(s, m, name, steps, now).value.0)
  {
    AddChainShape(s, m, name, steps, now);
    WithChainKeeps(s, m, NextRowId(s.chains.Keys), Trim(name), steps, now);
  }

  lemma WithChainKeeps(s: Store, m: int, id: int, name: string, steps: seq<int>, now: int)
    requires WellFormed(s) && m in s.maps && id !in s.chains && Elems(steps) <= s.entries
    requires forall c | c in s.chains && s.chains[c].map_ == m ::
        s.chains[c].name != name && s.chains[c].signature != steps
    ensures WellFormed(WithChain(s, m, id, name, steps, now))
  {
    var t := WithChain(s, m, id, name, steps, now);
    assert StepsKnown(Slots(steps), s.entries) by { assert forall i | 0 <= i < |steps| :: steps[i] in Elems(steps); }
    MoreChains(s, t, m, id, t.chains[id]);
    OnlyChains(s, t);
  }

  lemma MoreChains(s: Store, t: Store, m: int, id: int, row: ChainRow)
    requires (forall c | c in s.chains :: ChainOk(s, c)) && ChainsDistinct(s)
    requires t.maps.Keys == s.maps.Keys && t.entries == s.entries && t.chains == s.chains[id := row] && id !in s.chains
    requires m in s.maps && row.map_ == m && StepsKnown(row.steps, s.entries)
    requires forall c | c in s.chains && s.chains[c].map_ == m ::
        s.chains[c].name != row.name && s.chains[c].signature != row.signature
    ensures (forall c | c in t.chains :: ChainOk(t, c)) && ChainsDistinct(t)
  {
    forall c | c in t.chains ensures ChainOk(t, c) { if c != id { assert ChainOk(s, c); } }
  }

  lemma RemoveChainKeeps(s: Store, m: int, name: string, now: int)
    requires WellFormed(s) && RemoveChainSpec(s, m, name, now).Ok?
    ensures WellFormed(RemoveChainSpec(s, m, name, now).value)
  {
    var t := RemoveChainSpec(s, m, name, now).value;
    TreesKept(s, t);
    EdgesKept(s, t);
    forall c | c in t.chains ensures ChainOk(t, c) { assert ChainOk(s, c); }
  }

  lemma AddEdgeShape(s: Store, m: int, from: int, to: int, caption: string, refs: set<int>, now: int) returns (id: int)
    requires AddEdgeSpec(s, m, from, to, caption, refs, now).Ok?
    ensures from != to && m in s.maps && InMap(s, m, from) && InMap(s, m, to) && refs <= s.entries
    ensures var row := EdgeRow(m, from, to, Trim(caption));
            && AddEdgeSpec(s, m, from, to, caption, refs, now).value == (WithEdge(s, m, id, row, refs, now), id)
            && (id in s.edges ==> s.edges[id] == row)
            && (id !in s.edges ==> forall e | e in s.edges :: s.edges[e] != row)
  {
    id := AddEdgeSpec(s, m, from, to, caption, refs, now).value.1;
  }

  lemma AddEdgeKeeps(s: Store, m: int, from: int, to: int, caption: string, refs: set<int>, now: int)
    requires WellFormed(s) && AddEdgeSpec(s, m, from, to, caption, refs, now).Ok?
    ensures WellFormed(AddEdgeSpec(s, m, from, to, caption, refs, now).value.0)
  {
    var id := AddEdgeShape(s, m, from, to, caption, refs, now);
    WithEdgeKeeps(s, m, id, EdgeRow(m, from, to, Trim(caption)), refs, now);
  }

  lemma WithEdgeKeeps(s: Store, m: int, id: int, row: EdgeRow, refs: set<int>, now: int)
    requires WellFormed(s) && m in s.maps && row.map_ == m && row.from != row.to && InMap(s, m, row.from)
             && InMap(s, m, row.to)
    requires refs <= s.entries && (id in s.edges ==> s.edges[id] == row)
    requires id !in s.edges ==> forall e | e in s.edges :: s.edges[e] != row
    ensures WellFormed(WithEdge(s, m, id, row, refs, now))
  {
    var t := WithEdge(s, m, id, row, refs, now);
    TreesKept(s, t);
    ChainsKept(s, t);
    MoreEdges(s, t, id, row);
    MoreRefs(s, t, id, refs);
  }

  lemma MoreEdges(s: Store, t: Store, id: int, row: EdgeRow)
    requires EdgesOk(s) && t.nodes == s.nodes && t.edges == s.edges[id := row]
    requires row.from != row.to && InMap(s, row.map_, row.from) && InMap(s, row.map_, row.to)
    requires id in s.edges ==> s.edges[id] == row
    requires id !in s.edges ==> forall e | e in s.edges :: s.edges[e] != row
    ensures EdgesOk(t)
  {
    assert id in s.edges ==> t.edges == s.edges;
  }

  lemma MoreRefs(s: Store, t: Store, id: int, refs: set<int>)
    requires RefsOk(s) && t.nodes == s.nodes && t.entries == s.entries && t.nodeRefs == s.nodeRefs
    requires s.edges.Keys <= t.edges.Keys && id in t.edges && refs <= s.entries
    requires t.edgeRefs == s.edgeRefs + set e | e in refs :: (id, e)
    ensures RefsOk(t)
  {
  }

  lemma RemoveEdgeKeeps(s: Store, m: int, e: int, now: int)
    requires WellFormed(s) && RemoveEdgeSpec(s, m, e, now).Ok?
    ensures WellFormed(RemoveEdgeSpec(s, m, e, now).value)
  {
    var t := RemoveEdgeSpec(s, m, e, now).value;
    FewerEdges(s, t, e);
    OnlyLinks(s, t);
  }

  lemma AddRefsKeeps(s: Store, m: int, at: Target, refs: set<int>, now: int)
    requires WellFormed(s) && AddRefsSpec(s, m, at, refs, now).Ok?
    ensures WellFormed(AddRefsSpec(s, m, at, refs, now).value)
  {
    var t := AddRefsSpec(s, m, at, refs, now).value;
    OtherRefs(s, t);
    OnlyLinks(s, t);
  }

  lemma RemoveRefsKeeps(s: Store, m: int, at: Target, refs: set<int>, now: int)
    requires WellFormed(s) && RemoveRefsSpec(s, m, at, refs, now).Ok?
    ensures WellFormed(RemoveRefsSpec(s, m, at, refs, now).value)
  {
    var t := RemoveRefsSpec(s, m, at, refs, now).value;
    OtherRefs(s, t);
    OnlyLinks(s, t);
  }

  lemma SetStateKeeps(s: Store, m: int, open: bool, now: int)
    requires WellFormed(s) && m in s.maps
    ensures WellFormed(SetStateSpec(s, m, open, now).value)
  {
    var t := SetStateSpec(s, m, open, now).value;
    TreesKept(s, t);
    ChainsKept(s, t);
    EdgesKept(s, t);
  }

  /** The operations on maps and nodes. */
  predicate OnNodes(x: Step) {
    x.Create? || x.AddNode? || x.Edit? || x.Move? || x.SetNodeState? || x.Remove?
  }

  lemma NodeStepKeeps(s: Store, x: Step)
    requires WellFormed(s) && OnNodes(x)
    ensures WellFormed(Apply(s, x))
  {
    match x
    case Create(title, nick, host, layout, right, shared, now) =>
      if CreateSpec(s, title, nick, host, layout, right, shared, now).Ok? {
        PlantedKeeps(s, NextRowId(s.maps.Keys), NextRowId(s.nodes.Keys),
                     MapRow(Trim(title), nick, host, true, shared, layout, right, now, now));
      }
    case AddNode(m, spec, now) => if AddSpec(s, m, spec, now).Ok? { AddKeeps(s, m, spec, now); }
    case Edit(m, n, text, kind, now) => if EditSpec(s, m, n, text, kind, now).Ok? { EditKeeps(s, m, n, text, kind, now);
      }
    case Move(m, n, p, now) => if MoveSpec(s, m, n, p, now).Ok? { MoveKeeps(s, m, n, p, now); }
    case SetNodeState(m, n, st, now) => if SetNodeStateSpec(s, m, n, st, now).Ok? { SetNodeStateKeeps(s, m, n, st, now);
      }
    case Remove(m, n, now) => if RemoveSpec(s, m, n, now).Ok? { RemoveKeeps(s, m, n, now); }
    case _ =>
  }

  lemma OtherStepKeeps(s: Store, x: Step)
    requires WellFormed(s) && !OnNodes(x)
    ensures WellFormed(Apply(s, x))
  {
    match x
    case AddEdge(m, from, to, caption, refs, now) =>
      if AddEdgeSpec(s, m, from, to, caption, refs, now).Ok? { AddEdgeKeeps(s, m, from, to, caption, refs, now); }
    case RemoveEdge(m, e, now) => if RemoveEdgeSpec(s, m, e, now).Ok? { RemoveEdgeKeeps(s, m, e, now); }
    case AddRefs(m, at, refs, now) => if AddRefsSpec(s, m, at, refs, now).Ok? { AddRefsKeeps(s, m, at, refs, now); }
    case RemoveRefs(m, at, refs, now) => if RemoveRefsSpec(s, m, at, refs,
      now).Ok? { RemoveRefsKeeps(s, m, at, refs, now); }
    case AddChain(m, name, steps, now) => if AddChainSpec(s, m, name, steps,
      now).Ok? { AddChainKeeps(s, m, name, steps, now); }
    case RemoveChain(m, name, now) => if RemoveChainSpec(s, m, name, now).Ok? { RemoveChainKeeps(s, m, name, now); }
    case SetState(m, open, now) => if m in s.maps { SetStateKeeps(s, m, open, now); }
    case DeleteMap(m) => if m in s.maps { DeleteKeeps(s, m); }
    case Forget(e) => ForgetKeeps(s, e);
    case _ =>
  }

  /** Every operation, succeeding or failing, keeps every map one tree. */
  lemma StepKeeps(s: Store, x: Step)
    requires WellFormed(s)
    ensures WellFormed(Apply(s, x))
  {
    if OnNodes(x) { NodeStepKeeps(s, x); } else { OtherStepKeeps(s, x); }
  }

  const EMPTY := Store({}, map[], map[], map[], {}, {}, map[])

  lemma EmptyWellFormed(entries: set<int>)
    ensures WellFormed(EMPTY.(entries := entries))
  {
    assert Ranked(map[], map[]);
  }

  /** Over every run from an empty store: each map has one parentless node, its
      topic, with the title as text, and every node's parents lead to it. */
  lemma {:induction false} RunKeepsTrees(s: Store, steps: seq<Step>)
    requires WellFormed(s)
    ensures WellFormed(Run(s, steps))
    ensures forall m | m in Run(s, steps).maps :: exists r ::
              IsRoot(Run(s, steps), m, r) && forall n | InMap(Run(s, steps), m, n) :: Under(Run(s, steps).nodes, n, r)
    decreases |steps|
  {
    if steps == [] {
      var rank :| Ranked(s.nodes, rank);
      forall m | m in s.maps ensures exists r :: IsRoot(s, m, r) && forall n | InMap(s, m, n) :: Under(s.nodes, n, r) {
        var r :| IsRoot(s, m, r);
        forall n | InMap(s, m, n) ensures Under(s.nodes, n, r) { ReachesRoot(s, rank, n, r); }
      }
    } else {
      StepKeeps(s, steps[0]);
      RunKeepsTrees(Apply(s, steps[0]), steps[1..]);
    }
  }

  /** Without journal entries being deleted, a chain still is the sequence its
      signature names; so the sequences of a map's chains stay distinct. */
  ghost predicate Fresh(s: Store) {
    forall c | c in s.chains :: s.chains[c].steps == Slots(s.chains[c].signature)
  }

  lemma FreshHolds(s: Store)
    requires Fresh(s)
    ensures forall c | c in s.chains :: Held(s.chains[c].steps) == s.chains[c].signature
  {
    forall c | c in s.chains
      ensures Held(s.chains[c].steps) == s.chains[c].signature { HeldSlots(s.chains[c].signature); }
  }

  lemma {:induction false} RunKeepsChainsDistinct(s: Store, steps: seq<Step>)
    requires WellFormed(s) && Fresh(s) && forall x | x in steps :: !x.Forget?
    ensures Fresh(Run(s, steps)) && ChainsDistinct(Run(s, steps))
    ensures forall c, d | c in Run(s, steps).chains && d in Run(s, steps).chains && c != d
                          && Run(s, steps).chains[c].map_ == Run(s, steps).chains[d].map_ ::
              Held(Run(s, steps).chains[c].steps) != Held(Run(s, steps).chains[d].steps)
    decreases |steps|
  {
    if steps == [] {
      FreshHolds(s);
    } else {
      assert steps[0] in steps;
      StepKeeps(s, steps[0]);
      FreshStep(s, steps[0]);
      RunKeepsChainsDistinct(Apply(s, steps[0]), steps[1..]);
    }
  }

  lemma FreshStep(s: Store, x: Step)
    requires Fresh(s) && !x.Forget?
    ensures Fresh(Apply(s, x))
  {
  }
}
