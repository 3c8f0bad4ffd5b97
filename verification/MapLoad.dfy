/** Reading a whole map: `load` of `src/mindmap.rs` gives the tree depth first,
    siblings in their order. */
module MapLoad {
  import opened Base
  import opened MapStore

  // ---------------------------------------------------------------------
  // ORDER BY ord, id. A table without an `ord` column is passed as `map[]`.

  function OrdOf(nodes: Nodes, x: int): int { if x in nodes then nodes[x].ord else 0 }

  predicate RowBefore(nodes: Nodes, x: int, y: int) {
    OrdOf(nodes, x) < OrdOf(nodes, y) || (OrdOf(nodes, x) == OrdOf(nodes, y) && x <= y)
  }

  predicate IsLast(nodes: Nodes, ids: set<int>, x: int) {
    x in ids && forall y | y in ids :: RowBefore(nodes, y, x)
  }

  lemma {:induction false} LastExists(nodes: Nodes, ids: set<int>)
    requires ids != {}
    ensures exists x :: IsLast(nodes, ids, x)
  {
    var x := SomeMember(ids);
    var rest := ids - {x};
    if rest == {} {
      assert forall y | y in ids :: y == x || y in rest;
      assert IsLast(nodes, ids, x);
    } else {
      LastExists(nodes, rest);
      var last :| IsLast(nodes, rest, last);
      var top := if RowBefore(nodes, last, x) then x else last;
      assert forall y | y in ids :: y == x || y in rest;
      assert IsLast(nodes, ids, top);
    }
  }

  ghost function LastRow(nodes: Nodes, ids: set<int>): (x: int)
    requires ids != {}
    ensures IsLast(nodes, ids, x)
  {
    LastExists(nodes, ids);
    var x :| IsLast(nodes, ids, x); x
  }

  ghost function Rows(nodes: Nodes, ids: set<int>): seq<int>
    decreases |ids|
  {
    if ids == {} then [] else
      var x := LastRow(nodes, ids);
      Rows(nodes, ids - {x}) + [x]
  }

  ghost function ById(ids: set<int>): seq<int> { Rows(map[], ids) }

  ghost predicate InOrder(nodes: Nodes, rows: seq<int>) {
    forall i, j :: 0 <= i < j < |rows| ==> RowBefore(nodes, rows[i], rows[j])
  }

  /** Each id once, in order. */
  lemma {:induction false} RowsAre(nodes: Nodes, ids: set<int>)
    ensures NoDup(Rows(nodes, ids)) && Elems(Rows(nodes, ids)) == ids && |Rows(nodes, ids)| == |ids|
    ensures InOrder(nodes, Rows(nodes, ids))
    decreases |ids|
  {
    if ids != {} {
      var x := LastRow(nodes, ids);
      var rest := Rows(nodes, ids - {x});
      RowsAre(nodes, ids - {x});
      assert x in rest ==> x in Elems(rest);
      NoDupConcat(rest, [x]);
      assert forall y :: y in Elems(rest + [x]) <==> y in Elems(rest) || y == x;
      forall i | 0 <= i < |rest| ensures RowBefore(nodes, rest[i], x) { assert rest[i] in Elems(rest); }
    }
  }

  lemma InRows(nodes: Nodes, ids: set<int>, x: int)
    ensures x in Rows(nodes, ids) <==> x in ids
  {
    RowsAre(nodes, ids);
    assert x in Rows(nodes, ids) <==> x in Elems(Rows(nodes, ids));
  }

  lemma WithoutLast(front: seq<int>, z: int)
    requires NoDup(front + [z])
    ensures Elems(front + [z]) - {z} == Elems(front)
  {
    var rows := front + [z];
    forall j | 0 <= j < |front| ensures front[j] != z { assert rows[j] != rows[|front|]; }
    assert forall y :: y in rows <==> y in front || y == z;
  }

  /** The order is the only one. */
  lemma {:induction false} OneOrder(nodes: Nodes, rows: seq<int>)
    requires NoDup(rows) && InOrder(nodes, rows)
    ensures Rows(nodes, Elems(rows)) == rows
  {
    if rows != [] {
      var z := rows[|rows| - 1];
      var front := rows[..|rows| - 1];
      assert z in Elems(rows);
      var x := LastRow(nodes, Elems(rows));
      var i :| 0 <= i < |rows| && rows[i] == x;
      assert RowBefore(nodes, z, x);
      assert x == z;
      assert front + [z] == rows;
      assert Elems(rows) - {z} == Elems(front) by { WithoutLast(front, z); }
      OneOrder(nodes, front);
    }
  }

  method Select(nodes: Nodes, ids: set<int>) returns (rows: seq<int>)
    ensures rows == Rows(nodes, ids)
  {
    rows := [];
    var rest := ids;
    while rest != {}
      invariant Rows(nodes, ids) == Rows(nodes, rest) + rows
      decreases rest
    {
      LastExists(nodes, rest);
      var x :| x in rest && IsLast(nodes, rest, x);
      assert x == LastRow(nodes, rest);
      rows := [x] + rows;
      rest := rest - {x};
    }
  }

  /** The rowid of the next row. */
  method NextRow(ids: set<int>) returns (id: int)
    ensures id == NextRowId(ids)
  {
    var rows := Select(map[], ids);
    RowsAre(map[], ids);
    if rows == [] { return 1; }
    id := rows[|rows| - 1] + 1;
    assert rows[|rows| - 1] in ids by { assert rows[|rows| - 1] in Elems(rows); }
    forall x | x in ids ensures x < id {
      assert x in Elems(rows);
      var i :| 0 <= i < |rows| && rows[i] == x;
      assert i < |rows| - 1 ==> RowBefore(map[], rows[i], rows[|rows| - 1]);
    }
    assert MaxOf(ids) == id - 1;
  }

  predicate Inside(rows: seq<int>, ids: set<int>) { forall i | 0 <= i < |rows| :: rows[i] in ids }

  lemma InsideElems(rows: seq<int>, ids: set<int>)
    ensures Inside(rows, ids) <==> Elems(rows) <= ids
  {
    if Inside(rows, ids) {
      forall x | x in Elems(rows) ensures x in ids { assert x in rows; }
    }
    if Elems(rows) <= ids {
      forall i | 0 <= i < |rows| ensures rows[i] in ids { assert rows[i] in Elems(rows); }
    }
  }

  // ---------------------------------------------------------------------
  // The walk.

  type Levels = map<Option<int>, seq<int>>

  function At(k: Levels, p: Option<int>): seq<int> { if p in k then k[p] else [] }

  /** The rows with parent `p`, in order. */
  function KidsIn(nodes: Nodes, rows: seq<int>, p: Option<int>): seq<int> {
    if rows == [] then []
    else (if rows[0] in nodes && nodes[rows[0]].parent == p then [rows[0]] else []) + KidsIn(nodes, rows[1..], p)
  }

  /** Pre-order: a node, then its children before whatever else waits. */
  function Walk(k: Levels, todo: seq<int>): seq<int>
    decreases |k|, |todo|
  {
    if todo == [] then []
    else if Some(todo[0]) in k then
      Shrinks(k, Some(todo[0]));
      [todo[0]] + Walk(k - {Some(todo[0])}, k[Some(todo[0])] + todo[1..])
    else [todo[0]] + Walk(k, todo[1..])
  }

  lemma Shrinks(k: Levels, p: Option<int>)
    requires p in k
    ensures |k - {p}| < |k|
  {
    assert (k - {p}).Keys == k.Keys - {p};
  }

  lemma {:induction false} KidsConcat(nodes: Nodes, a: seq<int>, b: seq<int>, p: Option<int>)
    ensures KidsIn(nodes, a + b, p) == KidsIn(nodes, a, p) + KidsIn(nodes, b, p)
  {
    if a == [] {
      assert a + b == b;
    } else {
      assert (a + b)[1..] == a[1..] + b;
      KidsConcat(nodes, a[1..], b, p);
    }
  }

  lemma {:induction false} KidMember(nodes: Nodes, rows: seq<int>, p: Option<int>, x: int)
    ensures x in KidsIn(nodes, rows, p) <==> x in rows && x in nodes && nodes[x].parent == p
  {
    if rows != [] { KidMember(nodes, rows[1..], p, x); }
  }

  /** The list holds only children of `p`. */
  predicate AllOf(nodes: Nodes, rows: seq<int>, p: Option<int>) {
    forall i | 0 <= i < |rows| :: rows[i] in nodes && nodes[rows[i]].parent == p
  }

  lemma {:induction false} KidsOfKids(nodes: Nodes, rows: seq<int>, p: Option<int>, q: Option<int>)
    requires AllOf(nodes, rows, p)
    ensures KidsIn(nodes, rows, q) == if p == q then rows else []
  {
    if rows != [] {
      KidsOfKids(nodes, rows[1..], p, q);
      assert rows == [rows[0]] + rows[1..];
    }
  }

  lemma {:induction false} NoKids(nodes: Nodes, rows: seq<int>, q: Option<int>)
    requires forall i | 0 <= i < |rows| :: rows[i] in nodes && nodes[rows[i]].parent != q
    ensures KidsIn(nodes, rows, q) == []
  {
    if rows != [] { NoKids(nodes, rows[1..], q); }
  }

  ghost predicate Levelled(nodes: Nodes, k: Levels) {
    forall p | p in k :: AllOf(nodes, k[p], p)
  }

  /** No node that waits has siblings still to come. */
  predicate Waiting(nodes: Nodes, k: Levels, todo: seq<int>) {
    forall i | 0 <= i < |todo| :: todo[i] in nodes && nodes[todo[i]].parent !in k
  }

  /** What the walk emits of the children of `p`: those that wait, or all of
      them once `p` is emitted, in their order. */
  ghost predicate Emitted(nodes: Nodes, k: Levels, todo: seq<int>, w: seq<int>, p: Option<int>) {
    KidsIn(nodes, w, p) == KidsIn(nodes, todo, p) + if p.Some? && p in k && p.value in w then k[p] else []
  }

  lemma {:induction false} WalkKids(nodes: Nodes, k: Levels, todo: seq<int>, p: Option<int>)
    requires Levelled(nodes, k) && Waiting(nodes, k, todo)
    ensures Emitted(nodes, k, todo, Walk(k, todo), p)
    decreases |k|, |todo|
  {
    if todo != [] {
      var n, rest := todo[0], todo[1..];
      if Some(n) in k {
        var kids, k' := k[Some(n)], k - {Some(n)};
        Shrinks(k, Some(n));
        assert Waiting(nodes, k', kids + rest);
        WalkKids(nodes, k', kids + rest, p);
        EmitKids(nodes, k, todo, Walk(k', kids + rest), p);
      } else {
        WalkKids(nodes, k, rest, p);
        EmitLeaf(nodes, k, todo, Walk(k, rest), p);
      }
    }
  }

  lemma EmitKids(nodes: Nodes, k: Levels, todo: seq<int>, w: seq<int>, p: Option<int>)
    requires Levelled(nodes, k) && Waiting(nodes, k, todo) && todo != [] && Some(todo[0]) in k
    requires Emitted(nodes, k - {Some(todo[0])}, k[Some(todo[0])] + todo[1..], w, p)
    ensures Emitted(nodes, k, todo, [todo[0]] + w, p)
  {
    var n, kids := todo[0], k[Some(todo[0])];
    KidsOfKids(nodes, kids, Some(n), p);
    if p == Some(n) { NoKids(nodes, todo, p); }
    EmitUnder(nodes, k, n, kids, todo[1..], w, p);
    assert todo == [n] + todo[1..];
  }

  lemma EmitUnder(nodes: Nodes, k: Levels, n: int, kids: seq<int>, rest: seq<int>, w: seq<int>, p: Option<int>)
    requires Some(n) in k && k[Some(n)] == kids && KidsIn(nodes, kids, p) == if p == Some(n) then kids else []
    requires p == Some(n) ==> KidsIn(nodes, [n] + rest, p) == []
    requires Emitted(nodes, k - {Some(n)}, kids + rest, w, p)
    ensures Emitted(nodes, k, [n] + rest, [n] + w, p)
  {
    var one, rs, ws := KidsIn(nodes, [n], p), KidsIn(nodes, rest, p), KidsIn(nodes, w, p);
    assert KidsIn(nodes, [n] + rest, p) == one + rs by { KidsConcat(nodes, [n], rest, p); }
    assert KidsIn(nodes, [n] + w, p) == one + ws by { KidsConcat(nodes, [n], w, p); }
    assert KidsIn(nodes, kids + rest, p) == (if p == Some(n) then kids else [])
           + rs by { KidsConcat(nodes, kids, rest, p); }
    EmitSum(one, rs, ws, kids, if p.Some? && p in k && p.value in w then k[p] else [], p == Some(n));
  }

  lemma EmitSum(one: seq<int>, rs: seq<int>, ws: seq<int>, kids: seq<int>, late: seq<int>, own: bool)
    requires own ==> one + rs == []
    requires ws == if own then kids + rs + [] else [] + rs + late
    ensures one + ws == one + rs + if own then kids else late
  {
    if own {
      assert one == [] && rs == [];
      assert ws == kids;
    } else {
      assert ws == rs + late;
    }
  }

  lemma EmitLeaf(nodes: Nodes, k: Levels, todo: seq<int>, w: seq<int>, p: Option<int>)
    requires todo != [] && Some(todo[0]) !in k
    requires Emitted(nodes, k, todo[1..], w, p)
    ensures Emitted(nodes, k, todo, [todo[0]] + w, p)
  {
    assert todo == [todo[0]] + todo[1..];
    KidsConcat(nodes, [todo[0]], todo[1..], p);
    KidsConcat(nodes, [todo[0]], w, p);
  }

  /** Each parent comes before its children. */
  predicate ParentsFirst(nodes: Nodes, emitted: set<Option<int>>, w: seq<int>)
    decreases |w|
  {
    w == [] || (w[0] in nodes && nodes[w[0]].parent in emitted && ParentsFirst(nodes, emitted + {Some(w[0])}, w[1..]))
  }

  lemma {:induction false} WalkParentsFirst(nodes: Nodes, k: Levels, todo: seq<int>, emitted: set<Option<int>>)
    requires Levelled(nodes, k)
    requires forall i | 0 <= i < |todo| :: todo[i] in nodes && nodes[todo[i]].parent in emitted
    ensures ParentsFirst(nodes, emitted, Walk(k, todo))
    decreases |k|, |todo|
  {
    if todo != [] {
      var n, rest := todo[0], todo[1..];
      if Some(n) in k {
        Shrinks(k, Some(n));
        WalkParentsFirst(nodes, k - {Some(n)}, k[Some(n)] + rest, emitted + {Some(n)});
      } else {
        WalkParentsFirst(nodes, k, rest, emitted + {Some(n)});
      }
    }
  }

  /** `by_parent`: the rows grouped under their parents. */
  function ByParent(nodes: Nodes, rows: seq<int>): Levels
    requires Inside(rows, nodes.Keys)
  {
    if rows == [] then map[] else
      var front, x := rows[..|rows| - 1], rows[|rows| - 1];
      var k := ByParent(nodes, front);
      k[nodes[x].parent := At(k, nodes[x].parent) + [x]]
  }

  lemma {:induction false} ByParentAt(nodes: Nodes, rows: seq<int>, p: Option<int>)
    requires Inside(rows, nodes.Keys)
    ensures At(ByParent(nodes, rows), p) == KidsIn(nodes, rows, p)
    ensures p in ByParent(nodes, rows) ==> KidsIn(nodes, rows, p) != []
  {
    if rows != [] {
      var front, x := rows[..|rows| - 1], rows[|rows| - 1];
      assert rows == front + [x];
      ByParentAt(nodes, front, p);
      KidsConcat(nodes, front, [x], p);
    }
  }

  lemma ByParentLevelled(nodes: Nodes, rows: seq<int>)
    requires Inside(rows, nodes.Keys)
    ensures Levelled(nodes, ByParent(nodes, rows))
  {
    var k := ByParent(nodes, rows);
    forall p | p in k ensures AllOf(nodes, k[p], p) {
      ByParentAt(nodes, rows, p);
      forall i | 0 <= i < |k[p]| ensures k[p][i] in nodes && nodes[k[p][i]].parent == p {
        KidMember(nodes, rows, p, k[p][i]);
      }
    }
  }

  // ---------------------------------------------------------------------
  // The map read.

  datatype LoadedNode = LoadedNode(id: int, parent: Option<int>, kind: Kind, text: string, state: NodeState,
    refs: seq<int>, author: Option<string>)

  datatype LoadedEdge = LoadedEdge(id: int, from: int, to: int, caption: string, refs: seq<int>)

  datatype LoadedChain = LoadedChain(id: int, name: string, entries: seq<int>)

  datatype Loaded = Loaded(row: MapRow, root: int, nodes: seq<LoadedNode>, edges: seq<LoadedEdge>,
    chains: seq<LoadedChain>)

  function RefsOf(refs: set<(int, int)>, id: int): set<int> {
    set r | r in refs && r.0 == id :: r.1
  }

  lemma RefMember(refs: set<(int, int)>, id: int, e: int)
    ensures e in RefsOf(refs, id) <==> (id, e) in refs
  {
    if (id, e) in refs { assert (id, e).0 == id && (id, e).1 == e; }
  }

  ghost function NodeOf(s: Store, x: int): LoadedNode
    requires x in s.nodes
  {
    var n := s.nodes[x];
    LoadedNode(x, n.parent, n.kind, n.text, n.state, ById(RefsOf(s.nodeRefs, x)), n.author)
  }

  ghost function EdgeAt(s: Store, e: int): LoadedEdge
    requires e in s.edges
  {
    LoadedEdge(e, s.edges[e].from, s.edges[e].to, s.edges[e].caption, ById(RefsOf(s.edgeRefs, e)))
  }

  ghost function ChainAt(s: Store, c: int): LoadedChain
    requires c in s.chains
  {
    LoadedChain(c, s.chains[c].name, Held(s.chains[c].steps))
  }

  ghost function NodesAt(s: Store, ids: seq<int>): (r: seq<LoadedNode>)
    requires Inside(ids, s.nodes.Keys)
  {
    seq(|ids|, i requires 0 <= i < |ids| => NodeOf(s, ids[i]))
  }

  ghost function EdgesAt(s: Store, ids: seq<int>): seq<LoadedEdge>
    requires Inside(ids, s.edges.Keys)
  {
    seq(|ids|, i requires 0 <= i < |ids| => EdgeAt(s, ids[i]))
  }

  ghost function ChainsAt(s: Store, ids: seq<int>): seq<LoadedChain>
    requires Inside(ids, s.chains.Keys)
  {
    seq(|ids|, i requires 0 <= i < |ids| => ChainAt(s, ids[i]))
  }

  function EdgesOf(s: Store, m: int): set<int> { set e | e in s.edges && s.edges[e].map_ == m }

  function ChainsOf(s: Store, m: int): set<int> { set c | c in s.chains && s.chains[c].map_ == m }

  ghost function NodeRows(s: Store, m: int): (rows: seq<int>)
    ensures Inside(rows, s.nodes.Keys)
  {
    RowsAre(s.nodes, NodesOf(s.nodes, m));
    InsideElems(Rows(s.nodes, NodesOf(s.nodes, m)), s.nodes.Keys);
    Rows(s.nodes, NodesOf(s.nodes, m))
  }

  ghost function EdgeRows(s: Store, m: int): (rows: seq<int>)
    ensures Inside(rows, s.edges.Keys)
  {
    RowsAre(map[], EdgesOf(s, m));
    InsideElems(ById(EdgesOf(s, m)), s.edges.Keys);
    ById(EdgesOf(s, m))
  }

  ghost function ChainRows(s: Store, m: int): (rows: seq<int>)
    ensures Inside(rows, s.chains.Keys)
  {
    RowsAre(map[], ChainsOf(s, m));
    InsideElems(ById(ChainsOf(s, m)), s.chains.Keys);
    ById(ChainsOf(s, m))
  }

  /** The ids of the map's nodes, in the order `load` gives them. */
  ghost function Order(s: Store, m: int): seq<int> {
    var k := ByParent(s.nodes, NodeRows(s, m));
    Walk(k - {None}, At(k, None))
  }

  lemma {:induction false} WalkInside(nodes: Nodes, k: Levels, todo: seq<int>)
    requires Levelled(nodes, k) && Inside(todo, nodes.Keys)
    ensures Inside(Walk(k, todo), nodes.Keys)
    decreases |k|, |todo|
  {
    if todo != [] {
      if Some(todo[0]) in k {
        Shrinks(k, Some(todo[0]));
        WalkInside(nodes, k - {Some(todo[0])}, k[Some(todo[0])] + todo[1..]);
      } else {
        WalkInside(nodes, k, todo[1..]);
      }
    }
  }

  lemma OrderInside(s: Store, m: int)
    ensures Inside(Order(s, m), s.nodes.Keys)
  {
    var k := ByParent(s.nodes, NodeRows(s, m));
    ByParentLevelled(s.nodes, NodeRows(s, m));
    WalkInside(s.nodes, k - {None}, At(k, None));
  }

  ghost function LoadSpec(s: Store, m: int): Result<Loaded, Error> {
    if m !in s.maps then Err(NoMap)
    else
      var roots := KidsIn(s.nodes, NodeRows(s, m), None);
      if roots == [] then Err(NoNode)
      else
        OrderInside(s, m);
        Ok(Loaded(s.maps[m], roots[0], NodesAt(s, Order(s, m)), EdgesAt(s, EdgeRows(s, m)),
          ChainsAt(s, ChainRows(s, m))))
  }

  // ---------------------------------------------------------------------
  // `load` as it runs.

  /** The levels of the stack, the innermost first. */
  function Flat(stack: seq<seq<int>>): seq<int> {
    if stack == [] then [] else stack[|stack| - 1] + Flat(stack[..|stack| - 1])
  }

  lemma FlatPush(stack: seq<seq<int>>, level: seq<int>)
    ensures Flat(stack + [level]) == level + Flat(stack)
  {
    assert (stack + [level])[..|stack|] == stack;
  }

  /** What a node leaves to walk: its children, then the rest of its level. */
  lemma Descend(k: Levels, n: int, level: seq<int>)
    ensures Walk(k, [n] + level) == [n] + Walk(k - {Some(n)}, At(k, Some(n)) + level)
  {
    assert ([n] + level)[1..] == level;
    if Some(n) !in k {
      assert k - {Some(n)} == k && [] + level == level;
    }
  }

  method WalkLevels(levels: Levels, top: seq<int>) returns (w: seq<int>)
    ensures w == Walk(levels, top)
  {
    var byParent := levels;
    var stack := [top];
    w := [];
    FlatPush([], top);
    assert [] + [top] == stack && top + [] == top;
    while stack != []
      invariant Walk(levels, top) == w + Walk(byParent, Flat(stack))
      decreases |byParent|, |Flat(stack)|, |stack|
    {
      var last := |stack| - 1;
      ghost var below := stack[..last];
      if stack[last] == [] {
        assert Flat(stack) == Flat(below);
        stack := stack[..last];
        continue;
      }
      var n := stack[last][0];
      var level := stack[last][1..];
      var kids := At(byParent, Some(n));
      ghost var rest := level + Flat(below);
      assert Flat(stack) == [n] + rest;
      Descend(byParent, n, rest);
      stack := stack[..last] + [level] + [kids];
      FlatPush(below, level);
      FlatPush(below + [level], kids);
      assert Flat(stack) == kids + rest;
      if Some(n) in byParent { Shrinks(byParent, Some(n)); }
      assert Some(n) !in byParent ==> byParent - {Some(n)} == byParent;
      byParent := byParent - {Some(n)};
      assert w + ([n] + Walk(byParent, kids + rest)) == w + [n] + Walk(byParent, kids + rest);
      w := w + [n];
    }
  }

  method GroupRows(nodes: Nodes, rows: seq<int>) returns (byParent: Levels)
    requires Inside(rows, nodes.Keys)
    ensures byParent == ByParent(nodes, rows)
  {
    byParent := map[];
    for i := 0 to |rows|
      invariant byParent == ByParent(nodes, rows[..i])
    {
      assert rows[..i + 1][..i] == rows[..i];
      byParent := byParent[nodes[rows[i]].parent := At(byParent, nodes[rows[i]].parent) + [rows[i]]];
    }
    assert rows[..|rows|] == rows;
  }

  /** The map, or that there is none, or that it has no root. */
  method Load(s: Store, m: int) returns (r: Result<Loaded, Error>)
    ensures r == LoadSpec(s, m)
  {
    if m !in s.maps { return Err(NoMap); }
    var rows := Select(s.nodes, NodesOf(s.nodes, m));
    assert rows == NodeRows(s, m);
    var byParent := GroupRows(s.nodes, rows);
    var top := At(byParent, None);
    ByParentAt(s.nodes, rows, None);
    if top == [] { return Err(NoNode); }
    var ids := WalkLevels(byParent - {None}, top);
    OrderInside(s, m);
    var nodes := LoadNodes(s, ids);
    var edgeIds := Select(map[], EdgesOf(s, m));
    assert edgeIds == EdgeRows(s, m);
    var edges := LoadEdges(s, edgeIds);
    var chainIds := Select(map[], ChainsOf(s, m));
    assert chainIds == ChainRows(s, m);
    var chains := LoadChains(s, chainIds);
    return Ok(Loaded(s.maps[m], top[0], nodes, edges, chains));
  }

  method LoadNodes(s: Store, ids: seq<int>) returns (out: seq<LoadedNode>)
    requires Inside(ids, s.nodes.Keys)
    ensures out == NodesAt(s, ids)
  {
    out := [];
    for i := 0 to |ids|
      invariant |out| == i && forall j | 0 <= j < i :: out[j] == NodesAt(s, ids)[j]
    {
      var n := s.nodes[ids[i]];
      var refs := Select(map[], RefsOf(s.nodeRefs, ids[i]));
      out := out + [LoadedNode(ids[i], n.parent, n.kind, n.text, n.state, refs, n.author)];
    }
  }

  method LoadEdges(s: Store, ids: seq<int>) returns (out: seq<LoadedEdge>)
    requires Inside(ids, s.edges.Keys)
    ensures out == EdgesAt(s, ids)
  {
    out := [];
    for i := 0 to |ids|
      invariant |out| == i && forall j | 0 <= j < i :: out[j] == EdgesAt(s, ids)[j]
    {
      var e := s.edges[ids[i]];
      var refs := Select(map[], RefsOf(s.edgeRefs, ids[i]));
      out := out + [LoadedEdge(ids[i], e.from, e.to, e.caption, refs)];
    }
  }

  method LoadChains(s: Store, ids: seq<int>) returns (out: seq<LoadedChain>)
    requires Inside(ids, s.chains.Keys)
    ensures out == ChainsAt(s, ids)
  {
    out := [];
    for i := 0 to |ids|
      invariant |out| == i && forall j | 0 <= j < i :: out[j] == ChainsAt(s, ids)[j]
    {
      out := out + [LoadedChain(ids[i], s.chains[ids[i]].name, Held(s.chains[ids[i]].steps))];
    }
  }
}
