/** The mind-map tables as fields, the operations of `src/mindmap.rs` on them,
    each proved to do what `MapStore` says. */
module MindMaps {
  import opened Base
  import opened Text
  import opened MapStore
  import opened MapRuns
  import opened MapLoad
  import opened MapRows
  import opened MapChains
  import opened MapCopy

  class MindMapTables {
    var entries: set<int>
    var maps: map<int, MapRow>
    var nodes: Nodes
    var edges: map<int, EdgeRow>
    var nodeRefs: set<(int, int)>
    var edgeRefs: set<(int, int)>
    var chains: map<int, ChainRow>

    constructor (entries: set<int>)
      ensures View() == EMPTY.(entries := entries) && WellFormed(View())
    {
      this.entries, maps, nodes, edges, nodeRefs, edgeRefs, chains := entries, map[], map[], map[], {}, {}, map[];
      new;
      EmptyWellFormed(entries);
    }

    function View(): Store
      reads this
    {
      Store(entries, maps, nodes, edges, nodeRefs, edgeRefs, chains)
    }

    method Largest(ids: set<int>) returns (m: int)
      requires ids != {}
      ensures m == MaxOf(ids)
    {
      ghost var some := SomeMember(ids);
      m :| m in ids;
      var rest := ids - {m};
      while rest != {}
        invariant rest <= ids && m in ids
        invariant forall x | x in ids && x !in rest :: x <= m
        decreases rest
      {
        ghost var other := SomeMember(rest);
        var x :| x in rest;
        if m < x { m := x; }
        rest := rest - {x};
      }
    }

    method TouchMap(m: int, now: int)
      requires m in maps
      modifies this`maps
      ensures View() == Touch(old(View()), m, now)
    {
      maps := maps[m := maps[m].(updatedAt := now)];
    }

    method Create(title: string, nick: string, host: Option<string>, layout: Layout, right: bool, shared: bool,
                  now: int)
      returns (r: Result<int, Error>)
      requires WellFormed(View())
      modifies this
      ensures match CreateSpec(old(View()), title, nick, host, layout, right, shared, now)
              case Ok(p) => r == Ok(p.1) && View() == p.0
              case Err(e) => r == Err(e) && View() == old(View())
      ensures WellFormed(View())
    {
      if CleanText(title, MAX_TITLE_CHARS).Ok? { PlantedKeeps(View(), NextRowId(maps.Keys), NextRowId(nodes.Keys),
        MapRow(Trim(title), nick, host, true, shared, layout, right, now, now)); }
      var t := CleanText(title, MAX_TITLE_CHARS);
      if t.Err? { return Err(t.error); }
      if Trim(nick) == "" { return Err(NoName); }
      var m := NextRow(maps.Keys);
      var root := NextRow(nodes.Keys);
      maps := maps[m := MapRow(t.value, nick, host, true, shared, layout, right, now, now)];
      nodes := nodes[root := NodeRow(m, None, Topic, t.value, Open, 0, now, None)];
      return Ok(m);
    }

    /** `root_of`: the map's parentless node. */
    method FindRoot(m: int) returns (r: int)
      requires exists q :: IsRoot(View(), m, q)
      ensures r == RootOf(View(), m)
    {
      ghost var q := RootOf(View(), m);
      var rest := nodes.Keys;
      r := 0;
      assert q in rest;
      while rest != {}
        invariant rest <= nodes.Keys && q in rest
        decreases rest
      {
        ghost var some := SomeMember(rest);
        var x :| x in rest;
        if nodes[x].map_ == m && nodes[x].parent.None? {
          return x;
        }
        rest := rest - {x};
      }
      assert false;
    }

    method NextOrdOf(p: int) returns (ord: int)
      ensures ord == NextOrd(nodes, p)
    {
      var ords := set n | n in nodes && nodes[n].parent == Some(p) :: nodes[n].ord;
      assert ords == Ords(nodes, p);
      ord := 0;
      if ords != {} {
        var top := Largest(ords);
        ord := top + 1;
      }
    }

    /** `add`. */
    method Add(m: int, spec: NewNode, now: int) returns (r: Result<int, Error>)
      requires WellFormed(View())
      modifies this
      ensures match AddSpec(old(View()), m, spec, now)
              case Ok(p) => r == Ok(p.1) && View() == p.0
              case Err(e) => r == Err(e) && View() == old(View())
      ensures WellFormed(View())
    {
      if AddSpec(View(), m, spec, now).Ok? { AddKeeps(View(), m, spec, now); }
      if m !in maps { return Err(NoMap); }
      var flow := maps[m].layout.FlowChart?;
      var kind := if spec.kind.None? then (if flow then Process else Note) else spec.kind.value;
      if !Allowed(kind, maps[m].layout) { return Err(UnknownKind); }
      if kind.Topic? { return Err(TopicKind); }
      var text := CleanText(spec.text, MAX_TEXT_CHARS);
      if text.Err? { return Err(text.error); }
      if flow && spec.parent.Some? { return Err(NotATree); }
      if !flow && spec.after.Some? { return Err(NotAFlow); }
      if !maps[m].open { return Err(MapClosed); }
      if spec.parent.Some? && !InMap(View(), m, spec.parent.value) { return Err(NoNode); }
      if spec.after.Some? && !InMap(View(), m, spec.after.value) { return Err(NoNode); }
      if |NodesOf(nodes, m)| >= MAX_NODES { return Err(TooMany); }
      if !(spec.refs <= entries) { return Err(NoEntry); }
      var p: int;
      if spec.parent.Some? { p := spec.parent.value; } else { p := FindRoot(m); }
      var id := InsertNode(m, p, kind, text.value, spec, now);
      return Ok(id);
    }

    method InsertNode(m: int, p: int, kind: Kind, text: string, spec: NewNode, now: int) returns (id: int)
      requires m in maps
      modifies this
      ensures id == NextRowId(old(nodes.Keys)) && View() == AddedNode(old(View()), m, p, kind, text, spec, now)
    {
      var ord := NextOrdOf(p);
      id := NextRow(nodes.Keys);
      InsertRow(id, NodeRow(m, Some(p), kind, text, Open, ord, now, spec.author), spec.refs);
      InsertArrow(m, spec, id);
      TouchMap(m, now);
    }

    method InsertRow(id: int, row: NodeRow, refs: set<int>)
      modifies this`nodes, this`nodeRefs
      ensures View() == old(View()).(nodes := old(nodes)[id := row],
                                     nodeRefs := old(nodeRefs) + set e | e in refs :: (id, e))
    {
      nodes := nodes[id := row];
      nodeRefs := nodeRefs + set e | e in refs :: (id, e);
    }

    /** The arrow that leads to a new symbol of a chart. */
    method InsertArrow(m: int, spec: NewNode, id: int)
      modifies this`edges
      ensures View() == if spec.after.None? then old(View())
                        else
                          var row := EdgeRow(m, spec.after.value, id, Trim(spec.caption));
                          old(View()).(edges := old(edges)[NextRowId(old(edges.Keys)) := row])
    {
      if spec.after.Some? {
        var edge := NextRow(edges.Keys);
        edges := edges[edge := EdgeRow(m, spec.after.value, id, Trim(spec.caption))];
      }
    }

    method Edit(m: int, n: int, text: Option<string>, kind: Option<Kind>, now: int) returns (r: Result<(), Error>)
      requires WellFormed(View())
      modifies this
      ensures match EditSpec(old(View()), m, n, text, kind, now)
              case Ok(t) => r == Ok(()) && View() == t
              case Err(e) => r == Err(e) && View() == old(View())
      ensures WellFormed(View())
    {
      if EditSpec(View(), m, n, text, kind, now).Ok? { EditKeeps(View(), m, n, text, kind, now); }
      if Writable(View(), m).Some? { return Err(Writable(View(), m).value); }
      if !InMap(View(), m, n) { return Err(NoNode); }
      var root := nodes[n].parent.None?;
      if kind.Some? && !root && !Allowed(kind.value, maps[m].layout) { return Err(UnknownKind); }
      if kind.Some? && root != kind.value.Topic? { return Err(RootKind); }
      var k := if kind.Some? then kind.value else nodes[n].kind;
      var t := if text.None? then Ok(nodes[n].text)
        else CleanText(text.value, if root then MAX_TITLE_CHARS else MAX_TEXT_CHARS);
      if t.Err? { return Err(t.error); }
      if root && t.value != nodes[n].text {
        maps := maps[m := maps[m].(title := t.value)];
      }
      nodes := nodes[n := nodes[n].(kind := k, text := t.value)];
      TouchMap(m, now);
      return Ok(());
    }

    /** `move_node`: climb from the new parent; the node itself must not be met. */
    method MoveNode(m: int, n: int, p: int, now: int) returns (r: Result<(), Error>)
      requires WellFormed(View())
      modifies this
      ensures match MoveSpec(old(View()), m, n, p, now)
              case Ok(t) => r == Ok(()) && View() == t
              case Err(e) => r == Err(e) && View() == old(View())
      ensures WellFormed(View())
    {
      if MoveSpec(View(), m, n, p, now).Ok? { MoveKeeps(View(), m, n, p, now); }
      if Writable(View(), m).Some? { return Err(Writable(View(), m).value); }
      if !InMap(View(), m, n) || !InMap(View(), m, p) { return Err(NoNode); }
      if maps[m].layout.FlowChart? { return Err(NotATree); }
      if nodes[n].parent.None? { return Err(RootStays); }
      var inside := Climb(p, n);
      if inside { return Err(Cycle); }
      var ord := NextOrdOf(p);
      nodes := nodes[n := nodes[n].(parent := Some(p), ord := ord)];
      TouchMap(m, now);
      return Ok(());
    }

    /** The loop over ancestors ends, and meets `n` exactly when `p` lies under it. */
    method Climb(p: int, n: int) returns (met: bool)
      requires WellFormed(View()) && p in nodes
      ensures met <==> Under(nodes, p, n)
    {
      ghost var rank :| Ranked(nodes, rank);
      var cur := Some(p);
      ghost var k: nat := 0;
      while cur.Some?
        invariant cur == Up(nodes, p, k) && (cur.Some? ==> cur.value in nodes)
        invariant forall j: nat | j < k :: Up(nodes, p, j) != Some(n)
        decreases cur.Some?, if cur.Some? then Height(nodes, rank, cur.value) else 0
      {
        var c := cur.value;
        if c == n { return true; }
        assert RankOk(nodes, rank, c);
        UpUp(nodes, p, k, 1);
        assert Up(nodes, c, 1) == nodes[c].parent;
        if nodes[c].parent.Some? { HeightFalls(nodes, rank, c); }
        cur := nodes[c].parent;
        k := k + 1;
      }
      forall j: nat ensures Up(nodes, p, j) != Some(n) {
        if j >= k { NoMoreUp(nodes, p, k, j); }
      }
      return false;
    }

    lemma {:induction false} NoMoreUp(nodes: Nodes, p: int, k: nat, j: nat)
      requires Up(nodes, p, k).None? && k <= j
      ensures Up(nodes, p, j).None?
      decreases k
    {
      if k > 0 && p in nodes && nodes[p].parent.Some? { NoMoreUp(nodes, nodes[p].parent.value, k - 1, j - 1); }
    }

    /** How many nodes rank below. */
    ghost function Height(nodes: Nodes, rank: map<int, int>, n: int): nat {
      |set x | x in nodes && x in rank && n in rank && rank[x] < rank[n]|
    }

    lemma HeightFalls(nodes: Nodes, rank: map<int, int>, n: int)
      requires Ranked(nodes, rank) && n in nodes && nodes[n].parent.Some?
      ensures Height(nodes, rank, nodes[n].parent.value) < Height(nodes, rank, n)
    {
      assert RankOk(nodes, rank, n);
      var p := nodes[n].parent.value;
      var here := set x | x in nodes && x in rank && n in rank && rank[x] < rank[n];
      var there := set x | x in nodes && x in rank && p in rank && rank[x] < rank[p];
      assert p in here && p !in there && there <= here;
      SubsetSize(there, here - {p});
    }

    method SetNodeState(m: int, n: int, st: NodeState, now: int) returns (r: Result<(), Error>)
      requires WellFormed(View())
      modifies this
      ensures match SetNodeStateSpec(old(View()), m, n, st, now)
              case Ok(t) => r == Ok(()) && View() == t
              case Err(e) => r == Err(e) && View() == old(View())
      ensures WellFormed(View())
    {
      if SetNodeStateSpec(View(), m, n, st, now).Ok? { SetNodeStateKeeps(View(), m, n, st, now); }
      if Writable(View(), m).Some? { return Err(Writable(View(), m).value); }
      if !InMap(View(), m, n) { return Err(NoNode); }
      if nodes[n].parent.None? { return Err(RootStays); }
      nodes := nodes[n := nodes[n].(state := st)];
      TouchMap(m, now);
      return Ok(());
    }

    /** `remove_node`: the deletion cascades; how many nodes the map lost. */
    method RemoveNode(m: int, n: int, now: int) returns (r: Result<int, Error>)
      requires WellFormed(View())
      modifies this
      ensures match RemoveSpec(old(View()), m, n, now)
              case Ok(p) => r == Ok(p.1) && View() == p.0
              case Err(e) => r == Err(e) && View() == old(View())
      ensures WellFormed(View())
    {
      if RemoveSpec(View(), m, n, now).Ok? { RemoveKeeps(View(), m, n, now); }
      if Writable(View(), m).Some? { return Err(Writable(View(), m).value); }
      if !InMap(View(), m, n) { return Err(NoNode); }
      if nodes[n].parent.None? { return Err(RootStays); }
      var lost := Prune(m, n, now);
      return Ok(lost);
    }

    /** The rows go, and are counted before and after. */
    method Prune(m: int, n: int, now: int) returns (lost: int)
      requires WellFormed(View()) && RemoveSpec(View(), m, n, now).Ok?
      modifies this
      ensures RemoveSpec(old(View()), m, n, now).value == (View(), lost)
    {
      ghost var s := View();
      SubtreeCounted(s, m, n, now);
      var before := |NodesOf(nodes, m)|;
      var gone := Cascade(n);
      DropNodes(gone);
      var after := |NodesOf(nodes, m)|;
      TouchMap(m, now);
      lost := before - after;
      assert View() == Touch(WithoutNodes(s, gone), m, now);
    }

    lemma SubtreeCounted(s: Store, m: int, n: int, now: int)
      requires WellFormed(s) && RemoveSpec(s, m, n, now).Ok?
      ensures |Subtree(s.nodes, n)| == |NodesOf(s.nodes, m)| - |NodesOf(s.nodes - Subtree(s.nodes, n), m)|
    {
      RemoveCounts(s, m, n, now);
    }

    method DropNodes(gone: set<int>)
      modifies this
      ensures View() == WithoutNodes(old(View()), gone)
    {
      edges := map e | e in edges && edges[e].from !in gone && edges[e].to !in gone :: edges[e];
      nodes := nodes - gone;
      nodeRefs := set x | x in nodeRefs && x.0 !in gone;
      edgeRefs := set x | x in edgeRefs && x.0 in edges;
    }

    /** Deleting a row deletes the rows whose parent it is, and so on. */
    method Cascade(n: int) returns (gone: set<int>)
      requires n in nodes
      ensures gone == Subtree(nodes, n)
    {
      UnderItself(nodes, n);
      gone := {n};
      var more := Orphans(gone);
      while more != {}
        invariant gone <= Subtree(nodes, n) && n in gone && more == Orphans(gone)
        decreases nodes.Keys - gone
      {
        forall x | x in more ensures Under(nodes, x, n) { UnderParent(nodes, x, n); }
        ghost var some := SomeMember(more);
        gone := gone + more;
        more := Orphans(gone);
      }
      forall x | x in Subtree(nodes, n) ensures x in gone {
        var k: nat :| Up(nodes, x, k) == Some(n);
        Caught(gone, x, k, n);
      }
    }

    /** Rows whose parent is gone while they still stand. */
    function Orphans(gone: set<int>): set<int>
      reads this
    {
      set x | x in nodes && x !in gone && nodes[x].parent.Some? && nodes[x].parent.value in gone
    }

    lemma {:induction false} Caught(gone: set<int>, x: int, k: nat, n: int)
      requires Orphans(gone) == {} && n in gone && x in nodes && Up(nodes, x, k) == Some(n)
      ensures x in gone
      decreases k
    {
      if k > 0 {
        var p := nodes[x].parent.value;
        if p !in gone {
          if p in nodes { Caught(gone, p, k - 1, n); }
        }
        assert x in gone || x in Orphans(gone);
      }
    }

    method AddEdge(m: int, from: int, to: int, caption: string, refs: set<int>, now: int)
        returns (r: Result<int, Error>)
      requires WellFormed(View())
      modifies this
      ensures match AddEdgeSpec(old(View()), m, from, to, caption, refs, now)
              case Ok(p) => r == Ok(p.1) && View() == p.0
              case Err(e) => r == Err(e) && View() == old(View())
      ensures WellFormed(View())
    {
      if AddEdgeSpec(View(), m, from, to, caption, refs,
        now).Ok? { AddEdgeKeeps(View(), m, from, to, caption, refs, now); }
      if from == to { return Err(SameNode); }
      if |Trim(caption)| > MAX_TITLE_CHARS { return Err(LongText); }
      if Writable(View(), m).Some? { return Err(Writable(View(), m).value); }
      if !InMap(View(), m, from) || !InMap(View(), m, to) { return Err(NoNode); }
      if !(refs <= entries) { return Err(NoEntry); }
      var row := EdgeRow(m, from, to, Trim(caption));
      var id := FindRow(edges, row);
      if id.None? {
        var next := NextRow(edges.Keys);
        id := Some(next);
      }
      edges := edges[id.value := row];
      edgeRefs := edgeRefs + set e | e in refs :: (id.value, e);
      TouchMap(m, now);
      return Ok(id.value);
    }

    /** `add_chain`: the steps differ, the name and the sequence are new. */
    method AddChain(m: int, name: string, steps: seq<int>, now: int) returns (r: Result<int, Error>)
      requires WellFormed(View())
      modifies this
      ensures match AddChainSpec(old(View()), m, name, steps, now)
              case Ok(p) => r == Ok(p.1) && View() == p.0
              case Err(e) => r == Err(e) && View() == old(View())
      ensures WellFormed(View())
    {
      if AddChainSpec(View(), m, name, steps, now).Ok? { AddChainKeeps(View(), m, name, steps, now); }
      var t := CleanText(name, MAX_TITLE_CHARS);
      if t.Err? { return Err(t.error); }
      if |steps| < 2 { return Err(ShortChain); }
      if |steps| > MAX_CHAIN_STEPS { return Err(LongChain); }
      var distinct := AllDistinct(steps);
      if !distinct { return Err(Repeated); }
      if Writable(View(), m).Some? { return Err(Writable(View(), m).value); }
      if !(forall i | 0 <= i < |steps| :: steps[i] in entries) {
        assert !(Elems(steps) <= entries) by {
          var i :| 0 <= i < |steps| && steps[i] !in entries;
          assert steps[i] in Elems(steps);
        }
        return Err(NoEntry);
      }
      assert Elems(steps) <= entries;
      if exists c :: c in chains && chains[c].map_ == m && chains[c].name == t.value { return Err(NameTaken); }
      if exists c :: c in chains && chains[c].map_ == m && chains[c].signature == steps { return Err(SequenceTaken); }
      var id := NextRow(chains.Keys);
      chains := chains[id := ChainRow(m, t.value, steps, Slots(steps), now)];
      TouchMap(m, now);
      return Ok(id);
    }

    method AllDistinct(steps: seq<int>) returns (distinct: bool)
      ensures distinct <==> NoDup(steps)
    {
      var seen: set<int> := {};
      for i := 0 to |steps|
        invariant forall x :: x in seen <==> x in steps[..i]
        invariant NoDup(steps[..i])
      {
        assert steps[..i + 1] == steps[..i] + [steps[i]];
        if steps[i] in seen {
          var j :| 0 <= j < i && steps[j] == steps[i];
          return false;
        }
        seen := seen + {steps[i]};
      }
      assert steps[..|steps|] == steps;
      return true;
    }

    /** A map's rows go with it, in every table. */
    method DropMap(m: int)
      requires m in maps
      modifies this
      ensures DeleteSpec(old(View()), m) == Ok(View())
    {
      nodeRefs := set x | x in nodeRefs && x.0 in nodes && nodes[x.0].map_ != m;
      nodes := map n | n in nodes && nodes[n].map_ != m :: nodes[n];
      edges := map e | e in edges && edges[e].map_ != m :: edges[e];
      edgeRefs := set x | x in edgeRefs && x.0 in edges;
      chains := map c | c in chains && chains[c].map_ != m :: chains[c];
      maps := maps - {m};
    }

    method Delete(m: int) returns (r: Result<(), Error>)
      requires WellFormed(View())
      modifies this
      ensures match DeleteSpec(old(View()), m)
              case Ok(t) => r == Ok(()) && View() == t
              case Err(e) => r == Err(e) && View() == old(View())
      ensures WellFormed(View())
    {
      if m in maps { DeleteKeeps(View(), m); }
      if m !in maps { return Err(NoMap); }
      DropMap(m);
      return Ok(());
    }

    method RemoveEdge(m: int, e: int, now: int) returns (r: Result<(), Error>)
      requires WellFormed(View())
      modifies this
      ensures match RemoveEdgeSpec(old(View()), m, e, now)
              case Ok(t) => r == Ok(()) && View() == t
              case Err(x) => r == Err(x) && View() == old(View())
      ensures WellFormed(View())
    {
      if RemoveEdgeSpec(View(), m, e, now).Ok? { RemoveEdgeKeeps(View(), m, e, now); }
      if Writable(View(), m).Some? { return Err(Writable(View(), m).value); }
      if !EdgeInMap(View(), m, e) { return Err(NoEdge); }
      edges := edges - {e};
      edgeRefs := set x | x in edgeRefs && x.0 != e;
      TouchMap(m, now);
      return Ok(());
    }

    /** `add_refs`: how many were new. */
    method AddRefs(m: int, at: Target, refs: set<int>, now: int) returns (r: Result<nat, Error>)
      requires WellFormed(View())
      modifies this
      ensures match AddRefsSpec(old(View()), m, at, refs, now)
              case Ok(t) => r == Ok(|refs - RefsAt(old(View()), at)|) && View() == t
              case Err(e) => r == Err(e) && View() == old(View())
      ensures WellFormed(View())
    {
      if AddRefsSpec(View(), m, at, refs, now).Ok? { AddRefsKeeps(View(), m, at, refs, now); }
      if refs == {} { return Err(NoRefs); }
      if Writable(View(), m).Some? { return Err(Writable(View(), m).value); }
      if at.OnNode? && !InMap(View(), m, at.id) { return Err(NoNode); }
      if at.OnEdge? && !EdgeInMap(View(), m, at.id) { return Err(NoEdge); }
      if !(refs <= entries) { return Err(NoEntry); }
      var added := |refs - RefsAt(View(), at)|;
      match at {
        case OnNode(id) => nodeRefs := nodeRefs + set e | e in refs :: (id, e);
        case OnEdge(id) => edgeRefs := edgeRefs + set e | e in refs :: (id, e);
      }
      TouchMap(m, now);
      return Ok(added);
    }

    /** `remove_refs`: how many went. */
    method RemoveRefs(m: int, at: Target, refs: set<int>, now: int) returns (r: Result<nat, Error>)
      requires WellFormed(View())
      modifies this
      ensures match RemoveRefsSpec(old(View()), m, at, refs, now)
              case Ok(t) => r == Ok(|refs * RefsAt(old(View()), at)|) && View() == t
              case Err(e) => r == Err(e) && View() == old(View())
      ensures WellFormed(View())
    {
      if RemoveRefsSpec(View(), m, at, refs, now).Ok? { RemoveRefsKeeps(View(), m, at, refs, now); }
      if Writable(View(), m).Some? { return Err(Writable(View(), m).value); }
      if at.OnNode? && !InMap(View(), m, at.id) { return Err(NoNode); }
      if at.OnEdge? && !EdgeInMap(View(), m, at.id) { return Err(NoEdge); }
      var gone := |refs * RefsAt(View(), at)|;
      match at {
        case OnNode(id) => nodeRefs := nodeRefs - set e | e in refs :: (id, e);
        case OnEdge(id) => edgeRefs := edgeRefs - set e | e in refs :: (id, e);
      }
      TouchMap(m, now);
      return Ok(gone);
    }

    method RemoveChain(m: int, name: string, now: int) returns (r: Result<(), Error>)
      requires WellFormed(View())
      modifies this
      ensures match RemoveChainSpec(old(View()), m, name, now)
              case Ok(t) => r == Ok(()) && View() == t
              case Err(e) => r == Err(e) && View() == old(View())
      ensures WellFormed(View())
    {
      if RemoveChainSpec(View(), m, name, now).Ok? { RemoveChainKeeps(View(), m, name, now); }
      if Writable(View(), m).Some? { return Err(Writable(View(), m).value); }
      if !exists c :: c in chains && chains[c].map_ == m && chains[c].name == Trim(name) { return Err(NoName); }
      chains := map c | c in chains && !(chains[c].map_ == m && chains[c].name == Trim(name)) :: chains[c];
      TouchMap(m, now);
      return Ok(());
    }

    method SetState(m: int, open: bool, now: int) returns (r: Result<(), Error>)
      requires WellFormed(View())
      modifies this
      ensures match SetStateSpec(old(View()), m, open, now)
              case Ok(t) => r == Ok(()) && View() == t
              case Err(e) => r == Err(e) && View() == old(View())
      ensures WellFormed(View())
    {
      if m in maps { SetStateKeeps(View(), m, open, now); }
      if m !in maps { return Err(NoMap); }
      maps := maps[m := maps[m].(open := open)];
      TouchMap(m, now);
      return Ok(());
    }

    /** `import`: all of it, or nothing. `top` is the last rowid of the steps. */
    method Import(l: Loaded, host: Option<string>, now: int, top: int) returns (r: Result<Option<int>, Error>)
      requires WellFormed(View())
      modifies this
      ensures match ImportSpec(old(View()), l, host, now, top)
              case Ok(Some(p)) => r == Ok(Some(p.1)) && View() == p.0
              case Ok(None) => r == Ok(None) && View() == old(View())
              case Err(e) => r == Err(e) && View() == old(View())
    {
      if Seen(View(), l.row) { return Ok(None); }
      var m := NextRow(maps.Keys);
      var p := ImportNodes(m, l);
      if p.Err? { return Err(p.error); }
      var q := ImportEdges(m, l, p.value.ids);
      var w := WriteSurvivors(Writing(chains, top, m), m, l.row.createdAt, l.chains, entries);
      if w.Err? { return Err(w.error); }
      maps := maps[m := ImportedRow(l.row, host, now)];
      nodes, nodeRefs, edges, edgeRefs, chains := p.value.nodes, p.value.refs, q.edges, q.refs, w.value.chains;
      return Ok(Some(m));
    }

    method ImportNodes(m: int, l: Loaded) returns (r: Result<NodesSoFar, Error>)
      ensures r == PutNodes(View(), m, l, |l.nodes|)
    {
      var p := NodesSoFar(nodes, nodeRefs, map[]);
      for i := 0 to |l.nodes|
        invariant PutNodes(View(), m, l, i) == Ok(p)
      {
        var x := l.nodes[i];
        if x.parent.Some? && x.parent.value !in p.ids { continue; }
        if x.parent.Some? && !Allowed(x.kind, l.row.layout) {
          FailsOn(View(), m, l, i + 1, |l.nodes|);
          return Err(UnknownKind);
        }
        var id := NextRow(p.nodes.Keys);
        var parent := if x.parent.None? then None else Some(p.ids[x.parent.value]);
        var row := NodeRow(m, parent, if x.parent.None? then Topic
          else x.kind, x.text, x.state, i, l.row.createdAt, x.author);
        p := NodesSoFar(p.nodes[id := row], p.refs + Known(id, x.refs, entries), p.ids[x.id := id]);
      }
      return Ok(p);
    }

    /** Once a node is refused the rest is not tried. */
    lemma {:induction false} FailsOn(s: Store, m: int, l: Loaded, i: nat, n: nat)
      requires i <= n <= |l.nodes| && PutNodes(s, m, l, i).Err?
      ensures PutNodes(s, m, l, n) == PutNodes(s, m, l, i)
      decreases n
    {
      if i < n { FailsOn(s, m, l, i, n - 1); }
    }

    method ImportEdges(m: int, l: Loaded, ids: map<int, int>) returns (p: EdgesSoFar)
      requires WellFormed(View())
      ensures p == PutEdges(View(), m, l, ids, |l.edges|)
    {
      p := EdgesSoFar(edges, edgeRefs);
      for i := 0 to |l.edges|
        invariant p == PutEdges(View(), m, l, ids, i) && DistinctRows(p.edges)
      {
        var x := l.edges[i];
        if x.from !in ids || x.to !in ids { continue; }
        var row := EdgeRow(m, ids[x.from], ids[x.to], x.caption);
        var id := FindRow(p.edges, row);
        if id.None? {
          var next := NextRow(p.edges.Keys);
          id := Some(next);
        }
        p := EdgesSoFar(p.edges[id.value := row], p.refs + Known(id.value, x.refs, entries));
      }
    }

    ghost predicate DistinctRows(rows: map<int, EdgeRow>) {
      forall e, f | e in rows && f in rows && e != f :: rows[e] != rows[f]
    }

    method FindRow(rows: map<int, EdgeRow>, row: EdgeRow) returns (id: Option<int>)
      requires DistinctRows(rows)
      ensures id.None? ==> forall e | e in rows :: rows[e] != row
      ensures id.Some? ==> id.value in rows && rows[id.value] == row
                           && forall s: Store :: s.edges == rows ==>
                             (exists e :: e in s.edges && s.edges[e] == row) && EdgeOf(s, row) == id.value
    {
      var rest := rows.Keys;
      while rest != {}
        invariant rest <= rows.Keys && forall e | e in rows && e !in rest :: rows[e] != row
        decreases rest
      {
        ghost var some := SomeMember(rest);
        var e :| e in rest;
        if rows[e] == row { return Some(e); }
        rest := rest - {e};
      }
      return None;
    }
  }
}
