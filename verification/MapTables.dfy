/** The rows the other mind-map operations leave, and what a read map says of
    the rows it was read from. */
module MapTables {
  import opened Base
  import opened Text
  import opened MapStore
  import opened MapRuns
  import opened MapLoad
  import opened MapOrder
  import opened MapSteps

  /** All tables but the maps' times. */
  ghost predicate TouchedOnly(s: Store, t: Store, m: int, now: int) { m in s.maps && t.maps == Touch(s, m, now).maps }

  // ---------------------------------------------------------------------
  // Maps.

  /** A new map has one node, its topic, which holds the title; all else stays. */
  lemma CreateCreates(s: Store, title: string, nick: string, host: Option<string>, layout: Layout, right: bool,
                      shared: bool, now: int)
    requires WellFormed(s) && CreateSpec(s, title, nick, host, layout, right, shared, now).Ok?
    ensures var (t, m) := CreateSpec(s, title, nick, host, layout, right, shared, now).value;
            && Above(m, s.maps.Keys)
            && t.maps == s.maps[m := MapRow(Trim(title), nick, host, true, shared, layout, right, now, now)]
            && (exists r :: Above(r, s.nodes.Keys)
                  && t.nodes == s.nodes[r := NodeRow(m, None, Topic, Trim(title), Open, 0, now, None)]
                  && Order(t, m) == [r])
            && t.(maps := s.maps, nodes := s.nodes) == s
  {
    var t, m, r := CreateRows(s, title, nick, host, layout, right, shared, now);
    StepKeeps(s, Create(title, nick, host, layout, right, shared, now));
    forall x | x in t.nodes && x != r ensures t.nodes[x].map_ != m { assert s.nodes[x].map_ in s.maps; }
    OneNode(t, m, r);
  }

  lemma CreateRows(s: Store, title: string, nick: string, host: Option<string>, layout: Layout, right: bool,
                   shared: bool, now: int) returns (t: Store, m: int, r: int)
    requires CreateSpec(s, title, nick, host, layout, right, shared, now).Ok?
    ensures (t, m) == CreateSpec(s, title, nick, host, layout, right, shared, now).value
    ensures Above(m, s.maps.Keys) && Above(r, s.nodes.Keys)
    ensures t.maps == s.maps[m := MapRow(Trim(title), nick, host, true, shared, layout, right, now, now)]
    ensures t.nodes == s.nodes[r := NodeRow(m, None, Topic, Trim(title), Open, 0, now, None)]
    ensures t.(maps := s.maps, nodes := s.nodes) == s
  {
    t, m := CreateSpec(s, title, nick, host, layout, right, shared, now).value.0, NextRowId(s.maps.Keys);
    r := NextRowId(s.nodes.Keys);
  }

  lemma OneNode(t: Store, m: int, r: int)
    requires WellFormed(t) && m in t.maps && r in t.nodes && t.nodes[r].map_ == m
    requires forall x | x in t.nodes && x != r :: t.nodes[x].map_ != m
    ensures Order(t, m) == [r]
  {
    LoadGivesTheTree(t, m, RootOf(t, m));
    forall i | 0 <= i < |Order(t, m)| ensures Order(t, m)[i] == r {
      assert Order(t, m)[i] in Elems(Order(t, m));
    }
    OnlyOne(Order(t, m), r);
  }

  /** A map is deleted with its rows in every table, and nothing else goes. */
  lemma DeleteDeletes(s: Store, m: int)
    requires WellFormed(s) && DeleteSpec(s, m).Ok?
    ensures var t := DeleteSpec(s, m).value;
            && t.maps == s.maps - {m} && t.entries == s.entries
            && (forall x :: x in t.nodes <==> x in s.nodes && s.nodes[x].map_ != m)
            && (forall e :: e in t.edges <==> e in s.edges && s.edges[e].map_ != m)
            && (forall c :: c in t.chains <==> c in s.chains && s.chains[c].map_ != m)
            && (forall x | x in t.nodes :: t.nodes[x] == s.nodes[x])
            && (forall e | e in t.edges :: t.edges[e] == s.edges[e])
            && (forall c | c in t.chains :: t.chains[c] == s.chains[c])
            && (forall x, e :: (x, e) in t.nodeRefs <==> (x, e) in s.nodeRefs && x in t.nodes)
            && (forall a, e :: (a, e) in t.edgeRefs <==> (a, e) in s.edgeRefs && a in t.edges)
  {
  }

  /** Closing and opening a map. */
  lemma SetStateSets(s: Store, m: int, open: bool, now: int)
    requires SetStateSpec(s, m, open, now).Ok?
    ensures var t := SetStateSpec(s, m, open, now).value;
            m in s.maps && t == s.(maps := s.maps[m := s.maps[m].(open := open, updatedAt := now)])
  {
  }

  // ---------------------------------------------------------------------
  // Arrows.

  /** One arrow goes from `from` to `to` with the caption, the one there was or
      a new one, and it has the references; all else stays. */
  lemma AddEdgeAdds(s: Store, m: int, from: int, to: int, caption: string, refs: set<int>, now: int)
    requires WellFormed(s) && AddEdgeSpec(s, m, from, to, caption, refs, now).Ok?
    ensures var (t, id) := AddEdgeSpec(s, m, from, to, caption, refs, now).value;
            && TouchedOnly(s, t, m, now) && t.(edges := s.edges, edgeRefs := s.edgeRefs, maps := s.maps) == s
            && (forall e :: e in t.edges && t.edges[e] == EdgeRow(m, from, to, Trim(caption)) <==> e == id)
            && (if id in s.edges then t.edges == s.edges
                else Above(id, s.edges.Keys) && t.edges == s.edges[id := EdgeRow(m, from, to, Trim(caption))])
            && forall a, e :: (a, e) in t.edgeRefs <==> (a, e) in s.edgeRefs || (a == id && e in refs)
  {
  }

  lemma RemoveEdgeRemoves(s: Store, m: int, gone: int, now: int)
    requires RemoveEdgeSpec(s, m, gone, now).Ok?
    ensures var t := RemoveEdgeSpec(s, m, gone, now).value;
            && TouchedOnly(s, t, m, now) && t.(edges := s.edges, edgeRefs := s.edgeRefs, maps := s.maps) == s
            && t.edges == s.edges - {gone}
            && forall a, e :: (a, e) in t.edgeRefs <==> (a, e) in s.edgeRefs && a != gone
  {
  }

  // ---------------------------------------------------------------------
  // References.

  /** The references of a node or an arrow, and those of all others. */
  ghost predicate RefsChange(s: Store, t: Store, at: Target, refs: set<int>, on: bool) {
    && t.(nodeRefs := s.nodeRefs, edgeRefs := s.edgeRefs, maps := s.maps) == s
    && (forall x, e :: (x, e) in t.nodeRefs <==>
          if at == OnNode(x) && e in refs then on else (x, e) in s.nodeRefs)
    && (forall a, e :: (a, e) in t.edgeRefs <==>
          if at == OnEdge(a) && e in refs then on else (a, e) in s.edgeRefs)
  }

  lemma AddRefsAdds(s: Store, m: int, at: Target, refs: set<int>, now: int)
    requires AddRefsSpec(s, m, at, refs, now).Ok?
    ensures var t := AddRefsSpec(s, m, at, refs, now).value;
            TouchedOnly(s, t, m, now) && RefsChange(s, t, at, refs, true)
  {
  }

  lemma RemoveRefsRemoves(s: Store, m: int, at: Target, refs: set<int>, now: int)
    requires RemoveRefsSpec(s, m, at, refs, now).Ok?
    ensures var t := RemoveRefsSpec(s, m, at, refs, now).value;
            TouchedOnly(s, t, m, now) && RefsChange(s, t, at, refs, false)
  {
  }

  // ---------------------------------------------------------------------
  // Chains.

  /** How many of the places are taken. */
  function Filled(steps: seq<Option<int>>): nat {
    if steps == [] then 0 else (if steps[0].Some? then 1 else 0) + Filled(steps[1..])
  }

  /** A read chain lists its steps in the order of their places, without the empty ones. */
  lemma {:induction false} HeldInPlace(steps: seq<Option<int>>, i: nat)
    requires i < |steps|
    ensures |Held(steps)| == Filled(steps)
    ensures steps[i].Some? ==> Filled(steps[..i]) < |Held(steps)| && Held(steps)[Filled(steps[..i])] == steps[i].value
    decreases i
  {
    HeldSize(steps);
    HeldSize(steps[1..]);
    if i > 0 {
      HeldInPlace(steps[1..], i - 1);
      assert steps[..i][1..] == steps[1..][..i - 1];
    }
  }

  lemma {:induction false} HeldSize(steps: seq<Option<int>>)
    ensures |Held(steps)| == Filled(steps)
  {
    if steps != [] { HeldSize(steps[1..]); }
  }

  /** A new chain holds the entries it was made of, in order. */
  lemma AddChainAdds(s: Store, m: int, name: string, entries: seq<int>, now: int)
    requires AddChainSpec(s, m, name, entries, now).Ok?
    ensures var (t, id) := AddChainSpec(s, m, name, entries, now).value;
            && TouchedOnly(s, t, m, now) && t.(chains := s.chains, maps := s.maps) == s
            && Above(id, s.chains.Keys) && id in t.chains && t.chains == s.chains[id := t.chains[id]]
            && t.chains[id].map_ == m && t.chains[id].name == Trim(name) && t.chains[id].signature == entries
            && Held(t.chains[id].steps) == entries && t.chains[id].createdAt == now
  {
    HeldSlots(entries);
  }

  /** The one chain of that name is gone. */
  lemma RemoveChainRemoves(s: Store, m: int, name: string, now: int)
    requires WellFormed(s) && RemoveChainSpec(s, m, name, now).Ok?
    ensures var t := RemoveChainSpec(s, m, name, now).value;
            && TouchedOnly(s, t, m, now) && t.(chains := s.chains, maps := s.maps) == s
            && exists c :: c in s.chains && s.chains[c].map_ == m && s.chains[c].name == Trim(name)
                 && t.chains == s.chains - {c}
  {
    var t := RemoveChainSpec(s, m, name, now).value;
    var c :| c in s.chains && s.chains[c].map_ == m && s.chains[c].name == Trim(name);
    assert ChainsDistinct(s);
    forall d | d in s.chains ensures d in t.chains <==> d != c {}
    assert t.chains.Keys == s.chains.Keys - {c};
    assert t.chains == s.chains - {c};
  }

  lemma {:induction false} HeldKeep(steps: seq<Option<int>>, gone: int)
    ensures Held(Keep(steps, gone)) == Without(Held(steps), gone)
  {
    if steps != [] {
      HeldKeep(steps[1..], gone);
      assert Keep(steps, gone)[1..] == Keep(steps[1..], gone);
      if steps[0].Some? { assert ([steps[0].value] + Held(steps[1..]))[1..] == Held(steps[1..]); }
      else { assert [] + Held(steps[1..]) == Held(steps[1..]); }
    }
  }

  /** A deleted entry is gone from references and chains, which keep the rest. */
  lemma ForgetForgets(s: Store, gone: int)
    ensures var t := ForgetSpec(s, gone);
            && t.entries == s.entries - {gone} && t.maps == s.maps && t.nodes == s.nodes && t.edges == s.edges
            && (forall x, e :: (x, e) in t.nodeRefs <==> (x, e) in s.nodeRefs && e != gone)
            && (forall a, e :: (a, e) in t.edgeRefs <==> (a, e) in s.edgeRefs && e != gone)
            && t.chains.Keys == s.chains.Keys
            && forall c | c in s.chains ::
                 && t.chains[c] == s.chains[c].(steps := t.chains[c].steps)
                 && Held(t.chains[c].steps) == Without(Held(s.chains[c].steps), gone)
  {
    forall c | c in s.chains
      ensures Held(ForgetSpec(s, gone).chains[c].steps) == Without(Held(s.chains[c].steps), gone) {
      HeldKeep(s.chains[c].steps, gone);
    }
  }

  // ---------------------------------------------------------------------
  // What a read map says.

  /** Ascending, and just the entries the table has for the row. */
  ghost predicate RefsRead(listed: seq<int>, refs: set<(int, int)>, id: int) {
    && (forall i, j | 0 <= i < j < |listed| :: listed[i] < listed[j])
    && forall e :: e in listed <==> (id, e) in refs
  }

  lemma RefsAreRead(refs: set<(int, int)>, id: int)
    ensures RefsRead(ById(RefsOf(refs, id)), refs, id)
  {
    var rows := ById(RefsOf(refs, id));
    RowsAre(map[], RefsOf(refs, id));
    forall i, j | 0 <= i < j < |rows| ensures rows[i] < rows[j] { assert RowBefore(map[], rows[i], rows[j]); }
    forall e ensures e in rows <==> (id, e) in refs {
      InRows(map[], RefsOf(refs, id), e);
      RefMember(refs, id, e);
    }
  }

  ghost predicate NodeRead(s: Store, m: int, n: LoadedNode) {
    && n.id in s.nodes
    && var row := s.nodes[n.id];
       && row.map_ == m && n.parent == row.parent && n.kind == row.kind && n.text == row.text && n.state == row.state
       && n.author == row.author && RefsRead(n.refs, s.nodeRefs, n.id)
  }

  ghost predicate EdgeRead(s: Store, m: int, e: LoadedEdge) {
    && e.id in s.edges
    && var row := s.edges[e.id];
       row.map_ == m && e.from == row.from && e.to == row.to && e.caption == row.caption
       && RefsRead(e.refs, s.edgeRefs, e.id)
  }

  ghost predicate ChainRead(s: Store, m: int, c: LoadedChain) {
    c.id in s.chains && s.chains[c.id].map_ == m && c.name == s.chains[c.id].name &&
    c.entries == Held(s.chains[c.id].steps)
  }

  /** Every row of the map is read, once, as it stands; arrows and chains by id. */
  lemma LoadReads(s: Store, m: int)
    requires WellFormed(s) && m in s.maps
    ensures LoadSpec(s, m).Ok?
    ensures var a := LoadSpec(s, m).value;
            && a.row == s.maps[m] && IsRoot(s, m, a.root)
            && (forall i | 0 <= i < |a.nodes| :: NodeRead(s, m, a.nodes[i]))
            && (forall i | 0 <= i < |a.edges| :: EdgeRead(s, m, a.edges[i]))
            && (forall i | 0 <= i < |a.chains| :: ChainRead(s, m, a.chains[i]))
            && (forall x | x in s.nodes && s.nodes[x].map_ == m :: exists i :: 0 <= i < |a.nodes| && a.nodes[i].id == x)
            && (forall x | x in s.edges && s.edges[x].map_ == m :: exists i :: 0 <= i < |a.edges| && a.edges[i].id == x)
            && (forall x | x in s.chains && s.chains[x].map_ == m ::
                  exists i :: 0 <= i < |a.chains| && a.chains[i].id == x)
            && (forall i, j | 0 <= i < j < |a.nodes| :: a.nodes[i].id != a.nodes[j].id)
            && (forall i, j | 0 <= i < j < |a.edges| :: a.edges[i].id < a.edges[j].id)
            && (forall i, j | 0 <= i < j < |a.chains| :: a.chains[i].id < a.chains[j].id)
  {
    LoadGivesTheTree(s, m, RootOf(s, m));
    NodesRead(s, m);
    EdgesRead(s, m);
    ChainsRead(s, m);
  }

  lemma NodesRead(s: Store, m: int)
    requires WellFormed(s) && m in s.maps && LoadSpec(s, m).Ok?
    ensures var ns := LoadSpec(s, m).value.nodes;
            && (forall i | 0 <= i < |ns| :: NodeRead(s, m, ns[i]))
            && (forall x | x in s.nodes && s.nodes[x].map_ == m :: exists i :: 0 <= i < |ns| && ns[i].id == x)
            && (forall i, j | 0 <= i < j < |ns| :: ns[i].id != ns[j].id)
  {
    var w, ns := Order(s, m), LoadSpec(s, m).value.nodes;
    OrderInside(s, m);
    OrderNoDup(s, m);
    forall i | 0 <= i < |ns| ensures NodeRead(s, m, ns[i]) && ns[i].id == w[i] {
      RefsAreRead(s.nodeRefs, w[i]);
      OrderMember(s, m, w[i]);
    }
    forall x | x in s.nodes && s.nodes[x].map_ == m ensures exists i :: 0 <= i < |ns| && ns[i].id == x {
      OrderMember(s, m, x);
      var i :| 0 <= i < |w| && w[i] == x;
      assert ns[i].id == x;
    }
  }

  lemma EdgesRead(s: Store, m: int)
    requires LoadSpec(s, m).Ok?
    ensures var es := LoadSpec(s, m).value.edges;
            && (forall i | 0 <= i < |es| :: EdgeRead(s, m, es[i]))
            && (forall x | x in s.edges && s.edges[x].map_ == m :: exists i :: 0 <= i < |es| && es[i].id == x)
            && (forall i, j | 0 <= i < j < |es| :: es[i].id < es[j].id)
  {
    var w, es := EdgeRows(s, m), LoadSpec(s, m).value.edges;
    RowsAre(map[], EdgesOf(s, m));
    forall i | 0 <= i < |es| ensures EdgeRead(s, m, es[i]) && es[i].id == w[i] {
      RefsAreRead(s.edgeRefs, w[i]);
      InRows(map[], EdgesOf(s, m), w[i]);
    }
    forall i, j | 0 <= i < j < |es| ensures es[i].id < es[j].id { assert RowBefore(map[], w[i], w[j]); }
    forall x | x in s.edges && s.edges[x].map_ == m ensures exists i :: 0 <= i < |es| && es[i].id == x {
      InRows(map[], EdgesOf(s, m), x);
      var i :| 0 <= i < |w| && w[i] == x;
      assert es[i].id == x;
    }
  }

  lemma ChainsRead(s: Store, m: int)
    requires LoadSpec(s, m).Ok?
    ensures var cs := LoadSpec(s, m).value.chains;
            && (forall i | 0 <= i < |cs| :: ChainRead(s, m, cs[i]))
            && (forall x | x in s.chains && s.chains[x].map_ == m :: exists i :: 0 <= i < |cs| && cs[i].id == x)
            && (forall i, j | 0 <= i < j < |cs| :: cs[i].id < cs[j].id)
  {
    var w, cs := ChainRows(s, m), LoadSpec(s, m).value.chains;
    RowsAre(map[], ChainsOf(s, m));
    forall i | 0 <= i < |cs| ensures ChainRead(s, m, cs[i]) && cs[i].id == w[i] { InRows(map[], ChainsOf(s, m), w[i]); }
    forall i, j | 0 <= i < j < |cs| ensures cs[i].id < cs[j].id { assert RowBefore(map[], w[i], w[j]); }
    forall x | x in s.chains && s.chains[x].map_ == m ensures exists i :: 0 <= i < |cs| && cs[i].id == x {
      InRows(map[], ChainsOf(s, m), x);
      var i :| 0 <= i < |w| && w[i] == x;
      assert cs[i].id == x;
    }
  }

  // ---------------------------------------------------------------------
  // What goes through.

  predicate OpenMap(s: Store, m: int) { m in s.maps && s.maps[m].open }

  predicate Short(text: string, max: nat) { 0 < |Trim(text)| <= max }

  predicate Meant(s: Store, m: int, at: Target) {
    match at case OnNode(id) => InMap(s, m, id) case OnEdge(id) => EdgeInMap(s, m, id)
  }

  /** When an operation is accepted. */
  ghost predicate Accepts(s: Store, x: Step) {
    match x
    case Create(title, nick, _, _, _, _, _) => Short(title, 200) && Trim(nick) != ""
    case AddNode(m, spec, _) =>
      && OpenMap(s, m) && Allowed(KindAsked(spec, s.maps[m].layout), s.maps[m].layout)
      && !KindAsked(spec, s.maps[m].layout).Topic? && Short(spec.text, 2000)
      && (spec.parent.Some? ==> s.maps[m].layout.MindMap? && InMap(s, m, spec.parent.value))
      && (spec.after.Some? ==> s.maps[m].layout.FlowChart? && InMap(s, m, spec.after.value))
      && |NodesOf(s.nodes, m)| < 2000 && spec.refs <= s.entries
    case Edit(m, n, text, kind, _) =>
      && OpenMap(s, m) && InMap(s, m, n)
      && (kind.Some? ==> if IsRoot(s, m, n) then kind.value.Topic?
                         else !kind.value.Topic? && Allowed(kind.value, s.maps[m].layout))
      && (text.Some? ==> Short(text.value, if IsRoot(s, m, n) then 200 else 2000))
    case Move(m, n, p, _) =>
      && OpenMap(s, m) && s.maps[m].layout.MindMap? && InMap(s, m, n) && InMap(s, m, p) && !IsRoot(s, m, n)
      && p !in Subtree(s.nodes, n)
    case SetNodeState(m, n, _, _) => OpenMap(s, m) && InMap(s, m, n) && !IsRoot(s, m, n)
    case Remove(m, n, _) => OpenMap(s, m) && InMap(s, m, n) && !IsRoot(s, m, n)
    case AddEdge(m, from, to, caption, refs, _) =>
      && OpenMap(s, m) && from != to && InMap(s, m, from) && InMap(s, m, to) && |Trim(caption)| <= 200
      && refs <= s.entries
    case RemoveEdge(m, e, _) => OpenMap(s, m) && EdgeInMap(s, m, e)
    case AddRefs(m, at, refs, _) => OpenMap(s, m) && Meant(s, m, at) && refs != {} && refs <= s.entries
    case RemoveRefs(m, at, _, _) => OpenMap(s, m) && Meant(s, m, at)
    case AddChain(m, name, steps, _) =>
      && OpenMap(s, m) && Short(name, 200) && 2 <= |steps| <= 200 && NoDup(steps) && Inside(steps, s.entries)
      && forall c | c in s.chains && s.chains[c].map_ == m ::
           s.chains[c].name != Trim(name) && s.chains[c].signature != steps
    case RemoveChain(m, name, _) =>
      OpenMap(s, m) && exists c :: c in s.chains && s.chains[c].map_ == m && s.chains[c].name == Trim(name)
    case SetState(m, _, _) => m in s.maps
    case DeleteMap(m) => m in s.maps
    case Forget(_) => true
  }

  /** Whether it went through. */
  ghost predicate Went(s: Store, x: Step) {
    match x
    case Create(title, nick, host, layout, right, shared, now) =>
      CreateSpec(s, title, nick, host, layout, right, shared, now).Ok?
    case AddNode(m, spec, now) => AddSpec(s, m, spec, now).Ok?
    case Edit(m, n, text, kind, now) => EditSpec(s, m, n, text, kind, now).Ok?
    case Move(m, n, p, now) => MoveSpec(s, m, n, p, now).Ok?
    case SetNodeState(m, n, st, now) => SetNodeStateSpec(s, m, n, st, now).Ok?
    case Remove(m, n, now) => RemoveSpec(s, m, n, now).Ok?
    case AddEdge(m, from, to, caption, refs, now) => AddEdgeSpec(s, m, from, to, caption, refs, now).Ok?
    case RemoveEdge(m, e, now) => RemoveEdgeSpec(s, m, e, now).Ok?
    case AddRefs(m, at, refs, now) => AddRefsSpec(s, m, at, refs, now).Ok?
    case RemoveRefs(m, at, refs, now) => RemoveRefsSpec(s, m, at, refs, now).Ok?
    case AddChain(m, name, steps, now) => AddChainSpec(s, m, name, steps, now).Ok?
    case RemoveChain(m, name, now) => RemoveChainSpec(s, m, name, now).Ok?
    case SetState(m, open, now) => SetStateSpec(s, m, open, now).Ok?
    case DeleteMap(m) => DeleteSpec(s, m).Ok?
    case Forget(_) => true
  }

  lemma RootKnown(s: Store, m: int, n: int)
    requires WellFormed(s) && InMap(s, m, n)
    ensures m in s.maps && (IsRoot(s, m, n) <==> s.nodes[n].parent.None?)
    ensures exists r :: IsRoot(s, m, r)
  {
    assert s.nodes[n].map_ in s.maps;
    var r :| IsRoot(s, m, r);
  }

  lemma SubtreeIs(s: Store, n: int, p: int)
    requires p in s.nodes
    ensures p in Subtree(s.nodes, n) <==> Under(s.nodes, p, n)
  {
  }

  lemma AddChainGoes(s: Store, m: int, name: string, steps: seq<int>, now: int)
    ensures AddChainSpec(s, m, name, steps, now).Ok? <==> Accepts(s, AddChain(m, name, steps, now))
  {
    InsideElems(steps, s.entries);
  }

  lemma NodeStepGoes(s: Store, x: Step, m: int, n: int)
    requires WellFormed(s) && (InMap(s, m, n) ==> m in s.maps && (IsRoot(s, m, n) <==> s.nodes[n].parent.None?))
    requires match x case Edit(m', n', _, _, _) => m' == m && n' == n case Move(m', n', p, _) => m' == m && n' == n
                     case SetNodeState(m', n', _, _) => m' == m && n' == n case Remove(m', n', _) => m' == m && n' == n
                     case _ => false
    ensures Went(s, x) <==> Accepts(s, x)
  {
    if x.Move? && InMap(s, m, x.p) { SubtreeIs(s, n, x.p); }
  }

  lemma AddNodeGoes(s: Store, m: int, spec: NewNode, now: int)
    requires m in s.maps ==> exists r :: IsRoot(s, m, r)
    ensures Went(s, AddNode(m, spec, now)) <==> Accepts(s, AddNode(m, spec, now))
  {
  }

  ghost predicate NodeStep(x: Step) {
    x.AddNode? || x.Edit? || x.Move? || x.SetNodeState? || x.Remove?
  }

  lemma OtherStepGoes(s: Store, x: Step)
    requires !NodeStep(x)
    ensures Went(s, x) <==> Accepts(s, x)
  {
    if x.AddChain? { AddChainGoes(s, x.m, x.name, x.steps, x.now); }
  }

  /** An operation goes through exactly when it is one of the accepted. */
  lemma StepGoesThrough(s: Store, x: Step)
    requires WellFormed(s)
    ensures Went(s, x) <==> Accepts(s, x)
  {
    if !NodeStep(x) {
      OtherStepGoes(s, x);
    } else if x.AddNode? {
      AddNodeGoes(s, x.m, x.spec, x.now);
    } else {
      if InMap(s, x.m, x.n) { RootKnown(s, x.m, x.n); }
      NodeStepGoes(s, x, x.m, x.n);
    }
  }
}
