/** What the mind-map operations do to a map as it is read back: whose child a
    node is, in which place, and what stays. */
module MapSteps {
  import opened Base
  import opened Text
  import opened MapStore
  import opened MapRuns
  import opened MapLoad
  import opened MapOrder

  /** The children of a node, as a read map lists them. */
  ghost function Kids(s: Store, m: int, p: int): seq<int> { KidsIn(s.nodes, Order(s, m), Some(p)) }

  function Without(xs: seq<int>, x: int): seq<int> {
    if xs == [] then [] else (if xs[0] == x then [] else [xs[0]]) + Without(xs[1..], x)
  }

  lemma {:induction false} WithoutMember(xs: seq<int>, x: int, y: int)
    ensures y in Without(xs, x) <==> y in xs && y != x
  {
    if xs != [] { WithoutMember(xs[1..], x, y); }
  }

  lemma {:induction false} WithoutOrdered(nodes: Nodes, xs: seq<int>, x: int)
    requires NoDup(xs) && InOrder(nodes, xs)
    ensures NoDup(Without(xs, x)) && InOrder(nodes, Without(xs, x))
  {
    if xs != [] {
      var rest := Without(xs[1..], x);
      WithoutOrdered(nodes, xs[1..], x);
      if xs[0] != x {
        forall y | y in rest ensures y != xs[0] && RowBefore(nodes, xs[0], y) {
          WithoutMember(xs[1..], x, y);
          var j :| 0 <= j < |xs| - 1 && xs[1..][j] == y;
          assert xs[j + 1] == y;
        }
        NoDupCons(xs[0], rest);
      }
    }
  }

  lemma {:induction false} KidsInOrder(nodes: Nodes, rows: seq<int>, p: Option<int>)
    requires InOrder(nodes, rows)
    ensures InOrder(nodes, KidsIn(nodes, rows, p))
  {
    if rows != [] {
      var rest := KidsIn(nodes, rows[1..], p);
      KidsInOrder(nodes, rows[1..], p);
      forall y | y in rest ensures RowBefore(nodes, rows[0], y) {
        KidMember(nodes, rows[1..], p, y);
        var j :| 0 <= j < |rows| - 1 && rows[1..][j] == y;
        assert rows[j + 1] == y;
      }
    }
  }

  ghost predicate IsChild(s: Store, m: int, p: int, x: int) {
    x in s.nodes && s.nodes[x].map_ == m && s.nodes[x].parent == Some(p)
  }

  lemma KidsListed(s: Store, m: int, p: int)
    requires WellFormed(s) && m in s.maps
    ensures NoDup(Kids(s, m, p)) && InOrder(s.nodes, Kids(s, m, p))
    ensures forall x :: x in Kids(s, m, p) <==> IsChild(s, m, p, x)
  {
    LoadGivesTheTree(s, m, RootOf(s, m));
    RowsAre(s.nodes, NodesOf(s.nodes, m));
    NoDupKids(s.nodes, NodeRows(s, m), Some(p));
    KidsInOrder(s.nodes, NodeRows(s, m), Some(p));
    forall x ensures x in Kids(s, m, p) <==> IsChild(s, m, p, x) {
      KidMember(s.nodes, NodeRows(s, m), Some(p), x);
      RowMember(s, m, x);
    }
  }

  /** There is one list of the children in order. */
  lemma KidsAre(s: Store, m: int, p: int, ks: seq<int>)
    requires WellFormed(s) && m in s.maps && NoDup(ks) && InOrder(s.nodes, ks)
    requires forall x :: x in ks <==> IsChild(s, m, p, x)
    ensures Kids(s, m, p) == ks
  {
    KidsListed(s, m, p);
    OneOrder(s.nodes, ks);
    OneOrder(s.nodes, Kids(s, m, p));
    assert Elems(ks) == Elems(Kids(s, m, p));
  }

  lemma SameOrder(nodes: Nodes, nodes': Nodes, ks: seq<int>)
    requires InOrder(nodes, ks) && forall x | x in ks :: OrdOf(nodes', x) == OrdOf(nodes, x)
    ensures InOrder(nodes', ks)
  {
    forall i, j | 0 <= i < j < |ks| ensures RowBefore(nodes', ks[i], ks[j]) {
      assert ks[i] in ks && ks[j] in ks && RowBefore(nodes, ks[i], ks[j]);
    }
  }

  lemma OrderedPush(nodes: Nodes, ks: seq<int>, x: int)
    requires NoDup(ks) && InOrder(nodes, ks) && x !in ks && forall y | y in ks :: RowBefore(nodes, y, x)
    ensures NoDup(ks + [x]) && InOrder(nodes, ks + [x])
  {
    NoDupConcat(ks, [x]);
  }

  /** The next place is behind all children. */
  lemma NextIsLast(nodes: Nodes, p: int, x: int)
    requires x in nodes && nodes[x].parent == Some(p)
    ensures nodes[x].ord < NextOrd(nodes, p)
  {
    assert nodes[x].ord in Ords(nodes, p);
  }

  // ---------------------------------------------------------------------
  // Moving.

  /** The list without `n`, which comes last when it comes back. */
  function Rejoined(ks: seq<int>, n: int, back: bool): seq<int> {
    if back then Without(ks, n) + [n] else Without(ks, n)
  }

  /** Only the row of `n` changed, in its parent and its place. */
  ghost predicate OnlyMoved(s: Store, t: Store, n: int, p: int) {
    && n in s.nodes && t.nodes.Keys == s.nodes.Keys
    && (forall x | x in s.nodes && x != n :: t.nodes[x] == s.nodes[x])
    && t.nodes[n] == s.nodes[n].(parent := Some(p), ord := t.nodes[n].ord)
  }

  /** A move puts the node under its new parent, behind the children it has, and
      takes its subtree along; all other children stay in their order. */
  lemma MoveMoves(s: Store, m: int, n: int, p: int, now: int)
    requires WellFormed(s) && MoveSpec(s, m, n, p, now).Ok?
    ensures var t := MoveSpec(s, m, n, p, now).value;
            && OnlyMoved(s, t, n, p) && t.(nodes := s.nodes) == Touch(s, m, now)
            && Subtree(t.nodes, n) == Subtree(s.nodes, n)
            && forall q :: Kids(t, m, q) == Rejoined(Kids(s, m, q), n, q == p)
  {
    var t := MoveFacts(s, m, n, p, now);
    MovedAlong(s, t, n, p);
    forall q ensures Kids(t, m, q) == Rejoined(Kids(s, m, q), n, q == p) {
      MovedKids(s, t, m, n, p, q);
    }
  }

  lemma MoveFacts(s: Store, m: int, n: int, p: int, now: int) returns (t: Store)
    requires WellFormed(s) && MoveSpec(s, m, n, p, now).Ok?
    ensures t == MoveSpec(s, m, n, p, now).value && m in s.maps && m in t.maps && WellFormed(t)
    ensures OnlyMoved(s, t, n, p) && t.(nodes := s.nodes) == Touch(s, m, now)
    ensures s.nodes[n].map_ == m && t.nodes[n].ord == NextOrd(s.nodes, p)
  {
    t := MoveRow(s, m, n, p, now);
    MoveKeeps(s, m, n, p, now);
  }

  lemma MoveRow(s: Store, m: int, n: int, p: int, now: int) returns (t: Store)
    requires MoveSpec(s, m, n, p, now).Ok?
    ensures t == MoveSpec(s, m, n, p, now).value && m in s.maps && m in t.maps
    ensures OnlyMoved(s, t, n, p) && t.(nodes := s.nodes) == Touch(s, m, now)
    ensures s.nodes[n].map_ == m && t.nodes[n].ord == NextOrd(s.nodes, p)
  {
    t := MoveSpec(s, m, n, p, now).value;
    assert t.nodes == s.nodes[n := t.nodes[n]];
  }

  /** The other children of a node, in their order. */
  lemma RestKids(s: Store, t: Store, m: int, n: int, p: int, q: int)
    requires WellFormed(s) && m in s.maps && OnlyMoved(s, t, n, p)
    ensures var rest := Without(Kids(s, m, q), n);
            && NoDup(rest) && InOrder(t.nodes, rest)
            && forall x :: x in rest <==> IsChild(s, m, q, x) && x != n
  {
    var rest := Without(Kids(s, m, q), n);
    KidsListed(s, m, q);
    WithoutOrdered(s.nodes, Kids(s, m, q), n);
    forall x ensures x in rest <==> IsChild(s, m, q, x) && x != n { WithoutMember(Kids(s, m, q), n, x); }
    SameOrder(s.nodes, t.nodes, rest);
  }

  lemma MovedKids(s: Store, t: Store, m: int, n: int, p: int, q: int)
    requires WellFormed(s) && WellFormed(t) && m in s.maps && m in t.maps && OnlyMoved(s, t, n, p)
    requires s.nodes[n].map_ == m && t.nodes[n].ord == NextOrd(s.nodes, p)
    ensures Kids(t, m, q) == Rejoined(Kids(s, m, q), n, q == p)
  {
    var rest := Without(Kids(s, m, q), n);
    RestKids(s, t, m, n, p, q);
    if q == p { LastKid(s, t, m, n, p, rest); } else { OtherKids(s, t, m, n, p, q, rest); }
  }

  lemma OtherKids(s: Store, t: Store, m: int, n: int, p: int, q: int, rest: seq<int>)
    requires WellFormed(t) && m in t.maps && OnlyMoved(s, t, n, p) && q != p
    requires NoDup(rest) && InOrder(t.nodes, rest) && forall x :: x in rest <==> IsChild(s, m, q, x) && x != n
    ensures Kids(t, m, q) == rest
  {
    assert forall x :: x in rest <==> IsChild(t, m, q, x);
    KidsAre(t, m, q, rest);
  }

  lemma LastKid(s: Store, t: Store, m: int, n: int, p: int, rest: seq<int>)
    requires WellFormed(t) && m in t.maps && OnlyMoved(s, t, n, p)
    requires s.nodes[n].map_ == m && t.nodes[n].ord == NextOrd(s.nodes, p)
    requires NoDup(rest) && InOrder(t.nodes, rest) && forall x :: x in rest <==> IsChild(s, m, p, x) && x != n
    ensures Kids(t, m, p) == rest + [n]
  {
    forall y | y in rest ensures RowBefore(t.nodes, y, n) { NextIsLast(s.nodes, p, y); }
    OrderedPush(t.nodes, rest, n);
    assert forall x :: x in rest + [n] <==> IsChild(t, m, p, x);
    KidsAre(t, m, p, rest + [n]);
  }

  /** What lay under the node still does, and nothing else. */
  lemma MovedAlong(s: Store, t: Store, n: int, p: int)
    requires OnlyMoved(s, t, n, p)
    ensures Subtree(t.nodes, n) == Subtree(s.nodes, n)
  {
    forall x | x in s.nodes ensures Under(s.nodes, x, n) <==> Under(t.nodes, x, n) {
      StillUnder(s.nodes, t.nodes, n, x);
      StillUnder(t.nodes, s.nodes, n, x);
    }
  }

  lemma StillUnder(nodes: Nodes, nodes': Nodes, n: int, x: int)
    requires nodes'.Keys == nodes.Keys
    requires forall y | y in nodes && y != n :: nodes'[y].parent == nodes[y].parent
    ensures Under(nodes, x, n) ==> Under(nodes', x, n)
  {
    if Under(nodes, x, n) {
      var k: nat :| Up(nodes, x, k) == Some(n);
      UpToNode(nodes, nodes', n, x, k);
    }
  }

  lemma {:induction false} UpToNode(nodes: Nodes, nodes': Nodes, n: int, x: int, k: nat)
    requires nodes'.Keys == nodes.Keys && Up(nodes, x, k) == Some(n)
    requires forall y | y in nodes && y != n :: nodes'[y].parent == nodes[y].parent
    ensures Under(nodes', x, n)
    decreases k
  {
    if x == n {
      UnderItself(nodes', n);
    } else {
      UpToNode(nodes, nodes', n, nodes[x].parent.value, k - 1);
      UnderParent(nodes', x, n);
    }
  }

  // ---------------------------------------------------------------------
  // Adding.

  ghost predicate Above(id: int, ids: set<int>) { forall x | x in ids :: x < id }

  /** The kind of a new node: as asked, else a step of a chart or a note of a map. */
  function KindAsked(spec: NewNode, layout: Layout): Kind {
    match spec.kind
    case Some(k) => k
    case None => match layout case FlowChart => Process case MindMap => Note
  }

  /** A new node with what it was given, under `p`; in a chart with its arrow. */
  ghost predicate Added(s: Store, t: Store, m: int, id: int, p: int, spec: NewNode, now: int) {
    && m in s.maps && t.maps == Touch(s, m, now).maps && t.entries == s.entries && t.chains == s.chains
    && Above(id, s.nodes.Keys) && id in t.nodes
    && t.nodes == s.nodes[id := NodeRow(m, Some(p), KindAsked(spec, s.maps[m].layout), Trim(spec.text), Open,
      t.nodes[id].ord, now, spec.author)]
    && (forall x, e :: (x, e) in t.nodeRefs <==> (x, e) in s.nodeRefs || (x == id && e in spec.refs))
    && t.edgeRefs == s.edgeRefs
    && match spec.after
       case None => t.edges == s.edges
       case Some(after) =>
         exists e :: Above(e, s.edges.Keys) && t.edges == s.edges[e := EdgeRow(m, after, id, Trim(spec.caption))]
  }

  /** A new node comes last among the children of the node named, or of the topic. */
  lemma AddAdds(s: Store, m: int, spec: NewNode, now: int)
    requires WellFormed(s) && AddSpec(s, m, spec, now).Ok?
    ensures var (t, id) := AddSpec(s, m, spec, now).value;
            exists p :: (if spec.parent.Some? then p == spec.parent.value else IsRoot(s, m, p))
              && Added(s, t, m, id, p, spec, now)
              && forall q :: Kids(t, m, q) == Kids(s, m, q) + if q == p then [id] else []
  {
    var t, id, p := AddRow(s, m, spec, now);
    AddKeeps(s, m, spec, now);
    forall q ensures Kids(t, m, q) == Kids(s, m, q) + if q == p then [id] else [] {
      if q == p { NewKid(s, t, m, id, p); } else { OldKids(s, t, m, id, p, q); }
    }
  }

  lemma AddRow(s: Store, m: int, spec: NewNode, now: int) returns (t: Store, id: int, p: int)
    requires AddSpec(s, m, spec, now).Ok?
    ensures (t, id) == AddSpec(s, m, spec, now).value
    ensures if spec.parent.Some? then p == spec.parent.value else IsRoot(s, m, p)
    ensures Added(s, t, m, id, p, spec, now) && t.nodes[id].ord == NextOrd(s.nodes, p) && m in t.maps
  {
    var text;
    var kind;
    p, kind, text := AddShape(s, m, spec, now);
    t, id := AddSpec(s, m, spec, now).value.0, AddSpec(s, m, spec, now).value.1;
    p := if spec.parent.Some? then spec.parent.value else RootOf(s, m);
    AddedRows(s, t, m, id, p, spec, now);
  }

  lemma AddedRows(s: Store, t: Store, m: int, id: int, p: int, spec: NewNode, now: int)
    requires m in s.maps && id == NextRowId(s.nodes.Keys)
    requires t == AddedNode(s, m, p, KindAsked(spec, s.maps[m].layout), Trim(spec.text), spec, now)
    ensures Added(s, t, m, id, p, spec, now) && t.nodes[id].ord == NextOrd(s.nodes, p) && m in t.maps
  {
    if spec.after.Some? {
      assert Above(NextRowId(s.edges.Keys), s.edges.Keys);
    }
  }

  /** One row more, the others as they were. */
  ghost predicate OneMoreNode(s: Store, t: Store, m: int, id: int, p: int) {
    id !in s.nodes && id in t.nodes && t.nodes == s.nodes[id := t.nodes[id]]
    && t.nodes[id].map_ == m && t.nodes[id].parent == Some(p)
  }

  lemma OldKids(s: Store, t: Store, m: int, id: int, p: int, q: int)
    requires WellFormed(s) && WellFormed(t) && m in s.maps && m in t.maps && OneMoreNode(s, t, m, id, p) && q != p
    ensures Kids(t, m, q) == Kids(s, m, q)
  {
    KidsListed(s, m, q);
    KidsStay(s, t, m, q, Kids(s, m, q));
  }

  lemma KidsStay(s: Store, t: Store, m: int, q: int, ks: seq<int>)
    requires WellFormed(t) && m in t.maps && NoDup(ks) && InOrder(s.nodes, ks)
    requires forall x :: x in ks <==> IsChild(s, m, q, x)
    requires forall x :: IsChild(t, m, q, x) <==> IsChild(s, m, q, x)
    requires forall x | x in ks :: OrdOf(t.nodes, x) == OrdOf(s.nodes, x)
    ensures Kids(t, m, q) == ks
  {
    SameOrder(s.nodes, t.nodes, ks);
    KidsAre(t, m, q, ks);
  }

  lemma NewKid(s: Store, t: Store, m: int, id: int, p: int)
    requires WellFormed(s) && WellFormed(t) && m in s.maps && m in t.maps && OneMoreNode(s, t, m, id, p)
    requires t.nodes[id].ord == NextOrd(s.nodes, p)
    ensures Kids(t, m, p) == Kids(s, m, p) + [id]
  {
    KidsListed(s, m, p);
    KidBehind(s, t, m, id, p, Kids(s, m, p));
  }

  lemma KidBehind(s: Store, t: Store, m: int, id: int, p: int, ks: seq<int>)
    requires WellFormed(t) && m in t.maps && OneMoreNode(s, t, m, id, p) && t.nodes[id].ord == NextOrd(s.nodes, p)
    requires NoDup(ks) && InOrder(s.nodes, ks) && forall x :: x in ks <==> IsChild(s, m, p, x)
    ensures Kids(t, m, p) == ks + [id]
  {
    SameOrder(s.nodes, t.nodes, ks);
    forall y | y in ks ensures RowBefore(t.nodes, y, id) { NextIsLast(s.nodes, p, y); }
    OrderedPush(t.nodes, ks, id);
    assert forall x :: x in ks + [id] <==> IsChild(t, m, p, x);
    KidsAre(t, m, p, ks + [id]);
  }

  // ---------------------------------------------------------------------
  // Removing.

  /** The subtree of `n` is gone, with its arrows and references; the rest is as it was. */
  ghost predicate Removed(s: Store, t: Store, m: int, n: int, now: int) {
    && m in s.maps && t.maps == Touch(s, m, now).maps && t.entries == s.entries && t.chains == s.chains
    && (forall x :: x in t.nodes <==> x in s.nodes && !Under(s.nodes, x, n))
    && (forall x | x in t.nodes :: t.nodes[x] == s.nodes[x])
    && (forall e :: e in t.edges <==>
          e in s.edges && !Under(s.nodes, s.edges[e].from, n) && !Under(s.nodes, s.edges[e].to, n))
    && (forall e | e in t.edges :: t.edges[e] == s.edges[e])
    && (forall x, e :: (x, e) in t.nodeRefs <==> (x, e) in s.nodeRefs && !Under(s.nodes, x, n))
    && (forall a, e :: (a, e) in t.edgeRefs <==> (a, e) in s.edgeRefs && a in t.edges)
  }

  /** Removing a node takes what lies under it, and its place among its siblings. */
  lemma RemoveRemoves(s: Store, m: int, n: int, now: int)
    requires WellFormed(s) && RemoveSpec(s, m, n, now).Ok?
    ensures var t := RemoveSpec(s, m, n, now).value.0;
            && Removed(s, t, m, n, now)
            && forall q | q in t.nodes :: Kids(t, m, q) == Without(Kids(s, m, q), n)
  {
    var t := RemoveSpec(s, m, n, now).value.0;
    RemovedRows(s, m, n, now);
    RemoveKeeps(s, m, n, now);
    forall q | q in t.nodes ensures Kids(t, m, q) == Without(Kids(s, m, q), n) { FewerKids(s, t, m, n, q); }
  }

  lemma RemovedRows(s: Store, m: int, n: int, now: int)
    requires EdgesOk(s) && RefsOk(s) && RemoveSpec(s, m, n, now).Ok?
    ensures Removed(s, RemoveSpec(s, m, n, now).value.0, m, n, now)
  {
    var gone := Subtree(s.nodes, n);
    forall x | x in s.nodes ensures x in gone <==> Under(s.nodes, x, n) {}
  }

  lemma FewerKids(s: Store, t: Store, m: int, n: int, q: int)
    requires WellFormed(s) && WellFormed(t) && m in s.maps && m in t.maps && q in t.nodes
    requires forall x :: x in t.nodes <==> x in s.nodes && !Under(s.nodes, x, n)
    requires forall x | x in t.nodes :: t.nodes[x] == s.nodes[x]
    ensures Kids(t, m, q) == Without(Kids(s, m, q), n)
  {
    KidsListed(s, m, q);
    WithoutOrdered(s.nodes, Kids(s, m, q), n);
    forall x ensures x in Without(Kids(s, m, q), n) <==> IsChild(t, m, q, x) {
      WithoutMember(Kids(s, m, q), n, x);
      ChildUnder(s.nodes, n, q, x);
    }
    SameOrder(s.nodes, t.nodes, Without(Kids(s, m, q), n));
    KidsAre(t, m, q, Without(Kids(s, m, q), n));
  }

  lemma ChildUnder(nodes: Nodes, n: int, q: int, x: int)
    requires x in nodes && nodes[x].parent == Some(q) ==> !Under(nodes, q, n)
    ensures x in nodes && nodes[x].parent == Some(q) ==> (Under(nodes, x, n) <==> x == n)
  {
    if x in nodes && nodes[x].parent == Some(q) {
      UnderParent(nodes, x, n);
      UnderItself(nodes, n);
    }
  }

  // ---------------------------------------------------------------------
  // Changing rows in place.

  /** The rows stand where they stood. */
  ghost predicate InPlace(s: Store, t: Store) {
    && t.nodes.Keys == s.nodes.Keys
    && forall x | x in s.nodes ::
        t.nodes[x].map_ == s.nodes[x].map_ && t.nodes[x].parent == s.nodes[x].parent && t.nodes[x].ord == s.nodes[x].ord
  }

  lemma KidsUnchanged(s: Store, t: Store, m: int)
    requires WellFormed(s) && WellFormed(t) && m in s.maps && m in t.maps && InPlace(s, t)
    ensures forall q :: Kids(t, m, q) == Kids(s, m, q)
  {
    forall q ensures Kids(t, m, q) == Kids(s, m, q) {
      KidsListed(s, m, q);
      KidsStay(s, t, m, q, Kids(s, m, q));
    }
  }

  /** One row and its map say something else; all other tables are as they were. */
  ghost predicate Edits(s: Store, t: Store, m: int, n: int, text: Option<string>, kind: Option<Kind>, now: int) {
    && m in s.maps && n in s.nodes
    && var said := if text.Some? then Trim(text.value) else s.nodes[n].text;
       && t.nodes == s.nodes[n := s.nodes[n].(kind := if kind.Some? then kind.value else s.nodes[n].kind, text := said)]
       && t.maps == s.maps[m :=
            s.maps[m].(updatedAt := now, title := if IsRoot(s, m, n) then said else s.maps[m].title)]
       && t.(nodes := s.nodes, maps := s.maps) == s
  }

  /** An edit changes what a node says and is; a topic's text is its map's title too. */
  lemma EditEdits(s: Store, m: int, n: int, text: Option<string>, kind: Option<Kind>, now: int)
    requires WellFormed(s) && EditSpec(s, m, n, text, kind, now).Ok?
    ensures var t := EditSpec(s, m, n, text, kind, now).value;
            Edits(s, t, m, n, text, kind, now) && forall q :: Kids(t, m, q) == Kids(s, m, q)
  {
    var t := EditSpec(s, m, n, text, kind, now).value;
    EditedRows(s, m, n, text, kind, now);
    EditKeeps(s, m, n, text, kind, now);
    EditInPlace(s, t, m, n, text, kind, now);
    KidsUnchanged(s, t, m);
  }

  lemma EditInPlace(s: Store, t: Store, m: int, n: int, text: Option<string>, kind: Option<Kind>, now: int)
    requires Edits(s, t, m, n, text, kind, now)
    ensures InPlace(s, t) && m in t.maps
  {
  }

  lemma EditedRows(s: Store, m: int, n: int, text: Option<string>, kind: Option<Kind>, now: int)
    requires WellFormed(s) && EditSpec(s, m, n, text, kind, now).Ok?
    ensures m in s.maps && Edits(s, EditSpec(s, m, n, text, kind, now).value, m, n, text, kind, now)
  {
    assert IsRoot(s, m, n) <==> s.nodes[n].parent.None? by { var r :| IsRoot(s, m, r); }
    RootRow(s, m, n);
  }

  ghost predicate StateIs(s: Store, t: Store, m: int, n: int, st: NodeState, now: int) {
    && m in s.maps && n in s.nodes && t.nodes == s.nodes[n := s.nodes[n].(state := st)]
    && t.(nodes := s.nodes) == Touch(s, m, now)
  }

  /** Setting the state of a node changes its state and nothing else. */
  lemma StateSets(s: Store, m: int, n: int, st: NodeState, now: int)
    requires WellFormed(s) && SetNodeStateSpec(s, m, n, st, now).Ok?
    ensures var t := SetNodeStateSpec(s, m, n, st, now).value;
            StateIs(s, t, m, n, st, now) && forall q :: Kids(t, m, q) == Kids(s, m, q)
  {
    var t := SetNodeStateSpec(s, m, n, st, now).value;
    SetNodeStateKeeps(s, m, n, st, now);
    StateRow(s, m, n, st, now);
    KidsUnchanged(s, t, m);
  }

  lemma StateRow(s: Store, m: int, n: int, st: NodeState, now: int)
    requires SetNodeStateSpec(s, m, n, st, now).Ok?
    ensures var t := SetNodeStateSpec(s, m, n, st, now).value;
            m in s.maps && m in t.maps && StateIs(s, t, m, n, st, now) && InPlace(s, t)
  {
  }
}
