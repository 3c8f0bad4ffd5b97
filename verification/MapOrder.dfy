/** What the order of `load` is: every node once, parents first, siblings in
    row order, and each subtree together. */
module MapOrder {
  import opened Base
  import opened MapStore
  import opened MapRuns
  import opened MapLoad

  ghost function Groups(s: Store, m: int): Levels { ByParent(s.nodes, NodeRows(s, m)) - {None} }

  ghost function Tops(s: Store, m: int): seq<int> { KidsIn(s.nodes, NodeRows(s, m), None) }

  lemma Started(s: Store, m: int)
    ensures Order(s, m) == Walk(Groups(s, m), Tops(s, m))
    ensures Levelled(s.nodes, Groups(s, m)) && Waiting(s.nodes, Groups(s, m), Tops(s, m))
            && AllOf(s.nodes, Tops(s, m), None)
  {
    var rows := NodeRows(s, m);
    ByParentAt(s.nodes, rows, None);
    ByParentLevelled(s.nodes, rows);
    forall i | 0 <= i < |Tops(s, m)| ensures Tops(s, m)[i] in s.nodes && s.nodes[Tops(s, m)[i]].parent == None {
      KidMember(s.nodes, rows, None, Tops(s, m)[i]);
    }
  }

  lemma GroupAt(s: Store, m: int, p: int)
    ensures At(Groups(s, m), Some(p)) == KidsIn(s.nodes, NodeRows(s, m), Some(p))
  {
    ByParentAt(s.nodes, NodeRows(s, m), Some(p));
  }

  lemma RowMember(s: Store, m: int, x: int)
    ensures x in NodeRows(s, m) <==> x in s.nodes && s.nodes[x].map_ == m
  {
    InRows(s.nodes, NodesOf(s.nodes, m), x);
  }

  lemma OrderKids(s: Store, m: int, p: Option<int>)
    ensures KidsIn(s.nodes, Order(s, m), p) ==
            if p.None? || p.value in Order(s, m) then KidsIn(s.nodes, NodeRows(s, m), p) else []
  {
    Started(s, m);
    WalkKids(s.nodes, Groups(s, m), Tops(s, m), p);
    KidsOfKids(s.nodes, Tops(s, m), None, p);
    if p.Some? { GroupAt(s, m, p.value); }
  }

  /** A node whose parents lead to the root is given. */
  lemma {:induction false} Reached(s: Store, m: int, n: int, k: nat, r: int)
    requires NodesOk(s) && m in s.maps && n in s.nodes && s.nodes[n].map_ == m && Up(s.nodes, n, k) == Some(r)
    requires r in s.nodes && s.nodes[r].parent.None?
    ensures n in Order(s, m)
    decreases k
  {
    var p := s.nodes[n].parent;
    if k > 0 {
      ParentInMap(s, n);
      Reached(s, m, p.value, k - 1, r);
    }
    Given(s, m, n);
  }

  /** The children of a given node are given. */
  lemma Given(s: Store, m: int, n: int)
    requires n in s.nodes && s.nodes[n].map_ == m
    requires s.nodes[n].parent.Some? ==> s.nodes[n].parent.value in Order(s, m)
    ensures n in Order(s, m)
  {
    var p := s.nodes[n].parent;
    OrderKids(s, m, p);
    RowMember(s, m, n);
    KidMember(s.nodes, NodeRows(s, m), p, n);
    KidMember(s.nodes, Order(s, m), p, n);
  }

  lemma ParentInMap(s: Store, n: int)
    requires NodesOk(s) && n in s.nodes && s.nodes[n].parent.Some?
    ensures s.nodes[n].parent.value in s.nodes && s.nodes[s.nodes[n].parent.value].map_ == s.nodes[n].map_
  {
    var rank :| Ranked(s.nodes, rank);
    assert RankOk(s.nodes, rank, n);
  }

  /** Exactly the map's nodes. */
  lemma OrderMember(s: Store, m: int, n: int)
    requires WellFormed(s) && m in s.maps
    ensures n in Order(s, m) <==> n in s.nodes && s.nodes[n].map_ == m
  {
    if n in Order(s, m) {
      OrderInside(s, m);
      var p := s.nodes[n].parent;
      KidMember(s.nodes, Order(s, m), p, n);
      OrderKids(s, m, p);
      KidMember(s.nodes, NodeRows(s, m), p, n);
      RowMember(s, m, n);
    } else if n in s.nodes && s.nodes[n].map_ == m {
      var rank :| Ranked(s.nodes, rank);
      var r := RootOf(s, m);
      ReachesRoot(s, rank, n, r);
      var k: nat :| Up(s.nodes, n, k) == Some(r);
      Reached(s, m, n, k, r);
    }
  }

  lemma {:induction false} NoDupKids(nodes: Nodes, rows: seq<int>, p: Option<int>)
    requires NoDup(rows)
    ensures NoDup(KidsIn(nodes, rows, p))
  {
    if rows != [] {
      var rest := KidsIn(nodes, rows[1..], p);
      NoDupKids(nodes, rows[1..], p);
      KidMember(nodes, rows[1..], p, rows[0]);
      if rows[0] in nodes && nodes[rows[0]].parent == p { NoDupCons(rows[0], rest); }
    }
  }

  lemma {:induction false} KidsNoDup(nodes: Nodes, w: seq<int>)
    requires Inside(w, nodes.Keys)
    requires forall p :: NoDup(KidsIn(nodes, w, p))
    ensures NoDup(w)
  {
    if w != [] {
      var x, rest := w[0], w[1..];
      forall p ensures NoDup(KidsIn(nodes, rest, p)) {
        var all, some := KidsIn(nodes, w, p), KidsIn(nodes, rest, p);
        if all != some { assert some == all[1..]; }
      }
      KidsNoDup(nodes, rest);
      var p := nodes[x].parent;
      KidMember(nodes, rest, p, x);
      var ks := KidsIn(nodes, rest, p);
      assert NoDup(KidsIn(nodes, w, p)) && KidsIn(nodes, w, p) == [x] + ks;
      FirstOnce(x, ks);
      NoDupCons(x, rest);
      assert [x] + rest == w;
    }
  }

  lemma FirstOnce(x: int, ks: seq<int>)
    requires NoDup([x] + ks)
    ensures x !in ks
  {
    var all := [x] + ks;
    forall i | 0 <= i < |ks| ensures ks[i] != x { assert all[i + 1] == ks[i] && all[0] == x; }
  }

  /** Each node once. */
  lemma OrderNoDup(s: Store, m: int)
    ensures NoDup(Order(s, m))
  {
    OrderInside(s, m);
    RowsAre(s.nodes, NodesOf(s.nodes, m));
    forall p ensures NoDup(KidsIn(s.nodes, Order(s, m), p)) {
      OrderKids(s, m, p);
      NoDupKids(s.nodes, NodeRows(s, m), p);
    }
    KidsNoDup(s.nodes, Order(s, m));
  }

  /** `load` gives every node of the map once, parents first, siblings in the
      order of their rows, beginning with the topic. */
  lemma LoadGivesTheTree(s: Store, m: int, r: int)
    requires WellFormed(s) && IsRoot(s, m, r)
    ensures NoDup(Order(s, m)) && Elems(Order(s, m)) == NodesOf(s.nodes, m)
    ensures forall p :: KidsIn(s.nodes, Order(s, m), p) == KidsIn(s.nodes, NodeRows(s, m), p)
    ensures ParentsFirst(s.nodes, {None}, Order(s, m))
    ensures LoadSpec(s, m).Ok? && LoadSpec(s, m).value.root == r && Order(s, m) != [] && Order(s, m)[0] == r
  {
    OrderNoDup(s, m);
    forall n ensures n in Order(s, m) <==> n in NodesOf(s.nodes, m) { OrderMember(s, m, n); }
    forall p ensures KidsIn(s.nodes, Order(s, m), p) == KidsIn(s.nodes, NodeRows(s, m), p) {
      OrderKids(s, m, p);
      if p.Some? && p.value !in Order(s, m) {
        OrderMember(s, m, p.value);
        Barren(s, m, p.value);
      }
    }
    Started(s, m);
    WalkParentsFirst(s.nodes, Groups(s, m), Tops(s, m), {None});
    OneTop(s, m, r);
  }

  lemma Barren(s: Store, m: int, p: int)
    requires WellFormed(s) && m in s.maps && !(p in s.nodes && s.nodes[p].map_ == m)
    ensures KidsIn(s.nodes, NodeRows(s, m), Some(p)) == []
  {
    var ks := KidsIn(s.nodes, NodeRows(s, m), Some(p));
    if ks != [] {
      assert ks[0] in ks;
      KidMember(s.nodes, NodeRows(s, m), Some(p), ks[0]);
      RowMember(s, m, ks[0]);
      ParentInMap(s, ks[0]);
      assert false;
    }
  }

  lemma OneTop(s: Store, m: int, r: int)
    requires IsRoot(s, m, r)
    ensures Tops(s, m) == [r]
  {
    var ts := Tops(s, m);
    KidMember(s.nodes, NodeRows(s, m), None, r);
    RowMember(s, m, r);
    RowsAre(s.nodes, NodesOf(s.nodes, m));
    NoDupKids(s.nodes, NodeRows(s, m), None);
    forall i | 0 <= i < |ts| ensures ts[i] == r {
      KidMember(s.nodes, NodeRows(s, m), None, ts[i]);
      RowMember(s, m, ts[i]);
    }
    assert r in ts;
    OnlyOne(ts, r);
  }

  lemma Twice(ts: seq<int>)
    requires NoDup(ts) && ts != [] && forall i | 0 <= i < |ts| :: ts[i] == ts[0]
    ensures |ts| == 1
  {
    var last := |ts| - 1;
    assert ts[last] == ts[0];
  }

  lemma OnlyOne(ts: seq<int>, r: int)
    requires NoDup(ts) && ts != [] && forall i | 0 <= i < |ts| :: ts[i] == r
    ensures ts == [r]
  {
    assert |ts| == 1 by { Twice(ts); }
  }

  // ---------------------------------------------------------------------
  // Depth first.

  function Keys(w: seq<int>): set<Option<int>> { set i | 0 <= i < |w| :: Some(w[i]) }

  /** The groups left once `w` is emitted. */
  function Left(k: Levels, w: seq<int>): Levels {
    if w == [] then k else Left(k - {Some(w[0])}, w[1..])
  }

  lemma {:induction false} LeftAt(k: Levels, w: seq<int>, p: Option<int>)
    ensures p in Left(k, w) <==> p in k && p !in Keys(w)
    ensures p in Left(k, w) ==> Left(k, w)[p] == k[p]
  {
    if w != [] {
      LeftAt(k - {Some(w[0])}, w[1..], p);
      KeysCons(w[0], w[1..]);
      assert w == [w[0]] + w[1..];
    }
  }

  lemma KeysCons(n: int, w: seq<int>)
    ensures Keys([n] + w) == {Some(n)} + Keys(w)
  {
    var v := [n] + w;
    assert forall i :: 0 < i < |v| ==> v[i] == w[i - 1];
    forall x | x in Keys(w) ensures x in Keys(v) {
      var i :| 0 <= i < |w| && x == Some(w[i]);
      assert v[i + 1] == w[i];
    }
    assert v[0] == n;
  }

  /** What waits behind is walked after, with what is left. */
  lemma {:induction false} WalkSplit(k: Levels, a: seq<int>, b: seq<int>)
    ensures Walk(k, a + b) == Walk(k, a) + Walk(Left(k, Walk(k, a)), b)
    decreases |k|, |a|
  {
    if a == [] {
      assert a + b == b;
    } else {
      var n, rest, k', kids := a[0], a[1..], k - {Some(a[0])}, At(k, Some(a[0]));
      if Some(n) in k { Shrinks(k, Some(n)); } else { assert k' == k && kids + rest == rest; }
      WalkSplit(k', kids + rest, b);
      var w := Walk(k', kids + rest);
      WalkHead(k, a);
      WalkHeadBefore(k, a, b);
      LeftCons(k, n, w);
      JoinSeqs(n, w, Walk(Left(k', w), b));
    }
  }

  lemma WalkHead(k: Levels, a: seq<int>)
    requires a != []
    ensures Walk(k, a) == [a[0]] + Walk(k - {Some(a[0])}, At(k, Some(a[0])) + a[1..])
  {
    assert a == [a[0]] + a[1..];
    Descend(k, a[0], a[1..]);
  }

  lemma WalkHeadBefore(k: Levels, a: seq<int>, b: seq<int>)
    requires a != []
    ensures Walk(k, a + b) == [a[0]] + Walk(k - {Some(a[0])}, At(k, Some(a[0])) + a[1..] + b)
  {
    var kids := At(k, Some(a[0]));
    assert (a + b)[1..] == a[1..] + b && (a + b)[0] == a[0];
    assert kids + (a + b)[1..] == kids + a[1..] + b;
    WalkHead(k, a + b);
  }

  lemma LeftCons(k: Levels, n: int, w: seq<int>)
    ensures Left(k, [n] + w) == Left(k - {Some(n)}, w)
  {
    assert ([n] + w)[1..] == w;
  }

  lemma JoinSeqs(n: int, w: seq<int>, v: seq<int>)
    ensures [n] + (w + v) == [n] + w + v
  {
  }

  /** The walk from position `i` on. */
  lemma {:induction false} WalkFrom(k: Levels, todo: seq<int>, i: nat) returns (rest: seq<int>)
    requires i < |Walk(k, todo)|
    ensures Walk(k, todo)[i..] == Walk(Left(k, Walk(k, todo)[..i]), [Walk(k, todo)[i]] + rest)
    decreases i
  {
    var n, w := todo[0], Walk(k, todo);
    if i == 0 {
      rest := todo[1..];
      assert todo == [n] + rest;
    } else {
      assert todo == [n] + todo[1..];
      Descend(k, n, todo[1..]);
      var k' := k - {Some(n)};
      var w' := Walk(k', At(k, Some(n)) + todo[1..]);
      rest := WalkFrom(k', At(k, Some(n)) + todo[1..], i - 1);
      assert w[..i] == [n] + w'[..i - 1] && w[i..] == w'[i - 1..];
    }
  }

  lemma {:induction false} WalkUnder(nodes: Nodes, k: Levels, todo: seq<int>, a: int)
    requires Levelled(nodes, k) && forall i | 0 <= i < |todo| :: Under(nodes, todo[i], a)
    ensures forall i | 0 <= i < |Walk(k, todo)| :: Under(nodes, Walk(k, todo)[i], a)
    decreases |k|, |todo|
  {
    if todo != [] {
      var n, rest := todo[0], todo[1..];
      if Some(n) in k {
        Shrinks(k, Some(n));
        var kids := k[Some(n)];
        forall i | 0 <= i < |kids| ensures Under(nodes, kids[i], a) { UnderParent(nodes, kids[i], a); }
        WalkUnder(nodes, k - {Some(n)}, kids + rest, a);
      } else {
        WalkUnder(nodes, k, rest, a);
      }
    }
  }

  lemma {:induction false} ParentEarlier(nodes: Nodes, emitted: set<Option<int>>, w: seq<int>, i: nat)
    requires ParentsFirst(nodes, emitted, w) && i < |w|
    ensures w[i] in nodes && nodes[w[i]].parent in emitted + Keys(w[..i])
    decreases i
  {
    if i > 0 {
      ParentEarlier(nodes, emitted + {Some(w[0])}, w[1..], i - 1);
      assert w[..i] == [w[0]] + w[1..][..i - 1];
      KeysCons(w[0], w[1..][..i - 1]);
    }
  }

  /** The walk of `n` alone, with every group still there, is its subtree. */
  lemma {:induction false} Below(s: Store, m: int, k: Levels, n: int, x: int, steps: nat)
    requires WellFormed(s) && Levelled(s.nodes, k) && n in s.nodes && s.nodes[n].parent !in k && s.nodes[n].map_ == m
    requires forall p :: p in Walk(k, [n]) ==> At(k, Some(p)) == At(Groups(s, m), Some(p))
    requires x in s.nodes && Up(s.nodes, x, steps) == Some(n)
    ensures x in Walk(k, [n])
    decreases steps
  {
    if steps == 0 {
      Descend(k, n, []);
    } else {
      var p := s.nodes[x].parent.value;
      ParentInMap(s, x);
      Below(s, m, k, n, p, steps - 1);
      WalkKids(s.nodes, k, [n], Some(p));
      GroupAt(s, m, p);
      SameMap(s, x, n, steps);
      RowMember(s, m, x);
      KidMember(s.nodes, NodeRows(s, m), Some(p), x);
      KidMember(s.nodes, Walk(k, [n]), Some(p), x);
    }
  }

  lemma SameMap(s: Store, x: int, n: int, steps: nat)
    requires WellFormed(s) && x in s.nodes && Up(s.nodes, x, steps) == Some(n)
    ensures n in s.nodes && s.nodes[x].map_ == s.nodes[n].map_
  {
    var rank :| Ranked(s.nodes, rank);
    UpFalls(s.nodes, rank, x, steps);
  }

  /** Depth first: the nodes under the i-th follow it without a gap. */
  lemma SubtreesTogether(s: Store, m: int, i: nat) returns (j: nat)
    requires WellFormed(s) && m in s.maps && i < |Order(s, m)|
    ensures i < j <= |Order(s, m)| && Elems(Order(s, m)[i..j]) == Subtree(s.nodes, Order(s, m)[i])
  {
    var w, k0 := Order(s, m), Groups(s, m);
    var n := w[i];
    Started(s, m);
    OrderMember(s, m, n);
    var rest := WalkFrom(k0, Tops(s, m), i);
    var k := Left(k0, w[..i]);
    WalkSplit(k, [n], rest);
    var own := Walk(k, [n]);
    j := i + |own|;
    Descend(k, n, []);
    assert [n] + [] == [n];
    assert w[i..j] == own;
    UnderItself(s.nodes, n);
    forall p | p in k ensures AllOf(s.nodes, k[p], p) { LeftAt(k0, w[..i], p); }
    WalkUnder(s.nodes, k, [n], n);
    WalkParentsFirst(s.nodes, k0, Tops(s, m), {None});
    ParentEarlier(s.nodes, {None}, w, i);
    LeftAt(k0, w[..i], s.nodes[n].parent);
    OrderNoDup(s, m);
    forall p | p in own ensures At(k, Some(p))
      == At(k0, Some(p)) { NotBefore(w, i, j, p); LeftAt(k0, w[..i], Some(p)); }
    forall x ensures x in own <==> x in Subtree(s.nodes, n) {
      if x in own {
        var q :| 0 <= q < |own| && own[q] == x;
        OrderMember(s, m, x);
        assert w[i + q] == x;
      } else if x in Subtree(s.nodes, n) {
        var steps: nat :| Up(s.nodes, x, steps) == Some(n);
        Below(s, m, k, n, x, steps);
      }
    }
  }

  lemma NotBefore(w: seq<int>, i: nat, j: nat, p: int)
    requires NoDup(w) && i <= j <= |w| && p in w[i..j]
    ensures Some(p) !in Keys(w[..i])
  {
    var q :| i <= q < j && w[q] == p;
    forall h | 0 <= h < i ensures w[..i][h] != p { assert w[h] != w[q]; }
  }
}
