/** A map that `load` gave, renumbered and imported into another journal, loads
    there as the same map. */
module MapRoundTrip {
  import opened Base
  import opened MapStore
  import opened MapRuns
  import opened MapLoad
  import opened MapOrder
  import opened MapRows
  import opened MapChains
  import opened MapCopy

  // ---------------------------------------------------------------------
  // What `load` gave can be imported.

  lemma NodesCarried(s: Store, m: int, entries: map<int, int>, i: nat)
    requires LoadSpec(s, m).Ok? && i < |Order(s, m)|
    ensures var l := Renumber(LoadSpec(s, m).value, entries);
            && |l.nodes| == |Order(s, m)| && Order(s, m)[i] in s.nodes && l.row == s.maps[m]
            && l.nodes[i] == NodeOf(s, Order(s, m)[i]).(refs := Renumbered(NodeOf(s, Order(s, m)[i]).refs, entries))
  {
    OrderInside(s, m);
  }

  lemma ParentCarried(s: Store, m: int, entries: map<int, int>, i: nat)
    requires WellFormed(s) && LoadSpec(s, m).Ok? && i < |Order(s, m)|
    ensures var l := Renumber(LoadSpec(s, m).value, entries);
            && i < |l.nodes| && (l.nodes[i].parent.Some? ==>
              Allowed(l.nodes[i].kind, l.row.layout) && exists j :: ParentAt(l, i, j))
  {
    var l, w := Renumber(LoadSpec(s, m).value, entries), Order(s, m);
    var r := RootOf(s, m);
    NodesCarried(s, m, entries, i);
    OrderMember(s, m, w[i]);
    LoadGivesTheTree(s, m, r);
    ParentEarlier(s.nodes, {None}, w, i);
    if l.nodes[i].parent.Some? {
      assert KindFits(s, w[i]);
      var j :| 0 <= j < i && Some(w[..i][j]) == l.nodes[i].parent;
      NodesCarried(s, m, entries, j);
      assert ParentAt(l, i, j);
    }
  }

  lemma LoadedIsImportable(s: Store, m: int, entries: map<int, int>)
    requires WellFormed(s) && LoadSpec(s, m).Ok?
    ensures Importable(Renumber(LoadSpec(s, m).value, entries))
  {
    var l, w := Renumber(LoadSpec(s, m).value, entries), Order(s, m);
    OrderNoDup(s, m);
    forall i | 0 <= i < |w| ensures l.nodes[i].id == w[i] { NodesCarried(s, m, entries, i); }
    forall i | 0 <= i < |l.nodes| ensures l.nodes[i].parent.Some? ==>
      Allowed(l.nodes[i].kind, l.row.layout) && exists j :: ParentAt(l, i, j) {
      ParentCarried(s, m, entries, i);
    }
  }

  // ---------------------------------------------------------------------
  // The copy walks as the original.

  function Numbers(base: int, n: nat): seq<int> { seq(n, i => base + i) }

  /** Each number stands for the node of `w` at its place. */
  ghost predicate Tracks(w: seq<int>, base: int, xs: seq<int>, ys: seq<int>) {
    |xs| == |ys| && forall j | 0 <= j < |ys| :: base <= ys[j] < base + |w| && xs[j] == w[ys[j] - base]
  }

  lemma TracksConcat(w: seq<int>, base: int, xs: seq<int>, ys: seq<int>, xs': seq<int>, ys': seq<int>)
    requires Tracks(w, base, xs, ys) && Tracks(w, base, xs', ys')
    ensures Tracks(w, base, xs + xs', ys + ys')
  {
  }

  ghost predicate SameGroups(w: seq<int>, base: int, k: Levels, k': Levels) {
    forall j | 0 <= j < |w| :: SameGroup(w, base, k, k', j)
  }

  ghost predicate SameGroup(w: seq<int>, base: int, k: Levels, k': Levels, j: int)
    requires 0 <= j < |w|
  {
    Tracks(w, base, At(k, Some(w[j])), At(k', Some(base + j)))
  }

  lemma SameGroupsLeft(w: seq<int>, base: int, k: Levels, k': Levels, j: nat)
    requires NoDup(w) && SameGroups(w, base, k, k') && j < |w|
    ensures SameGroups(w, base, k - {Some(w[j])}, k' - {Some(base + j)})
  {
    var left, left' := k - {Some(w[j])}, k' - {Some(base + j)};
    forall i | 0 <= i < |w| ensures SameGroup(w, base, left, left', i) {
      assert SameGroup(w, base, k, k', i);
      if i != j { assert w[i] != w[j]; }
    }
  }

  /** Two walks over matching groups match. */
  lemma {:induction false} WalkTracks(w: seq<int>, base: int, k: Levels, k': Levels, todo: seq<int>, todo': seq<int>)
    requires NoDup(w) && SameGroups(w, base, k, k') && Tracks(w, base, todo, todo')
    ensures Tracks(w, base, Walk(k, todo), Walk(k', todo'))
    decreases |k|, |todo|
  {
    if todo != [] {
      var n, n' := todo[0], todo'[0];
      var kids, kids' := KidsTracked(w, base, k, k', todo, todo');
      SameGroupsLeft(w, base, k, k', n' - base);
      Fewer(k, n);
      WalkTracks(w, base, k - {Some(n)}, k' - {Some(n')}, kids, kids');
      TracksHead(w, base, k, k', todo, todo', Walk(k - {Some(n)}, kids), Walk(k' - {Some(n')}, kids'));
    }
  }

  lemma Fewer(k: Levels, n: int)
    ensures if Some(n) in k then |k - {Some(n)}| < |k| else |k - {Some(n)}| == |k|
  {
    if Some(n) in k { Shrinks(k, Some(n)); } else { assert k - {Some(n)} == k; }
  }

  lemma TracksHead(w: seq<int>, base: int, k: Levels, k': Levels, todo: seq<int>, todo': seq<int>, v: seq<int>,
                   v': seq<int>)
    requires todo != [] && todo' != [] && Tracks(w, base, [todo[0]], [todo'[0]]) && Tracks(w, base, v, v')
    requires v == Walk(k - {Some(todo[0])}, At(k, Some(todo[0])) + todo[1..])
    requires v' == Walk(k' - {Some(todo'[0])}, At(k', Some(todo'[0])) + todo'[1..])
    ensures Tracks(w, base, Walk(k, todo), Walk(k', todo'))
  {
    assert Walk(k, todo) == [todo[0]] + v by { WalkHead(k, todo); }
    assert Walk(k', todo') == [todo'[0]] + v' by { WalkHead(k', todo'); }
    TracksConcat(w, base, [todo[0]], [todo'[0]], v, v');
  }

  lemma KidsTracked(w: seq<int>, base: int, k: Levels, k': Levels, todo: seq<int>, todo': seq<int>)
      returns (kids: seq<int>, kids': seq<int>)
    requires SameGroups(w, base, k, k') && Tracks(w, base, todo, todo') && todo != []
    ensures kids == At(k, Some(todo[0])) + todo[1..] && kids' == At(k', Some(todo'[0])) + todo'[1..]
    ensures Tracks(w, base, kids, kids')
    ensures base <= todo'[0] < base + |w| && todo[0] == w[todo'[0] - base] && Tracks(w, base, [todo[0]], [todo'[0]])
    ensures Some(todo[0]) !in k ==> kids == todo[1..]
  {
    var j := todo'[0] - base;
    assert todo[0] == w[j];
    assert SameGroup(w, base, k, k', j);
    TracksConcat(w, base, At(k, Some(todo[0])), At(k', Some(todo'[0])), todo[1..], todo'[1..]);
    kids, kids' := At(k, Some(todo[0])) + todo[1..], At(k', Some(todo'[0])) + todo'[1..];
  }

  /** The copied rows have the original's parents. */
  ghost predicate Copied(nodes: Nodes, w: seq<int>, nodes': Nodes, base: int) {
    forall i | 0 <= i < |w| :: CopiedAt(nodes, w, nodes', base, i)
  }

  ghost predicate CopiedAt(nodes: Nodes, w: seq<int>, nodes': Nodes, base: int, i: int)
    requires 0 <= i < |w|
  {
    && w[i] in nodes && base + i in nodes'
    && match nodes'[base + i].parent
       case None => nodes[w[i]].parent.None?
       case Some(p) => base <= p < base + |w| && nodes[w[i]].parent == Some(w[p - base])
  }

  lemma {:induction false} KidsTrack(nodes: Nodes, w: seq<int>, nodes': Nodes, base: int, i: nat, p: Option<int>,
                                     p': Option<int>)
    requires NoDup(w) && Copied(nodes, w, nodes', base) && i <= |w|
    requires p'.None? ==> p.None?
    requires p'.Some? ==> base <= p'.value < base + |w| && p == Some(w[p'.value - base])
    ensures Tracks(w, base, KidsIn(nodes, w[i..], p), KidsIn(nodes', Numbers(base, |w|)[i..], p'))
    decreases |w| - i
  {
    if i < |w| {
      assert w[i..] == [w[i]] + w[i + 1..];
      var ys := Numbers(base, |w|);
      assert ys[i..] == [base + i] + ys[i + 1..];
      assert CopiedAt(nodes, w, nodes', base, i);
      KidsTrack(nodes, w, nodes', base, i + 1, p, p');
      var mine, its := nodes[w[i]].parent == p, nodes'[base + i].parent == p';
      if p'.Some? && nodes'[base + i].parent.Some? {
        var a, b := nodes'[base + i].parent.value - base, p'.value - base;
        assert a != b ==> w[a] != w[b];
      }
      assert mine == its;
      TracksConcat(w, base, if mine then [w[i]] else [], if its then [base + i] else [],
                   KidsIn(nodes, w[i + 1..], p), KidsIn(nodes', ys[i + 1..], p'));
    }
  }

  lemma AllKidsTrack(nodes: Nodes, w: seq<int>, nodes': Nodes, base: int, p: Option<int>, p': Option<int>)
    requires NoDup(w) && Copied(nodes, w, nodes', base)
    requires p'.None? ==> p.None?
    requires p'.Some? ==> base <= p'.value < base + |w| && p == Some(w[p'.value - base])
    ensures Tracks(w, base, KidsIn(nodes, w, p), KidsIn(nodes', Numbers(base, |w|), p'))
  {
    assert w[0..] == w && Numbers(base, |w|)[0..] == Numbers(base, |w|);
    KidsTrack(nodes, w, nodes', base, 0, p, p');
  }

  /** The groups of the original are those of its walk. */
  ghost predicate SameKids(s: Store, m: int, w: seq<int>) {
    forall p :: KidsIn(s.nodes, w, p) == KidsIn(s.nodes, NodeRows(s, m), p)
  }

  lemma OwnKids(s: Store, m: int, w: seq<int>, x: int)
    requires SameKids(s, m, w)
    ensures At(Groups(s, m), Some(x)) == KidsIn(s.nodes, w, Some(x))
  {
    GroupAt(s, m, x);
  }

  lemma CopiesKids(t: Store, m: int, rows: seq<int>, x: int)
    requires NodeRows(t, m) == rows
    ensures At(Groups(t, m), Some(x)) == KidsIn(t.nodes, rows, Some(x))
  {
    GroupAt(t, m, x);
  }

  lemma GroupsCopied(s: Store, m: int, t: Store, m': int, base: int, w: seq<int>)
    requires NoDup(w) && SameKids(s, m, w) && Copied(s.nodes, w, t.nodes, base) && NodeRows(t, m') == Numbers(base, |w|)
    ensures SameGroups(w, base, Groups(s, m), Groups(t, m'))
    ensures Tracks(w, base, Tops(s, m), Tops(t, m'))
  {
    var k, k' := Groups(s, m), Groups(t, m');
    forall j | 0 <= j < |w| ensures SameGroup(w, base, k, k', j) {
      OwnKids(s, m, w, w[j]);
      CopiesKids(t, m', Numbers(base, |w|), base + j);
      GroupCopied(s.nodes, w, t.nodes, base, k, k', j);
    }
    AllKidsTrack(s.nodes, w, t.nodes, base, None, None);
  }

  lemma GroupCopied(nodes: Nodes, w: seq<int>, nodes': Nodes, base: int, k: Levels, k': Levels, j: nat)
    requires NoDup(w) && Copied(nodes, w, nodes', base) && j < |w|
    requires At(k, Some(w[j])) == KidsIn(nodes, w, Some(w[j]))
             && At(k', Some(base + j)) == KidsIn(nodes', Numbers(base, |w|), Some(base + j))
    ensures SameGroup(w, base, k, k', j)
  {
    AllKidsTrack(nodes, w, nodes', base, Some(w[j]), Some(base + j));
  }

  /** If the copy's rows stand in the order they were written, so does its walk. */
  lemma OrderCopied(s: Store, m: int, r: int, t: Store, m': int, base: int)
    requires WellFormed(s) && IsRoot(s, m, r)
    requires Copied(s.nodes, Order(s, m), t.nodes, base) && NodeRows(t, m') == Numbers(base, |Order(s, m)|)
    ensures Order(t, m') == Numbers(base, |Order(s, m)|)
  {
    OrderNoDup(s, m);
    LoadGivesTheTree(s, m, r);
    GroupsCopied(s, m, t, m', base, Order(s, m));
    Started(s, m);
    Started(t, m');
    WalkTracks(Order(s, m), base, Groups(s, m), Groups(t, m'), Tops(s, m), Tops(t, m'));
    InPlace(Order(s, m), base, Order(t, m'));
  }

  lemma InPlace(w: seq<int>, base: int, ys: seq<int>)
    requires NoDup(w) && Tracks(w, base, w, ys)
    ensures ys == Numbers(base, |w|)
  {
    forall j | 0 <= j < |ys| ensures ys[j] == base + j {
      assert w[j] == w[ys[j] - base];
    }
  }

  // ---------------------------------------------------------------------
  // The rows of the copy, in the order they were written.

  lemma NumbersInOrder(nodes: Nodes, base: int, n: nat)
    requires InOrder(nodes, Numbers(base, n))
    ensures Rows(nodes, Range(base, n)) == Numbers(base, n)
  {
    var ys := Numbers(base, n);
    InRange(base, n);
    forall x ensures x in ys <==> x in Range(base, n) {
      if base <= x < base + n { assert ys[x - base] == x; }
    }
    assert Elems(ys) == Range(base, n);
    OneOrder(nodes, ys);
  }
}
