/** What comes back from an imported map, said on the loaded maps alone. */
module MapTrip {
  import opened Base
  import opened MapStore
  import opened MapRuns
  import opened MapLoad
  import opened MapOrder
  import opened MapRows
  import opened MapChains
  import opened MapCopy
  import opened MapRoundTrip
  import opened MapImport

  // ---------------------------------------------------------------------
  // The same map.

  /** The references that came along: mapped, and known where they arrive. */
  ghost predicate RefsCopied(a: seq<int>, b: seq<int>, entries: map<int, int>, known: set<int>) {
    forall x :: x in b <==> x in known && exists i :: 0 <= i < |a| && a[i] in entries && entries[a[i]] == x
  }

  ghost predicate NodeCopied(a: LoadedNode, b: LoadedNode, entries: map<int, int>, known: set<int>) {
    && b.kind == a.kind && b.text == a.text && b.state == a.state && b.author == a.author
    && (b.parent.None? <==> a.parent.None?) && RefsCopied(a.refs, b.refs, entries, known)
  }

  /** Same places, same parents. */
  ghost predicate NodesCopied(a: Loaded, b: Loaded, entries: map<int, int>, known: set<int>) {
    && |b.nodes| == |a.nodes| > 0 && DistinctIds(b) && b.root == b.nodes[0].id && a.root == a.nodes[0].id
    && (forall i | 0 <= i < |a.nodes| :: NodeCopied(a.nodes[i], b.nodes[i], entries, known))
    && (forall i, j | 0 <= i < |a.nodes| && 0 <= j < |a.nodes| ::
          a.nodes[i].parent == Some(a.nodes[j].id) <==> b.nodes[i].parent == Some(b.nodes[j].id))
  }

  ghost predicate EdgeCopied(a: Loaded, b: Loaded, e: int, entries: map<int, int>, known: set<int>)
    requires 0 <= e < |a.edges| == |b.edges| && |a.nodes| == |b.nodes|
  {
    && b.edges[e].caption == a.edges[e].caption && RefsCopied(a.edges[e].refs, b.edges[e].refs, entries, known)
    && forall i | 0 <= i < |a.nodes| ::
         && (a.edges[e].from == a.nodes[i].id <==> b.edges[e].from == b.nodes[i].id)
         && (a.edges[e].to == a.nodes[i].id <==> b.edges[e].to == b.nodes[i].id)
  }

  predicate Comes(c: LoadedChain, entries: map<int, int>, known: set<int>) {
    |c.entries| >= 2 && forall i | 0 <= i < |c.entries| :: c.entries[i] in entries && entries[c.entries[i]] in known
  }

  /** The chains all of whose steps came along, in their order. */
  function ChainsThatCome(chains: seq<LoadedChain>, entries: map<int, int>, known: set<int>): seq<(string, seq<int>)> {
    if chains == [] then []
    else
      var c := chains[|chains| - 1];
      ChainsThatCome(chains[..|chains| - 1], entries, known) + if Comes(c, entries, known) then
        [(c.name, Renumbered(c.entries, entries))] else []
  }

  ghost predicate ChainsCopied(a: Loaded, b: Loaded, entries: map<int, int>, known: set<int>) {
    var come := ChainsThatCome(a.chains, entries, known);
    |b.chains| == |come| && forall i | 0 <= i < |come| :: (b.chains[i].name, b.chains[i].entries) == come[i]
  }

  /** The same map, chains aside. */
  ghost predicate SameTree(a: Loaded, b: Loaded, entries: map<int, int>, known: set<int>) {
    && NodesCopied(a, b, entries, known)
    && |b.edges| == |a.edges| && (forall e | 0 <= e < |a.edges| :: EdgeCopied(a, b, e, entries, known))
  }

  ghost predicate SameMap(a: Loaded, b: Loaded, entries: map<int, int>, known: set<int>) {
    SameTree(a, b, entries, known) && ChainsCopied(a, b, entries, known)
  }

  /** No two of the chains that come have the same steps. */
  ghost predicate ComeApart(come: seq<(string, seq<int>)>) {
    forall i, j | 0 <= i < j < |come| :: come[i].1 != come[j].1
  }

  // ---------------------------------------------------------------------
  // `renumber`.

  lemma {:induction false} RenumberedAll(es: seq<int>, entries: map<int, int>)
    ensures |Renumbered(es, entries)| <= |es|
    ensures |Renumbered(es, entries)| == |es| <==> forall i | 0 <= i < |es| :: es[i] in entries
    ensures |Renumbered(es, entries)| == |es| ==>
              forall i | 0 <= i < |es| :: Renumbered(es, entries)[i] == entries[es[i]]
  {
    if es != [] {
      var rest := es[1..];
      RenumberedAll(rest, entries);
      if |Renumbered(es, entries)| == |es| {
        forall i | 0 <= i < |es| ensures es[i] in entries && Renumbered(es, entries)[i] == entries[es[i]] {
          if i > 0 { assert rest[i - 1] == es[i]; }
        }
      }
    }
  }

  lemma {:induction false} SurvivorsCome(m: int, at: int, chains: seq<LoadedChain>, entries: map<int, int>,
                                         known: set<int>)
    ensures var come, rows := ChainsThatCome(chains, entries, known),
            Survivors(m, at, RenumberChains(chains, entries), known);
            |rows| == |come| && forall i | 0 <= i < |come| ::
                rows[i].name == come[i].0 && rows[i].signature == come[i].1
  {
    if chains != [] {
      var front, c := chains[..|chains| - 1], chains[|chains| - 1];
      var steps := Renumbered(c.entries, entries);
      SurvivorsCome(m, at, front, entries, known);
      RenumberedAll(c.entries, entries);
      var before := RenumberChains(front, entries);
      if |steps| == |c.entries| {
        var all := before + [c.(entries := steps)];
        assert all[..|all| - 1] == before;
        var d := all[|all| - 1];
        assert d.entries == steps;
        assert Comes(c, entries, known) ==> Whole(d, known);
        if Whole(d, known) {
          forall i | 0 <= i < |c.entries|
            ensures c.entries[i] in entries && entries[c.entries[i]] in known
          {
            assert steps[i] in known;
          }
        }
      } else {
        assert !Comes(c, entries, known);
        assert RenumberChains(chains, entries) == before;
      }
    }
  }

  /** The i-th chain that comes is the j-th of the list, renumbered. */
  ghost predicate CameFrom(chains: seq<LoadedChain>, entries: map<int, int>, known: set<int>, c: (string, seq<int>),
                           j: int) {
    0 <= j < |chains| && Comes(chains[j], entries, known)
      && c == (chains[j].name, Renumbered(chains[j].entries, entries))
  }

  ghost predicate Traced(chains: seq<LoadedChain>, entries: map<int, int>, known: set<int>, c: (string, seq<int>)) {
    exists j :: CameFrom(chains, entries, known, c, j)
  }

  ghost predicate Named(chains: seq<LoadedChain>) {
    forall i, j | 0 <= i < j < |chains| :: chains[i].name != chains[j].name
  }

  ghost predicate ComeNamed(come: seq<(string, seq<int>)>) {
    forall i, j | 0 <= i < j < |come| :: come[i].0 != come[j].0
  }

  /** Chains with names of their own come with names of their own. */
  lemma {:induction false} ComeTraced(chains: seq<LoadedChain>, entries: map<int, int>, known: set<int>)
    requires Named(chains)
    ensures var come := ChainsThatCome(chains, entries, known);
            ComeNamed(come) && forall i | 0 <= i < |come| :: Traced(chains, entries, known, come[i])
  {
    if chains != [] {
      var front, n := chains[..|chains| - 1], |chains| - 1;
      var before, come := ChainsThatCome(front, entries, known), ChainsThatCome(chains, entries, known);
      ComeTraced(front, entries, known);
      forall i | 0 <= i < |before| ensures Traced(chains, entries, known, before[i]) && before[i].0 != chains[n].name {
        assert Traced(front, entries, known, before[i]);
        var j :| CameFrom(front, entries, known, before[i], j);
        assert CameFrom(chains, entries, known, before[i], j) && chains[j].name != chains[n].name;
      }
      if Comes(chains[n], entries, known) {
        assert come == before + [(chains[n].name, Renumbered(chains[n].entries, entries))];
        assert CameFrom(chains, entries, known, come[|before|], n);
      } else {
        assert come == before;
      }
    }
  }

  /** With an injective renumbering, chains with different steps stay different. */
  lemma StayApart(chains: seq<LoadedChain>, entries: map<int, int>, known: set<int>)
    requires Named(chains) && forall i, j | 0 <= i < j < |chains| :: chains[i].entries != chains[j].entries
    requires forall x, y | x in entries && y in entries && x != y :: entries[x] != entries[y]
    ensures ComeApart(ChainsThatCome(chains, entries, known))
  {
    var come := ChainsThatCome(chains, entries, known);
    ComeTraced(chains, entries, known);
    forall i, j | 0 <= i < j < |come| ensures come[i].1 != come[j].1 {
      assert Traced(chains, entries, known, come[i]) && Traced(chains, entries, known, come[j]);
      var p :| CameFrom(chains, entries, known, come[i], p);
      var q :| CameFrom(chains, entries, known, come[j], q);
      assert p != q;
      RenumberedAll(chains[p].entries, entries);
      RenumberedAll(chains[q].entries, entries);
      if come[i].1 == come[j].1 { SameSteps(chains[p].entries, chains[q].entries, entries); }
    }
  }

  /** The chains that `load` gives have names of their own; and sequences of
      their own while no entry was deleted. */
  lemma LoadedNamed(s: Store, m: int)
    requires WellFormed(s) && LoadSpec(s, m).Ok?
    ensures Named(LoadSpec(s, m).value.chains)
    ensures Fresh(s) ==> forall i, j | 0 <= i < j < |LoadSpec(s, m).value.chains| ::
              LoadSpec(s, m).value.chains[i].entries != LoadSpec(s, m).value.chains[j].entries
  {
    var rows := ChainRows(s, m);
    RowsAre(map[], ChainsOf(s, m));
    forall i, j | 0 <= i < j < |rows| ensures s.chains[rows[i]].name != s.chains[rows[j]].name
                                      ensures s.chains[rows[i]].signature != s.chains[rows[j]].signature {
      InRows(map[], ChainsOf(s, m), rows[i]);
      InRows(map[], ChainsOf(s, m), rows[j]);
      assert rows[i] != rows[j];
    }
    if Fresh(s) { FreshHolds(s); }
  }

  /** So for a map of any run without deleted entries the chains come apart. */
  lemma FreshComeApart(s: Store, m: int, entries: map<int, int>, known: set<int>)
    requires WellFormed(s) && Fresh(s) && LoadSpec(s, m).Ok?
    requires forall x, y | x in entries && y in entries && x != y :: entries[x] != entries[y]
    ensures ComeApart(ChainsThatCome(LoadSpec(s, m).value.chains, entries, known))
  {
    LoadedNamed(s, m);
    StayApart(LoadSpec(s, m).value.chains, entries, known);
  }

  lemma SameSteps(a: seq<int>, b: seq<int>, entries: map<int, int>)
    requires forall x, y | x in entries && y in entries && x != y :: entries[x] != entries[y]
    requires |Renumbered(a, entries)| == |a| && |Renumbered(b, entries)| == |b|
             && Renumbered(a, entries) == Renumbered(b, entries)
    ensures a == b
  {
    RenumberedAll(a, entries);
    RenumberedAll(b, entries);
    forall i | 0 <= i < |a| ensures a[i] == b[i] {
      assert a[i] in entries && b[i] in entries && entries[a[i]] == entries[b[i]];
    }
  }

  // ---------------------------------------------------------------------
  // The copy, part by part.

  /** The row holds just the references that were carried. */
  ghost predicate RefsHeld(a: seq<int>, there: set<int>, entries: map<int, int>, known: set<int>) {
    forall x :: x in there <==> x in known && x in Renumbered(a, entries)
  }

  lemma CopiedRefs(was: set<(int, int)>, now: set<(int, int)>, base: int, lists: seq<seq<int>>, known: set<int>, i: nat,
                   refs: seq<int>, entries: map<int, int>)
    requires RefsAppended(was, now, base, lists, known) && i < |lists| && lists[i] == Renumbered(refs, entries)
    requires (forall r | r in was :: r.0 != base + i)
    ensures RefsHeld(refs, RefsOf(now, base + i), entries, known)
  {
    forall x ensures x in RefsOf(now, base + i) <==> x in known && x in lists[i] {
      RefMember(now, base + i, x);
      assert (base + i, x) in now <==> x in lists[i] && x in known;
    }
  }

  lemma HeldIsCopied(a: seq<int>, there: set<int>, entries: map<int, int>, known: set<int>)
    requires RefsHeld(a, there, entries, known)
    ensures RefsCopied(a, ById(there), entries, known)
  {
    forall x ensures x in ById(there) <==>
                     x in known && exists q :: 0 <= q < |a| && a[q] in entries && entries[a[q]] == x {
      InRows(map[], there, x);
      RenumberedMember(a, entries, x);
    }
  }

  lemma LoadedIsJoined(s: Store, m: int, entries: map<int, int>)
    requires WellFormed(s) && LoadSpec(s, m).Ok?
    ensures Joined(Renumber(LoadSpec(s, m).value, entries))
  {
    var l, rows := Renumber(LoadSpec(s, m).value, entries), EdgeRows(s, m);
    RowsAre(map[], EdgesOf(s, m));
    forall i, j | 0 <= i < j < |l.edges| ensures Ends(l.edges[i]) != Ends(l.edges[j]) {
      InRows(map[], EdgesOf(s, m), rows[i]);
      InRows(map[], EdgesOf(s, m), rows[j]);
      assert rows[i] != rows[j] && s.edges[rows[i]] != s.edges[rows[j]];
    }
    forall i | 0 <= i < |l.edges| ensures HasId(l, l.edges[i].from) && HasId(l, l.edges[i].to) {
      InRows(map[], EdgesOf(s, m), rows[i]);
      LoadedHasId(s, m, entries, l.edges[i].from);
      LoadedHasId(s, m, entries, l.edges[i].to);
    }
  }

  lemma LoadedHasId(s: Store, m: int, entries: map<int, int>, x: int)
    requires WellFormed(s) && LoadSpec(s, m).Ok? && x in s.nodes && s.nodes[x].map_ == m
    ensures HasId(Renumber(LoadSpec(s, m).value, entries), x)
  {
    OrderMember(s, m, x);
    var i :| 0 <= i < |Order(s, m)| && Order(s, m)[i] == x;
    NodesCarried(s, m, entries, i);
  }

  /** `p` holds the nodes of `l`, the renumbered `a`, written as map `m` of `d`. */
  ghost predicate Rewritten(a: Loaded, l: Loaded, entries: map<int, int>, d: Store, m: int, p: NodesSoFar) {
    && l == Renumber(a, entries) && Importable(l) && NodesPut(d, m, l, |l.nodes|, p)
  }

  /** The list `a` has the ids and parents of the nodes `w`. */
  ghost predicate ListOf(nodes: Nodes, w: seq<int>, a: Loaded) {
    |a.nodes| == |w| && forall i | 0 <= i < |w| :: ListedAt(nodes, w, a, i)
  }

  ghost predicate ListedAt(nodes: Nodes, w: seq<int>, a: Loaded, i: int)
    requires 0 <= i < |w| == |a.nodes|
  {
    w[i] in nodes && a.nodes[i].id == w[i] && a.nodes[i].parent == nodes[w[i]].parent
  }

  lemma LoadedList(s: Store, m: int)
    requires LoadSpec(s, m).Ok?
    ensures ListOf(s.nodes, Order(s, m), LoadSpec(s, m).value)
  {
    OrderInside(s, m);
  }

  lemma ParentsRewritten(nodes: Nodes, w: seq<int>, a: Loaded, l: Loaded, entries: map<int, int>, d: Store, m: int,
                         p: NodesSoFar)
    requires Rewritten(a, l, entries, d, m, p) && ListOf(nodes, w, a)
    ensures Copied(nodes, w, p.nodes, NextRowId(d.nodes.Keys))
  {
    var base := NextRowId(d.nodes.Keys);
    forall i | 0 <= i < |w| ensures CopiedAt(nodes, w, p.nodes, base, i) {
      CopyRow(d, m, l, p, i);
      assert ListedAt(nodes, w, a, i);
      if l.nodes[i].parent.Some? { assert ListedAt(nodes, w, a, ParentOf(l, i)); }
    }
  }

  lemma NodesBack(s: Store, m: int, a: Loaded, l: Loaded, entries: map<int, int>, d: Store, m': int, p: NodesSoFar,
                  t: Store)
    requires WellFormed(s) && LoadSpec(s, m) == Ok(a) && NoRows(d, m')
    requires Rewritten(a, l, entries, d, m', p) && t.nodes == p.nodes
    ensures Order(t, m') == Numbers(NextRowId(d.nodes.Keys), |a.nodes|)
  {
    var r := RootOf(s, m);
    LoadedList(s, m);
    ParentsRewritten(s.nodes, Order(s, m), a, l, entries, d, m', p);
    NodeRowsOfCopy(d, t, m', l, p);
    OrderCopied(s, m, r, t, m', NextRowId(d.nodes.Keys));
  }

  lemma NodeRefsBack(was: seq<LoadedNode>, nodes: seq<LoadedNode>, entries: map<int, int>, d: Store,
                     refs: set<(int, int)>, i: nat)
    requires nodes == RenumberNodes(was, entries) && i < |was| && RefsOk(d)
    requires RefsAppended(d.nodeRefs, refs, NextRowId(d.nodes.Keys), NodeLists(nodes, |nodes|), d.entries)
    ensures RefsHeld(was[i].refs, RefsOf(refs, NextRowId(d.nodes.Keys) + i), entries, d.entries)
  {
    ListAt(nodes, |nodes|, i);
    CopiedRefs(d.nodeRefs, refs, NextRowId(d.nodes.Keys), NodeLists(nodes, |nodes|), d.entries, i, was[i].refs,
      entries);
  }

  /** The fields of a copied row. */
  lemma FieldsBack(a: Loaded, l: Loaded, entries: map<int, int>, d: Store, m: int, p: NodesSoFar, i: nat)
    requires Rewritten(a, l, entries, d, m, p) && i < |a.nodes|
    requires a.nodes[i].parent.None? ==> a.nodes[i].kind.Topic?
    ensures NextRowId(d.nodes.Keys) + i in p.nodes
    ensures var row, x := p.nodes[NextRowId(d.nodes.Keys) + i], a.nodes[i];
            && row.kind == x.kind && row.text == x.text && row.state == x.state && row.author == x.author
            && (row.parent.None? <==> x.parent.None?)
  {
    CopyRow(d, m, l, p, i);
  }

  lemma NodeBack(a: Loaded, l: Loaded, entries: map<int, int>, d: Store, m: int, p: NodesSoFar, t: Store, i: nat)
    requires Rewritten(a, l, entries, d, m, p) && RefsOk(d) && t.nodes == p.nodes && t.nodeRefs == p.refs
             && i < |a.nodes|
    requires a.nodes[i].parent.None? ==> a.nodes[i].kind.Topic?
    ensures NextRowId(d.nodes.Keys) + i in t.nodes
            && NodeCopied(a.nodes[i], NodeOf(t, NextRowId(d.nodes.Keys) + i), entries, d.entries)
  {
    FieldsBack(a, l, entries, d, m, p, i);
    NodeRefsBack(a.nodes, l.nodes, entries, d, p.refs, i);
    HeldIsCopied(a.nodes[i].refs, RefsOf(p.refs, NextRowId(d.nodes.Keys) + i), entries, d.entries);
  }

  lemma {:induction false} ListAt(nodes: seq<LoadedNode>, n: nat, i: nat)
    requires i < n <= |nodes|
    ensures NodeLists(nodes, n)[i] == nodes[i].refs
  {
    if i < n - 1 { ListAt(nodes, n - 1, i); }
  }

  lemma {:induction false} EdgeListAt(edges: seq<LoadedEdge>, n: nat, i: nat)
    requires i < n <= |edges|
    ensures EdgeLists(edges, n)[i] == edges[i].refs
  {
    if i < n - 1 { EdgeListAt(edges, n - 1, i); }
  }

  lemma RootIsFirst(t: Store, m: int)
    requires m in t.maps && Order(t, m) != []
    ensures LoadSpec(t, m).Ok? && LoadSpec(t, m).value.root == Order(t, m)[0]
  {
    Started(t, m);
    if Tops(t, m) != [] { WalkHead(Groups(t, m), Tops(t, m)); }
  }

  lemma ParentsBack(a: Loaded, l: Loaded, entries: map<int, int>, d: Store, m: int, p: NodesSoFar, i: nat, j: nat)
    requires Rewritten(a, l, entries, d, m, p) && i < |a.nodes| && j < |a.nodes|
    ensures var base := NextRowId(d.nodes.Keys);
            base + i in p.nodes && (a.nodes[i].parent == Some(a.nodes[j].id) <==>
              p.nodes[base + i].parent == Some(base + j))
  {
    CopyRow(d, m, l, p, i);
    if l.nodes[i].parent.Some? {
      var q := ParentOf(l, i);
      assert l.nodes[q].id == l.nodes[j].id <==> q == j;
    }
  }

  lemma NodesRead(t: Store, m: int, base: int, n: nat, b: Loaded)
    requires n > 0 && m in t.maps && LoadSpec(t, m) == Ok(b) && Order(t, m) == Numbers(base, n)
    ensures |b.nodes| == n && b.root == b.nodes[0].id
    ensures forall i | 0 <= i < n :: b.nodes[i].id == base + i
    ensures forall i | 0 <= i < n :: b.nodes[i].id in t.nodes && b.nodes[i] == NodeOf(t, b.nodes[i].id)
  {
    OrderInside(t, m);
    RootIsFirst(t, m);
    forall i | 0 <= i < n
      ensures b.nodes[i].id == base + i && base + i in t.nodes && b.nodes[i] == NodeOf(t, base + i)
    {
      assert Order(t, m)[i] == base + i;
    }
  }

  lemma AllNodesBack(a: Loaded, b: Loaded, l: Loaded, entries: map<int, int>, d: Store, m: int, p: NodesSoFar, t: Store)
    requires Rewritten(a, l, entries, d, m, p) && RefsOk(d) && t.nodes == p.nodes && t.nodeRefs == p.refs
    requires a.nodes != [] && a.root == a.nodes[0].id
    requires forall i | 0 <= i < |a.nodes| :: a.nodes[i].parent.None? ==> a.nodes[i].kind.Topic?
    requires m in t.maps && LoadSpec(t, m) == Ok(b) && Order(t, m) == Numbers(NextRowId(d.nodes.Keys), |a.nodes|)
    ensures NodesCopied(a, b, entries, d.entries)
    ensures forall i | 0 <= i < |b.nodes| :: b.nodes[i].id == NextRowId(d.nodes.Keys) + i
  {
    var base := NextRowId(d.nodes.Keys);
    NodesRead(t, m, base, |a.nodes|, b);
    AllFieldsBack(a, b, l, entries, d, m, p, t);
    AllParentsBack(a, b, l, entries, d, m, p, t);
  }

  lemma AllFieldsBack(a: Loaded, b: Loaded, l: Loaded, entries: map<int, int>, d: Store, m: int, p: NodesSoFar,
                      t: Store)
    requires Rewritten(a, l, entries, d, m, p) && RefsOk(d) && t.nodes == p.nodes && t.nodeRefs == p.refs
             && |b.nodes| == |a.nodes|
    requires forall i | 0 <= i < |a.nodes| :: a.nodes[i].parent.None? ==> a.nodes[i].kind.Topic?
    requires forall i | 0 <= i < |b.nodes| :: b.nodes[i].id == NextRowId(d.nodes.Keys) + i
    requires forall i | 0 <= i < |b.nodes| :: b.nodes[i].id in t.nodes && b.nodes[i] == NodeOf(t, b.nodes[i].id)
    ensures forall i | 0 <= i < |a.nodes| :: NodeCopied(a.nodes[i], b.nodes[i], entries, d.entries)
  {
    forall i | 0 <= i < |a.nodes| ensures NodeCopied(a.nodes[i], b.nodes[i], entries, d.entries) {
      assert b.nodes[i].id == NextRowId(d.nodes.Keys) + i;
      NodeBack(a, l, entries, d, m, p, t, i);
    }
  }

  lemma AllParentsBack(a: Loaded, b: Loaded, l: Loaded, entries: map<int, int>, d: Store, m: int, p: NodesSoFar,
                       t: Store)
    requires Rewritten(a, l, entries, d, m, p) && t.nodes == p.nodes && |b.nodes| == |a.nodes|
    requires forall i | 0 <= i < |b.nodes| :: b.nodes[i].id == NextRowId(d.nodes.Keys) + i
    requires forall i | 0 <= i < |b.nodes| :: b.nodes[i].id in t.nodes && b.nodes[i] == NodeOf(t, b.nodes[i].id)
    ensures forall i, j | 0 <= i < |a.nodes| && 0 <= j < |a.nodes| ::
              a.nodes[i].parent == Some(a.nodes[j].id) <==> b.nodes[i].parent == Some(b.nodes[j].id)
  {
    var base := NextRowId(d.nodes.Keys);
    forall i, j | 0 <= i < |a.nodes| && 0 <= j < |a.nodes|
      ensures a.nodes[i].parent == Some(a.nodes[j].id) <==> b.nodes[i].parent == Some(b.nodes[j].id)
    {
      assert b.nodes[i].id == base + i && b.nodes[j].id == base + j;
      ParentsBack(a, l, entries, d, m, p, i, j);
    }
  }

  /** `p` holds the arrows of `l` drawn on map `m` of `d`. */
  ghost predicate Redrawn(l: Loaded, d: Store, m: int, ids: map<int, int>, p: EdgesSoFar) {
    && DistinctIds(l) && Numbered(l, NextRowId(d.nodes.Keys), |l.nodes|, ids)
    && Drawable(d, m, l, ids) && EdgesPut(d, m, l, ids, |l.edges|, p)
  }

  lemma EdgeRowBack(l: Loaded, d: Store, m: int, ids: map<int, int>, p: EdgesSoFar, e: nat)
    requires Redrawn(l, d, m, ids, p) && e < |l.edges|
    ensures l.edges[e].from in ids && l.edges[e].to in ids && NextRowId(d.edges.Keys) + e in p.edges
    ensures p.edges[NextRowId(d.edges.Keys) + e] == NewEdge(m, ids, l.edges[e])
    ensures forall i | 0 <= i < |l.nodes| :: l.edges[e].from == l.nodes[i].id <==>
              ids[l.edges[e].from] == NextRowId(d.nodes.Keys) + i
    ensures forall i | 0 <= i < |l.nodes| :: l.edges[e].to == l.nodes[i].id <==>
              ids[l.edges[e].to] == NextRowId(d.nodes.Keys) + i
  {
    EdgesUpToAt(d, m, l, ids, |l.edges|);
    RowOf(d.edges, p.edges, EdgesUpTo(d, m, l, ids, |l.edges|), e);
    EndBack(l, NextRowId(d.nodes.Keys), ids, l.edges[e].from);
    EndBack(l, NextRowId(d.nodes.Keys), ids, l.edges[e].to);
  }

  /** No reference points at a row that is not there yet. */
  lemma NotYet(d: Store, e: nat)
    requires RefsOk(d)
    ensures forall r | r in d.edgeRefs :: r.0 != NextRowId(d.edges.Keys) + e
  {
    forall r | r in d.edgeRefs ensures r.0 != NextRowId(d.edges.Keys) + e { assert r.0 in d.edges.Keys; }
  }

  lemma EdgeRefsBack(was: seq<LoadedEdge>, edges: seq<LoadedEdge>, entries: map<int, int>, d: Store,
                     refs: set<(int, int)>, e: nat)
    requires edges == RenumberEdges(was, entries) && e < |was| && RefsOk(d)
    requires RefsAppended(d.edgeRefs, refs, NextRowId(d.edges.Keys), EdgeLists(edges, |edges|), d.entries)
    ensures RefsHeld(was[e].refs, RefsOf(refs, NextRowId(d.edges.Keys) + e), entries, d.entries)
  {
    EdgeListAt(edges, |edges|, e);
    NotYet(d, e);
    CopiedRefs(d.edgeRefs, refs, NextRowId(d.edges.Keys), EdgeLists(edges, |edges|), d.entries, e, was[e].refs,
      entries);
  }

  lemma EdgeBack(a: Loaded, b: Loaded, l: Loaded, entries: map<int, int>, d: Store, m: int, ids: map<int, int>,
                 p: EdgesSoFar, t: Store, e: nat)
    requires l == Renumber(a, entries) && Redrawn(l, d, m, ids, p) && RefsOk(d) && t.edges == p.edges
             && t.edgeRefs == p.refs
    requires |b.nodes| == |a.nodes| && forall i | 0 <= i < |b.nodes| :: b.nodes[i].id == NextRowId(d.nodes.Keys) + i
    requires |b.edges| == |a.edges| && e < |a.edges| && NextRowId(d.edges.Keys) + e in t.edges
             && b.edges[e] == EdgeAt(t, NextRowId(d.edges.Keys) + e)
    ensures EdgeCopied(a, b, e, entries, d.entries)
  {
    EdgeRowBack(l, d, m, ids, p, e);
    EdgeRefsBack(a.edges, l.edges, entries, d, p.refs, e);
    HeldIsCopied(a.edges[e].refs, RefsOf(p.refs, NextRowId(d.edges.Keys) + e), entries, d.entries);
    assert l.edges[e] == a.edges[e].(refs := Renumbered(a.edges[e].refs, entries));
    forall i | 0 <= i < |a.nodes|
      ensures a.edges[e].from == a.nodes[i].id <==> b.edges[e].from == b.nodes[i].id
      ensures a.edges[e].to == a.nodes[i].id <==> b.edges[e].to == b.nodes[i].id
    {
      assert l.nodes[i].id == a.nodes[i].id && b.nodes[i].id == NextRowId(d.nodes.Keys) + i;
    }
  }

  lemma AllEdgesBack(a: Loaded, b: Loaded, l: Loaded, entries: map<int, int>, d: Store, m: int, ids: map<int, int>,
                     t: Store)
    requires l == Renumber(a, entries) && Redrawn(l, d, m, ids, EdgesSoFar(t.edges, t.edgeRefs)) && RefsOk(d)
             && NoRows(d, m)
    requires |b.nodes| == |a.nodes| && forall i | 0 <= i < |b.nodes| :: b.nodes[i].id == NextRowId(d.nodes.Keys) + i
    requires b.edges == EdgesAt(t, EdgeRows(t, m))
    ensures |b.edges| == |a.edges| && forall e | 0 <= e < |a.edges| :: EdgeCopied(a, b, e, entries, d.entries)
  {
    var p := EdgesSoFar(t.edges, t.edgeRefs);
    EdgeRowsOfCopy(d, t, m, l, ids);
    forall e | 0 <= e < |a.edges| ensures EdgeCopied(a, b, e, entries, d.entries) {
      EdgeRowBack(l, d, m, ids, p, e);
      assert EdgeRows(t, m)[e] == NextRowId(d.edges.Keys) + e;
      EdgeBack(a, b, l, entries, d, m, ids, p, t, e);
    }
  }

  lemma EndBack(l: Loaded, base: int, ids: map<int, int>, x: int)
    requires DistinctIds(l) && Numbered(l, base, |l.nodes|, ids) && x in ids
    ensures forall i | 0 <= i < |l.nodes| :: x == l.nodes[i].id <==> ids[x] == base + i
  {
    var q :| 0 <= q < |l.nodes| && l.nodes[q].id == x;
  }

  /** Chains that come apart come back as they were. */
  lemma AllChainsBack(a: Loaded, b: Loaded, l: Loaded, entries: map<int, int>, d: Store, m: int, t: Store, top: int)
    requires NoRows(d, m) && l.chains == RenumberChains(a.chains, entries)
    requires Named(a.chains) && ComeApart(ChainsThatCome(a.chains, entries, d.entries))
    requires ChainsPut(d, m, l, top).Ok? ==> t.chains == ChainsPut(d, m, l, top).value.chains
    requires b.chains == ChainsAt(t, ChainRows(t, m))
    ensures ChainsPut(d, m, l, top).Ok? && ChainsCopied(a, b, entries, d.entries)
  {
    var rows := Survivors(m, l.row.createdAt, l.chains, d.entries);
    CanBeWritten(a, l, entries, d, m, top);
    ChainRowsOfCopy(d, t, m, l.row.createdAt, l.chains);
    SurvivorsCome(m, l.row.createdAt, a.chains, entries, d.entries);
    SurvivorsWanted(m, l.row.createdAt, l.chains, d.entries);
    forall i | 0 <= i < |rows| ensures b.chains[i].name == rows[i].name && b.chains[i].entries == rows[i].signature {
      RowOf(d.chains, t.chains, rows, i);
      HeldSlots(rows[i].signature);
    }
  }

  lemma CanBeWritten(a: Loaded, l: Loaded, entries: map<int, int>, d: Store, m: int, top: int)
    requires NoRows(d, m) && l.chains == RenumberChains(a.chains, entries)
    requires Named(a.chains) && ComeApart(ChainsThatCome(a.chains, entries, d.entries))
    ensures ChainsPut(d, m, l, top).Ok?
    ensures Appended(d.chains, ChainsPut(d, m, l, top).value.chains, Survivors(m, l.row.createdAt, l.chains, d.entries))
  {
    var rows := Survivors(m, l.row.createdAt, l.chains, d.entries);
    ComeTraced(a.chains, entries, d.entries);
    SurvivorsCome(m, l.row.createdAt, a.chains, entries, d.entries);
    SurvivorsWanted(m, l.row.createdAt, l.chains, d.entries);
    ApartAreWritten(Writing(d.chains, top, m), rows, m, d.entries);
  }

  /** And if they came back as they were, they came apart: of two with the same
      steps the second would not have been written. */
  lemma BackMeansApart(a: Loaded, b: Loaded, l: Loaded, entries: map<int, int>, d: Store, m: int, t: Store, top: int)
    requires NoRows(d, m) && ChainsDistinct(d) && l.chains == RenumberChains(a.chains, entries) && Named(a.chains)
    requires ChainsPut(d, m, l, top).Ok? && t.chains == ChainsPut(d, m, l, top).value.chains
    requires b.chains == ChainsAt(t, ChainRows(t, m)) && ChainsCopied(a, b, entries, d.entries)
    ensures ComeApart(ChainsThatCome(a.chains, entries, d.entries))
  {
    var come := ChainsThatCome(a.chains, entries, d.entries);
    var rows := Survivors(m, l.row.createdAt, l.chains, d.entries);
    ComeTraced(a.chains, entries, d.entries);
    SurvivorsCome(m, l.row.createdAt, a.chains, entries, d.entries);
    SurvivorsWanted(m, l.row.createdAt, l.chains, d.entries);
    PutChainsKeep(Writing(d.chains, top, m), rows, d.entries);
    forall i | 0 <= i < |rows| ensures exists c :: Holds(t.chains, c, rows[i]) {
      BackIsHeld(b, rows, come, d, m, t, i);
    }
    AllThereAreApart(t.chains, rows, m);
    forall i, j | 0 <= i < j < |come| ensures come[i].1 != come[j].1 { assert rows[i].signature != rows[j].signature; }
  }

  lemma BackIsHeld(b: Loaded, rows: seq<ChainRow>, come: seq<(string, seq<int>)>, d: Store, m: int, t: Store, i: nat)
    requires NoRows(d, m) && b.chains == ChainsAt(t, ChainRows(t, m)) && i < |rows| == |come| == |b.chains|
    requires forall j | 0 <= j < |rows| :: rows[j].name == come[j].0 && rows[j].map_ == m
    requires b.chains[i].name == come[i].0 && ComeNamed(come)
    requires forall c | c in t.chains && c !in d.chains :: WroteSome(t.chains, c, rows)
    requires forall c | c in d.chains :: c in t.chains && t.chains[c].map_ == d.chains[c].map_
    ensures exists c :: Holds(t.chains, c, rows[i])
  {
    var c := ChainRows(t, m)[i];
    InRows(map[], ChainsOf(t, m), c);
    assert c in t.chains && t.chains[c].map_ == m && t.chains[c].name == come[i].0;
    assert WroteSome(t.chains, c, rows);
    var j :| 0 <= j < |rows| && Wrote(t.chains, c, rows[j]);
    assert j == i;
    assert Holds(t.chains, c, rows[i]);
  }

  lemma LoadedTopics(s: Store, m: int)
    requires WellFormed(s) && m in s.maps
    ensures LoadSpec(s, m).Ok?
    ensures var a := LoadSpec(s, m).value;
            && a.nodes != [] && a.root == a.nodes[0].id
            && forall i | 0 <= i < |a.nodes| :: a.nodes[i].parent.None? ==> a.nodes[i].kind.Topic?
  {
    var r := RootOf(s, m);
    LoadGivesTheTree(s, m, r);
    OrderInside(s, m);
    forall i | 0 <= i < |Order(s, m)| ensures s.nodes[Order(s, m)[i]].parent.None? ==>
      s.nodes[Order(s, m)[i]].kind.Topic? {
      OrderMember(s, m, Order(s, m)[i]);
    }
  }

  /** The import went through, and what it wrote loads as the same map. */
  ghost predicate ComesBack(a: Loaded, entries: map<int, int>, d: Store, host: Option<string>, now: int, top: int) {
    var r := ImportSpec(d, Renumber(a, entries), host, now, top);
    r.Ok? && r.value.Some? &&
    var b := LoadSpec(r.value.value.0, r.value.value.1);
    b.Ok? && SameMap(a, b.value, entries, d.entries) && RowComesBack(a.row, b.value.row, host, now)
  }

  /** The map's own row: as it was, on the host named if one is, last touched no
      later than now. */
  predicate RowComesBack(a: MapRow, b: MapRow, host: Option<string>, now: int) {
    && b.title == a.title && b.nick == a.nick && b.open == a.open && b.shared == a.shared
    && b.layout == a.layout && b.right == a.right && b.createdAt == a.createdAt
    && (host.Some? ==> b.host == host) && (host.None? ==> b.host == a.host)
    && (a.updatedAt <= now ==> b.updatedAt == a.updatedAt) && (a.updatedAt > now ==> b.updatedAt == now)
  }

  /** What an import wrote, if it did, loads as the same map, chains aside. */
  ghost predicate TreeComesBack(a: Loaded, entries: map<int, int>, d: Store, r: Result<Option<(Store, int)>, Error>) {
    if r.Err? then true
    else if r.value.None? then false
    else var b := LoadSpec(r.value.value.0, r.value.value.1); b.Ok? && SameTree(a, b.value, entries, d.entries)
  }

  /** A loaded map, renumbered and imported, loads again as the same map — the
      same nodes in the same order under new ids, with the same parents and
      arrows, the references that were mapped and are known, and exactly the
      chains whose steps all came along — if and only if no two of those chains
      have the same steps. If two have, the import fails, or a chain is missing
      and all but the chains is as it was. */
  lemma ImportRoundTrip(s: Store, m: int, d: Store, entries: map<int, int>, host: Option<string>, now: int, top: int)
    requires WellFormed(s) && m in s.maps && WellFormed(d) && !Seen(d, s.maps[m])
    ensures LoadSpec(s, m).Ok?
    ensures var a := LoadSpec(s, m).value;
            ComesBack(a, entries, d, host, now, top) <==> ComeApart(ChainsThatCome(a.chains, entries, d.entries))
    ensures var a := LoadSpec(s, m).value;
            TreeComesBack(a, entries, d, ImportSpec(d, Renumber(a, entries), host, now, top))
  {
    LoadedIsReady(s, m, entries);
    NewMapHasNoRows(d);
    var a := LoadSpec(s, m).value;
    var l := Renumber(a, entries);
    var t, m', ids := ImportWrites(d, l, host, now, top);
    if ChainsPut(d, m', l, top).Ok? {
      var b := TreeBack(s, m, a, l, entries, d, t, m', ImportedRow(s.maps[m], host, now), ids, top);
      WhatCameBack(a, b, entries, d, host, now, top, t, m');
      ChainsBackIff(a, b, l, entries, d, m', t, top);
    } else if ComeApart(ChainsThatCome(a.chains, entries, d.entries)) {
      CanBeWritten(a, l, entries, d, m', top);
    }
  }

  /** What `load` gave, renumbered, can be imported. */
  lemma LoadedIsReady(s: Store, m: int, entries: map<int, int>)
    requires WellFormed(s) && m in s.maps
    ensures LoadSpec(s, m).Ok? && LoadSpec(s, m).value.row == s.maps[m] && Named(LoadSpec(s, m).value.chains)
    ensures var l := Renumber(LoadSpec(s, m).value, entries); Importable(l) && Joined(l)
  {
    LoadedTopics(s, m);
    LoadedIsImportable(s, m, entries);
    LoadedIsJoined(s, m, entries);
    LoadedNamed(s, m);
  }

  lemma WhatCameBack(a: Loaded, b: Loaded, entries: map<int, int>, d: Store, host: Option<string>, now: int, top: int,
                     t: Store, m: int)
    requires ImportSpec(d, Renumber(a, entries), host, now, top) == Ok(Some((t, m)))
    requires LoadSpec(t, m) == Ok(b) && b.row == ImportedRow(a.row, host, now) && SameTree(a, b, entries, d.entries)
    ensures ComesBack(a, entries, d, host, now, top) <==> ChainsCopied(a, b, entries, d.entries)
    ensures TreeComesBack(a, entries, d, ImportSpec(d, Renumber(a, entries), host, now, top))
  {
  }

  lemma ChainsBackIff(a: Loaded, b: Loaded, l: Loaded, entries: map<int, int>, d: Store, m: int, t: Store, top: int)
    requires NoRows(d, m) && ChainsDistinct(d) && l.chains == RenumberChains(a.chains, entries) && Named(a.chains)
    requires ChainsPut(d, m, l, top).Ok? && t.chains == ChainsPut(d, m, l, top).value.chains
    requires b.chains == ChainsAt(t, ChainRows(t, m))
    ensures ChainsCopied(a, b, entries, d.entries) <==> ComeApart(ChainsThatCome(a.chains, entries, d.entries))
  {
    if ComeApart(ChainsThatCome(a.chains, entries, d.entries)) { AllChainsBack(a, b, l, entries, d, m, t, top); }
    if ChainsCopied(a, b, entries, d.entries) { BackMeansApart(a, b, l, entries, d, m, t, top); }
  }

  lemma TreeBack(s: Store, m: int, a: Loaded, l: Loaded, entries: map<int, int>, d: Store, t: Store, m': int,
                 row: MapRow, ids: map<int, int>, top: int)
      returns (b: Loaded)
    requires WellFormed(s) && m in s.maps && WellFormed(d) && LoadSpec(s, m) == Ok(a) && l == Renumber(a, entries)
    requires Written(d, t, m', l, row, ids, top)
    ensures LoadSpec(t, m') == Ok(b) && b.row == row && SameTree(a, b, entries, d.entries)
    ensures b.chains == ChainsAt(t, ChainRows(t, m'))
  {
    NewMapHasNoRows(d);
    b := NodesHalf(s, m, a, l, entries, d, t, m', ids);
    AllEdgesBack(a, b, l, entries, d, m', ids, t);
  }

  lemma NodesHalf(s: Store, m: int, a: Loaded, l: Loaded, entries: map<int, int>, d: Store, t: Store, m': int,
                  ids: map<int, int>)
      returns (b: Loaded)
    requires WellFormed(s) && m in s.maps && LoadSpec(s, m) == Ok(a) && NoRows(d, m') && RefsOk(d) && m' in t.maps
    requires Rewritten(a, l, entries, d, m', NodesSoFar(t.nodes, t.nodeRefs, ids))
    ensures LoadSpec(t, m') == Ok(b) && NodesCopied(a, b, entries, d.entries)
    ensures forall i | 0 <= i < |b.nodes| :: b.nodes[i].id == NextRowId(d.nodes.Keys) + i
  {
    var p := NodesSoFar(t.nodes, t.nodeRefs, ids);
    assert Order(t, m') == Numbers(NextRowId(d.nodes.Keys), |a.nodes|) by { NodesBack(s, m, a, l, entries, d, m', p, t);
           }
    LoadedTopics(s, m);
    RootIsFirst(t, m');
    b := LoadSpec(t, m').value;
    AllNodesBack(a, b, l, entries, d, m', p, t);
  }
}
