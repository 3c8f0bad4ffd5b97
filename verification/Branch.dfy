/** The work-branch graph of a journal: the two searches of `src/journal.rs`
    that decide which todo an entry hangs from, and the proof that they agree. */
module Branch {
  import opened Base

  datatype LinkKind = Cites | Replaces | Fixes | Implements | Verifies

  datatype Link = Link(from: int, to: int, kind: LinkKind)

  /** Links that make a branch; the other two only connect branches. */
  predicate Structural(k: LinkKind) {
    k.Implements? || k.Verifies? || k.Fixes?
  }

  /** What the searches read: entry ids, the link table, entries with a todo row
      (open or closed). */
  datatype WorkGraph = WorkGraph(ids: set<int>, links: seq<Link>, todos: set<int>) {
    ghost predicate Valid() {
      && (forall l | l in links :: l.from in ids && l.to in ids)
      && todos <= ids
    }
  }

  const BRANCH_LIMIT := 200

  /** Ends of the structural links leaving `at`, in table order. */
  function Targets(links: seq<Link>, at: int): seq<int> {
    if links == [] then []
    else if links[0].from == at && Structural(links[0].kind) then [links[0].to] + Targets(links[1..], at)
    else Targets(links[1..], at)
  }

  /** Starts of the structural links arriving at `at`, in table order. */
  function Sources(links: seq<Link>, at: int): seq<int> {
    if links == [] then []
    else if links[0].to == at && Structural(links[0].kind) then [links[0].from] + Sources(links[1..], at)
    else Sources(links[1..], at)
  }

  function UpRows(g: WorkGraph, at: int): seq<int> { OrderBy(Targets(g.links, at), true) }

  function DownRows(g: WorkGraph, at: int): seq<int> { OrderBy(Sources(g.links, at), false) }

  lemma {:induction false} RowsAreLinks(links: seq<Link>, child: int, parent: int)
    ensures parent in Targets(links, child) <==> exists k :: Structural(k) && Link(child, parent, k) in links
    ensures child in Sources(links, parent) <==> exists k :: Structural(k) && Link(child, parent, k) in links
  {
    if links != [] {
      RowsAreLinks(links[1..], child, parent);
      var l := links[0];
      forall k ensures Link(child, parent, k) in links <==>
        Link(child, parent, k) == l || Link(child, parent, k) in links[1..] {
        assert links == [l] + links[1..];
      }
      if l.from == child && l.to == parent && Structural(l.kind) {
        assert l == Link(child, parent, l.kind);
      }
    }
  }

  /** Both searches read the same structural links, one each way. */
  lemma RowsMirror(g: WorkGraph, child: int, parent: int)
    ensures parent in UpRows(g, child) <==> exists k :: Structural(k) && Link(child, parent, k) in g.links
    ensures child in DownRows(g, parent) <==> exists k :: Structural(k) && Link(child, parent, k) in g.links
  {
    RowsAreLinks(g.links, child, parent);
    OrderByRows(Targets(g.links, child), true);
    OrderByRows(Sources(g.links, parent), false);
  }

  // ---------------------------------------------------------------------
  // The searches, as functions. The class methods loop and equal these.

  /** The rows a step of the upstream walk adds: unseen, while below the cap. */
  function Fresh(seen: seq<int>, rows: seq<int>): (f: seq<int>)
    requires |seen| <= BRANCH_LIMIT
    ensures |seen| + |f| <= BRANCH_LIMIT
    ensures forall x | x in f :: x in rows && x !in seen
    ensures NoDup(f)
    ensures |seen| + |f| < BRANCH_LIMIT ==> forall x | x in rows :: x in seen || x in f
    decreases |rows|
  {
    if rows == [] then []
    else if rows[0] !in seen && |seen| < BRANCH_LIMIT then
      var rest := Fresh(seen + [rows[0]], rows[1..]);
      NoDupCons(rows[0], rest);
      [rows[0]] + rest
    else Fresh(seen, rows[1..])
  }

  datatype Walk = Walk(root: Option<int>, seen: seq<int>)

  function UpWalk(g: WorkGraph, seen: seq<int>, queue: seq<int>): (w: Walk)
    requires |seen| <= BRANCH_LIMIT
    ensures |seen| <= |w.seen| <= BRANCH_LIMIT
    ensures w.root.Some? ==> w.root.value in g.todos
    decreases BRANCH_LIMIT - |seen|, |queue|
  {
    if queue == [] then Walk(None, seen)
    else if queue[0] in g.todos then Walk(Some(queue[0]), seen)
    else
      var f := Fresh(seen, UpRows(g, queue[0]));
      UpWalk(g, seen + f, queue[1..] + f)
  }

  /** `branch_root`: the todo an entry hangs from. */
  function BranchRoot(g: WorkGraph, id: int): Option<int> {
    UpWalk(g, [id], [id]).root
  }

  /** The children a step of the downstream walk takes in. */
  function Hanging(g: WorkGraph, root: int, seen: seq<int>, rows: seq<int>): (f: seq<int>)
    requires |seen| <= BRANCH_LIMIT
    ensures |seen| + |f| <= BRANCH_LIMIT
    ensures forall x | x in f :: x !in seen && x in rows && x !in g.todos && BranchRoot(g, x) == Some(root)
    ensures NoDup(f)
    ensures |seen| + |f| < BRANCH_LIMIT ==>
              forall x | x in rows && x !in g.todos && BranchRoot(g, x) == Some(root) :: x in seen || x in f
    decreases |rows|
  {
    if rows == [] then []
    else if rows[0] in seen || |seen| >= BRANCH_LIMIT || rows[0] in g.todos then Hanging(g, root, seen, rows[1..])
    else if BranchRoot(g, rows[0]) == Some(root) then
      var rest := Hanging(g, root, seen + [rows[0]], rows[1..]);
      NoDupCons(rows[0], rest);
      [rows[0]] + rest
    else Hanging(g, root, seen, rows[1..])
  }

  function DownWalk(g: WorkGraph, root: int, seen: seq<int>, queue: seq<int>): (r: seq<int>)
    requires |seen| <= BRANCH_LIMIT
    ensures |r| <= BRANCH_LIMIT
    decreases BRANCH_LIMIT - |seen|, |queue|
  {
    if queue == [] then seen
    else
      var f := Hanging(g, root, seen, DownRows(g, queue[0]));
      DownWalk(g, root, seen + f, queue[1..] + f)
  }

  /** `branch_ids`: the entries of a todo's branch, in the order reached. */
  function BranchIds(g: WorkGraph, root: int): seq<int> {
    DownWalk(g, root, [root], [root])
  }

  // ---------------------------------------------------------------------
  // Reference: the nearest todo, defined without a queue.

  /** The todo at the end of the first upstream walk of exactly `k` links, where
      "first" compares walks link by link in the row order. */
  function Best(g: WorkGraph, c: int, k: nat): Option<int>
    decreases k, 0
  {
    if k == 0 then (if c in g.todos then Some(c) else None)
    else FirstBest(g, UpRows(g, c), k - 1)
  }

  function FirstBest(g: WorkGraph, s: seq<int>, k: nat): Option<int>
    decreases k, |s| + 1
  {
    if s == [] then None
    else if Best(g, s[0], k).Some? then Best(g, s[0], k)
    else FirstBest(g, s[1..], k)
  }

  /** `d` links upstream is a todo, and none is nearer. */
  ghost predicate Distance(g: WorkGraph, c: int, d: nat) {
    Best(g, c, d).Some? && forall j: nat | j < d :: Best(g, c, j).None?
  }

  ghost predicate IsNearest(g: WorkGraph, c: int, r: Option<int>) {
    match r
    case None => forall k: nat :: Best(g, c, k).None?
    case Some(_) => exists d: nat :: Distance(g, c, d) && Best(g, c, d) == r
  }

  /** `t` lies exactly `k` structural links upstream of `c`. */
  ghost predicate Upstream(g: WorkGraph, c: int, k: nat, t: int)
    decreases k
  {
    if k == 0 then c == t
    else exists x :: x in UpRows(g, c) && Upstream(g, x, k - 1, t)
  }

  function Either(a: Option<int>, b: Option<int>): Option<int> {
    if a.Some? then a else b
  }

  lemma {:induction false} FirstBestSome(g: WorkGraph, s: seq<int>, k: nat)
    ensures FirstBest(g, s, k).Some? <==> exists x :: x in s && Best(g, x, k).Some?
    ensures FirstBest(g, s, k).Some? ==> exists x :: x in s && Best(g, x, k) == FirstBest(g, s, k)
    decreases |s|
  {
    if s != [] {
      FirstBestSome(g, s[1..], k);
      if Best(g, s[0], k).Some? {
        assert s[0] in s;
      } else {
        if x :| x in s && Best(g, x, k).Some? { assert x in s[1..]; }
        if FirstBest(g, s, k).Some? {
          var x :| x in s[1..] && Best(g, x, k) == FirstBest(g, s[1..], k);
          assert x in s;
        }
      }
    }
  }

  lemma {:induction false} FirstBestConcat(g: WorkGraph, a: seq<int>, b: seq<int>, k: nat)
    ensures FirstBest(g, a + b, k) == Either(FirstBest(g, a, k), FirstBest(g, b, k))
    decreases |a|
  {
    if a == [] {
      assert a + b == b;
    } else {
      assert (a + b)[0] == a[0] && (a + b)[1..] == a[1..] + b;
      FirstBestConcat(g, a[1..], b, k);
    }
  }

  /** The reference is about real walks: `Best` finds a todo `k` links up exactly
      when one lies there, and the one it finds does. */
  lemma {:induction false} BestIsUpstream(g: WorkGraph, c: int, k: nat, t: int)
    requires Best(g, c, k) == Some(t)
    ensures Upstream(g, c, k, t) && t in g.todos
    decreases k
  {
    if k > 0 {
      FirstBestSome(g, UpRows(g, c), k - 1);
      var x :| x in UpRows(g, c) && Best(g, x, k - 1) == Some(t);
      BestIsUpstream(g, x, k - 1, t);
    }
  }

  lemma {:induction false} UpstreamGivesBest(g: WorkGraph, c: int, k: nat, t: int)
    requires Upstream(g, c, k, t) && t in g.todos
    ensures Best(g, c, k).Some?
    decreases k
  {
    if k > 0 {
      var x :| x in UpRows(g, c) && Upstream(g, x, k - 1, t);
      UpstreamGivesBest(g, x, k - 1, t);
      FirstBestSome(g, UpRows(g, c), k - 1);
    }
  }

  /** The step the whole agreement rests on: a nearest walk's tail is the
      nearest walk of the entry it starts from, so some direct parent hangs from
      the same todo one link nearer. */
  lemma NearestParent(g: WorkGraph, c: int, d: nat) returns (p: int)
    requires d > 0 && Distance(g, c, d)
    ensures p in UpRows(g, c) && Distance(g, p, d - 1) && Best(g, p, d - 1) == Best(g, c, d)
  {
    FirstBestSome(g, UpRows(g, c), d - 1);
    p :| p in UpRows(g, c) && Best(g, p, d - 1) == Best(g, c, d);
    forall j: nat | j < d - 1 ensures Best(g, p, j).None? {
      FirstBestSome(g, UpRows(g, c), j);
      assert Best(g, c, j + 1).None?;
    }
  }

  // ---------------------------------------------------------------------
  // The upstream walk finds the nearest todo.

  lemma {:induction false} FreshKeepsBest(g: WorkGraph, seen: seq<int>, rows: seq<int>, later: seq<int>, k: nat)
    requires |seen| <= BRANCH_LIMIT
    requires |seen| + |Fresh(seen, rows)| < BRANCH_LIMIT
    requires forall s | s in seen :: s in later || Best(g, s, k).None?
    ensures FirstBest(g, later + Fresh(seen, rows), k) == Either(FirstBest(g, later, k), FirstBest(g, rows, k))
    decreases |rows|
  {
    if rows == [] {
      assert later + [] == later;
    } else {
      var p := rows[0];
      if p !in seen {
        var rest := Fresh(seen + [p], rows[1..]);
        assert later + Fresh(seen, rows) == (later + [p]) + rest;
        FreshKeepsBest(g, seen + [p], rows[1..], later + [p], k);
        FirstBestConcat(g, later, [p], k);
        assert [p][1..] == [];
        assert FirstBest(g, [p], k) == Best(g, p, k);
      } else {
        FreshKeepsBest(g, seen, rows[1..], later, k);
        if Best(g, p, k).Some? {
          assert p in later;
          FirstBestSome(g, later, k);
        }
      }
    }
  }

  lemma ChildBound(g: WorkGraph, a: int, p: int, m: nat)
    requires p in UpRows(g, a) && Best(g, p, m).Some?
    ensures Best(g, a, m + 1).Some?
  {
    FirstBestSome(g, UpRows(g, a), m);
  }

  /** Loop invariant of the upstream walk. The queue is `now + later`: the rest
      of one level and what it has put on the next; `r` links are left from `now`. */
  ghost predicate Frontier(g: WorkGraph, seen: seq<int>, now: seq<int>, later: seq<int>, r: nat, ans: Option<int>) {
    && ans.Some?
    && ans == Either(if r > 0 then FirstBest(g, later, r - 1) else None, FirstBest(g, now, r))
    && (forall s, m: nat | s in now && m < r :: Best(g, s, m).None?)
    && (forall s, m: nat | s in later && m + 1 < r :: Best(g, s, m).None?)
    && (forall s, m: nat | s in seen && m < r :: s in later || Best(g, s, m).None?)
  }

  lemma {:induction false} FrontierStep(g: WorkGraph, seen: seq<int>, now: seq<int>, later: seq<int>, r: nat,
                                        ans: Option<int>)
    requires |seen| <= BRANCH_LIMIT
    requires Frontier(g, seen, now, later, r, ans)
    requires now != [] && now[0] !in g.todos
    requires |seen| + |Fresh(seen, UpRows(g, now[0]))| < BRANCH_LIMIT
    ensures var f := Fresh(seen, UpRows(g, now[0])); Frontier(g, seen + f, now[1..], later + f, r, ans)
  {
    var a := now[0];
    var rows := UpRows(g, a);
    var f := Fresh(seen, rows);
    assert now == [a] + now[1..];
    if r > 0 {
      FreshKeepsBest(g, seen, rows, later, r - 1);
      assert Best(g, a, r) == FirstBest(g, rows, r - 1);
      assert FirstBest(g, now, r) == Either(Best(g, a, r), FirstBest(g, now[1..], r));
      assert FirstBest(g, later + f, r - 1) == Either(FirstBest(g, later, r - 1), Best(g, a, r));
    } else {
      assert FirstBest(g, now, 0) == FirstBest(g, now[1..], 0);
    }
    forall s, m: nat | s in f && m + 1 < r ensures Best(g, s, m).None? {
      if Best(g, s, m).Some? { ChildBound(g, a, s, m); }
    }
  }

  lemma {:induction false} UpWalkFinds(g: WorkGraph, seen: seq<int>, now: seq<int>, later: seq<int>, r: nat,
                                       ans: Option<int>)
    requires |seen| <= BRANCH_LIMIT
    requires Frontier(g, seen, now, later, r, ans)
    requires |UpWalk(g, seen, now + later).seen| < BRANCH_LIMIT
    ensures UpWalk(g, seen, now + later).root == ans
    decreases BRANCH_LIMIT - |seen|, |now + later|, if now == [] then 1 else 0
  {
    var queue := now + later;
    if now == [] {
      if later != [] && r > 0 {
        assert queue == later + [];
        UpWalkFinds(g, seen, later, [], r - 1, ans);
      }
    } else if now[0] in g.todos {
      assert Best(g, now[0], 0) == Some(now[0]);
      assert r == 0;
    } else {
      var f := Fresh(seen, UpRows(g, now[0]));
      assert queue[0] == now[0] && queue[1..] + f == now[1..] + (later + f);
      assert UpWalk(g, seen, queue) == UpWalk(g, seen + f, now[1..] + (later + f));
      FrontierStep(g, seen, now, later, r, ans);
      UpWalkFinds(g, seen + f, now[1..], later + f, r, ans);
    }
  }

  lemma {:induction false} UpWalkFindsNothing(g: WorkGraph, seen: seq<int>, queue: seq<int>)
    requires |seen| <= BRANCH_LIMIT
    requires forall s, k: nat | s in queue :: Best(g, s, k).None?
    ensures UpWalk(g, seen, queue).root.None?
    decreases BRANCH_LIMIT - |seen|, |queue|
  {
    if queue != [] {
      assert Best(g, queue[0], 0).None?;
      var f := Fresh(seen, UpRows(g, queue[0]));
      forall s, k: nat | s in queue[1..] + f ensures Best(g, s, k).None? {
        if s in f && Best(g, s, k).Some? { ChildBound(g, queue[0], s, k); }
      }
      UpWalkFindsNothing(g, seen + f, queue[1..] + f);
    }
  }

  lemma {:induction false} LeastDistance(g: WorkGraph, c: int, k: nat) returns (d: nat)
    requires Best(g, c, k).Some?
    ensures Distance(g, c, d) && d <= k
  {
    if j: nat :| j < k && Best(g, c, j).Some? {
      d := LeastDistance(g, c, j);
    } else {
      d := k;
    }
  }

  /** A walk the cap did not cut. */
  ghost predicate Uncut(g: WorkGraph, id: int) {
    |UpWalk(g, [id], [id]).seen| < BRANCH_LIMIT
  }

  /** `branch_root` answers the nearest todo, ties by the row order. */
  lemma BranchRootIsNearest(g: WorkGraph, id: int)
    requires Uncut(g, id)
    ensures IsNearest(g, id, BranchRoot(g, id))
  {
    if k: nat :| Best(g, id, k).Some? {
      var d := LeastDistance(g, id, k);
      assert [id] + [] == [id];
      assert [id][1..] == [];
      assert FirstBest(g, [id], d) == Best(g, id, d);
      assert Frontier(g, [id], [id], [], d, Best(g, id, d));
      UpWalkFinds(g, [id], [id], [], d, Best(g, id, d));
    } else {
      UpWalkFindsNothing(g, [id], [id]);
    }
  }

  lemma NearestIffReaches(g: WorkGraph, id: int, r: Option<int>)
    requires IsNearest(g, id, r)
    ensures r.Some? <==> exists k: nat, t :: t in g.todos && Upstream(g, id, k, t)
    ensures r.Some? ==> exists d: nat :: Upstream(g, id, d, r.value) && NoNearer(g, id, d)
  {
    if r.Some? {
      var d: nat :| Distance(g, id, d) && Best(g, id, d) == r;
      BestIsUpstream(g, id, d, r.value);
      assert r.value in g.todos && Upstream(g, id, d, r.value);
      forall k: nat, t | t in g.todos && Upstream(g, id, k, t) ensures d <= k {
        UpstreamGivesBest(g, id, k, t);
      }
      assert Upstream(g, id, d, r.value) && NoNearer(g, id, d);
    } else {
      forall k: nat, t | t in g.todos ensures !Upstream(g, id, k, t) {
        if Upstream(g, id, k, t) { UpstreamGivesBest(g, id, k, t); }
      }
    }
  }

  ghost predicate NoNearer(g: WorkGraph, id: int, d: nat) {
    forall k: nat, t | t in g.todos && Upstream(g, id, k, t) :: d <= k
  }

  /** An entry hangs from some todo exactly when one can be reached upstream,
      and the one it hangs from is as near as any. */
  lemma HangsIffReaches(g: WorkGraph, id: int)
    requires Uncut(g, id)
    ensures BranchRoot(g, id).Some? <==> exists k: nat, t :: t in g.todos && Upstream(g, id, k, t)
    ensures BranchRoot(g, id).Some? ==>
              exists d: nat :: Upstream(g, id, d, BranchRoot(g, id).value) && NoNearer(g, id, d)
  {
    BranchRootIsNearest(g, id);
    NearestIffReaches(g, id, BranchRoot(g, id));
  }

  // ---------------------------------------------------------------------
  // The downstream walk, and the agreement.

  /** The entries whose upstream search answers `root`. */
  ghost function Members(g: WorkGraph, root: int): set<int> {
    set e | e in g.ids && BranchRoot(g, e) == Some(root)
  }

  lemma {:induction false} DownWalkSound(g: WorkGraph, root: int, seen: seq<int>, queue: seq<int>)
    requires |seen| <= BRANCH_LIMIT && NoDup(seen)
    requires forall s | s in seen :: s == root || (s !in g.todos && BranchRoot(g, s) == Some(root))
    ensures var r := DownWalk(g, root, seen, queue);
            && NoDup(r) && seen <= r
            && forall s | s in r :: s == root || (s !in g.todos && BranchRoot(g, s) == Some(root))
    decreases BRANCH_LIMIT - |seen|, |queue|
  {
    if queue != [] {
      var f := Hanging(g, root, seen, DownRows(g, queue[0]));
      assert forall x | x in f :: x !in seen;
      NoDupConcat(seen, f);
      DownWalkSound(g, root, seen + f, queue[1..] + f);
    }
  }

  lemma TodoHangsFromItself(g: WorkGraph, root: int)
    requires root in g.todos
    ensures BranchRoot(g, root) == Some(root)
  {
  }

  lemma BranchIdsSound(g: WorkGraph, root: int)
    requires root in g.todos
    ensures NoDup(BranchIds(g, root)) && |BranchIds(g, root)| <= BRANCH_LIMIT
    ensures root in BranchIds(g, root)
    ensures forall s | s in BranchIds(g, root) :: BranchRoot(g, s) == Some(root) && (s in g.todos ==> s == root)
  {
    DownWalkSound(g, root, [root], [root]);
    assert [root] <= BranchIds(g, root);
    assert BranchIds(g, root)[0] == root;
    TodoHangsFromItself(g, root);
  }

  /** Two todos never share an entry, whatever the cap cut off. */
  lemma BranchesDisjoint(g: WorkGraph, r1: int, r2: int)
    requires r1 in g.todos && r2 in g.todos && r1 != r2
    ensures Elems(BranchIds(g, r1)) !! Elems(BranchIds(g, r2))
  {
    BranchIdsSound(g, r1);
    BranchIdsSound(g, r2);
  }

  /** Entries reached downstream exist. */
  lemma {:induction false} DownWalkInIds(g: WorkGraph, root: int, seen: seq<int>, queue: seq<int>)
    requires g.Valid() && |seen| <= BRANCH_LIMIT
    requires forall s | s in seen :: s in g.ids
    ensures forall s | s in DownWalk(g, root, seen, queue) :: s in g.ids
    decreases BRANCH_LIMIT - |seen|, |queue|
  {
    if queue != [] {
      var f := Hanging(g, root, seen, DownRows(g, queue[0]));
      forall s | s in f ensures s in g.ids { ChildInIds(g, s, queue[0]); }
      DownWalkInIds(g, root, seen + f, queue[1..] + f);
    }
  }

  ghost predicate ClosedAt(g: WorkGraph, root: int, p: int, seen: seq<int>) {
    forall c | c in DownRows(g, p) && c !in g.todos && BranchRoot(g, c) == Some(root) :: c in seen
  }

  /** One step of the downstream walk closes the entry it expands: with the
      branch under the cap, no member child is left out. */
  lemma HangingCloses(g: WorkGraph, root: int, seen: seq<int>, at: int)
    requires g.Valid() && |Members(g, root)| <= BRANCH_LIMIT
    requires |seen| <= BRANCH_LIMIT && NoDup(seen) && Elems(seen) <= Members(g, root)
    ensures var seen' := seen + Hanging(g, root, seen, DownRows(g, at));
            NoDup(seen') && Elems(seen') <= Members(g, root) && ClosedAt(g, root, at, seen')
  {
    var f := Hanging(g, root, seen, DownRows(g, at));
    var seen' := seen + f;
    NoDupConcat(seen, f);
    forall s | s in f ensures s in Members(g, root) { ChildInIds(g, s, at); }
    if |seen'| == BRANCH_LIMIT {
      NoDupSize(seen');
      SubsetSize(Elems(seen'), Members(g, root));
    }
    forall c | c in DownRows(g, at) && c !in g.todos && BranchRoot(g, c) == Some(root) ensures c in seen' {
      ChildInIds(g, c, at);
      assert c in Members(g, root);
      if |seen'| == BRANCH_LIMIT { assert c in Elems(seen'); }
    }
  }

  lemma ChildInIds(g: WorkGraph, c: int, at: int)
    requires g.Valid() && c in DownRows(g, at)
    ensures c in g.ids && at in g.ids
  {
    RowsMirror(g, c, at);
    var k :| Structural(k) && Link(c, at, k) in g.links;
  }

  lemma {:induction false} DownWalkCloses(g: WorkGraph, root: int, seen: seq<int>, queue: seq<int>)
    requires g.Valid() && |Members(g, root)| <= BRANCH_LIMIT
    requires |seen| <= BRANCH_LIMIT && NoDup(seen) && Elems(seen) <= Members(g, root)
    requires forall p | p in seen :: p in queue || ClosedAt(g, root, p, seen)
    ensures forall p | p in DownWalk(g, root, seen, queue) :: ClosedAt(g, root, p, DownWalk(g, root, seen, queue))
    decreases BRANCH_LIMIT - |seen|, |queue|
  {
    if queue != [] {
      var at := queue[0];
      var f := Hanging(g, root, seen, DownRows(g, at));
      HangingCloses(g, root, seen, at);
      forall p | p in seen + f ensures p in queue[1..] + f || ClosedAt(g, root, p, seen + f) {
        if p in seen && p != at && p !in queue[1..] { assert p !in queue; }
      }
      DownWalkCloses(g, root, seen + f, queue[1..] + f);
    }
  }

  ghost predicate AllUncut(g: WorkGraph) {
    forall x | x in g.ids :: Uncut(g, x)
  }

  /** The nearest parent of a member is a member, one link nearer. */
  lemma MemberParent(g: WorkGraph, root: int, e: int, d: nat) returns (p: int)
    requires g.Valid() && AllUncut(g)
    requires d > 0 && Distance(g, e, d) && Best(g, e, d) == Some(root)
    ensures BranchRoot(g, p) == Some(root) && Distance(g, p, d - 1) && Best(g, p, d - 1) == Some(root)
    ensures e in DownRows(g, p)
  {
    p := NearestParent(g, e, d);
    RowsMirror(g, e, p);
    ChildInIds(g, e, p);
    BranchRootIsNearest(g, p);
    SameNearest(g, p, d - 1, BranchRoot(g, p));
  }

  /** Induction on the distance: every member is reached through its nearest parent. */
  lemma {:induction false} MemberReached(g: WorkGraph, root: int, seen: seq<int>, e: int, d: nat)
    requires g.Valid() && AllUncut(g)
    requires root in seen && forall p | p in seen :: ClosedAt(g, root, p, seen)
    requires BranchRoot(g, e) == Some(root) && Distance(g, e, d) && Best(g, e, d) == Some(root)
    ensures e in seen
    decreases d
  {
    if d == 0 {
      assert Best(g, e, 0) == Some(e);
    } else {
      var p := MemberParent(g, root, e, d);
      MemberReached(g, root, seen, p, d - 1);
      assert ClosedAt(g, root, p, seen);
      assert Best(g, e, 0).None?;
    }
  }

  lemma SameNearest(g: WorkGraph, p: int, d: nat, r: Option<int>)
    requires Distance(g, p, d) && IsNearest(g, p, r)
    ensures r == Best(g, p, d)
  {
    if r.Some? {
      var d' :| Distance(g, p, d') && Best(g, p, d') == r;
      assert d' == d;
    }
  }

  /** The two searches agree: with no upstream walk cut, the downstream walk from
      a todo returns exactly the entries whose upstream search answers it — if
      and only if they fit under the cap. */
  lemma SearchesAgree(g: WorkGraph, root: int)
    requires g.Valid() && root in g.todos
    requires AllUncut(g)
    ensures Elems(BranchIds(g, root)) <= Members(g, root)
    ensures Elems(BranchIds(g, root)) == Members(g, root) <==> |Members(g, root)| <= BRANCH_LIMIT
  {
    var r := BranchIds(g, root);
    BranchIdsSound(g, root);
    DownWalkInIds(g, root, [root], [root]);
    NoDupSize(r);
    if |Members(g, root)| <= BRANCH_LIMIT {
      assert root in Members(g, root);
      DownWalkCloses(g, root, [root], [root]);
      forall e | e in Members(g, root) ensures e in r {
        BranchRootIsNearest(g, e);
        var d :| Distance(g, e, d) && Best(g, e, d) == Some(root);
        MemberReached(g, root, r, e, d);
      }
    }
  }

  /** So the branches partition the entries that reach a todo upstream. */
  lemma BranchesPartition(g: WorkGraph, e: int)
    requires g.Valid() && e in g.ids
    requires AllUncut(g)
    requires forall t | t in g.todos :: |Members(g, t)| <= BRANCH_LIMIT
    ensures (exists k: nat, t :: t in g.todos && Upstream(g, e, k, t)) <==>
            exists t :: t in g.todos && e in BranchIds(g, t)
    ensures forall t, u | t in g.todos && u in g.todos && e in BranchIds(g, t) && e in BranchIds(g, u) :: t == u
  {
    HangsIffReaches(g, e);
    forall t | t in g.todos ensures e in BranchIds(g, t) <==> BranchRoot(g, e) == Some(t) {
      SearchesAgree(g, t);
      assert e in Elems(BranchIds(g, t)) <==> e in Members(g, t);
    }
    if BranchRoot(g, e).Some? {
      assert BranchRoot(g, e).value in g.todos && e in BranchIds(g, BranchRoot(g, e).value);
    }
  }
}
