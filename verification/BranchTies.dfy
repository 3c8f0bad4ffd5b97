/** Which todo wins when several are equally near, and the order of a branch:
    said of the link table alone. */
module BranchTies {
  import opened Base
  import opened Branch

  /** A structural link leads from `c` to `p`. */
  ghost predicate Linked(g: WorkGraph, c: int, p: int) { exists k :: Structural(k) && Link(c, p, k) in g.links }

  /** A walk over structural links that begins at `id` and ends at a todo. */
  ghost predicate TodoWalk(g: WorkGraph, id: int, w: seq<int>) {
    && w != [] && w[0] == id && w[|w| - 1] in g.todos
    && forall i | 0 < i < |w| :: Linked(g, w[i - 1], w[i])
  }

  /** The same walk, or larger at the first place where they differ. */
  ghost predicate NoSmaller(v: seq<int>, w: seq<int>) {
    v == w || exists i :: 0 <= i < |v| && i < |w| && v[..i] == w[..i] && v[i] > w[i]
  }

  /** No walk to a todo is shorter, and none as short comes before it by
      descending ids. */
  ghost predicate Foremost(g: WorkGraph, id: int, v: seq<int>) {
    && TodoWalk(g, id, v)
    && forall w | TodoWalk(g, id, w) :: |v| <= |w| && (|v| == |w| ==> NoSmaller(v, w))
  }

  lemma Linkage(g: WorkGraph, c: int, p: int)
    ensures p in UpRows(g, c) <==> Linked(g, c, p)
    ensures c in DownRows(g, p) <==> Linked(g, c, p)
  {
    RowsMirror(g, c, p);
  }

  lemma TailWalk(g: WorkGraph, id: int, w: seq<int>)
    requires TodoWalk(g, id, w) && |w| >= 2
    ensures TodoWalk(g, w[1], w[1..]) && Linked(g, id, w[1])
  {
    var t := w[1..];
    assert Linked(g, w[0], w[1]);
    forall i | 0 < i < |t| ensures Linked(g, t[i - 1], t[i]) { assert Linked(g, w[i], w[i + 1]); }
  }

  lemma {:induction false} WalkFound(g: WorkGraph, id: int, w: seq<int>)
    requires TodoWalk(g, id, w)
    ensures Best(g, id, |w| - 1).Some?
    decreases |w|
  {
    if |w| >= 2 {
      TailWalk(g, id, w);
      WalkFound(g, w[1], w[1..]);
      Linkage(g, id, w[1]);
      FirstBestSome(g, UpRows(g, id), |w| - 2);
    }
  }

  lemma {:induction false} FirstOf(g: WorkGraph, s: seq<int>, k: nat) returns (i: nat)
    requires FirstBest(g, s, k).Some?
    ensures i < |s| && FirstBest(g, s, k) == Best(g, s[i], k) && forall j | 0 <= j < i :: Best(g, s[j], k).None?
    decreases |s|
  {
    if Best(g, s[0], k).Some? {
      i := 0;
    } else {
      i := FirstOf(g, s[1..], k);
      i := i + 1;
    }
  }

  lemma NoSmallerBehind(id: int, v: seq<int>, w: seq<int>)
    requires NoSmaller(v, w)
    ensures NoSmaller([id] + v, [id] + w)
  {
    if v != w {
      var i :| 0 <= i < |v| && i < |w| && v[..i] == w[..i] && v[i] > w[i];
      var x, y := [id] + v, [id] + w;
      assert x[..i + 1] == [id] + v[..i] && y[..i + 1] == [id] + w[..i];
      assert x[i + 1] > y[i + 1];
    }
  }

  /** The walk to the best todo `k` links up, foremost of all of its length. */
  lemma {:induction false} BestWalk(g: WorkGraph, id: int, k: nat) returns (v: seq<int>)
    requires Best(g, id, k).Some?
    ensures TodoWalk(g, id, v) && |v| == k + 1 && Best(g, id, k) == Some(v[k])
    ensures forall w | TodoWalk(g, id, w) && |w| == k + 1 :: NoSmaller(v, w)
    decreases k
  {
    if k == 0 {
      v := [id];
      forall w | TodoWalk(g, id, w) && |w| == 1 ensures NoSmaller(v, w) { assert w == [id]; }
    } else {
      var rows := UpRows(g, id);
      var at := FirstOf(g, rows, k - 1);
      var u := BestWalk(g, rows[at], k - 1);
      v := [id] + u;
      assert rows[at] in rows;
      Linkage(g, id, rows[at]);
      forall i | 0 < i < |v| ensures Linked(g, v[i - 1], v[i]) {
        if i > 1 { assert Linked(g, u[i - 2], u[i - 1]); }
      }
      forall w | TodoWalk(g, id, w) && |w| == k + 1 ensures NoSmaller(v, w) {
        AfterFirst(g, id, k, at, u, w);
      }
    }
  }

  lemma AfterFirst(g: WorkGraph, id: int, k: nat, at: nat, u: seq<int>, w: seq<int>)
    requires k > 0 && TodoWalk(g, id, w) && |w| == k + 1 && |u| == k
    requires at < |UpRows(g, id)| && u[0] == UpRows(g, id)[at]
    requires forall j | 0 <= j < at :: Best(g, UpRows(g, id)[j], k - 1).None?
    requires forall x | TodoWalk(g, u[0], x) && |x| == k :: NoSmaller(u, x)
    ensures NoSmaller([id] + u, w)
  {
    var rows, v := UpRows(g, id), [id] + u;
    TailWalk(g, id, w);
    Linkage(g, id, w[1]);
    WalkFound(g, w[1], w[1..]);
    var j :| 0 <= j < |rows| && rows[j] == w[1];
    OrderByRows(Targets(g.links, id), true);
    if w[1] == u[0] {
      NoSmallerBehind(id, u, w[1..]);
      assert w == [id] + w[1..];
    } else {
      assert at < j && Precedes(rows[at], rows[j], true);
      assert v[..1] == [id] == w[..1] && v[1] > w[1];
    }
  }

  /** `branch_root` answers `t` exactly when the foremost of the shortest walks
      to a todo ends at `t`; and nothing exactly when no walk leads to one. */
  lemma AnswersForemost(g: WorkGraph, id: int)
    requires Uncut(g, id)
    ensures forall t :: BranchRoot(g, id) == Some(t) <==> exists v :: Foremost(g, id, v) && v[|v| - 1] == t
    ensures BranchRoot(g, id).None? <==> forall w :: !TodoWalk(g, id, w)
  {
    BranchRootIsNearest(g, id);
    if BranchRoot(g, id).None? {
      forall w ensures !TodoWalk(g, id, w) { if TodoWalk(g, id, w) { WalkFound(g, id, w); } }
    } else {
      var d: nat :| Distance(g, id, d) && Best(g, id, d) == BranchRoot(g, id);
      var v := BestWalk(g, id, d);
      forall w | TodoWalk(g, id, w) ensures |v| <= |w| && (|v| == |w| ==> NoSmaller(v, w)) {
        WalkFound(g, id, w);
        assert |w| - 1 >= d;
      }
      assert Foremost(g, id, v);
      forall u | Foremost(g, id, u) ensures u == v { OnlyForemost(g, id, u, v); }
    }
  }

  lemma OnlyForemost(g: WorkGraph, id: int, u: seq<int>, v: seq<int>)
    requires Foremost(g, id, u) && Foremost(g, id, v)
    ensures u == v
  {
    assert NoSmaller(u, v) && NoSmaller(v, u);
    if u != v { OneWay(u, v); }
  }

  lemma OneWay(u: seq<int>, v: seq<int>)
    requires u != v && NoSmaller(u, v)
    ensures !NoSmaller(v, u)
  {
    var i :| 0 <= i < |u| && i < |v| && u[..i] == v[..i] && u[i] > v[i];
    forall j | 0 <= j < |v| && j < |u| && v[..j] == u[..j] ensures v[j] <= u[j] {
      if i < j { SameBefore(u, v, j, i); } else if j < i { SameBefore(u, v, i, j); }
    }
  }

  lemma SameBefore(u: seq<int>, v: seq<int>, n: nat, i: nat)
    requires i < n <= |u| && n <= |v| && u[..n] == v[..n]
    ensures u[i] == v[i]
  {
    assert u[..n][i] == v[..n][i];
  }

  /** So an entry right under several todos hangs from the newest of them. */
  lemma NewestTodoWins(g: WorkGraph, id: int, t: int)
    requires Uncut(g, id) && id !in g.todos && t in g.todos && Linked(g, id, t)
    requires forall u | u in g.todos && Linked(g, id, u) :: u <= t
    ensures BranchRoot(g, id) == Some(t)
  {
    var v := [id, t];
    assert TodoWalk(g, id, v);
    forall w | TodoWalk(g, id, w) ensures |v| <= |w| && (|v| == |w| ==> NoSmaller(v, w)) {
      if |w| == 2 {
        assert Linked(g, w[0], w[1]);
        assert v[..1] == w[..1];
        assert w == [w[0], w[1]];
      }
    }
    assert Foremost(g, id, v) && v[|v| - 1] == t;
    AnswersForemost(g, id);
  }

  // ---------------------------------------------------------------------
  // The order of a branch.

  /** The entry at `i` comes before the one at `j`: `i` hangs under an entry of
      the list before which `j` has no parent, and under that very one the
      older of the two comes first. */
  ghost predicate Precedence(g: WorkGraph, r: seq<int>, i: nat, j: nat)
    requires i < |r| && j < |r|
  {
    exists p :: 0 <= p < i && Linked(g, r[i], r[p]) && (forall q | 0 <= q < p :: !Linked(g, r[j], r[q]))
      && (Linked(g, r[j], r[p]) ==> r[i] < r[j])
  }

  ghost predicate InTurn(g: WorkGraph, r: seq<int>) {
    forall i, j | 0 < i < j < |r| :: Precedence(g, r, i, j)
  }

  lemma {:induction false} HangingSorted(g: WorkGraph, root: int, seen: seq<int>, rows: seq<int>)
    requires |seen| <= BRANCH_LIMIT && Sorted(rows, false)
    ensures Sorted(Hanging(g, root, seen, rows), false)
    decreases |rows|
  {
    if rows != [] {
      if rows[0] in seen || |seen| >= BRANCH_LIMIT || rows[0] in g.todos {
        HangingSorted(g, root, seen, rows[1..]);
      } else if BranchRoot(g, rows[0]) == Some(root) {
        HangingSorted(g, root, seen + [rows[0]], rows[1..]);
        var rest := Hanging(g, root, seen + [rows[0]], rows[1..]);
        forall i | 0 <= i < |rest| ensures rows[0] <= rest[i] { assert rest[i] in rest; }
      } else {
        HangingSorted(g, root, seen, rows[1..]);
      }
    }
  }

  /** The first `d` of the list are expanded: the rest hangs under them, in turn,
      and nothing was left out under them unless the list is full. */
  ghost predicate Expanded(g: WorkGraph, root: int, seen: seq<int>, d: nat) {
    && d <= |seen| && InTurn(g, seen)
    && Parented(g, seen, d)
    && (|seen| < BRANCH_LIMIT ==> forall p | 0 <= p < d :: ClosedAt(g, root, seen[p], seen))
  }

  lemma NewUnderOld(g: WorkGraph, root: int, seen: seq<int>, d: nat)
    requires |seen| <= BRANCH_LIMIT && d < |seen| && Expanded(g, root, seen, d)
    ensures var f := Hanging(g, root, seen, DownRows(g, seen[d]));
            forall x | x in f :: Linked(g, x, seen[d]) && forall q | 0 <= q < d :: !Linked(g, x, seen[q])
  {
    var f := Hanging(g, root, seen, DownRows(g, seen[d]));
    forall x | x in f ensures Linked(g, x, seen[d]) && forall q | 0 <= q < d :: !Linked(g, x, seen[q]) {
      Linkage(g, x, seen[d]);
      forall q | 0 <= q < d ensures !Linked(g, x, seen[q]) {
        Linkage(g, x, seen[q]);
        assert |seen| < BRANCH_LIMIT;
        assert ClosedAt(g, root, seen[q], seen);
      }
    }
  }

  lemma OldInTurn(g: WorkGraph, seen: seq<int>, f: seq<int>, i: nat, j: nat)
    requires 0 < i < j < |seen| && Precedence(g, seen, i, j)
    ensures Precedence(g, seen + f, i, j)
  {
    var r := seen + f;
    var p :| 0 <= p < i && Linked(g, seen[i], seen[p]) && (forall q | 0 <= q < p :: !Linked(g, seen[j], seen[q]))
      && (Linked(g, seen[j], seen[p]) ==> seen[i] < seen[j]);
    assert r[i] == seen[i] && r[j] == seen[j] && r[p] == seen[p];
    assert forall q | 0 <= q < p :: r[q] == seen[q];
  }

  /** What is new under the one at `d`. */
  ghost predicate NewUnder(g: WorkGraph, seen: seq<int>, d: nat, f: seq<int>)
    requires d < |seen|
  {
    && NoDup(f) && Sorted(f, false)
    && forall x | x in f :: Linked(g, x, seen[d]) && forall q | 0 <= q < d :: !Linked(g, x, seen[q])
  }

  /** The entry at `i` hangs under one of the first `d`, before it. */
  ghost predicate HasParent(g: WorkGraph, seen: seq<int>, d: nat, i: nat)
    requires i < |seen|
  {
    exists p :: 0 <= p < i && p < d && Linked(g, seen[i], seen[p])
  }

  ghost predicate Parented(g: WorkGraph, seen: seq<int>, d: nat) {
    forall i | 0 < i < |seen| :: HasParent(g, seen, d, i)
  }

  lemma StillParented(g: WorkGraph, seen: seq<int>, d: nat, f: seq<int>, i: nat)
    requires d < |seen| && NewUnder(g, seen, d, f) && 0 < i < |seen + f|
    requires i < |seen| ==> HasParent(g, seen, d, i)
    ensures HasParent(g, seen + f, d + 1, i)
  {
    var r, n := seen + f, |seen|;
    if i < n {
      var p :| 0 <= p < i && p < d && Linked(g, seen[i], seen[p]);
      assert Linked(g, r[i], r[p]);
    } else {
      assert r[i] == f[i - n] && f[i - n] in f && Linked(g, r[i], r[d]);
    }
  }

  lemma NewInTurn(g: WorkGraph, seen: seq<int>, d: nat, f: seq<int>, i: nat, k: nat)
    requires d < |seen| && NewUnder(g, seen, d, f) && (i < |seen| ==> HasParent(g, seen, d, i))
    requires 0 < i < |seen| + k && k < |f|
    ensures Precedence(g, seen + f, i, |seen| + k)
  {
    var r, n := seen + f, |seen|;
    assert r[n + k] == f[k] && f[k] in f;
    if i < n {
      var p :| 0 <= p < i && p < d && Linked(g, seen[i], seen[p]);
      assert Linked(g, r[i], r[p]);
    } else {
      assert r[i] == f[i - n] && f[i - n] in f && Linked(g, r[i], r[d]);
      assert Precedes(f[i - n], f[k], false) && f[i - n] != f[k];
    }
  }

  lemma StillInTurn(g: WorkGraph, seen: seq<int>, d: nat, f: seq<int>)
    requires d < |seen| && NewUnder(g, seen, d, f) && Parented(g, seen, d) && InTurn(g, seen)
    ensures InTurn(g, seen + f) && Parented(g, seen + f, d + 1)
  {
    var r, n, e := seen + f, |seen|, d + 1;
    forall i, j | 0 < i < j < |r| ensures Precedence(g, r, i, j) {
      if j < n { OldInTurn(g, seen, f, i, j); } else { NewInTurn(g, seen, d, f, i, j - n); }
    }
    forall i | 0 < i < |r| ensures HasParent(g, r, e, i) { StillParented(g, seen, d, f, i); }
  }

  lemma StillClosed(g: WorkGraph, root: int, seen: seq<int>, d: nat, f: seq<int>, p: nat)
    requires |seen| <= BRANCH_LIMIT && p <= d < |seen| && |seen + f| < BRANCH_LIMIT
    requires f == Hanging(g, root, seen, DownRows(g, seen[d]))
    requires p < d ==> ClosedAt(g, root, seen[p], seen)
    ensures ClosedAt(g, root, (seen + f)[p], seen + f)
  {
  }

  lemma ExpandedNext(g: WorkGraph, root: int, seen: seq<int>, d: nat, f: seq<int>)
    requires |seen| <= BRANCH_LIMIT && d < |seen| && Expanded(g, root, seen, d)
    requires f == Hanging(g, root, seen, DownRows(g, seen[d]))
    ensures Expanded(g, root, seen + f, d + 1)
  {
    var r := seen + f;
    assert NewUnder(g, seen, d, f) by {
      NewUnderOld(g, root, seen, d);
      OrderByRows(Sources(g.links, seen[d]), false);
      HangingSorted(g, root, seen, DownRows(g, seen[d]));
    }
    StillInTurn(g, seen, d, f);
    if |r| < BRANCH_LIMIT {
      forall p | 0 <= p < d + 1 ensures ClosedAt(g, root, r[p], r) { StillClosed(g, root, seen, d, f, p); }
    }
  }

  lemma {:induction false} DownWalkInTurn(g: WorkGraph, root: int, seen: seq<int>, d: nat)
    requires |seen| <= BRANCH_LIMIT && Expanded(g, root, seen, d)
    ensures InTurn(g, DownWalk(g, root, seen, seen[d..]))
    decreases BRANCH_LIMIT - |seen|, |seen| - d
  {
    if d < |seen| {
      var f := Hanging(g, root, seen, DownRows(g, seen[d]));
      ExpandedNext(g, root, seen, d, f);
      assert seen[d..][0] == seen[d] && seen[d..][1..] + f == (seen + f)[d + 1..];
      DownWalkInTurn(g, root, seen + f, d + 1);
    }
  }

  /** A branch is listed breadth first, the entries under one in the order of
      their ids, with or without the cap. */
  lemma BranchInTurn(g: WorkGraph, root: int)
    ensures [root] <= BranchIds(g, root) && InTurn(g, BranchIds(g, root))
  {
    assert Expanded(g, root, [root], 0);
    assert [root][0..] == [root];
    DownWalkInTurn(g, root, [root], 0);
    DownWalkStarts(g, root, [root], [root]);
  }

  lemma {:induction false} DownWalkStarts(g: WorkGraph, root: int, seen: seq<int>, queue: seq<int>)
    requires |seen| <= BRANCH_LIMIT
    ensures seen <= DownWalk(g, root, seen, queue)
    decreases BRANCH_LIMIT - |seen|, |queue|
  {
    if queue != [] {
      var f := Hanging(g, root, seen, DownRows(g, queue[0]));
      DownWalkStarts(g, root, seen + f, queue[1..] + f);
    }
  }
}
