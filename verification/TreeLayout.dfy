/** The two-sided tree drawing of `src/mindmap_svg.rs`: bands, columns, and no
    two boxes overlap. */
module TreeLayout {

  const H_GAP := 64.0
  const V_GAP := 14.0

  /** A node with its measured box, and its children in order. */
  datatype Tree = Node(id: int, w: real, h: real, kids: seq<Tree>)

  datatype Box = Box(id: int, x: real, y: real, w: real, h: real, side: int, depth: nat) {
    function Left(): real { x - w / 2.0 }
    function Right(): real { x + w / 2.0 }
    function Top(): real { y - h / 2.0 }
    function Bottom(): real { y + h / 2.0 }
  }

  function Max(a: real, b: real): real { if a < b then b else a }

  predicate Sized(t: Tree) {
    t.w >= 0.0 && t.h >= 0.0 && forall k | k in t.kids :: Sized(k)
  }

  predicate AllSized(ts: seq<Tree>) { forall k | k in ts :: Sized(k) }

  // ---------------------------------------------------------------------
  // Bands.

  /** `band`: a subtree is as high as its box or as its children stacked. */
  function Band(t: Tree): real
    decreases t
  {
    Max(t.h, Stacked(t.kids))
  }

  function Bands(ts: seq<Tree>): real
    decreases ts, 0
  {
    if ts == [] then 0.0 else Band(ts[0]) + Bands(ts[1..])
  }

  function Gaps(n: nat): real { V_GAP * (if n == 0 then 0 else n - 1) as real }

  /** The height of a column of subtrees, with the gaps between them. */
  function Stacked(ts: seq<Tree>): real
    decreases ts, 1
  {
    Bands(ts) + Gaps(|ts|)
  }

  lemma GapsStep(n: nat)
    requires n > 0
    ensures Gaps(n + 1) == Gaps(n) + V_GAP && Gaps(n) >= 0.0
  {
    assert n as real == (n - 1) as real + 1.0;
  }

  lemma StackedStep(ts: seq<Tree>)
    requires ts != []
    ensures Stacked(ts) == Band(ts[0]) + if |ts| == 1 then 0.0 else V_GAP + Stacked(ts[1..])
  {
    if |ts| == 1 {
      assert Bands(ts[1..]) == 0.0;
      assert Gaps(|ts|) == V_GAP * (0 as real) == 0.0;
    } else {
      GapsStep(|ts| - 1);
    }
  }

  // ---------------------------------------------------------------------
  // Columns.

  /** The widest node `d` levels down. */
  function MaxAt(ts: seq<Tree>, d: nat): real {
    if ts == [] then 0.0
    else Max(if d == 0 then ts[0].w else MaxAt(ts[0].kids, d - 1), MaxAt(ts[1..], d))
  }

  type Widest = map<(int, nat), real>

  function At(widest: Widest, side: int, depth: nat): real {
    if (side, depth) in widest then widest[(side, depth)] else 0.0
  }

  datatype Columns = Columns(rootW: real, widest: Widest)

  /** Where the column of a depth begins, counted from the topic. */
  function Edge(c: Columns, side: int, depth: nat): real {
    if depth <= 1 then c.rootW / 2.0 + H_GAP
    else Edge(c, side, depth - 1) + At(c.widest, side, depth - 1) + H_GAP
  }

  function ColumnX(c: Columns, side: int, depth: nat): real {
    side as real * (Edge(c, side, depth) + At(c.widest, side, depth) / 2.0)
  }

  // ---------------------------------------------------------------------
  // Placing.

  /** `place`: the children centred in the band, the node in its middle. */
  function Place(t: Tree, top: real, side: int, depth: nat, c: Columns): seq<Box> {
    PlaceAll(t.kids, top + (Band(t) - Stacked(t.kids)) / 2.0, side, depth + 1, c)
      + [Box(t.id, ColumnX(c, side, depth), top + Band(t) / 2.0, t.w, t.h, side, depth)]
  }

  function PlaceAll(ts: seq<Tree>, y: real, side: int, depth: nat, c: Columns): seq<Box> {
    if ts == [] then []
    else Place(ts[0], y, side, depth, c) + PlaceAll(ts[1..], y + Band(ts[0]) + V_GAP, side, depth, c)
  }

  /** Inside a vertical strip, at a depth or deeper, on one side. */
  ghost predicate Within(b: Box, top: real, bottom: real, side: int, depth: nat) {
    top <= b.Top() && b.Bottom() <= bottom && b.side == side && depth <= b.depth
  }

  ghost predicate AllWithin(bs: seq<Box>, top: real, bottom: real, side: int, depth: nat) {
    forall i | 0 <= i < |bs| :: Within(bs[i], top, bottom, side, depth)
  }

  /** Each subtree stays inside its band. */
  lemma {:induction false} PlacedInBand(t: Tree, top: real, side: int, depth: nat, c: Columns)
    requires Sized(t)
    ensures AllWithin(Place(t, top, side, depth, c), top, top + Band(t), side, depth)
    decreases t
  {
    PlacedInStack(t.kids, top + (Band(t) - Stacked(t.kids)) / 2.0, side, depth + 1, c);
  }

  lemma {:induction false} PlacedInStack(ts: seq<Tree>, y: real, side: int, depth: nat, c: Columns)
    requires AllSized(ts)
    ensures AllWithin(PlaceAll(ts, y, side, depth, c), y, y + Stacked(ts), side, depth)
    decreases ts
  {
    if ts != [] {
      StackedStep(ts);
      BandPositive(ts[0]);
      PlacedInBand(ts[0], y, side, depth, c);
      PlacedInStack(ts[1..], y + Band(ts[0]) + V_GAP, side, depth, c);
      StackPositive(ts[1..]);
    }
  }

  lemma {:induction false} BandPositive(t: Tree)
    requires Sized(t)
    ensures Band(t) >= t.h >= 0.0 && Band(t) >= Stacked(t.kids)
  {
  }

  lemma {:induction false} StackPositive(ts: seq<Tree>)
    requires AllSized(ts)
    ensures Bands(ts) >= 0.0 && Stacked(ts) >= 0.0
    decreases ts
  {
    if ts != [] {
      BandPositive(ts[0]);
      StackPositive(ts[1..]);
    }
  }

  ghost predicate VApart(a: Box, b: Box) {
    a.Bottom() + V_GAP <= b.Top() || b.Bottom() + V_GAP <= a.Top()
  }

  ghost predicate HApart(a: Box, b: Box) {
    a.Right() + H_GAP <= b.Left() || b.Right() + H_GAP <= a.Left()
  }

  /** Boxes of one column keep a gap. */
  ghost predicate Columned(bs: seq<Box>) {
    forall i, j | 0 <= i < j < |bs| :: bs[i].depth == bs[j].depth ==> VApart(bs[i], bs[j])
  }

  lemma ColumnedConcat(a: seq<Box>, b: seq<Box>, top: real, mid: real, bottom: real, side: int, depth: nat)
    requires Columned(a) && Columned(b)
    requires AllWithin(a, top, mid, side, depth) && AllWithin(b, mid + V_GAP, bottom, side, depth)
    ensures Columned(a + b)
  {
    var c := a + b;
    forall i, j | 0 <= i < j < |c| && c[i].depth == c[j].depth ensures VApart(c[i], c[j]) {
      if i < |a| <= j {
        assert Within(a[i], top, mid, side, depth) && Within(b[j - |a|], mid + V_GAP, bottom, side, depth);
      }
    }
  }

  lemma {:induction false} PlacedColumned(t: Tree, top: real, side: int, depth: nat, c: Columns)
    requires Sized(t)
    ensures Columned(Place(t, top, side, depth, c))
    decreases t
  {
    var y := top + (Band(t) - Stacked(t.kids)) / 2.0;
    PlacedAllColumned(t.kids, y, side, depth + 1, c);
    PlacedInStack(t.kids, y, side, depth + 1, c);
    var kids, all := PlaceAll(t.kids, y, side, depth + 1, c), Place(t, top, side, depth, c);
    forall i, j | 0 <= i < j < |all| && all[i].depth == all[j].depth ensures VApart(all[i], all[j]) {
      assert Within(kids[i], y, y + Stacked(t.kids), side, depth + 1);
    }
  }

  lemma {:induction false} PlacedAllColumned(ts: seq<Tree>, y: real, side: int, depth: nat, c: Columns)
    requires AllSized(ts)
    ensures Columned(PlaceAll(ts, y, side, depth, c))
    decreases ts
  {
    if ts != [] {
      var next := y + Band(ts[0]) + V_GAP;
      PlacedColumned(ts[0], y, side, depth, c);
      PlacedInBand(ts[0], y, side, depth, c);
      PlacedAllColumned(ts[1..], next, side, depth, c);
      PlacedInStack(ts[1..], next, side, depth, c);
      ColumnedConcat(Place(ts[0], y, side, depth, c), PlaceAll(ts[1..], next, side, depth, c),
                     y, y + Band(ts[0]), next + Stacked(ts[1..]), side, depth);
    }
  }

  // ---------------------------------------------------------------------
  // Boxes stay in their columns.

  /** In the column of its depth, no wider than it. */
  ghost predicate InColumn(b: Box, c: Columns) {
    0.0 <= b.w <= At(c.widest, b.side, b.depth) && b.x == ColumnX(c, b.side, b.depth) && 0.0 <= b.h
  }

  ghost predicate InColumns(bs: seq<Box>, c: Columns) { forall i | 0 <= i < |bs| :: InColumn(bs[i], c) }

  /** The columns are wide enough for the forest at `depth`. */
  ghost predicate Wide(c: Columns, side: int, depth: nat, ts: seq<Tree>) {
    forall d: nat :: MaxAt(ts, d) <= At(c.widest, side, depth + d)
  }

  lemma {:induction false} PlacedInColumns(ts: seq<Tree>, y: real, side: int, depth: nat, c: Columns)
    requires AllSized(ts) && Wide(c, side, depth, ts)
    ensures InColumns(PlaceAll(ts, y, side, depth, c), c)
    decreases ts
  {
    if ts != [] {
      var t := ts[0];
      assert t in ts;
      forall d: nat ensures MaxAt(t.kids, d) <= At(c.widest, side, depth + 1 + d) {
        assert MaxAt(ts, d + 1) <= At(c.widest, side, depth + (d + 1));
      }
      forall d: nat ensures MaxAt(ts[1..], d) <= At(c.widest, side, depth + d) {
        assert MaxAt(ts, d) <= At(c.widest, side, depth + d);
      }
      assert MaxAt(ts, 0) <= At(c.widest, side, depth + 0);
      var top := y + (Band(t) - Stacked(t.kids)) / 2.0;
      PlacedInColumns(t.kids, top, side, depth + 1, c);
      PlacedInColumns(ts[1..], y + Band(t) + V_GAP, side, depth, c);
      var own := Box(t.id, ColumnX(c, side, depth), y + Band(t) / 2.0, t.w, t.h, side, depth);
      assert InColumn(own, c);
      assert PlaceAll(ts, y, side, depth, c) ==
             PlaceAll(t.kids, top, side, depth + 1, c) + [own] + PlaceAll(ts[1..], y + Band(t) + V_GAP, side, depth, c);
    }
  }

  // ---------------------------------------------------------------------
  // Columns do not touch.

  /** From the topic outwards a column ends a gap before the next begins. */
  lemma {:induction false} EdgesGrow(c: Columns, side: int, d: nat, e: nat)
    requires 1 <= d < e && forall k: nat :: At(c.widest, side, k) >= 0.0
    ensures Edge(c, side, d) + At(c.widest, side, d) + H_GAP <= Edge(c, side, e)
    decreases e
  {
    if d < e - 1 {
      EdgesGrow(c, side, d, e - 1);
      assert At(c.widest, side, e - 1) >= 0.0;
    }
  }

  lemma {:induction false} EdgeAway(c: Columns, side: int, d: nat)
    requires 1 <= d && forall k: nat :: At(c.widest, side, k) >= 0.0
    ensures Edge(c, side, d) >= c.rootW / 2.0 + H_GAP
  {
    if d > 1 {
      EdgeAway(c, side, d - 1);
      assert At(c.widest, side, d - 1) >= 0.0;
    }
  }

  /** Where a box in a column lies, mirrored on the left. */
  lemma Spans(b: Box, c: Columns)
    requires InColumn(b, c) && (b.side == 1 || b.side == -1)
    ensures b.side == 1 ==>
        Edge(c, 1, b.depth) <= b.Left() && b.Right() <= Edge(c, 1, b.depth) + At(c.widest, 1, b.depth)
    ensures b.side == -1 ==>
        b.Right() <= -Edge(c, -1, b.depth) && -Edge(c, -1, b.depth) - At(c.widest, -1, b.depth) <= b.Left()
  {
    var mid := Edge(c, b.side, b.depth) + At(c.widest, b.side, b.depth) / 2.0;
    assert b.side == 1 ==> b.x == 1.0 * mid == mid;
    assert b.side == -1 ==> b.x == -1.0 * mid == -mid;
  }

  ghost predicate NonNegative(c: Columns) {
    c.rootW >= 0.0 && forall side: int, k: nat :: At(c.widest, side, k) >= 0.0
  }

  /** Boxes of one side at different depths are a gap apart. */
  lemma DepthsApart(a: Box, b: Box, c: Columns)
    requires InColumn(a, c) && InColumn(b, c) && NonNegative(c)
    requires a.side == b.side && (a.side == 1 || a.side == -1) && 1 <= a.depth < b.depth
    ensures HApart(a, b)
  {
    Spans(a, c);
    Spans(b, c);
    EdgesGrow(c, a.side, a.depth, b.depth);
  }

  /** Left and right lie on their sides of the topic. */
  lemma SidesApart(a: Box, b: Box, c: Columns)
    requires InColumn(a, c) && InColumn(b, c) && NonNegative(c) && a.side == 1 && b.side == -1 && a.depth >= 1
             && b.depth >= 1
    ensures HApart(a, b)
  {
    Spans(a, c);
    Spans(b, c);
    EdgeAway(c, 1, a.depth);
    EdgeAway(c, -1, b.depth);
  }

  lemma TopicApart(a: Box, topic: Box, c: Columns)
    requires InColumn(a, c) && NonNegative(c) && (a.side == 1 || a.side == -1) && a.depth >= 1
    requires topic.x == 0.0 && topic.w == c.rootW
    ensures HApart(a, topic)
  {
    Spans(a, c);
    EdgeAway(c, a.side, a.depth);
  }

  // ---------------------------------------------------------------------
  // The whole drawing.

  /** Each of the topic's children goes to the shorter side. */
  function Sides(ts: seq<Tree>, rh: real, lh: real): (seq<Tree>, seq<Tree>)
    decreases ts
  {
    if ts == [] then ([], [])
    else if rh <= lh then
      var r := Sides(ts[1..], rh + Band(ts[0]) + V_GAP, lh);
      ([ts[0]] + r.0, r.1)
    else
      var r := Sides(ts[1..], rh, lh + Band(ts[0]) + V_GAP);
      (r.0, [ts[0]] + r.1)
  }

  function Abs(r: real): real { if r < 0.0 then -r else r }

  /** The tallest subtree with its gap. */
  function Tallest(ts: seq<Tree>): real
    decreases ts, 1
  {
    if ts == [] then 0.0 else Max(Band(ts[0]) + V_GAP, Tallest(ts[1..]))
  }

  /** The sides stay balanced: they differ by no more than the tallest subtree. */
  lemma {:induction false} SidesBalanced(ts: seq<Tree>, rh: real, lh: real, most: real)
    requires AllSized(ts) && Abs(rh - lh) <= most && Tallest(ts) <= most
    ensures var s := Sides(ts, rh, lh);
            Abs((rh + Bands(s.0) + V_GAP * |s.0| as real) - (lh + Bands(s.1) + V_GAP * |s.1| as real)) <= most
    decreases ts
  {
    if ts != [] {
      BandPositive(ts[0]);
      var step := Band(ts[0]) + V_GAP;
      var s := Sides(ts, rh, lh);
      if rh <= lh {
        SidesBalanced(ts[1..], rh + step, lh, most);
        var t := Sides(ts[1..], rh + step, lh);
        assert s.0[1..] == t.0 && |s.0| as real == |t.0| as real + 1.0;
        assert V_GAP * (|t.0| as real + 1.0) == V_GAP * |t.0| as real + V_GAP;
      } else {
        SidesBalanced(ts[1..], rh, lh + step, most);
        var t := Sides(ts[1..], rh, lh + step);
        assert s.1[1..] == t.1 && |s.1| as real == |t.1| as real + 1.0;
        assert V_GAP * (|t.1| as real + 1.0) == V_GAP * |t.1| as real + V_GAP;
      }
    }
  }

  // ---------------------------------------------------------------------
  // The widest node of every column, found with a stack.

  datatype Item = Item(t: Tree, side: int, depth: nat)

  function Items(ts: seq<Tree>, side: int, depth: nat): seq<Item> {
    if ts == [] then [] else [Item(ts[0], side, depth)] + Items(ts[1..], side, depth)
  }

  /** The widest node at (side, d) under what is on the stack. */
  function Waiting(stack: seq<Item>, side: int, d: nat): real {
    if stack == [] then 0.0
    else Max(if stack[0].side == side && stack[0].depth <= d then MaxAt([stack[0].t], d - stack[0].depth) else 0.0,
             Waiting(stack[1..], side, d))
  }

  function Size(t: Tree): nat
    decreases t
  {
    1 + Sizes(t.kids)
  }

  function Sizes(ts: seq<Tree>): nat
    decreases ts
  {
    if ts == [] then 0 else Size(ts[0]) + Sizes(ts[1..])
  }

  function StackSize(stack: seq<Item>): nat {
    if stack == [] then 0 else Size(stack[0].t) + StackSize(stack[1..])
  }

  lemma {:induction false} WaitingConcat(a: seq<Item>, b: seq<Item>, side: int, d: nat)
    ensures Waiting(a + b, side, d) == Max(Waiting(a, side, d), Waiting(b, side, d))
    ensures StackSize(a + b) == StackSize(a) + StackSize(b)
    ensures Waiting(a, side, d) >= 0.0
  {
    if a == [] {
      assert a + b == b;
      WaitingPositive(b, side, d);
    } else {
      assert (a + b)[1..] == a[1..] + b;
      WaitingConcat(a[1..], b, side, d);
    }
  }

  lemma {:induction false} WaitingPositive(a: seq<Item>, side: int, d: nat)
    ensures Waiting(a, side, d) >= 0.0
  {
    if a != [] { WaitingPositive(a[1..], side, d); }
  }

  lemma {:induction false} MaxAtPositive(ts: seq<Tree>, d: nat)
    ensures MaxAt(ts, d) >= 0.0
  {
    if ts != [] { MaxAtPositive(ts[1..], d); }
  }

  lemma {:induction false} ItemsWait(ts: seq<Tree>, side: int, depth: nat, at: int, d: nat)
    ensures Waiting(Items(ts, side, depth), at, d) == if at == side && depth <= d then MaxAt(ts, d - depth) else 0.0
    ensures StackSize(Items(ts, side, depth)) == Sizes(ts)
  {
    if ts != [] {
      ItemsWait(ts[1..], side, depth, at, d);
      if depth <= d { OneTree(ts[0], d - depth); MaxAtPositive(ts[1..], d - depth); }
    }
  }

  lemma OneTree(t: Tree, d: nat)
    ensures MaxAt([t], d) == Max(if d == 0 then t.w else MaxAt(t.kids, d - 1), 0.0)
  {
    assert [t][1..] == [];
  }

  method PushAll(stack: seq<Item>, ts: seq<Tree>, side: int, depth: nat) returns (out: seq<Item>)
    ensures out == stack + Items(ts, side, depth)
  {
    out := stack;
    for i := 0 to |ts|
      invariant out + Items(ts[i..], side, depth) == stack + Items(ts, side, depth)
    {
      assert ts[i..][0] == ts[i] && ts[i..][1..] == ts[i + 1..];
      out := out + [Item(ts[i], side, depth)];
    }
  }

  /** What is found so far, and what the stack still holds. */
  function Found(widest: Widest, stack: seq<Item>, side: int, d: nat): real {
    Max(At(widest, side, d), Waiting(stack, side, d))
  }

  /** Taking a node off the stack and pushing its children loses nothing. */
  lemma TakeOne(widest: Widest, front: seq<Item>, it: Item, side: int, d: nat)
    requires Sized(it.t) && At(widest, side, d) >= 0.0
    ensures var next := widest[(it.side, it.depth) := Max(At(widest, it.side, it.depth), it.t.w)];
            Found(next, front + Items(it.t.kids, it.side, it.depth + 1), side, d)
              == Found(widest, front + [it], side, d)
  {
    WaitingConcat(front, [it], side, d);
    WaitingConcat(front, Items(it.t.kids, it.side, it.depth + 1), side, d);
    ItemsWait(it.t.kids, it.side, it.depth + 1, side, d);
    assert [it][1..] == [];
    if it.depth <= d {
      OneTree(it.t, d - it.depth);
      if it.depth < d { MaxAtPositive(it.t.kids, d - it.depth - 1); }
    }
  }

  ghost predicate ItemsSized(stack: seq<Item>) { forall i | 0 <= i < |stack| :: Sized(stack[i].t) }

  method FindWidest(right: seq<Tree>, left: seq<Tree>) returns (widest: Widest)
    requires AllSized(right) && AllSized(left)
    ensures forall d: nat :: At(widest, 1, d + 1) == MaxAt(right, d) && At(widest, -1, d + 1) == MaxAt(left, d)
    ensures forall side: int, d: nat :: At(widest, side, d) >= 0.0
  {
    widest := map[];
    var stack := PushAll([], right, 1, 1);
    stack := PushAll(stack, left, -1, 1);
    ghost var start := stack;
    ItemsAreSized(right, 1, 1);
    ItemsAreSized(left, -1, 1);
    while stack != []
      invariant ItemsSized(stack) && forall side: int, d: nat :: At(widest, side, d) >= 0.0
      invariant forall side: int, d: nat :: Found(widest, stack, side, d) == Found(map[], start, side, d)
      decreases StackSize(stack)
    {
      var front, it := stack[..|stack| - 1], stack[|stack| - 1];
      assert stack == front + [it] && Sized(it.t);
      var next := widest[(it.side, it.depth) := Max(At(widest, it.side, it.depth), it.t.w)];
      forall side: int, d: nat
        ensures Found(next, front + Items(it.t.kids, it.side, it.depth + 1), side, d) == Found(map[], start, side, d)
      {
        TakeOne(widest, front, it, side, d);
      }
      forall side: int, d: nat ensures At(next, side, d) >= 0.0 { assert At(widest, side, d) >= 0.0; }
      ItemsAreSized(it.t.kids, it.side, it.depth + 1);
      Smaller(front, it);
      stack := PushAll(front, it.t.kids, it.side, it.depth + 1);
      widest := next;
    }
    forall d: nat ensures At(widest, 1, d + 1) == MaxAt(right, d) && At(widest, -1, d + 1) == MaxAt(left, d) {
      Done(widest, right, left, 1, d);
      Done(widest, right, left, -1, d);
    }
  }

  lemma {:induction false} ItemsAreSized(ts: seq<Tree>, side: int, depth: nat)
    requires AllSized(ts)
    ensures ItemsSized(Items(ts, side, depth))
  {
    if ts != [] { ItemsAreSized(ts[1..], side, depth); }
  }

  lemma Smaller(front: seq<Item>, it: Item)
    ensures StackSize(front + Items(it.t.kids, it.side, it.depth + 1)) < StackSize(front + [it])
  {
    WaitingConcat(front, [it], 0, 0);
    WaitingConcat(front, Items(it.t.kids, it.side, it.depth + 1), 0, 0);
    ItemsWait(it.t.kids, it.side, it.depth + 1, 0, 0);
    assert [it][1..] == [];
  }

  lemma Done(widest: Widest, right: seq<Tree>, left: seq<Tree>, side: int, d: nat)
    requires At(widest, side, d + 1) >= 0.0
    requires Found(widest, [], side, d + 1) == Found(map[], [] + Items(right, 1, 1) + Items(left, -1, 1), side, d + 1)
    ensures side == 1 ==> At(widest, side, d + 1) == MaxAt(right, d)
    ensures side == -1 ==> At(widest, side, d + 1) == MaxAt(left, d)
  {
    assert [] + Items(right, 1, 1) == Items(right, 1, 1);
    WaitingConcat(Items(right, 1, 1), Items(left, -1, 1), side, d + 1);
    ItemsWait(right, 1, 1, side, d + 1);
    ItemsWait(left, -1, 1, side, d + 1);
    MaxAtPositive(right, d);
    MaxAtPositive(left, d);
  }

  // ---------------------------------------------------------------------
  // `layout`.

  method SplitSides(ts: seq<Tree>) returns (right: seq<Tree>, left: seq<Tree>)
    ensures right == Sides(ts, 0.0, 0.0).0 && left == Sides(ts, 0.0, 0.0).1
  {
    right, left := [], [];
    var rh, lh := 0.0, 0.0;
    assert ts[0..] == ts;
    for i := 0 to |ts|
      invariant right + Sides(ts[i..], rh, lh).0 == Sides(ts, 0.0, 0.0).0
      invariant left + Sides(ts[i..], rh, lh).1 == Sides(ts, 0.0, 0.0).1
    {
      assert ts[i..][0] == ts[i] && ts[i..][1..] == ts[i + 1..];
      if rh <= lh {
        rh := rh + Band(ts[i]) + V_GAP;
        right := right + [ts[i]];
      } else {
        lh := lh + Band(ts[i]) + V_GAP;
        left := left + [ts[i]];
      }
    }
  }

  /** The subtrees of one side, one below the other, centred on the topic. */
  method PlaceSide(ts: seq<Tree>, side: int, c: Columns) returns (bs: seq<Box>)
    ensures bs == PlaceAll(ts, -Stacked(ts) / 2.0, side, 1, c)
  {
    bs := [];
    var y := -Stacked(ts) / 2.0;
    assert ts[0..] == ts;
    for i := 0 to |ts|
      invariant bs + PlaceAll(ts[i..], y, side, 1, c) == PlaceAll(ts, -Stacked(ts) / 2.0, side, 1, c)
    {
      assert ts[i..][0] == ts[i] && ts[i..][1..] == ts[i + 1..];
      bs := bs + Place(ts[i], y, side, 1, c);
      y := y + Band(ts[i]) + V_GAP;
    }
  }

  /** A node's id and measured size. */
  type Measure = (int, real, real)

  /** How many nodes of the tree have this id and size. */
  function Held(t: Tree, n: Measure): nat
    decreases t
  {
    (if (t.id, t.w, t.h) == n then 1 else 0) + AllHeld(t.kids, n)
  }

  function AllHeld(ts: seq<Tree>, n: Measure): nat
    decreases ts
  {
    if ts == [] then 0 else Held(ts[0], n) + AllHeld(ts[1..], n)
  }

  /** How many boxes do. */
  function Drawn(bs: seq<Box>, n: Measure): nat {
    if bs == [] then 0 else (if (bs[0].id, bs[0].w, bs[0].h) == n then 1 else 0) + Drawn(bs[1..], n)
  }

  lemma {:induction false} DrawnConcat(a: seq<Box>, b: seq<Box>, n: Measure)
    ensures Drawn(a + b, n) == Drawn(a, n) + Drawn(b, n)
  {
    if a == [] {
      assert a + b == b;
    } else {
      assert (a + b)[1..] == a[1..] + b;
      DrawnConcat(a[1..], b, n);
    }
  }

  /** Each node of a subtree gets a box of its size. */
  lemma {:induction false} PlacedDrawn(t: Tree, top: real, side: int, depth: nat, c: Columns, n: Measure)
    ensures Drawn(Place(t, top, side, depth, c), n) == Held(t, n)
    decreases t
  {
    var y := top + (Band(t) - Stacked(t.kids)) / 2.0;
    var own := Box(t.id, ColumnX(c, side, depth), top + Band(t) / 2.0, t.w, t.h, side, depth);
    PlacedAllDrawn(t.kids, y, side, depth + 1, c, n);
    DrawnConcat(PlaceAll(t.kids, y, side, depth + 1, c), [own], n);
    assert [own][1..] == [];
  }

  lemma {:induction false} PlacedAllDrawn(ts: seq<Tree>, y: real, side: int, depth: nat, c: Columns, n: Measure)
    ensures Drawn(PlaceAll(ts, y, side, depth, c), n) == AllHeld(ts, n)
    decreases ts
  {
    if ts != [] {
      PlacedDrawn(ts[0], y, side, depth, c, n);
      PlacedAllDrawn(ts[1..], y + Band(ts[0]) + V_GAP, side, depth, c, n);
      DrawnConcat(Place(ts[0], y, side, depth, c), PlaceAll(ts[1..], y + Band(ts[0]) + V_GAP, side, depth, c), n);
    }
  }

  /** The sides hold the children between them. */
  lemma {:induction false} SidesHold(ts: seq<Tree>, rh: real, lh: real, n: Measure)
    ensures AllHeld(Sides(ts, rh, lh).0, n) + AllHeld(Sides(ts, rh, lh).1, n) == AllHeld(ts, n)
    decreases ts
  {
    if ts != [] {
      var t, rest, step := ts[0], ts[1..], Band(ts[0]) + V_GAP;
      var r := if rh <= lh then Sides(rest, rh + step, lh) else Sides(rest, rh, lh + step);
      if rh <= lh { SidesHold(rest, rh + step, lh, n); } else { SidesHold(rest, rh, lh + step, n); }
      assert ([t] + r.0)[1..] == r.0 && ([t] + r.1)[1..] == r.1;
    }
  }

  lemma {:induction false} SidesSized(ts: seq<Tree>, rh: real, lh: real)
    requires AllSized(ts)
    ensures AllSized(Sides(ts, rh, lh).0) && AllSized(Sides(ts, rh, lh).1)
    decreases ts
  {
    if ts != [] {
      if rh <= lh { SidesSized(ts[1..], rh + Band(ts[0]) + V_GAP, lh); }
        else { SidesSized(ts[1..], rh, lh + Band(ts[0]) + V_GAP); }
    }
  }

  /** Two boxes do not overlap: a gap between columns, or within one. */
  ghost predicate Clear(a: Box, b: Box) {
    if a.side == b.side && a.depth == b.depth then VApart(a, b) else HApart(a, b)
  }

  ghost predicate OneSide(bs: seq<Box>, side: int, c: Columns) {
    InColumns(bs, c) && Columned(bs) && forall i | 0 <= i < |bs| :: bs[i].side == side && bs[i].depth >= 1
  }

  lemma SideIs(ts: seq<Tree>, side: int, c: Columns)
    requires AllSized(ts) && Wide(c, side, 1, ts)
    ensures OneSide(PlaceAll(ts, -Stacked(ts) / 2.0, side, 1, c), side, c)
  {
    var y := -Stacked(ts) / 2.0;
    PlacedInColumns(ts, y, side, 1, c);
    PlacedAllColumned(ts, y, side, 1, c);
    PlacedInStack(ts, y, side, 1, c);
    var bs := PlaceAll(ts, y, side, 1, c);
    forall i | 0 <= i < |bs|
      ensures bs[i].side == side && bs[i].depth >= 1
    {
      assert Within(bs[i], y, y + Stacked(ts), side, 1);
    }
  }

  lemma SideClear(bs: seq<Box>, side: int, c: Columns)
    requires OneSide(bs, side, c) && NonNegative(c) && (side == 1 || side == -1)
    ensures forall i, j | 0 <= i < j < |bs| :: Clear(bs[i], bs[j])
  {
    forall i, j | 0 <= i < j < |bs| ensures Clear(bs[i], bs[j]) {
      if bs[i].depth < bs[j].depth { DepthsApart(bs[i], bs[j], c); }
      if bs[j].depth < bs[i].depth { DepthsApart(bs[j], bs[i], c); }
    }
  }

  lemma AllClear(topic: Box, right: seq<Box>, left: seq<Box>, c: Columns)
    requires NonNegative(c) && OneSide(right, 1, c) && OneSide(left, -1, c)
    requires topic.x == 0.0 && topic.w == c.rootW && topic.side == 0
    ensures forall i, j | 0 <= i < j < |[topic] + right + left| ::
            Clear(([topic] + right + left)[i], ([topic] + right + left)[j])
  {
    var all, n := [topic] + right + left, 1 + |right|;
    SideClear(right, 1, c);
    SideClear(left, -1, c);
    forall i, j | 0 <= i < j < |all| ensures Clear(all[i], all[j]) {
      if i == 0 {
        TopicApart(all[j], topic, c);
      } else if i < n <= j {
        SidesApart(all[i], all[j], c);
      } else if j < n {
        assert all[i] == right[i - 1] && all[j] == right[j - 1];
      } else {
        assert all[i] == left[i - n] && all[j] == left[j - n];
      }
    }
  }

  lemma DrawnOnce(t: Tree, topic: Box, r: seq<Box>, l: seq<Box>, c: Columns, n: Measure)
    requires topic.id == t.id && topic.w == t.w && topic.h == t.h
    requires var s := Sides(t.kids, 0.0, 0.0);
             r == PlaceAll(s.0, -Stacked(s.0) / 2.0, 1, 1, c) && l == PlaceAll(s.1, -Stacked(s.1) / 2.0, -1, 1, c)
    ensures Drawn([topic] + r + l, n) == Held(t, n)
  {
    var s := Sides(t.kids, 0.0, 0.0);
    SidesHold(t.kids, 0.0, 0.0, n);
    PlacedAllDrawn(s.0, -Stacked(s.0) / 2.0, 1, 1, c, n);
    PlacedAllDrawn(s.1, -Stacked(s.1) / 2.0, -1, 1, c, n);
    DrawnConcat([topic], r, n);
    DrawnConcat([topic] + r, l, n);
    assert [topic][1..] == [];
  }

  lemma WideEnough(widest: Widest, side: int, ts: seq<Tree>, c: Columns)
    requires c.widest == widest && forall d: nat :: At(widest, side, d + 1) == MaxAt(ts, d)
    ensures Wide(c, side, 1, ts)
  {
    forall d: nat ensures MaxAt(ts, d) <= At(c.widest, side, 1 + d) { assert At(widest, side, d + 1) == MaxAt(ts, d); }
  }

  /** Columns as wide as their widest node. */
  ghost predicate Snug(t: Tree, c: Columns) {
    && c.rootW == t.w
    && forall d: nat ::
         && At(c.widest, 1, d + 1) == MaxAt(Sides(t.kids, 0.0, 0.0).0, d)
         && At(c.widest, -1, d + 1) == MaxAt(Sides(t.kids, 0.0, 0.0).1, d)
  }

  /** The topic at the centre, the subtrees of each side centred on it. */
  function Picture(t: Tree, c: Columns): seq<Box> {
    var s := Sides(t.kids, 0.0, 0.0);
    [Box(t.id, 0.0, 0.0, t.w, t.h, 0, 0)] + PlaceAll(s.0, -Stacked(s.0) / 2.0, 1, 1, c)
      + PlaceAll(s.1, -Stacked(s.1) / 2.0, -1, 1, c)
  }

  /** The whole layout: every node drawn once at its size, the topic at the
      centre, no two boxes closer than the gaps. */
  method Layout(t: Tree) returns (boxes: seq<Box>)
    requires Sized(t)
    ensures boxes != [] && boxes[0] == Box(t.id, 0.0, 0.0, t.w, t.h, 0, 0)
    ensures forall n: Measure :: Drawn(boxes, n) == Held(t, n)
    ensures forall i, j | 0 <= i < j < |boxes| :: Clear(boxes[i], boxes[j])
    ensures exists c :: Snug(t, c) && boxes == Picture(t, c)
  {
    var right, left := SplitSides(t.kids);
    SidesSized(t.kids, 0.0, 0.0);
    var widest := FindWidest(right, left);
    var c := Columns(t.w, widest);
    var r := PlaceSide(right, 1, c);
    var l := PlaceSide(left, -1, c);
    boxes := [Box(t.id, 0.0, 0.0, t.w, t.h, 0, 0)] + r + l;
    assert Snug(t, c) && boxes == Picture(t, c);
    PictureClear(t, c, right, left);
    forall n: Measure ensures Drawn(boxes, n) == Held(t, n) { DrawnOnce(t, boxes[0], r, l, c, n); }
  }

  lemma PictureClear(t: Tree, c: Columns, right: seq<Tree>, left: seq<Tree>)
    requires Snug(t, c) && AllSized(right) && AllSized(left) && t.w >= 0.0
    requires right == Sides(t.kids, 0.0, 0.0).0 && left == Sides(t.kids, 0.0, 0.0).1
    requires forall side: int, d: nat :: At(c.widest, side, d) >= 0.0
    ensures var boxes := Picture(t, c); forall i, j | 0 <= i < j < |boxes| :: Clear(boxes[i], boxes[j])
  {
    WideEnough(c.widest, 1, right, c);
    WideEnough(c.widest, -1, left, c);
    SideIs(right, 1, c);
    SideIs(left, -1, c);
    AllClear(Box(t.id, 0.0, 0.0, t.w, t.h, 0, 0), PlaceAll(right, -Stacked(right) / 2.0, 1, 1, c),
             PlaceAll(left, -Stacked(left) / 2.0, -1, 1, c), c);
  }

  /** Clear boxes do not overlap. */
  lemma ClearDoNotOverlap(a: Box, b: Box)
    requires Clear(a, b)
    ensures a.Right() <= b.Left() || b.Right() <= a.Left() || a.Bottom() <= b.Top() || b.Bottom() <= a.Top()
  {
  }
}
