/** The shape of the tree drawing, said of the boxes alone: parents stand in the
    middle, siblings below one another, columns side by side. */
module TreeShape {
  import opened TreeLayout

  function Min(a: real, b: real): real { if b < a then b else a }

  /** The upper and the lower edge of some boxes. */
  function Upper(bs: seq<Box>): real
    requires bs != []
  {
    if |bs| == 1 then bs[0].Top() else Min(Upper(bs[..|bs| - 1]), bs[|bs| - 1].Top())
  }

  function Lower(bs: seq<Box>): real
    requires bs != []
  {
    if |bs| == 1 then bs[0].Bottom() else Max(Lower(bs[..|bs| - 1]), bs[|bs| - 1].Bottom())
  }

  function Mid(bs: seq<Box>): real
    requires bs != []
  {
    (Upper(bs) + Lower(bs)) / 2.0
  }

  /** The boxes of a subtree, its own last: it stands in the middle of them all, and
      of those under it. */
  ghost predicate Tidy(t: Tree, bs: seq<Box>, side: int, depth: nat)
    decreases t
  {
    && |bs| == Size(t)
    && var own, under := bs[|bs| - 1], bs[..|bs| - 1];
       && own.id == t.id && own.w == t.w && own.h == t.h && own.side == side && own.depth == depth
       && own.y == Mid(bs) && (under != [] ==> Mid(under) == own.y)
       && TidyAll(t.kids, under, side, depth + 1)
  }

  /** Subtrees one below the other in their order, V_GAP between two. */
  ghost predicate TidyAll(ts: seq<Tree>, bs: seq<Box>, side: int, depth: nat)
    decreases ts
  {
    && |bs| == Sizes(ts)
    && (ts == [] ||
        (Tidy(ts[0], bs[..Size(ts[0])], side, depth) && TidyAll(ts[1..], bs[Size(ts[0])..], side, depth)
         && (|ts| > 1 ==> Follows(bs[..Size(ts[0])], bs[Size(ts[0])..]))))
  }

  /** What comes next begins a gap below. */
  ghost predicate Follows(a: seq<Box>, b: seq<Box>) {
    a != [] && b != [] && Upper(b) == Lower(a) + V_GAP
  }

  lemma {:induction false} EdgesConcat(a: seq<Box>, b: seq<Box>)
    requires a != [] && b != []
    ensures Upper(a + b) == Min(Upper(a), Upper(b)) && Lower(a + b) == Max(Lower(a), Lower(b))
    decreases |b|
  {
    var c := a + b;
    if |b| == 1 {
      assert c[..|c| - 1] == a;
    } else {
      assert c[..|c| - 1] == a + b[..|b| - 1];
      EdgesConcat(a, b[..|b| - 1]);
    }
  }

  lemma {:induction false} PlacedSize(t: Tree, top: real, side: int, depth: nat, c: Columns)
    ensures |Place(t, top, side, depth, c)| == Size(t)
    decreases t
  {
    PlacedAllSize(t.kids, top + (Band(t) - Stacked(t.kids)) / 2.0, side, depth + 1, c);
  }

  lemma {:induction false} PlacedAllSize(ts: seq<Tree>, y: real, side: int, depth: nat, c: Columns)
    ensures |PlaceAll(ts, y, side, depth, c)| == Sizes(ts)
    ensures ts != [] ==> Sizes(ts) > 0
    decreases ts
  {
    if ts != [] {
      PlacedSize(ts[0], y, side, depth, c);
      PlacedAllSize(ts[1..], y + Band(ts[0]) + V_GAP, side, depth, c);
    }
  }

  /** The boxes of a subtree reach from one end of its band to the other: bands are
      no higher than they need be. */
  lemma {:induction false} PlacedTidy(t: Tree, top: real, side: int, depth: nat, c: Columns)
    requires Sized(t)
    ensures var bs := Place(t, top, side, depth, c);
            bs != [] && Upper(bs) == top && Lower(bs) == top + Band(t) && Tidy(t, bs, side, depth)
    decreases t
  {
    var y := top + (Band(t) - Stacked(t.kids)) / 2.0;
    var under := PlaceAll(t.kids, y, side, depth + 1, c);
    var own := Box(t.id, ColumnX(c, side, depth), top + Band(t) / 2.0, t.w, t.h, side, depth);
    var bs := Place(t, top, side, depth, c);
    PlacedSize(t, top, side, depth, c);
    PlacedAllTidy(t.kids, y, side, depth + 1, c);
    PlacedAllSize(t.kids, y, side, depth + 1, c);
    assert bs == under + [own] && bs[..|bs| - 1] == under;
    BandPositive(t);
    StackPositive(t.kids);
    if under == [] {
      assert bs == [own] && t.kids == [];
      assert Stacked(t.kids) == 0.0 by { assert Gaps(0) == V_GAP * (0 as real); }
    } else {
      EdgesConcat(under, [own]);
    }
  }

  lemma {:induction false} PlacedAllTidy(ts: seq<Tree>, y: real, side: int, depth: nat, c: Columns)
    requires AllSized(ts)
    ensures var bs := PlaceAll(ts, y, side, depth, c);
            && (bs == [] <==> ts == []) && TidyAll(ts, bs, side, depth)
            && (ts != [] ==> Upper(bs) == y && Lower(bs) == y + Stacked(ts))
    decreases ts
  {
    PlacedAllSize(ts, y, side, depth, c);
    if ts != [] {
      var next := y + Band(ts[0]) + V_GAP;
      var a, b := Place(ts[0], y, side, depth, c), PlaceAll(ts[1..], next, side, depth, c);
      PlacedTidy(ts[0], y, side, depth, c);
      PlacedSize(ts[0], y, side, depth, c);
      PlacedAllTidy(ts[1..], next, side, depth, c);
      StackedStep(ts);
      BandPositive(ts[0]);
      StackPositive(ts[1..]);
      var bs := a + b;
      assert bs[..Size(ts[0])] == a && bs[Size(ts[0])..] == b;
      if |ts| == 1 { assert b == [] && bs == a; } else { EdgesConcat(a, b); }
    }
  }

  // ---------------------------------------------------------------------
  // Which side.

  /** Those dealt to one side. */
  function Share(ts: seq<Tree>, to: seq<bool>, right: bool): seq<Tree>
    requires |to| == |ts|
  {
    if ts == [] then []
    else
      var n := |ts| - 1;
      Share(ts[..n], to[..n], right) + if to[n] == right then [ts[n]] else []
  }

  /** How far down a side reaches, each subtree with a gap behind it. */
  function Reach(ts: seq<Tree>): real { if ts == [] then 0.0 else Reach(ts[..|ts| - 1]) + Band(ts[|ts| - 1]) + V_GAP }

  /** Each in turn goes right exactly when the right side reaches no further than
      the left one. */
  ghost predicate Dealt(ts: seq<Tree>, to: seq<bool>) {
    |to| == |ts| && forall i | 0 <= i < |ts| :: DealtAt(ts, to, i)
  }

  ghost predicate DealtAt(ts: seq<Tree>, to: seq<bool>, i: nat)
    requires i < |ts| == |to|
  {
    to[i] <==> Reach(Share(ts[..i], to[..i], true)) <= Reach(Share(ts[..i], to[..i], false))
  }

  lemma ReachPush(ts: seq<Tree>, t: Tree)
    ensures Reach(ts + [t]) == Reach(ts) + Band(t) + V_GAP
  {
    assert (ts + [t])[..|ts|] == ts;
  }

  /** The deal goes on from the first `n`. */
  lemma {:induction false} DealOn(ts: seq<Tree>, n: nat, to: seq<bool>, right: seq<Tree>, left: seq<Tree>)
      returns (all: seq<bool>)
    requires n <= |ts| && Dealt(ts[..n], to)
    requires right == Share(ts[..n], to, true) && left == Share(ts[..n], to, false)
    ensures Dealt(ts, all)
    ensures var s := Sides(ts[n..], Reach(right), Reach(left));
            Share(ts, all, true) == right + s.0 && Share(ts, all, false) == left + s.1
    decreases |ts| - n
  {
    if n == |ts| {
      all := to;
      assert ts[..n] == ts && right + [] == right && left + [] == left;
    } else {
      var goes := Reach(right) <= Reach(left);
      var r, l := DealSides(ts, n, to, right, left, goes);
      all := DealOn(ts, n + 1, to + [goes], r, l);
      var u := Sides(ts[n + 1..], Reach(r), Reach(l));
      if goes { SideOn(right, ts[n], u.0); } else { SideOn(left, ts[n], u.1); }
    }
  }

  lemma DealSides(ts: seq<Tree>, n: nat, to: seq<bool>, right: seq<Tree>, left: seq<Tree>, goes: bool)
      returns (r: seq<Tree>, l: seq<Tree>)
    requires n < |ts| && Dealt(ts[..n], to) && goes == (Reach(right) <= Reach(left))
    requires right == Share(ts[..n], to, true) && left == Share(ts[..n], to, false)
    ensures r == (if goes then right + [ts[n]] else right) && l == if goes then left else left + [ts[n]]
    ensures Dealt(ts[..n + 1], to + [goes])
    ensures r == Share(ts[..n + 1], to + [goes], true) && l == Share(ts[..n + 1], to + [goes], false)
    ensures var u := Sides(ts[n + 1..], Reach(r), Reach(l));
            Sides(ts[n..], Reach(right), Reach(left)) == if goes then ([ts[n]] + u.0, u.1) else (u.0, [ts[n]] + u.1)
  {
    r, l := if goes then right + [ts[n]] else right, if goes then left else left + [ts[n]];
    DealOne(ts, n, to, goes);
    SidesBoth(ts, n, right, left);
  }

  lemma SidesBoth(ts: seq<Tree>, n: nat, right: seq<Tree>, left: seq<Tree>)
    requires n < |ts|
    ensures var s := Sides(ts[n..], Reach(right), Reach(left));
            if Reach(right) <= Reach(left) then
              var u := Sides(ts[n + 1..], Reach(right + [ts[n]]), Reach(left)); s == ([ts[n]] + u.0, u.1)
            else
              var u := Sides(ts[n + 1..], Reach(right), Reach(left + [ts[n]])); s == (u.0, [ts[n]] + u.1)
  {
    ReachPush(right, ts[n]);
    ReachPush(left, ts[n]);
    SidesStep(ts, n, Reach(right), Reach(left), Reach(right + [ts[n]]), Reach(left + [ts[n]]));
  }

  lemma SidesStep(ts: seq<Tree>, n: nat, rh: real, lh: real, rh': real, lh': real)
    requires n < |ts| && rh' == rh + Band(ts[n]) + V_GAP && lh' == lh + Band(ts[n]) + V_GAP
    ensures Sides(ts[n..], rh, lh) ==
            if rh <= lh then ([ts[n]] + Sides(ts[n + 1..], rh', lh).0, Sides(ts[n + 1..], rh', lh).1)
            else (Sides(ts[n + 1..], rh, lh').0, [ts[n]] + Sides(ts[n + 1..], rh, lh').1)
  {
    assert ts[n..][0] == ts[n] && ts[n..][1..] == ts[n + 1..];
  }

  lemma SideOn(a: seq<Tree>, t: Tree, b: seq<Tree>)
    ensures a + [t] + b == a + ([t] + b)
  {
  }

  lemma DealOne(ts: seq<Tree>, n: nat, to: seq<bool>, goes: bool)
    requires n < |ts| && Dealt(ts[..n], to)
    requires goes == (Reach(Share(ts[..n], to, true)) <= Reach(Share(ts[..n], to, false)))
    ensures Dealt(ts[..n + 1], to + [goes])
    ensures var r, l := Share(ts[..n], to, true), Share(ts[..n], to, false);
            && Share(ts[..n + 1], to + [goes], true) == (if goes then r + [ts[n]] else r)
            && Share(ts[..n + 1], to + [goes], false) == if goes then l else l + [ts[n]]
  {
    var us, all := ts[..n + 1], to + [goes];
    assert us[..n] == ts[..n] && all[..n] == to;
    forall i | 0 <= i < n + 1 ensures DealtAt(us, all, i) {
      if i < n {
        assert DealtAt(ts[..n], to, i);
        assert us[..i] == ts[..n][..i] && all[..i] == to[..i];
      }
    }
  }

  lemma Deal(ts: seq<Tree>) returns (to: seq<bool>)
    ensures Dealt(ts, to) && (to != [] ==> to[0])
    ensures Sides(ts, 0.0, 0.0) == (Share(ts, to, true), Share(ts, to, false))
  {
    assert ts[..0] == [] && ts[0..] == ts;
    to := DealOn(ts, 0, [], [], []);
    assert [] + Sides(ts, 0.0, 0.0).0 == Sides(ts, 0.0, 0.0).0 && [] + Sides(ts, 0.0, 0.0).1 == Sides(ts, 0.0, 0.0).1;
    if to != [] {
      assert DealtAt(ts, to, 0);
      assert to[..0] == [];
    }
  }

  /** The side a box is drawn on. */
  function Wing(t: Tree, c: Columns, side: int): seq<Box> {
    var s := Sides(t.kids, 0.0, 0.0);
    if side == 1 then PlaceAll(s.0, -Stacked(s.0) / 2.0, 1, 1, c) else PlaceAll(s.1, -Stacked(s.1) / 2.0, -1, 1, c)
  }

  /** The picture is the topic with a wing on each side, both tidy and centred on
      it, the children dealt to the shorter side, the first one to the right. */
  lemma PictureIsTidy(t: Tree, c: Columns) returns (to: seq<bool>)
    requires Sized(t) && Snug(t, c)
    ensures Picture(t, c) == [Box(t.id, 0.0, 0.0, t.w, t.h, 0, 0)] + Wing(t, c, 1) + Wing(t, c, -1)
    ensures Dealt(t.kids, to) && (to != [] ==> to[0])
    ensures TidyAll(Share(t.kids, to, true), Wing(t, c, 1), 1, 1)
    ensures TidyAll(Share(t.kids, to, false), Wing(t, c, -1), -1, 1)
    ensures Share(t.kids, to, true) != [] ==> Wing(t, c, 1) != [] && Mid(Wing(t, c, 1)) == 0.0
    ensures Share(t.kids, to, false) != [] ==> Wing(t, c, -1) != [] && Mid(Wing(t, c, -1)) == 0.0
  {
    to := Deal(t.kids);
    SidesSized(t.kids, 0.0, 0.0);
    SideTidy(Share(t.kids, to, true), 1, c);
    SideTidy(Share(t.kids, to, false), -1, c);
  }

  /** The subtrees of one side: tidy, and centred on the topic. */
  lemma SideTidy(ts: seq<Tree>, side: int, c: Columns)
    requires AllSized(ts)
    ensures var bs := PlaceAll(ts, -Stacked(ts) / 2.0, side, 1, c);
            |bs| == Sizes(ts) && TidyAll(ts, bs, side, 1) && (ts != [] ==> bs != [] && Mid(bs) == 0.0)
  {
    PlacedAllSize(ts, -Stacked(ts) / 2.0, side, 1, c);
    PlacedAllTidy(ts, -Stacked(ts) / 2.0, side, 1, c);
  }

  // ---------------------------------------------------------------------
  // Columns.

  /** A column as wide as the widest node has a box of that width. */
  lemma {:induction false} Attained(ts: seq<Tree>, y: real, side: int, depth: nat, c: Columns, d: nat)
    requires MaxAt(ts, d) > 0.0
    ensures exists b :: b in PlaceAll(ts, y, side, depth, c) && b.side == side && b.depth == depth + d
                        && b.w == MaxAt(ts, d)
    decreases ts
  {
    var t, next := ts[0], y + Band(ts[0]) + V_GAP;
    var top := y + (Band(t) - Stacked(t.kids)) / 2.0;
    var own := Box(t.id, ColumnX(c, side, depth), y + Band(t) / 2.0, t.w, t.h, side, depth);
    var bs := PlaceAll(ts, y, side, depth, c);
    assert ts != [] && Place(t, y, side, depth, c) == PlaceAll(t.kids, top, side, depth + 1, c) + [own];
    assert bs == Place(t, y, side, depth, c) + PlaceAll(ts[1..], next, side, depth, c);
    if MaxAt(ts, d) == MaxAt(ts[1..], d) {
      Attained(ts[1..], next, side, depth, c, d);
    } else if d == 0 {
      assert own in bs;
    } else {
      Attained(t.kids, top, side, depth + 1, c, d - 1);
    }
  }

  ghost predicate WidestOf(bs: seq<Box>, b: Box) {
    b in bs && forall a | a in bs && a.side == b.side && a.depth == b.depth :: a.w <= b.w
  }

  lemma SideColumns(ts: seq<Tree>, side: int, c: Columns, b: Box)
    requires AllSized(ts) && (side == 1 || side == -1) && forall d: nat :: At(c.widest, side, d + 1) == MaxAt(ts, d)
    requires b in PlaceAll(ts, -Stacked(ts) / 2.0, side, 1, c)
    ensures b.side == side && b.depth >= 1 && InColumn(b, c)
    ensures WidestOf(PlaceAll(ts, -Stacked(ts) / 2.0, side, 1, c), b) ==> b.w == At(c.widest, side, b.depth)
  {
    var bs := PlaceAll(ts, -Stacked(ts) / 2.0, side, 1, c);
    WideEnough(c.widest, side, ts, c);
    SideIs(ts, side, c);
    var i :| 0 <= i < |bs| && bs[i] == b;
    assert InColumn(bs[i], c);
    var d: nat := b.depth - 1;
    assert At(c.widest, side, d + 1) == MaxAt(ts, d);
    if WidestOf(bs, b) && MaxAt(ts, d) > 0.0 {
      Attained(ts, -Stacked(ts) / 2.0, side, 1, c, d);
    }
  }

  lemma WingColumns(t: Tree, c: Columns, side: int, b: Box)
    requires Sized(t) && Snug(t, c) && (side == 1 || side == -1) && b in Wing(t, c, side)
    ensures b.side == side && b.depth >= 1 && InColumn(b, c)
    ensures WidestOf(Wing(t, c, side), b) ==> b.w == At(c.widest, side, b.depth)
  {
    var s := Sides(t.kids, 0.0, 0.0);
    SidesSized(t.kids, 0.0, 0.0);
    if side == 1 { SideColumns(s.0, 1, c, b); } else { SideColumns(s.1, -1, c, b); }
  }

  /** Boxes of one column share their middle; the first column begins a gap beside
      the topic, each other a gap beside the one before, at their widest. */
  lemma ColumnsMeet(t: Tree, c: Columns, side: int, a: Box, b: Box)
    requires Sized(t) && Snug(t, c) && (side == 1 || side == -1) && a in Wing(t, c, side) && b in Wing(t, c, side)
    ensures a.depth == b.depth ==> a.x == b.x
    ensures WidestOf(Wing(t, c, side), b) && b.depth == 1 ==>
              if side == 1 then b.Left() == t.w / 2.0 + H_GAP else b.Right() == -t.w / 2.0 - H_GAP
    ensures WidestOf(Wing(t, c, side), a) && WidestOf(Wing(t, c, side), b) && b.depth == a.depth + 1 ==>
              if side == 1 then b.Left() == a.Right() + H_GAP else b.Right() == a.Left() - H_GAP
  {
    WingColumns(t, c, side, a);
    WingColumns(t, c, side, b);
    SpanIs(a, c);
    SpanIs(b, c);
  }

  lemma SpanIs(b: Box, c: Columns)
    requires InColumn(b, c) && (b.side == 1 || b.side == -1)
    ensures b.w == At(c.widest, b.side, b.depth) ==>
              if b.side == 1 then b.Left() == Edge(c, 1, b.depth) && b.Right() == Edge(c, 1, b.depth) + b.w
              else b.Right() == -Edge(c, -1, b.depth) && b.Left() == -Edge(c, -1, b.depth) - b.w
  {
    var mid := Edge(c, b.side, b.depth) + At(c.widest, b.side, b.depth) / 2.0;
    assert b.side == 1 ==> b.x == 1.0 * mid == mid;
    assert b.side == -1 ==> b.x == -1.0 * mid == -mid;
  }
}
