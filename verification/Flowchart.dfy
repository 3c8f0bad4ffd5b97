/** The whole flowchart layout (`layout_full` of `src/mindmap_flow.rs`), each
    stage's guarantee being the next one's precondition. */
module Flowchart {
  import opened Base
  import opened FlowCycles
  import opened FlowLayers
  import opened FlowRoutes
  import opened FlowSweeps
  import opened FlowPlace

  /** The arrows drawn: both ends are symbols of the chart, and they differ. */
  function Drawable(edges: seq<Arrow>, shapes: map<int, Shape>): seq<Arrow> {
    if edges == [] then []
    else
      var e := edges[|edges| - 1];
      Drawable(edges[..|edges| - 1], shapes) + if e.from in shapes && e.to in shapes && e.from != e.to then [e] else []
  }

  lemma {:induction false} DrawableAre(edges: seq<Arrow>, shapes: map<int, Shape>)
    ensures forall e :: e in Drawable(edges, shapes) <==>
              e in edges && e.from in shapes && e.to in shapes && e.from != e.to
    decreases |edges|
  {
    if edges != [] {
      DrawableAre(edges[..|edges| - 1], shapes);
      assert edges == edges[..|edges| - 1] + [edges[|edges| - 1]];
    }
  }

  function TurnedSeq(arrows: seq<Arrow>, back: set<Arrow>): seq<Arrow> {
    seq(|arrows|, i requires 0 <= i < |arrows| => if arrows[i] in back then Arrow(arrows[i].to, arrows[i].from)
      else arrows[i])
  }

  /** `is_back` of the renderer: the arrow does not go to a higher layer. */
  predicate DrawnBack(placed: map<int, Placed>, e: Arrow)
    requires e.from in placed && e.to in placed
  {
    placed[e.from].layer >= placed[e.to].layer
  }

  /** Under each symbol where its arrows lead, in drawing order. */
  ghost predicate Lists(out: map<int, seq<int>>, arrows: seq<Arrow>) {
    forall v :: Next(out, v) == Heads(arrows, v)
  }

  /** The marks are those of the depth-first search that takes the symbols in chart
      order and the arrows of each in drawing order. */
  ghost predicate FoundDepthFirst(ids: seq<int>, arrows: seq<Arrow>, back: set<Arrow>) {
    exists out :: Lists(out, arrows) && back == Searched(ids, out, |ids|).back
  }

  /** The adjacency lists of the drawn arrows. */
  method Adjacency(arrows: seq<Arrow>) returns (out: map<int, seq<int>>)
    ensures Lists(out, arrows)
  {
    out := map[];
    for i := 0 to |arrows|
      invariant forall v :: Next(out, v) == Heads(arrows[..i], v)
    {
      assert arrows[..i + 1][..i] == arrows[..i];
      out := Push(out, arrows[i].from, arrows[i].to);
    }
    assert arrows[..|arrows|] == arrows;
  }

  lemma HeadsNoLoops(arrows: seq<Arrow>, out: map<int, seq<int>>)
    requires (forall v :: Next(out, v) == Heads(arrows, v)) && forall e | e in arrows :: e.from != e.to
    ensures NoLoops(out)
    ensures forall e: Arrow :: e.to in Next(out, e.from) <==> e in arrows
  {
    forall v ensures v !in Next(out, v) { HeadsAre(arrows, v); assert v in Heads(arrows, v) ==> Arrow(v, v) in arrows; }
    forall e: Arrow ensures e.to in Next(out, e.from) <==>
      e in arrows { HeadsAre(arrows, e.from); assert Arrow(e.from, e.to) == e; }
  }

  lemma TurnedRanks(ids: seq<int>, arrows: seq<Arrow>, out: map<int, seq<int>>, back: set<Arrow>, rank: map<int, int>)
    requires Ends(ids, arrows) && forall e: Arrow :: e.to in Next(out, e.from) <==> e in arrows
    requires Ranked(Turned(Arrows(ids, out), back), rank)
    ensures Ends(ids, TurnedSeq(arrows, back)) && RankedSeq(TurnedSeq(arrows, back), rank)
  {
    var dag := TurnedSeq(arrows, back);
    forall i | 0 <= i < |dag|
      ensures dag[i].from in ids && dag[i].to in ids && dag[i].from in rank && dag[i].to in rank
              && rank[dag[i].to] < rank[dag[i].from]
    {
      var e := arrows[i];
      assert e in arrows && Arrow(e.from, e.to) in Arrows(ids, out);
      assert dag[i] in Turned(Arrows(ids, out), back);
    }
  }

  lemma LayersTellBack(arrows: seq<Arrow>, back: set<Arrow>, layer: map<int, nat>)
    requires forall e | e in TurnedSeq(arrows, back) :: At(layer, e.from) < At(layer, e.to)
    ensures forall e | e in arrows :: if e in back then At(layer, e.to) < At(layer, e.from)
            else At(layer, e.from) < At(layer, e.to)
  {
    var dag := TurnedSeq(arrows, back);
    forall e | e in arrows ensures if e in back then At(layer, e.to) < At(layer, e.from)
      else At(layer, e.from) < At(layer, e.to) {
      var i :| 0 <= i < |arrows| && arrows[i] == e;
      assert dag[i] in dag;
    }
  }

  /** Rows in layer order: symbols in chart order, then waypoints arrow by arrow. */
  method BuildRows(ids: seq<int>, layer0: map<int, nat>, layer: map<int, nat>, hops: seq<Hop>, ghost nexts: seq<int>)
      returns (rows: seq<seq<int>>)
    requires NoDup(ids) && layer0.Keys == Elems(ids) && (forall v | v in ids :: v > 0)
    requires Layered(layer0, layer, hops) && OwnWaypoints(hops)
    requires |nexts| == |hops| && forall i | 0 <= i < |hops| :: NumberedDown(hops[i], nexts[i])
    ensures RowsOk(rows, layer) && InOrderOf(rows, layer, ids + Waypoints(hops))
    ensures rows != [] ==> Used(layer, |rows| - 1)
  {
    var height := Height(layer);
    rows := seq(height, _ => []);
    forall i | 0 <= i < |ids| ensures ids[i] in layer { assert On(layer, ids[i], layer0[ids[i]]); }
    rows := FillRows(rows, layer, ids, {}, []);
    NothingAnd(Elems(ids));
    assert [] + ids == ids;
    ghost var seen;
    rows, seen := FillWaypoints(rows, layer, ids, hops, nexts);
    AllFilled(rows, layer0, layer, ids, hops, seen);
  }

  method FillWaypoints(rows0: Rows, layer: map<int, nat>, ghost ids: seq<int>, hops: seq<Hop>, ghost nexts: seq<int>)
      returns (rows: Rows, ghost seen: set<int>)
    requires Filled(rows0, layer, Elems(ids)) && InOrderOf(rows0, layer, ids) && (forall v | v in ids :: v > 0)
    requires OwnWaypoints(hops) && forall h | h in hops :: Threads(h, layer)
    requires |nexts| == |hops| && forall i | 0 <= i < |hops| :: NumberedDown(hops[i], nexts[i])
    ensures Filled(rows, layer, seen) && |rows| == |rows0| && InOrderOf(rows, layer, ids + Waypoints(hops))
    ensures Elems(ids) <= seen && forall i | 0 <= i < |hops| :: Elems(hops[i].through) <= seen
  {
    rows, seen := rows0, Elems(ids);
    assert ids + [] == ids;
    for h := 0 to |hops|
      invariant Filled(rows, layer, seen) && |rows| == |rows0|
      invariant InOrderOf(rows, layer, ids + Waypoints(hops[..h]))
      invariant Gathered(hops, h, seen) && Elems(ids) <= seen
    {
      WaypointsReady(hops, nexts, h, layer, seen);
      rows := FillRows(rows, layer, hops[h].through, seen, ids + Waypoints(hops[..h]));
      GatherOne(hops, h, seen);
      seen := seen + Elems(hops[h].through);
      WaypointsNext(ids, hops, h);
    }
    assert hops[..|hops|] == hops;
  }

  /** Seen so far: symbols, and all waypoints of the first `h` arrows. */
  ghost predicate Gathered(hops: seq<Hop>, h: nat, seen: set<int>) {
    && h <= |hops|
    && (forall v | v in seen :: v > 0 || exists i :: 0 <= i < h && v in hops[i].through)
    && forall i | 0 <= i < h :: Elems(hops[i].through) <= seen
  }

  lemma GatherOne(hops: seq<Hop>, h: nat, seen: set<int>)
    requires h < |hops| && Gathered(hops, h, seen)
    ensures Gathered(hops, h + 1, seen + Elems(hops[h].through))
  {
  }

  /** The waypoints, arrow by arrow. */
  function Waypoints(hops: seq<Hop>): seq<int> {
    if hops == [] then [] else Waypoints(hops[..|hops| - 1]) + hops[|hops| - 1].through
  }

  lemma WaypointsNext(ids: seq<int>, hops: seq<Hop>, h: nat)
    requires h < |hops|
    ensures ids + Waypoints(hops[..h + 1]) == ids + Waypoints(hops[..h]) + hops[h].through
  {
    assert hops[..h + 1][..h] == hops[..h];
  }

  /** Those of a layer, as they are listed. */
  function OfLayer(vs: seq<int>, layer: map<int, nat>, l: nat): seq<int> {
    if vs == [] then []
    else
      var v := vs[|vs| - 1];
      OfLayer(vs[..|vs| - 1], layer, l) + if v in layer && layer[v] == l then [v] else []
  }

  ghost predicate InOrderOf(rows: Rows, layer: map<int, nat>, vs: seq<int>) {
    forall l | 0 <= l < |rows| :: rows[l] == OfLayer(vs, layer, l)
  }

  lemma OneMoreListed(rows: Rows, layer: map<int, nat>, vs: seq<int>, v: int)
    requires InOrderOf(rows, layer, vs) && v in layer && layer[v] < |rows|
    ensures InOrderOf(rows[layer[v] := rows[layer[v]] + [v]], layer, vs + [v])
  {
    assert (vs + [v])[..|vs|] == vs;
  }

  lemma FillNext(rows: Rows, layer: map<int, nat>, vs: seq<int>, seen: set<int>, given: seq<int>, k: nat)
    requires k < |vs| && NoDup(vs) && vs[k] in layer && vs[k] !in seen
    requires Filled(rows, layer, seen + Elems(vs[..k])) && InOrderOf(rows, layer, given + vs[..k])
    ensures layer[vs[k]] < |rows|
    ensures var next := rows[layer[vs[k]] := rows[layer[vs[k]]] + [vs[k]]];
            Filled(next, layer, seen + Elems(vs[..k + 1])) && InOrderOf(next, layer, given + vs[..k + 1])
  {
    assert given + vs[..k + 1] == given + vs[..k] + [vs[k]];
    OneMoreListed(rows, layer, given + vs[..k], vs[k]);
    assert vs[..k + 1] == vs[..k] + [vs[k]];
    assert seen + Elems(vs[..k + 1]) == seen + Elems(vs[..k]) + {vs[k]};
    FillOne(rows, layer, seen + Elems(vs[..k]), vs[k]);
  }

  /** Append each of `vs` to the row of its layer. */
  method FillRows(rows0: Rows, layer: map<int, nat>, vs: seq<int>, ghost seen: set<int>, ghost given: seq<int>)
      returns (rows: Rows)
    requires Filled(rows0, layer, seen) && NoDup(vs) && InOrderOf(rows0, layer, given)
    requires forall k | 0 <= k < |vs| :: vs[k] in layer && vs[k] !in seen
    ensures Filled(rows, layer, seen + Elems(vs)) && |rows| == |rows0| && InOrderOf(rows, layer, given + vs)
  {
    rows := rows0;
    assert seen + Elems(vs[..0]) == seen && given + vs[..0] == given;
    for k := 0 to |vs|
      invariant Filled(rows, layer, seen + Elems(vs[..k])) && |rows| == |rows0|
      invariant InOrderOf(rows, layer, given + vs[..k])
    {
      FillNext(rows, layer, vs, seen, given, k);
      rows := rows[layer[vs[k]] := rows[layer[vs[k]]] + [vs[k]]];
    }
    assert vs[..|vs|] == vs;
  }

  lemma WaypointsReady(hops: seq<Hop>, nexts: seq<int>, h: nat, layer: map<int, nat>, seen: set<int>)
    requires OwnWaypoints(hops) && |nexts| == |hops| && (forall i | 0 <= i < |hops| :: NumberedDown(hops[i], nexts[i]))
    requires h < |hops| && Gathered(hops, h, seen) && forall x | x in hops :: Threads(x, layer)
    ensures NoDup(hops[h].through)
    ensures forall k | 0 <= k < |hops[h].through| :: hops[h].through[k] in layer && hops[h].through[k] !in seen
  {
    var t := hops[h].through;
    assert hops[h] in hops && NumberedDown(hops[h], nexts[h]) && Threads(hops[h], layer);
    forall k | 0 <= k < |t| ensures t[k] in layer && t[k] !in seen {
      assert On(layer, t[k], layer[hops[h].arrow.from] + 1 + k);
      NewWaypoint(hops, nexts, h, t[k], seen);
    }
  }

  lemma NewWaypoint(hops: seq<Hop>, nexts: seq<int>, h: nat, v: int, seen: set<int>)
    requires OwnWaypoints(hops) && |nexts| == |hops| && (forall i | 0 <= i < |hops| :: NumberedDown(hops[i], nexts[i]))
    requires h < |hops| && Gathered(hops, h, seen) && v in hops[h].through
    ensures v !in seen
  {
    var k :| 0 <= k < |hops[h].through| && hops[h].through[k] == v;
    assert NumberedDown(hops[h], nexts[h]);
  }

  ghost predicate Filled(rows: seq<seq<int>>, layer: map<int, nat>, seen: set<int>) {
    && (forall v | v in layer :: layer[v] < |rows|)
    && (forall v | v in seen :: v in layer && v in rows[layer[v]])
    && (forall l, v | 0 <= l < |rows| && v in rows[l] :: v in seen && On(layer, v, l))
    && (forall l | 0 <= l < |rows| :: NoDup(rows[l]))
  }

  lemma FillOne(rows: seq<seq<int>>, layer: map<int, nat>, seen: set<int>, v: int)
    requires Filled(rows, layer, seen) && v in layer && v !in seen
    ensures layer[v] < |rows| && Filled(rows[layer[v] := rows[layer[v]] + [v]], layer, seen + {v})
  {
    NoDupConcat(rows[layer[v]], [v]);
  }

  lemma AllFilled(rows: seq<seq<int>>, layer0: map<int, nat>, layer: map<int, nat>, ids: seq<int>, hops: seq<Hop>,
                  seen: set<int>)
    requires Filled(rows, layer, seen) && Layered(layer0, layer, hops) && layer0.Keys == Elems(ids)
    requires Elems(ids) <= seen && forall i | 0 <= i < |hops| :: Elems(hops[i].through) <= seen
    ensures RowsOk(rows, layer)
  {
    forall v | v in layer ensures v in rows[layer[v]] {
      if v in layer0 { assert v in Elems(ids); }
      else {
        var h :| h in hops && v in h.through;
        var i :| 0 <= i < |hops| && hops[i] == h;
        assert v in Elems(hops[i].through);
      }
      assert v in seen;
    }
  }

  ghost predicate Used(layer: map<int, nat>, l: int) { exists v :: v in layer && layer[v] == l }

  /** One more than the highest layer in use. */
  method Height(layer: map<int, nat>) returns (n: nat)
    ensures (forall v | v in layer :: layer[v] < n) && (n > 0 ==> Used(layer, n - 1))
  {
    n := 0;
    var rest := layer.Keys;
    while rest != {}
      invariant n > 0 ==> Used(layer, n - 1)
      invariant rest <= layer.Keys && forall v | v in layer && v !in rest :: layer[v] < n
      decreases rest
    {
      ghost var some := SomeMember(rest);
      var v :| v in rest;
      if layer[v] >= n {
        assert Used(layer, layer[v]);
        n := layer[v] + 1;
      }
      rest := rest - {v};
    }
  }

  // ---------------------------------------------------------------------
  // The layout.

  datatype Layout = Layout(placed: map<int, Placed>, back: set<Arrow>, hops: seq<Hop>)

  /** A walk of unmarked arrows leads from the head of `e` back to its tail. */
  ghost predicate Needed(arrows: seq<Arrow>, back: set<Arrow>, e: Arrow) {
    e in arrows && exists p :: Walk(Elems(arrows) - back, p) && |p| >= 2 && p[0] == e.to && p[|p| - 1] == e.from
  }

  lemma {:induction false} UnmarkedWalks(arrows: seq<Arrow>, out: map<int, seq<int>>, back: set<Arrow>, p: seq<int>)
    requires Unmarked(out, back, p) && forall e: Arrow :: e.to in Next(out, e.from) <==> e in arrows
    ensures Walk(Elems(arrows) - back, p)
    decreases |p|
  {
    if |p| >= 2 {
      assert Arrow(p[0], p[1]) in arrows;
      UnmarkedWalks(arrows, out, back, p[1..]);
    }
  }

  lemma BackNeeded(arrows: seq<Arrow>, out: map<int, seq<int>>, back: set<Arrow>)
    requires (forall e: Arrow :: e.to in Next(out, e.from) <==> e in arrows) && forall e | e in back ::
             ClosesCycle(out, back, e)
    ensures forall e | e in back :: Needed(arrows, back, e)
  {
    forall e | e in back ensures Needed(arrows, back, e) {
      var p :| Unmarked(out, back, p) && |p| >= 2 && p[0] == e.to && p[|p| - 1] == e.from;
      UnmarkedWalks(arrows, out, back, p);
    }
  }

  /** What the layout promises of a chart with the given symbols and arrows. */
  ghost predicate Promised(ids: seq<int>, shapes: map<int, Shape>, arrows: seq<Arrow>, down: bool, r: Layout) {
    && (forall v | v in ids :: v in shapes && v in r.placed && r.placed[v].shape == shapes[v])
    // Layers: marked arrows are exactly those drawn back; the others go up.
    && (forall e | e in arrows :: e.from in r.placed && e.to in r.placed && (DrawnBack(r.placed, e) <==> e in r.back))
    && (forall v | v in ids :: v in r.placed && Longest(TurnedSeq(arrows, r.back), v, r.placed[v].layer))
    // Every marked arrow closes a cycle with unmarked ones; turning them breaks all cycles.
    && (forall e | e in r.back :: Needed(arrows, r.back, e)) && Acyclic(Elems(TurnedSeq(arrows, r.back)))
    // Waypoints: one in each layer a forward arrow crosses.
    && HopArrows(r.hops) == Forward(arrows, r.back)
    && NoDup(HopArrows(r.hops)) && (forall e :: e in HopArrows(r.hops) <==> e in arrows && e !in r.back)
    && (forall h | h in r.hops :: Crosses(r.placed, h)) && OwnWaypoints(r.hops)
    // Boxes: symbols and waypoints alike keep clear of each other.
    && (forall v | v in r.placed :: InBox(r.placed[v]) && Seated(r.placed[v], down))
    && (forall u, v | u in r.placed && v in r.placed && u != v ::
        Apart(r.placed[u], r.placed[v], down) && !Overlaps(r.placed[u], r.placed[v]))
  }

  ghost predicate Crosses(placed: map<int, Placed>, h: Hop) {
    && h.arrow.from in placed && h.arrow.to in placed
    && |h.through| == placed[h.arrow.to].layer - placed[h.arrow.from].layer - 1
    && forall k | 0 <= k < |h.through| :: InLayer(placed, h.through[k], placed[h.arrow.from].layer + 1 + k)
  }

  ghost predicate InLayer(placed: map<int, Placed>, v: int, l: nat) { v in placed && placed[v].layer == l }

  /** How the rows came about: the layers with the waypoints in them, the pieces
      of the arrows as neighbours, and the rows before and after each sweep. */
  datatype Drawing = Drawing(layer: map<int, nat>, succ: map<int, seq<int>>, pred: map<int, seq<int>>, all: seq<Rows>)

  /** The rows begin in chart order, waypoints behind, arrow by arrow; six sweeps
      let them follow the pieces; then each is settled in its band. */
  ghost predicate Combed(ids: seq<int>, shapes: map<int, Shape>, down: bool, r: Layout, d: Drawing) {
    && Drawn(WithWaypoints(ids, shapes, d.layer), down, d.layer, r.placed)
    && Adjacent(HopLinks(r.hops), d.succ, d.pred)
    && Passes(d.all, d.layer, d.pred, d.succ)
    && InOrderOf(d.all[0], d.layer, ids + Waypoints(r.hops))
    && (d.all[0] != [] ==> Used(d.layer, |d.all[0]| - 1))
    && RowsLaid(d.all[6], r.placed, WithWaypoints(ids, shapes, d.layer), down, d.pred, |d.all[6]|)
  }

  method LayoutFull(ids: seq<int>, shapes: map<int, Shape>, edges: seq<Arrow>, down: bool)
      returns (r: Layout, ghost d: Drawing)
    requires NoDup(ids) && shapes.Keys == Elems(ids) && (forall v | v in ids :: v > 0)
    requires forall v | v in shapes :: shapes[v].Valid()
    ensures Promised(ids, shapes, Drawable(edges, shapes), down, r)
    ensures FoundDepthFirst(ids, Drawable(edges, shapes), r.back)
    ensures Combed(ids, shapes, down, r, d)
  {
    var arrows := Drawable(edges, shapes);
    var back, layer0 := LayerChart(ids, shapes, edges);
    var layer, hops, placed;
    layer, hops, placed, d := DrawChart(ids, shapes, arrows, back, layer0, down);
    r := Layout(placed, back, hops);
    Delivered(ids, shapes, WithWaypoints(ids, shapes, layer), arrows, down, layer0, layer, r);
  }

  /** What is known of the boxes. */
  ghost predicate Drawn(all: map<int, Shape>, down: bool, layer: map<int, nat>, placed: map<int, Placed>) {
    && (forall v :: v in placed <==> v in layer)
    && (forall v | v in placed ::
          v in all && placed[v].layer == layer[v] && placed[v].shape == all[v]
          && InBox(placed[v]) && Seated(placed[v], down))
    && (forall u, v | u in placed && v in placed && u != v :: Apart(placed[u], placed[v], down))
  }

  /** Waypoints, rows, sweeps and coordinates. */
  method DrawChart(ids: seq<int>, shapes: map<int, Shape>, arrows: seq<Arrow>, back: set<Arrow>, layer0: map<int, nat>,
                   down: bool)
    returns (layer: map<int, nat>, hops: seq<Hop>, placed: map<int, Placed>, ghost d: Drawing)
    requires NoDup(ids) && shapes.Keys == Elems(ids) && (forall v | v in ids :: v > 0)
    requires forall v | v in shapes :: shapes[v].Valid()
    requires layer0.Keys == Elems(ids) && Ends(ids, arrows)
    requires forall e | e in arrows && e !in back :: At(layer0, e.from) < At(layer0, e.to)
    ensures Layered(layer0, layer, hops) && OwnWaypoints(hops)
    ensures HopArrows(hops) == Forward(arrows, back)
    ensures NoDup(HopArrows(hops)) && forall e :: e in HopArrows(hops) <==> e in arrows && e !in back
    ensures Drawn(WithWaypoints(ids, shapes, layer), down, layer, placed)
    ensures Combed(ids, shapes, down, Layout(placed, back, hops), d)
  {
    var pred, succ;
    layer, hops, pred, succ := RouteArrows(ids, arrows, back, layer0);
    ghost var nexts := Numbering(hops);
    var rows := BuildRows(ids, layer0, layer, hops, nexts);
    var all := WithWaypoints(ids, shapes, layer);
    WaypointsValid(ids, shapes, layer);
    PiecesClimb(hops, layer, succ, pred);
    ghost var sweeps;
    placed, sweeps := OrderAndPlace(rows, all, down, pred, succ, layer);
    d := Drawing(layer, succ, pred, sweeps);
  }

  lemma {:induction false} FlippedAre(links: seq<Arrow>, a: int, b: int)
    ensures Arrow(a, b) in Flipped(links) <==> Arrow(b, a) in links
    decreases |links|
  {
    if links != [] {
      var n := |links| - 1;
      FlippedAre(links[..n], a, b);
      assert links == links[..n] + [links[n]];
      assert Arrow(a, b) == Arrow(links[n].to, links[n].from) <==> Arrow(b, a) == links[n];
    }
  }

  /** Every piece of an arrow begins in a lower layer. */
  lemma PiecesClimb(hops: seq<Hop>, layer: map<int, nat>, succ: map<int, seq<int>>, pred: map<int, seq<int>>)
    requires Adjacent(HopLinks(hops), succ, pred) && forall h | h in hops :: Threads(h, layer)
    ensures Lower(pred, layer)
  {
    HopsClimb(hops, layer);
    forall v, x | v in layer && x in Next(pred, v) && x in layer ensures layer[x] < layer[v] {
      HeadsAre(Flipped(HopLinks(hops)), v);
      FlippedAre(HopLinks(hops), v, x);
      assert Arrow(x, v) in HopLinks(hops);
    }
  }

  lemma WaypointsValid(ids: seq<int>, shapes: map<int, Shape>, layer: map<int, nat>)
    requires forall v | v in shapes :: shapes[v].Valid()
    ensures var all := WithWaypoints(ids, shapes, layer);
              layer.Keys <= all.Keys && forall v | v in all :: all[v].Valid()
  {
  }

  method OrderAndPlace(rows0: Rows, all: map<int, Shape>, down: bool, pred: map<int, seq<int>>,
                       succ: map<int, seq<int>>, ghost layer: map<int, nat>)
    returns (placed: map<int, Placed>, ghost sweeps: seq<Rows>)
    requires RowsOk(rows0, layer) && layer.Keys <= all.Keys && forall v | v in all :: all[v].Valid()
    requires Lower(pred, layer)
    ensures forall v :: v in placed <==> v in layer
    ensures forall v | v in placed ::
        placed[v].layer == layer[v] && placed[v].shape == all[v] && InBox(placed[v]) && Seated(placed[v], down)
    ensures forall u, v | u in placed && v in placed && u != v :: Apart(placed[u], placed[v], down)
    ensures Passes(sweeps, layer, pred, succ) && sweeps[0] == rows0
    ensures RowsLaid(sweeps[6], placed, all, down, pred, |sweeps[6]|)
  {
    var rows;
    rows, sweeps := Sweep(rows0, pred, succ, layer);
    placed := PlaceRows(rows, all, down, pred, layer);
  }

  /** Cycles, reversal and layers. */
  method LayerChart(ids: seq<int>, shapes: map<int, Shape>, edges: seq<Arrow>)
      returns (back: set<Arrow>, layer: map<int, nat>)
    requires NoDup(ids) && shapes.Keys == Elems(ids)
    ensures layer.Keys == Elems(ids)
    ensures var arrows := Drawable(edges, shapes);
            && Ends(ids, arrows)
            && (forall e | e in arrows :: if e in back then At(layer, e.to) < At(layer, e.from)
              else At(layer, e.from) < At(layer, e.to))
            && (forall v | v in ids :: Longest(TurnedSeq(arrows, back), v, At(layer, v)))
            && Acyclic(Elems(TurnedSeq(arrows, back)))
            && (forall e | e in back :: Needed(arrows, back, e))
    ensures FoundDepthFirst(ids, Drawable(edges, shapes), back)
  {
    var arrows := Drawable(edges, shapes);
    DrawableAre(edges, shapes);
    var out := Adjacency(arrows);
    HeadsNoLoops(arrows, out);
    ghost var rank;
    back, rank := BackEdges(ids, out);
    BackNeeded(arrows, out, back);
    TurnedRanks(ids, arrows, out, back, rank);
    layer := Layers(ids, TurnedSeq(arrows, back), rank);
    LayersTellBack(arrows, back, layer);
    RankedIsAcyclic(Elems(TurnedSeq(arrows, back)), rank);
  }

  lemma Numbering(hops: seq<Hop>) returns (nexts: seq<int>)
    requires forall h | h in hops :: exists next :: NumberedDown(h, next)
    ensures |nexts| == |hops| && forall i | 0 <= i < |hops| :: NumberedDown(hops[i], nexts[i])
  {
    nexts := [];
    for i := 0 to |hops|
      invariant |nexts| == i && forall j | 0 <= j < i :: NumberedDown(hops[j], nexts[j])
    {
      assert hops[i] in hops;
      var next :| NumberedDown(hops[i], next);
      nexts := nexts + [next];
    }
  }

  /** Every waypoint is a small square of its own. */
  function WithWaypoints(ids: seq<int>, shapes: map<int, Shape>, layer: map<int, nat>): map<int, Shape> {
    map v | v in layer.Keys + shapes.Keys :: if v in shapes then shapes[v] else Shape(0.0, 0.0, WAYPOINT, WAYPOINT)
  }

  lemma Delivered(ids: seq<int>, shapes: map<int, Shape>, all: map<int, Shape>, arrows: seq<Arrow>, down: bool,
                  layer0: map<int, nat>,
                  layer: map<int, nat>, r: Layout)
    requires shapes.Keys == Elems(ids) && layer0.Keys == Elems(ids) && Ends(ids, arrows)
             && all == WithWaypoints(ids, shapes, layer)
    requires Layered(layer0, layer, r.hops) && OwnWaypoints(r.hops)
    requires (forall e | e in r.back :: Needed(arrows, r.back, e)) && Acyclic(Elems(TurnedSeq(arrows, r.back)))
    requires forall e | e in arrows :: if e in r.back then At(layer0, e.to) < At(layer0, e.from)
             else At(layer0, e.from) < At(layer0, e.to)
    requires forall v | v in ids :: Longest(TurnedSeq(arrows, r.back), v, At(layer0, v))
    requires NoDup(HopArrows(r.hops)) && forall e :: e in HopArrows(r.hops) <==> e in arrows && e !in r.back
    requires Drawn(all, down, layer, r.placed)
    requires HopArrows(r.hops) == Forward(arrows, r.back)
    ensures Promised(ids, shapes, arrows, down, r)
  {
    SymbolsDelivered(ids, shapes, all, down, layer0, layer, r);
    HopsDelivered(all, down, layer0, layer, r);
    BoxesDelivered(all, down, layer, r.placed);
  }

  lemma SymbolsDelivered(ids: seq<int>, shapes: map<int, Shape>, all: map<int, Shape>, down: bool,
                         layer0: map<int, nat>, layer: map<int, nat>, r: Layout)
    requires shapes.Keys == Elems(ids) && layer0.Keys == Elems(ids) && all == WithWaypoints(ids, shapes, layer)
    requires Layered(layer0, layer, r.hops) && Drawn(all, down, layer, r.placed)
    ensures forall v | v in ids ::
        v in r.placed && v in shapes && r.placed[v].shape == shapes[v] && r.placed[v].layer == At(layer0, v)
  {
    forall v | v in ids
      ensures v in r.placed && v in shapes && r.placed[v].shape == shapes[v] && r.placed[v].layer == At(layer0, v)
    {
      assert v in Elems(ids) && On(layer, v, layer0[v]);
    }
  }

  lemma HopsDelivered(all: map<int, Shape>, down: bool, layer0: map<int, nat>, layer: map<int, nat>, r: Layout)
    requires Layered(layer0, layer, r.hops) && Drawn(all, down, layer, r.placed)
    ensures forall h | h in r.hops :: Crosses(r.placed, h)
  {
    forall h | h in r.hops ensures Crosses(r.placed, h) {
      assert Threads(h, layer);
      forall k | 0 <= k < |h.through| ensures InLayer(r.placed, h.through[k], r.placed[h.arrow.from].layer + 1 + k) {
        assert On(layer, h.through[k], layer[h.arrow.from] + 1 + k);
      }
    }
  }

  lemma BoxesDelivered(all: map<int, Shape>, down: bool, layer: map<int, nat>, placed: map<int, Placed>)
    requires Drawn(all, down, layer, placed)
    ensures forall u, v | u in placed && v in placed && u != v ::
        Apart(placed[u], placed[v], down) && !Overlaps(placed[u], placed[v])
  {
    forall u, v | u in placed && v in placed && u != v ensures !Overlaps(placed[u], placed[v]) {
      ApartDoNotOverlap(placed[u], placed[v], down);
    }
  }

  // ---------------------------------------------------------------------
  // What the sweeps come to in the drawing.

  /** `a` ends a gap before `b` begins. */
  ghost predicate LeftOf(a: Placed, b: Placed, down: bool) {
    AcrossStart(a, down) + AcrossSize(a.shape, down) + GAP <= AcrossStart(b, down)
  }

  lemma SettledSpaced(row: seq<int>, shapes: map<int, Shape>, down: bool, wants: seq<Option<real>>, at: seq<real>)
    requires Settled(row, shapes, down, wants, at)
    ensures Spaced(row, shapes, down, at)
  {
    if row != [] {
      var c := Start(wants[0]) - at[0];
      PackedSpaced(row, shapes, down, wants, Moved(at, c), -c);
      MovedBack(at, c, -c);
    }
  }

  /** The boxes of a row are drawn in its order. */
  lemma DrawnInOrder(rows: Rows, layer: map<int, nat>, placed: map<int, Placed>, all: map<int, Shape>, down: bool,
                     pred: map<int, seq<int>>, u: int, v: int)
    requires RowsOk(rows, layer) && RowsLaid(rows, placed, all, down, pred, |rows|)
    requires (forall x | x in all :: all[x].Valid()) && forall x | x in placed :: x in all && placed[x].shape == all[x]
    requires u in layer && v in layer && layer[u] == layer[v] && SpotOf(rows, layer, u) < SpotOf(rows, layer, v)
    ensures u in placed && v in placed && LeftOf(placed[u], placed[v], down)
  {
    var row := rows[layer[u]];
    var i, j := Spot(row, u), Spot(row, v);
    var at := Across(row, placed, down);
    assert RowLaid(row, placed, all, down, pred, BandMiddle(rows, all, down, layer[u]));
    SettledSpaced(row, all, down, WantsOf(row, pred, Centres(placed, down)), at);
    SpacedApart(row, all, down, at, i, j);
    assert at[i] == Centre(placed[u], down) && at[j] == Centre(placed[v], down);
  }

  /** Two that each lead on to one of the last layer are drawn in the order of
      those they lead to: what joins the last two layers so does not cross. */
  lemma LastArrowsDoNotCross(ids: seq<int>, shapes: map<int, Shape>, down: bool, r: Layout, d: Drawing, u: int, v: int,
                             x: int, y: int)
    requires Combed(ids, shapes, down, r, d) && forall s | s in shapes :: shapes[s].Valid()
    requires u in r.placed && v in r.placed && x in r.placed && y in r.placed && x != y
    requires Heads(HopLinks(r.hops), u) == [x] && Heads(HopLinks(r.hops), v) == [y]
    requires r.placed[u].layer == r.placed[v].layer < r.placed[x].layer == r.placed[y].layer
    requires forall w | w in r.placed :: r.placed[w].layer <= r.placed[x].layer
    ensures LeftOf(r.placed[u], r.placed[v], down) <==> LeftOf(r.placed[x], r.placed[y], down)
  {
    LastRowIs(ids, shapes, down, r, d, x);
    assert u != v by { assert [x] != [y] by { assert [x][0] == x && [y][0] == y; } }
    assert u in d.layer && v in d.layer && x in d.layer && y in d.layer;
    LastLayersLead(d.all, d.layer, d.pred, d.succ, u, v, x, y);
    OrderDrawn(ids, shapes, down, r, d, u, v);
    OrderDrawn(ids, shapes, down, r, d, x, y);
  }

  lemma LastRowIs(ids: seq<int>, shapes: map<int, Shape>, down: bool, r: Layout, d: Drawing, x: int)
    requires Combed(ids, shapes, down, r, d) && x in r.placed
    requires forall w | w in r.placed :: r.placed[w].layer <= r.placed[x].layer
    ensures r.placed[x].layer == |d.all[0]| - 1
  {
    assert x in d.layer && RowsOk(d.all[0], d.layer);
    var w :| w in d.layer && d.layer[w] == |d.all[0]| - 1;
    assert w in r.placed;
  }

  /** Left in the drawing is earlier in the row. */
  lemma OrderDrawn(ids: seq<int>, shapes: map<int, Shape>, down: bool, r: Layout, d: Drawing, u: int, v: int)
    requires Combed(ids, shapes, down, r, d) && forall s | s in shapes :: shapes[s].Valid()
    requires u in d.layer && v in d.layer && d.layer[u] == d.layer[v] && u != v
    ensures u in r.placed && v in r.placed && RowsOk(d.all[6], d.layer)
    ensures LeftOf(r.placed[u], r.placed[v], down) <==> SpotOf(d.all[6], d.layer, u) < SpotOf(d.all[6], d.layer, v)
  {
    WaypointsValid(ids, shapes, d.layer);
    DrawnAsOrdered(d.all[6], d.layer, r.placed, WithWaypoints(ids, shapes, d.layer), down, d.pred, u, v);
  }

  lemma DrawnAsOrdered(rows: Rows, layer: map<int, nat>, placed: map<int, Placed>, all: map<int, Shape>, down: bool,
                       pred: map<int, seq<int>>, u: int, v: int)
    requires RowsOk(rows, layer) && RowsLaid(rows, placed, all, down, pred, |rows|) && Drawn(all, down, layer, placed)
    requires (forall x | x in all :: all[x].Valid()) && u in layer && v in layer && layer[u] == layer[v] && u != v
    ensures u in placed && v in placed
    ensures LeftOf(placed[u], placed[v], down) <==> SpotOf(rows, layer, u) < SpotOf(rows, layer, v)
  {
    SpotsDiffer(rows, layer, u, v);
    assert AcrossSize(all[u], down) >= 0.0 && AcrossSize(all[v], down) >= 0.0;
    if SpotOf(rows, layer, u) < SpotOf(rows, layer, v) {
      DrawnInOrder(rows, layer, placed, all, down, pred, u, v);
    } else {
      DrawnInOrder(rows, layer, placed, all, down, pred, v, u);
    }
  }
}
