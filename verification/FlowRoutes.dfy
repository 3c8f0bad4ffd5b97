/** Cutting long arrows into one-layer hops through waypoints
    (`layout_full` of `src/mindmap_flow.rs`). */
module FlowRoutes {
  import opened Base
  import opened FlowCycles
  import opened FlowLayers

  /** A forward arrow and the waypoints it passes, nearest its tail first. */
  datatype Hop = Hop(arrow: Arrow, through: seq<int>)

  function Chain(h: Hop): seq<int> { [h.arrow.from] + h.through + [h.arrow.to] }

  /** The hops of one chain, in order. */
  function ChainLinks(c: seq<int>): seq<Arrow> {
    if |c| < 2 then [] else ChainLinks(c[..|c| - 1]) + [Arrow(c[|c| - 2], c[|c| - 1])]
  }

  function HopLinks(hops: seq<Hop>): seq<Arrow> {
    if hops == [] then [] else HopLinks(hops[..|hops| - 1]) + ChainLinks(Chain(hops[|hops| - 1]))
  }

  function HopArrows(hops: seq<Hop>): seq<Arrow> {
    if hops == [] then [] else HopArrows(hops[..|hops| - 1]) + [hops[|hops| - 1].arrow]
  }

  /** The distinct arrows that are not marked, as they come. */
  function Forward(arrows: seq<Arrow>, back: set<Arrow>): seq<Arrow> {
    if arrows == [] then []
    else
      var front, e := Forward(arrows[..|arrows| - 1], back), arrows[|arrows| - 1];
      if e in back || e in front then front else front + [e]
  }

  function Flipped(links: seq<Arrow>): seq<Arrow> {
    if links == [] then [] else Flipped(links[..|links| - 1]) + [Arrow(links[|links| - 1].to, links[|links| - 1].from)]
  }

  ghost predicate On(layer: map<int, nat>, v: int, l: nat) { v in layer && layer[v] == l }

  ghost predicate Keeps(layer1: map<int, nat>, layer: map<int, nat>) {
    forall v | v in layer1 :: On(layer, v, layer1[v])
  }

  /** One waypoint in each layer strictly between the ends, and no other. */
  ghost predicate Threads(h: Hop, layer: map<int, nat>) {
    && h.arrow.from in layer && h.arrow.to in layer
    && layer[h.arrow.from] < layer[h.arrow.to]
    && |h.through| == layer[h.arrow.to] - layer[h.arrow.from] - 1
    && forall k | 0 <= k < |h.through| :: On(layer, h.through[k], layer[h.arrow.from] + 1 + k)
  }

  /** The waypoints of an arrow are numbered downwards from some number, above `next`. */
  ghost predicate NumberedDown(h: Hop, next: int) {
    forall k | 0 <= k < |h.through| :: next < h.through[k] < 0 && h.through[k] == h.through[0] - k
  }

  /** No waypoint serves two arrows. */
  ghost predicate OwnWaypoints(hops: seq<Hop>) {
    forall i, j | 0 <= i < j < |hops| :: forall v | v in hops[i].through :: v !in hops[j].through
  }

  ghost predicate Adjacent(links: seq<Arrow>, succ: map<int, seq<int>>, pred: map<int, seq<int>>) {
    && (forall v :: Next(succ, v) == Heads(links, v))
    && (forall v :: Next(pred, v) == Heads(Flipped(links), v))
  }

  /** `layer` keeps the layers of the symbols and gives one to every waypoint. */
  ghost predicate Layered(layer0: map<int, nat>, layer: map<int, nat>, hops: seq<Hop>) {
    && Keeps(layer0, layer)
    && (forall v | v in layer :: v in layer0 || exists h :: h in hops && v in h.through)
    && (forall h | h in hops :: Threads(h, layer))
  }

  function Push(m: map<int, seq<int>>, k: int, v: int): map<int, seq<int>> { m[k := Next(m, k) + [v]] }

  lemma AdjacentPush(links: seq<Arrow>, succ: map<int, seq<int>>, pred: map<int, seq<int>>, a: int, b: int)
    requires Adjacent(links, succ, pred)
    ensures Adjacent(links + [Arrow(a, b)], Push(succ, a, b), Push(pred, b, a))
  {
    var l := links + [Arrow(a, b)];
    assert l[..|l| - 1] == links;
    var f := Flipped(links) + [Arrow(b, a)];
    assert Flipped(l) == f && f[..|f| - 1] == Flipped(links);
  }

  /** Every distinct forward arrow is cut into hops, once. */
  method RouteArrows(ids: seq<int>, arrows: seq<Arrow>, back: set<Arrow>, layer0: map<int, nat>)
    returns (layer: map<int, nat>, hops: seq<Hop>, pred: map<int, seq<int>>, succ: map<int, seq<int>>)
    requires layer0.Keys == Elems(ids) && (forall v | v in ids :: v > 0) && Ends(ids, arrows)
    requires forall e | e in arrows && e !in back :: At(layer0, e.from) < At(layer0, e.to)
    ensures Layered(layer0, layer, hops) && OwnWaypoints(hops)
    ensures forall h | h in hops :: exists next :: NumberedDown(h, next)
    ensures Adjacent(HopLinks(hops), succ, pred)
    ensures HopArrows(hops) == Forward(arrows, back)
    ensures NoDup(HopArrows(hops))
    ensures forall e :: e in HopArrows(hops) <==> e in arrows && e !in back
  {
    layer, hops, pred, succ := layer0, [], map[], map[];
    var next := -1;
    for i := 0 to |arrows|
      invariant next < 0 && (forall v | v in layer :: next < v)
      invariant Layered(layer0, layer, hops) && OwnWaypoints(hops) && (forall h | h in hops :: NumberedDown(h, next))
      invariant Adjacent(HopLinks(hops), succ, pred)
      invariant HopArrows(hops) == Forward(arrows[..i], back)
    {
      var e := arrows[i];
      ForwardStep(arrows, back, i);
      if e !in back && e !in HopArrows(hops) {
        var through;
        ghost var layer1, hops1, links1, next1 := layer, hops, HopLinks(hops), next;
        layer, pred, succ, through, next := Route(e, layer, links1, pred, succ, next);
        hops := hops + [Hop(e, through)];
        assert hops[..|hops| - 1] == hops1;
        Rerouted(layer0, layer1, layer, hops1, e, through, next1, next);
      }
    }
    assert arrows[..|arrows|] == arrows;
    ForwardAre(arrows, back);
  }

  lemma ForwardStep(arrows: seq<Arrow>, back: set<Arrow>, i: nat)
    requires i < |arrows|
    ensures var f := Forward(arrows[..i], back);
            Forward(arrows[..i + 1], back) == if arrows[i] in back || arrows[i] in f then f else f + [arrows[i]]
    ensures arrows[i] in arrows
  {
    assert arrows[..i + 1][..i] == arrows[..i];
  }

  lemma {:induction false} ForwardAre(arrows: seq<Arrow>, back: set<Arrow>)
    ensures NoDup(Forward(arrows, back))
    ensures forall e :: e in Forward(arrows, back) <==> e in arrows && e !in back
    decreases |arrows|
  {
    if arrows != [] {
      var n := |arrows| - 1;
      ForwardAre(arrows[..n], back);
      assert arrows == arrows[..n] + [arrows[n]];
      if arrows[n] !in Forward(arrows[..n], back) { NoDupConcat(Forward(arrows[..n], back), [arrows[n]]); }
    }
  }

  lemma Rerouted(layer0: map<int, nat>, layer1: map<int, nat>, layer: map<int, nat>, hops: seq<Hop>, e: Arrow,
                 through: seq<int>,
                 next1: int, next: int)
    requires Layered(layer0, layer1, hops) && OwnWaypoints(hops) && (forall h | h in hops :: NumberedDown(h, next1))
    requires Cut(layer1, layer, e.from, through, next1) && next == next1 - |through| && next1 < 0
    requires e.from in layer1 && e.to in layer1
    requires layer1[e.from] < layer1[e.to] && |through| == layer1[e.to] - layer1[e.from] - 1
    ensures var hops' := hops + [Hop(e, through)];
            Layered(layer0, layer, hops') && OwnWaypoints(hops') && (forall h | h in hops' :: NumberedDown(h, next))
  {
    var n := Hop(e, through);
    CutThreads(layer1, layer, e, through, next1);
    forall h | h in hops ensures Threads(h, layer) { ThreadsStay(h, layer1, layer); }
    ReroutedLayers(layer0, layer1, layer, hops, n);
    ReroutedOwn(hops, n, next1);
    StillNumbered(hops, n, next1, next);
  }

  lemma StillNumbered(hops: seq<Hop>, n: Hop, next1: int, next: int)
    requires (forall h | h in hops :: NumberedDown(h, next1)) && next <= next1 && NumberedDown(n, next)
    ensures forall h | h in hops + [n] :: NumberedDown(h, next)
  {
    forall h | h in hops + [n] ensures NumberedDown(h, next) {
      if h != n { assert h in hops && NumberedDown(h, next1); }
    }
  }

  lemma CutThreads(layer1: map<int, nat>, layer: map<int, nat>, e: Arrow, through: seq<int>, next1: int)
    requires Cut(layer1, layer, e.from, through, next1) && next1 < 0 && e.from in layer1 && e.to in layer1
    requires layer1[e.from] < layer1[e.to] && |through| == layer1[e.to] - layer1[e.from] - 1
    ensures Threads(Hop(e, through), layer) && NumberedDown(Hop(e, through), next1 - |through|)
    ensures forall k | 0 <= k < |through| :: through[k] <= next1
  {
    assert On(layer, e.from, layer1[e.from]) && On(layer, e.to, layer1[e.to]);
  }

  lemma ThreadsStay(h: Hop, layer1: map<int, nat>, layer: map<int, nat>)
    requires Threads(h, layer1) && Keeps(layer1, layer)
    ensures Threads(h, layer)
  {
    forall k | 0 <= k < |h.through| ensures On(layer, h.through[k], layer[h.arrow.from] + 1 + k) {
      assert On(layer1, h.through[k], layer1[h.arrow.from] + 1 + k);
    }
  }

  lemma ReroutedLayers(layer0: map<int, nat>, layer1: map<int, nat>, layer: map<int, nat>, hops: seq<Hop>, n: Hop)
    requires Layered(layer0, layer1, hops)
    requires Keeps(layer1, layer)
    requires forall v | v in layer :: v in layer1 || v in n.through
    requires Threads(n, layer) && forall h | h in hops :: Threads(h, layer)
    ensures Layered(layer0, layer, hops + [n])
  {
    var hops' := hops + [n];
    forall v | v in layer ensures v in layer0 || exists h :: h in hops' && v in h.through {
      if v !in layer1 {
        assert n in hops';
      } else if v !in layer0 {
        var h :| h in hops && v in h.through;
        assert h in hops';
      }
    }
  }

  lemma ReroutedOwn(hops: seq<Hop>, n: Hop, next1: int)
    requires OwnWaypoints(hops) && forall h | h in hops :: NumberedDown(h, next1)
    requires forall k | 0 <= k < |n.through| :: n.through[k] <= next1
    ensures OwnWaypoints(hops + [n])
  {
    var hops' := hops + [n];
    forall i, j, v | 0 <= i < j < |hops'| && v in hops'[i].through ensures v !in hops'[j].through {
      assert hops'[i] == hops[i] && hops[i] in hops;
      assert NumberedDown(hops[i], next1);
      if j < |hops| { assert hops'[j] == hops[j]; }
    }
  }

  /** The waypoints added for one arrow, one a layer, numbered down from `next1`. */
  ghost predicate Cut(layer1: map<int, nat>, layer: map<int, nat>, a: int, through: seq<int>, next1: int) {
    && a in layer1
    && Keeps(layer1, layer)
    && (forall v | v in layer :: v in layer1 || v in through)
    && (forall k | 0 <= k < |through| ::
          through[k] == next1 - k && On(layer, through[k], layer1[a] + 1 + k))
  }

  lemma CutOne(layer1: map<int, nat>, layer: map<int, nat>, a: int, through: seq<int>, next1: int)
    requires Cut(layer1, layer, a, through, next1) && next1 < 0 && forall v | v in layer1 :: next1 < v
    ensures Cut(layer1, layer[next1 - |through| := layer1[a] + 1 + |through|], a, through + [next1 - |through|], next1)
  {
    var v := next1 - |through|;
    assert v !in through;
  }

  method Route(e: Arrow, layer1: map<int, nat>, ghost links1: seq<Arrow>, pred1: map<int, seq<int>>, succ1: map<int,
               seq<int>>, next1: int)
    returns (layer: map<int, nat>, pred: map<int, seq<int>>, succ: map<int, seq<int>>, through: seq<int>, next: int)
    requires e.from in layer1 && e.to in layer1 && layer1[e.from] < layer1[e.to]
    requires next1 < 0 && (forall v | v in layer1 :: next1 < v)
    requires Adjacent(links1, succ1, pred1)
    ensures Cut(layer1, layer, e.from, through, next1) && |through| == layer1[e.to] - layer1[e.from] - 1
    ensures next == next1 - |through| && forall v | v in layer :: next < v
    ensures Adjacent(links1 + ChainLinks(Chain(Hop(e, through))), succ, pred)
  {
    layer, pred, succ, next := layer1, pred1, succ1, next1;
    var prev := e.from;
    through := [];
    ghost var chain := [e.from];
    assert links1 + ChainLinks(chain) == links1;
    for l := layer1[e.from] + 1 to layer1[e.to]
      invariant |through| == l - layer1[e.from] - 1
      invariant Cutting(layer1, layer, links1, pred, succ, through, next1, next, e.from, chain, prev)
    {
      layer, pred, succ, prev, next :=
        CutHere(layer1, layer, links1, pred, succ, through, next1, next, e.from, chain, prev, l);
      through := through + [prev];
      chain := chain + [prev];
    }
    LinkOn(links1, succ, pred, chain, e.to);
    succ := Push(succ, prev, e.to);
    pred := Push(pred, e.to, prev);
  }

  ghost predicate Cutting(layer1: map<int, nat>, layer: map<int, nat>, links1: seq<Arrow>, pred: map<int, seq<int>>,
                          succ: map<int, seq<int>>,
                          through: seq<int>, next1: int, next: int, a: int, chain: seq<int>, prev: int) {
    && next == next1 - |through| && chain == [a] + through && prev == chain[|chain| - 1]
    && Cut(layer1, layer, a, through, next1) && (forall v | v in layer :: next < v)
    && Adjacent(links1 + ChainLinks(chain), succ, pred)
  }

  method CutHere(ghost layer1: map<int, nat>, layer0: map<int, nat>, ghost links1: seq<Arrow>, pred0: map<int,
                 seq<int>>, succ0: map<int, seq<int>>,
                 ghost through: seq<int>, ghost next1: int, v: int, ghost a: int, ghost chain: seq<int>, prev0: int,
                   l: nat)
    returns (layer: map<int, nat>, pred: map<int, seq<int>>, succ: map<int, seq<int>>, prev: int, next: int)
    requires Cutting(layer1, layer0, links1, pred0, succ0, through, next1, v, a, chain, prev0)
    requires next1 < 0 && (forall u | u in layer1 :: next1 < u) && l == layer1[a] + 1 + |through|
    ensures prev == v && Cutting(layer1, layer, links1, pred, succ, through + [v], next1, next, a, chain + [v], prev)
  {
    CutNext(layer1, layer0, links1, pred0, succ0, through, next1, v, a, chain, prev0, l);
    layer := layer0[v := l];
    succ := Push(succ0, prev0, v);
    pred := Push(pred0, v, prev0);
    prev := v;
    next := v - 1;
  }

  lemma CutNext(layer1: map<int, nat>, layer: map<int, nat>, links1: seq<Arrow>, pred: map<int, seq<int>>,
                succ: map<int, seq<int>>,
                through: seq<int>, next1: int, v: int, a: int, chain: seq<int>, prev: int, l: nat)
    requires Cutting(layer1, layer, links1, pred, succ, through, next1, v, a, chain, prev)
    requires next1 < 0 && (forall u | u in layer1 :: next1 < u) && l == layer1[a] + 1 + |through|
    ensures Cutting(layer1, layer[v := l], links1, Push(pred, v, prev), Push(succ, prev, v), through + [v], next1,
              v - 1, a, chain + [v], v)
  {
    ChainOn(a, through, chain, v);
    var layer' := layer[v := l];
    assert Cut(layer1, layer', a, through + [v], next1) by { CutOne(layer1, layer, a, through, next1); }
    assert forall u | u in layer' :: v - 1 < u by { StayAbove(layer, layer', v); }
    assert Adjacent(links1 + ChainLinks(chain + [v]), Push(succ, prev, v),
           Push(pred, v, prev)) by { LinkOn(links1, succ, pred, chain, v); }
  }

  lemma ChainOn(a: int, through: seq<int>, chain: seq<int>, v: int)
    requires chain == [a] + through
    ensures chain + [v] == [a] + (through + [v]) && (chain + [v])[|chain + [v]| - 1] == v
  {
  }

  lemma StayAbove(layer: map<int, nat>, layer': map<int, nat>, v: int)
    requires layer'.Keys == layer.Keys + {v} && forall u | u in layer :: v < u
    ensures forall u | u in layer' :: v - 1 < u
  {
    forall u | u in layer' ensures v - 1 < u { assert u in layer'.Keys; }
  }

  lemma LinkOn(links: seq<Arrow>, succ: map<int, seq<int>>, pred: map<int, seq<int>>, c: seq<int>, v: int)
    requires c != [] && Adjacent(links + ChainLinks(c), succ, pred)
    ensures var u := c[|c| - 1]; Adjacent(links + ChainLinks(c + [v]), Push(succ, u, v), Push(pred, v, u))
  {
    ChainGrows(links, c, v);
    AdjacentPush(links + ChainLinks(c), succ, pred, c[|c| - 1], v);
  }

  lemma ChainGrows(links: seq<Arrow>, c: seq<int>, v: int)
    requires c != []
    ensures links + ChainLinks(c + [v]) == links + ChainLinks(c) + [Arrow(c[|c| - 1], v)]
  {
    ChainLast(c, v);
    LinksAssociate(links, ChainLinks(c), [Arrow(c[|c| - 1], v)]);
  }

  lemma ChainLast(c: seq<int>, v: int)
    requires c != []
    ensures ChainLinks(c + [v]) == ChainLinks(c) + [Arrow(c[|c| - 1], v)]
  {
    var d := c + [v];
    assert d[..|d| - 1] == c && d[|d| - 2] == c[|c| - 1] && d[|d| - 1] == v;
  }

  lemma LinksAssociate(a: seq<Arrow>, b: seq<Arrow>, c: seq<Arrow>)
    ensures a + (b + c) == a + b + c
  {
  }

  /** Every link of a cut arrow goes exactly one layer up. */
  lemma {:induction false} ChainClimbs(h: Hop, layer: map<int, nat>, c: seq<int>)
    requires Threads(h, layer) && c <= Chain(h)
    ensures forall l | l in ChainLinks(c) :: l.from in layer && l.to in layer && layer[l.from] + 1 == layer[l.to]
    decreases |c|
  {
    if |c| >= 2 {
      var n := |c| - 1;
      ChainClimbs(h, layer, c[..n]);
      assert c[n] == Chain(h)[n] && c[n - 1] == Chain(h)[n - 1];
      assert n - 1 < |h.through| + 1;
      assert 0 < n <= |h.through| ==> On(layer, h.through[n - 1], layer[h.arrow.from] + n);
      assert 1 < n ==> On(layer, h.through[n - 2], layer[h.arrow.from] + n - 1);
    }
  }

  lemma {:induction false} HopsClimb(hops: seq<Hop>, layer: map<int, nat>)
    requires forall h | h in hops :: Threads(h, layer)
    ensures forall l | l in HopLinks(hops) :: l.from in layer && l.to in layer && layer[l.from] + 1 == layer[l.to]
    decreases |hops|
  {
    if hops != [] {
      HopsClimb(hops[..|hops| - 1], layer);
      ChainClimbs(hops[|hops| - 1], layer, Chain(hops[|hops| - 1]));
    }
  }
}
