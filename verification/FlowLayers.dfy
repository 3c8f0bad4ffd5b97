/** Layering the flowchart: Kahn's algorithm over the arrows with the marked
    ones turned round puts every symbol after the longest path to it. */
module FlowLayers {
  import opened Base
  import opened FlowCycles

  /** Heads of the arrows that leave `v`, in drawing order, duplicates kept. */
  function Heads(dag: seq<Arrow>, v: int): seq<int> {
    if dag == [] then []
    else if dag[|dag| - 1].from == v then Heads(dag[..|dag| - 1], v) + [dag[|dag| - 1].to]
    else Heads(dag[..|dag| - 1], v)
  }

  /** How many arrows into `w` still wait for their tail. */
  function Waiting(dag: seq<Arrow>, done: set<int>, w: int): nat {
    if dag == [] then 0
    else
      var e := dag[|dag| - 1];
      Waiting(dag[..|dag| - 1], done, w) + if e.to == w && e.from !in done then 1 else 0
  }

  function Count(ws: seq<int>, w: int): nat {
    if ws == [] then 0 else Count(ws[..|ws| - 1], w) + if ws[|ws| - 1] == w then 1 else 0
  }

  function At(m: map<int, nat>, v: int): nat { if v in m then m[v] else 0 }

  /** A path of exactly `n` arrows ends at `v`. */
  ghost predicate PathInto(dag: seq<Arrow>, v: int, n: nat)
    decreases n
  {
    n == 0 || exists e :: e in dag && e.to == v && PathInto(dag, e.from, n - 1)
  }

  /** `n` is the length of the longest path to `v`. */
  ghost predicate Longest(dag: seq<Arrow>, v: int, n: nat) {
    PathInto(dag, v, n) && forall m: nat | PathInto(dag, v, m) :: m <= n
  }

  // ---------------------------------------------------------------------
  // What the loop keeps.

  /** The layer of `v` is one past the tail of some arrow from a finished symbol. */
  ghost predicate Fed(dag: seq<Arrow>, layer: map<int, nat>, done: set<int>, v: int) {
    exists e :: e in dag && e.to == v && e.from in done && At(layer, v) == At(layer, e.from) + 1
  }

  ghost predicate AllFed(ids: seq<int>, dag: seq<Arrow>, layer: map<int, nat>, done: set<int>) {
    forall v | v in ids :: At(layer, v) == 0 || Fed(dag, layer, done, v)
  }

  /** Arrows from finished symbols go strictly up. */
  ghost predicate Climbing(dag: seq<Arrow>, layer: map<int, nat>, done: set<int>) {
    forall e | e in dag && e.from in done :: At(layer, e.from) + 1 <= At(layer, e.to)
  }

  ghost predicate Ends(ids: seq<int>, dag: seq<Arrow>) {
    forall e | e in dag :: e.from in ids && e.to in ids
  }

  ghost predicate DoneClosed(dag: seq<Arrow>, done: set<int>) {
    forall e | e in dag && e.to in done :: e.from in done
  }

  lemma {:induction false} WaitingPositive(dag: seq<Arrow>, done: set<int>, w: int)
    ensures Waiting(dag, done, w) > 0 <==> exists e :: e in dag && e.to == w && e.from !in done
    decreases |dag|
  {
    if dag != [] {
      var n := |dag| - 1;
      WaitingPositive(dag[..n], done, w);
      assert forall e :: e in dag <==> e in dag[..n] || e == dag[n];
    }
  }

  lemma {:induction false} HeadsAre(dag: seq<Arrow>, v: int)
    ensures forall w :: w in Heads(dag, v) <==> Arrow(v, w) in dag
    decreases |dag|
  {
    if dag != [] {
      var n := |dag| - 1;
      HeadsAre(dag[..n], v);
      forall w ensures w in Heads(dag, v) <==> Arrow(v, w) in dag {
        assert Arrow(v, w) in dag <==> Arrow(v, w) in dag[..n] || Arrow(v, w) == dag[n];
      }
    }
  }

  lemma {:induction false} CountAppend(ws: seq<int>, x: int, w: int)
    ensures Count(ws + [x], w) == Count(ws, w) + if x == w then 1 else 0
  {
    assert (ws + [x])[..|ws|] == ws;
  }

  /** Finishing `v` releases one arrow for each time its heads name `w`. */
  lemma {:induction false} WaitingReleases(dag: seq<Arrow>, done: set<int>, v: int, w: int)
    requires v !in done
    ensures Waiting(dag, done + {v}, w) + Count(Heads(dag, v), w) == Waiting(dag, done, w)
    decreases |dag|
  {
    if dag != [] {
      var n := |dag| - 1;
      WaitingReleases(dag[..n], done, v, w);
      if dag[n].from == v { CountAppend(Heads(dag[..n], v), dag[n].to, w); }
    }
  }

  lemma {:induction false} CountPrefix(ws: seq<int>, i: nat, w: int)
    requires i < |ws| && ws[i] == w
    ensures Count(ws[..i], w) < Count(ws, w)
    decreases |ws|
  {
    var n := |ws| - 1;
    if i == n {
      assert ws[..i] == ws[..n];
    } else {
      CountPrefix(ws[..n], i, w);
      assert ws[..n][..i] == ws[..i];
    }
  }

  // ---------------------------------------------------------------------
  // Longest paths from the settled layers.

  lemma {:induction false} LayerIsAPath(ids: seq<int>, dag: seq<Arrow>, layer: map<int, nat>, v: int)
    requires Ends(ids, dag) && AllFed(ids, dag, layer, Elems(ids)) && v in ids
    ensures PathInto(dag, v, At(layer, v))
    decreases At(layer, v)
  {
    if At(layer, v) > 0 {
      assert Fed(dag, layer, Elems(ids), v);
      var e :| e in dag && e.to == v && e.from in Elems(ids) && At(layer, v) == At(layer, e.from) + 1;
      LayerIsAPath(ids, dag, layer, e.from);
    }
  }

  lemma {:induction false} PathFitsLayer(ids: seq<int>, dag: seq<Arrow>, layer: map<int, nat>, v: int, n: nat)
    requires Ends(ids, dag) && Climbing(dag, layer, Elems(ids)) && PathInto(dag, v, n)
    ensures n <= At(layer, v)
    decreases n
  {
    if n > 0 {
      var e :| e in dag && e.to == v && PathInto(dag, e.from, n - 1);
      PathFitsLayer(ids, dag, layer, e.from, n - 1);
    }
  }

  ghost function RankOf(rank: map<int, int>, v: int): int { if v in rank then rank[v] else 0 }

  lemma {:induction false} HighestRank(rank: map<int, int>, left: set<int>) returns (v: int)
    requires left != {}
    ensures v in left && forall x | x in left :: RankOf(rank, x) <= RankOf(rank, v)
    decreases |left|
  {
    v := SomeMember(left);
    var rest := left - {v};
    if rest != {} {
      var u := HighestRank(rank, rest);
      assert forall x | x in left :: x == v || x in rest;
      if RankOf(rank, v) < RankOf(rank, u) { v := u; }
    } else {
      assert forall x | x in left :: x == v || x in rest;
    }
  }

  /** An acyclic drawing always has a symbol nothing left waits for. */
  lemma SomeReady(dag: seq<Arrow>, rank: map<int, int>, left: set<int>) returns (v: int)
    requires left != {} && RankedSeq(dag, rank)
    ensures v in left && forall e | e in dag && e.to == v :: e.from !in left
  {
    v := HighestRank(rank, left);
    forall e | e in dag && e.to == v ensures e.from !in left {
      assert RankOf(rank, e.to) < RankOf(rank, e.from);
    }
  }

  ghost predicate RankedSeq(dag: seq<Arrow>, rank: map<int, int>) {
    forall e | e in dag :: e.from in rank && e.to in rank && rank[e.to] < rank[e.from]
  }

  // ---------------------------------------------------------------------
  // The loop.

  /** The counters and the queue, between two symbols taken off. */
  ghost predicate Counters(ids: seq<int>, dag: seq<Arrow>, indeg: map<int, int>, queue: seq<int>, done: set<int>) {
    && NoDup(queue) && (forall q | q in queue :: q in ids && q !in done)
    && indeg.Keys == Elems(ids)
    && (forall w | w in indeg :: indeg[w] == Waiting(dag, done, w) && (indeg[w] == 0 <==> w in done || w in queue))
  }

  ghost predicate Turn(ids: seq<int>, dag: seq<Arrow>, layer: map<int, nat>, indeg: map<int, int>, queue: seq<int>,
                       done: set<int>) {
    && done <= Elems(ids) && DoneClosed(dag, done)
    && Counters(ids, dag, indeg, queue, done)
    && layer.Keys == Elems(ids) && Climbing(dag, layer, done) && AllFed(ids, dag, layer, done)
  }

  /** The same, half way through the heads of `v`. */
  ghost predicate HalfCounters(ids: seq<int>, dag: seq<Arrow>, indeg: map<int, int>, queue: seq<int>,
                               done: set<int>, v: int, ws: seq<int>) {
    && NoDup(queue) && (forall q | q in queue :: q in ids && q !in done && q != v)
    && indeg.Keys == Elems(ids)
    && (forall w | w in indeg :: indeg[w] == Waiting(dag, done, w) - Count(ws, w)
                                 && (indeg[w] == 0 <==> w in done || w in queue || w == v))
  }

  ghost predicate HalfLayers(ids: seq<int>, dag: seq<Arrow>, layer: map<int, nat>, done: set<int>, v: int,
                             ws: seq<int>) {
    && layer.Keys == Elems(ids) && Climbing(dag, layer, done) && AllFed(ids, dag, layer, done + {v})
    && (forall w | w in ws :: At(layer, v) + 1 <= At(layer, w))
  }

  /** Every symbol gets the length of the longest path to it. */
  method Layers(ids: seq<int>, dag: seq<Arrow>, ghost rank: map<int, int>) returns (layer: map<int, nat>)
    requires NoDup(ids) && Ends(ids, dag) && RankedSeq(dag, rank)
    ensures layer.Keys == Elems(ids)
    ensures forall v | v in ids :: Longest(dag, v, At(layer, v))
    ensures forall e | e in dag :: At(layer, e.from) < At(layer, e.to)
  {
    var indeg, succ := Degrees(ids, dag);
    layer := map v | v in ids :: 0;
    var queue := Ready(ids, indeg);
    ghost var done: set<int> := {};
    StartTurn(ids, dag, layer, indeg, queue);
    while queue != []
      invariant Turn(ids, dag, layer, indeg, queue, done)
      decreases Elems(ids) - done
    {
      var v := queue[0];
      assert v in queue;
      layer, indeg, queue := Release(ids, dag, layer, indeg, queue, done, v, if v in succ then succ[v] else []);
      done := done + {v};
    }
    AllDone(ids, dag, rank, layer, indeg, done);
    AllLongest(ids, dag, layer);
  }

  lemma AllLongest(ids: seq<int>, dag: seq<Arrow>, layer: map<int, nat>)
    requires Ends(ids, dag) && Climbing(dag, layer, Elems(ids)) && AllFed(ids, dag, layer, Elems(ids))
    ensures forall v | v in ids :: Longest(dag, v, At(layer, v))
    ensures forall e | e in dag :: At(layer, e.from) < At(layer, e.to)
  {
    forall v | v in ids ensures Longest(dag, v, At(layer, v)) {
      LayerIsAPath(ids, dag, layer, v);
      forall m: nat | PathInto(dag, v, m) ensures m <= At(layer, v) { PathFitsLayer(ids, dag, layer, v, m); }
    }
  }

  method Degrees(ids: seq<int>, dag: seq<Arrow>) returns (indeg: map<int, int>, succ: map<int, seq<int>>)
    requires Ends(ids, dag)
    ensures indeg.Keys == Elems(ids) && forall w | w in ids :: indeg[w] == Waiting(dag, {}, w)
    ensures forall v :: (if v in succ then succ[v] else []) == Heads(dag, v)
  {
    indeg := map v | v in ids :: 0;
    succ := map[];
    for i := 0 to |dag|
      invariant indeg.Keys == Elems(ids)
      invariant forall w | w in ids :: indeg[w] == Waiting(dag[..i], {}, w)
      invariant forall v :: (if v in succ then succ[v] else []) == Heads(dag[..i], v)
    {
      var e := dag[i];
      assert dag[..i + 1][..i] == dag[..i];
      indeg := indeg[e.to := indeg[e.to] + 1];
      succ := succ[e.from := (if e.from in succ then succ[e.from] else []) + [e.to]];
    }
    assert dag[..|dag|] == dag;
  }

  method Ready(ids: seq<int>, indeg: map<int, int>) returns (queue: seq<int>)
    requires NoDup(ids) && indeg.Keys == Elems(ids)
    ensures NoDup(queue) && forall w :: w in queue <==> w in ids && indeg[w] == 0
  {
    queue := [];
    for i := 0 to |ids|
      invariant forall w :: w in queue <==> w in ids[..i] && indeg[w] == 0
      invariant NoDup(queue)
    {
      assert ids[..i + 1] == ids[..i] + [ids[i]];
      if indeg[ids[i]] == 0 {
        assert ids[i] !in ids[..i];
        NoDupConcat(queue, [ids[i]]);
        queue := queue + [ids[i]];
      }
    }
    assert ids[..|ids|] == ids;
  }

  lemma StartTurn(ids: seq<int>, dag: seq<Arrow>, layer: map<int, nat>, indeg: map<int, int>, queue: seq<int>)
    requires Ends(ids, dag) && NoDup(queue)
    requires layer == map v | v in ids :: 0
    requires indeg.Keys == Elems(ids) && forall w | w in ids :: indeg[w] == Waiting(dag, {}, w)
    requires forall w :: w in queue <==> w in ids && indeg[w] == 0
    ensures Turn(ids, dag, layer, indeg, queue, {})
  {
  }

  /** Take `v` off the queue: raise the layers of its heads, release them. */
  method Release(ids: seq<int>, dag: seq<Arrow>, layer0: map<int, nat>, indeg0: map<int, int>, queue0: seq<int>,
                 ghost done: set<int>, v: int, heads: seq<int>)
    returns (layer: map<int, nat>, indeg: map<int, int>, queue: seq<int>)
    requires Ends(ids, dag) && Turn(ids, dag, layer0, indeg0, queue0, done)
    requires forall e | e in dag :: e.from != e.to
    requires queue0 != [] && v == queue0[0] && heads == Heads(dag, v)
    ensures Turn(ids, dag, layer, indeg, queue, done + {v})
  {
    layer, indeg, queue := layer0, indeg0, queue0[1..];
    StartHalf(ids, dag, layer, indeg, queue0, done, v);
    for i := 0 to |heads|
      invariant Half(ids, dag, layer, indeg, queue, done, v, heads[..i])
    {
      layer, indeg, queue := ReleaseHead(ids, dag, layer, indeg, queue, done, v, i, heads);
    }
    assert heads[..|heads|] == heads;
    EndHalf(ids, dag, layer, indeg, queue, done, v);
  }

  ghost predicate Half(ids: seq<int>, dag: seq<Arrow>, layer: map<int, nat>, indeg: map<int, int>, queue: seq<int>,
                       done: set<int>, v: int, ws: seq<int>) {
    HalfCounters(ids, dag, indeg, queue, done, v, ws) && HalfLayers(ids, dag, layer, done, v, ws)
  }

  method ReleaseHead(ids: seq<int>, dag: seq<Arrow>, layer0: map<int, nat>, indeg0: map<int, int>, queue0: seq<int>,
                     ghost done: set<int>, v: int, i: nat, heads: seq<int>)
    returns (layer: map<int, nat>, indeg: map<int, int>, queue: seq<int>)
    requires Ends(ids, dag) && DoneClosed(dag, done) && (forall e | e in dag :: e.from != e.to)
    requires v in ids && v !in done && heads == Heads(dag, v) && i < |heads|
    requires Half(ids, dag, layer0, indeg0, queue0, done, v, heads[..i])
    ensures Half(ids, dag, layer, indeg, queue, done, v, heads[..i + 1])
  {
    var w := heads[i];
    HeadCounters(ids, dag, indeg0, queue0, done, v, i, heads);
    HeadLayers(ids, dag, layer0, done, v, i, heads);
    layer, indeg, queue := layer0, indeg0, queue0;
    if layer[w] < layer[v] + 1 {
      layer := layer[w := layer[v] + 1];
    }
    indeg := indeg[w := indeg[w] - 1];
    if indeg[w] == 0 {
      queue := queue + [w];
    }
  }

  lemma HeadCounters(ids: seq<int>, dag: seq<Arrow>, indeg: map<int, int>, queue: seq<int>, done: set<int>, v: int,
                     i: nat, heads: seq<int>)
    requires Ends(ids, dag) && DoneClosed(dag, done) && (forall e | e in dag :: e.from != e.to)
    requires v in ids && v !in done && heads == Heads(dag, v) && i < |heads|
    requires HalfCounters(ids, dag, indeg, queue, done, v, heads[..i])
    ensures heads[i] in indeg
    ensures var indeg' := indeg[heads[i] := indeg[heads[i]] - 1];
            HalfCounters(ids, dag, indeg', if indeg'[heads[i]] == 0 then queue + [heads[i]]
              else queue, done, v, heads[..i + 1])
  {
    assert heads[..i + 1] == heads[..i] + [heads[i]];
    CounterStep(ids, dag, indeg, queue, done, v, i);
  }

  lemma HeadLayers(ids: seq<int>, dag: seq<Arrow>, layer: map<int, nat>, done: set<int>, v: int, i: nat,
                   heads: seq<int>)
    requires Ends(ids, dag) && DoneClosed(dag, done) && (forall e | e in dag :: e.from != e.to)
    requires v !in done && heads == Heads(dag, v) && i < |heads|
    requires HalfLayers(ids, dag, layer, done, v, heads[..i])
    ensures heads[i] in layer && v in layer
    ensures HalfLayers(ids, dag, if layer[heads[i]] < layer[v] + 1 then layer[heads[i] := layer[v] + 1]
              else layer, done, v, heads[..i + 1])
  {
    assert heads[..i + 1] == heads[..i] + [heads[i]];
    HeadOf(ids, dag, done, v, i);
    assert Arrow(v, heads[i]).from != Arrow(v, heads[i]).to;
    LayerStep(ids, dag, layer, done, v, heads[i], heads[..i]);
  }

  lemma StartHalf(ids: seq<int>, dag: seq<Arrow>, layer: map<int, nat>, indeg: map<int, int>, queue: seq<int>,
                  done: set<int>, v: int)
    requires Turn(ids, dag, layer, indeg, queue, done) && queue != [] && v == queue[0]
    ensures HalfCounters(ids, dag, indeg, queue[1..], done, v, []) && HalfLayers(ids, dag, layer, done, v, [])
    ensures v in ids && v !in done && Waiting(dag, done, v) == 0
  {
    assert v in queue;
    assert forall q :: q in queue <==> q == v || q in queue[1..];
    assert v in indeg;
    forall w | w in ids && At(layer, w) != 0 ensures Fed(dag, layer, done + {v}, w) { assert Fed(dag, layer, done, w); }
  }

  lemma HeadOf(ids: seq<int>, dag: seq<Arrow>, done: set<int>, v: int, i: nat)
    requires Ends(ids, dag) && DoneClosed(dag, done) && v !in done && i < |Heads(dag, v)|
    ensures var w := Heads(dag, v)[i]; w in ids && w !in done && Arrow(v, w) in dag
  {
    HeadsAre(dag, v);
    assert Heads(dag, v)[i] in Heads(dag, v);
  }

  lemma CounterStep(ids: seq<int>, dag: seq<Arrow>, indeg: map<int, int>, queue: seq<int>, done: set<int>, v: int,
                    i: nat)
    requires Ends(ids, dag) && (forall e | e in dag :: e.from != e.to) && DoneClosed(dag, done)
    requires v in ids && v !in done && i < |Heads(dag, v)|
    requires HalfCounters(ids, dag, indeg, queue, done, v, Heads(dag, v)[..i])
    ensures var w := Heads(dag, v)[i];
            w in indeg &&
            var indeg' := indeg[w := indeg[w] - 1];
            HalfCounters(ids, dag, indeg', if indeg'[w] == 0 then queue + [w]
              else queue, done, v, Heads(dag, v)[..i] + [w])
  {
    var ws := Heads(dag, v);
    var w := ws[i];
    HeadOf(ids, dag, done, v, i);
    CountPrefix(ws, i, w);
    WaitingReleases(dag, done, v, w);
    assert w in indeg && indeg[w] > 0 && w !in queue && w != v;
    NoDupConcat(queue, [w]);
    forall x | x in indeg ensures Count(ws[..i] + [w], x) == Count(ws[..i], x) + if x == w then 1 else 0 {
      CountAppend(ws[..i], w, x);
    }
  }

  lemma LayerStep(ids: seq<int>, dag: seq<Arrow>, layer: map<int, nat>, done: set<int>, v: int, w: int, ws: seq<int>)
    requires Ends(ids, dag) && DoneClosed(dag, done)
    requires v != w && v !in done && w !in done && Arrow(v, w) in dag
    requires HalfLayers(ids, dag, layer, done, v, ws)
    ensures w in layer && v in layer
    ensures HalfLayers(ids, dag, if layer[w] < layer[v] + 1 then layer[w := layer[v] + 1] else layer, done, v, ws + [w])
  {
    assert Arrow(v, w).from in ids && Arrow(v, w).to in ids;
    if layer[w] < layer[v] + 1 {
      var layer' := layer[w := layer[v] + 1];
      forall x | x in ids && At(layer', x) != 0 ensures Fed(dag, layer', done + {v}, x) {
        RaisedFed(dag, layer, done, v, w, x);
      }
    }
  }

  /** Raising the layer of `w` above `v` leaves every layer one past some tail. */
  lemma RaisedFed(dag: seq<Arrow>, layer: map<int, nat>, done: set<int>, v: int, w: int, x: int)
    requires v != w && v !in done && w !in done && Arrow(v, w) in dag && v in layer && w in layer
    requires At(layer, x) == 0 || Fed(dag, layer, done + {v}, x)
    ensures var layer' := layer[w := layer[v] + 1]; At(layer', x) == 0 || Fed(dag, layer', done + {v}, x)
  {
    var layer' := layer[w := layer[v] + 1];
    if x == w {
      assert Arrow(v, w) in dag && At(layer', w) == At(layer', v) + 1;
    } else if At(layer', x) != 0 {
      var e :| e in dag && e.to == x && e.from in done + {v} && At(layer, x) == At(layer, e.from) + 1;
      assert At(layer', x) == At(layer', e.from) + 1;
    }
  }

  lemma EndHalf(ids: seq<int>, dag: seq<Arrow>, layer: map<int, nat>, indeg: map<int, int>, queue: seq<int>,
                done: set<int>, v: int)
    requires Ends(ids, dag) && done <= Elems(ids) && DoneClosed(dag, done) && v in ids && v !in done
    requires Waiting(dag, done, v) == 0
    requires HalfCounters(ids, dag, indeg, queue, done, v, Heads(dag, v))
             && HalfLayers(ids, dag, layer, done, v, Heads(dag, v))
    ensures Turn(ids, dag, layer, indeg, queue, done + {v})
  {
    HeadsAre(dag, v);
    WaitingPositive(dag, done, v);
    forall w | w in indeg ensures indeg[w] == Waiting(dag, done + {v}, w) { WaitingReleases(dag, done, v, w); }
    forall e | e in dag && e.from in done + {v} ensures At(layer, e.from) + 1 <= At(layer, e.to) {
      if e.from == v { assert e == Arrow(v, e.to) && e.to in Heads(dag, v); }
    }
  }

  /** With nothing ready and no cycle, nothing is left. */
  lemma AllDone(ids: seq<int>, dag: seq<Arrow>, rank: map<int, int>, layer: map<int, nat>, indeg: map<int, int>,
                done: set<int>)
    requires Ends(ids, dag) && Turn(ids, dag, layer, indeg, [], done) && RankedSeq(dag, rank)
    ensures done == Elems(ids)
  {
    var left := Elems(ids) - done;
    if left != {} {
      var v := SomeReady(dag, rank, left);
      assert v in indeg && indeg[v] == Waiting(dag, done, v) != 0;
      WaitingPositive(dag, done, v);
      assert false;
    }
    assert done == Elems(ids) - left;
  }
}
