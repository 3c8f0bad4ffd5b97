/** The depth-first pass of the flowchart layout: which arrows close a cycle
    (`back_edges` of `src/mindmap_flow.rs`). */
module FlowCycles {
  import opened Base

  datatype Arrow = Arrow(from: int, to: int)

  /** Where the arrows of `v` lead, in drawing order; duplicates are allowed. */
  function Next(out: map<int, seq<int>>, v: int): seq<int> {
    if v in out then out[v] else []
  }

  ghost predicate NoLoops(out: map<int, seq<int>>) {
    forall v :: v !in Next(out, v)
  }

  // ---------------------------------------------------------------------
  // Cycles.

  ghost predicate Walk(arrows: set<Arrow>, p: seq<int>) {
    |p| < 2 || (Arrow(p[0], p[1]) in arrows && Walk(arrows, p[1..]))
  }

  ghost predicate Acyclic(arrows: set<Arrow>) {
    forall p | |p| >= 2 && Walk(arrows, p) :: p[0] != p[|p| - 1]
  }

  /** Every arrow leads to a lower rank. */
  ghost predicate Ranked(arrows: set<Arrow>, rank: map<int, int>) {
    forall e | e in arrows :: e.from in rank && e.to in rank && rank[e.to] < rank[e.from]
  }

  lemma {:induction false} RankFalls(arrows: set<Arrow>, rank: map<int, int>, p: seq<int>)
    requires Ranked(arrows, rank) && |p| >= 2 && Walk(arrows, p)
    ensures p[0] in rank && p[|p| - 1] in rank && rank[p[|p| - 1]] < rank[p[0]]
    decreases |p|
  {
    assert Arrow(p[0], p[1]) in arrows;
    if |p| > 2 { RankFalls(arrows, rank, p[1..]); }
  }

  lemma RankedIsAcyclic(arrows: set<Arrow>, rank: map<int, int>)
    requires Ranked(arrows, rank)
    ensures Acyclic(arrows)
  {
    forall p | |p| >= 2 && Walk(arrows, p) ensures p[0] != p[|p| - 1] { RankFalls(arrows, rank, p); }
  }

  /** The arrows that leave the symbols `ids`. */
  ghost function Arrows(ids: seq<int>, out: map<int, seq<int>>): set<Arrow> {
    set a, b | a in ids && b in Next(out, a) :: Arrow(a, b)
  }

  /** The drawing with the marked arrows turned round. */
  ghost function Turned(arrows: set<Arrow>, back: set<Arrow>): set<Arrow> {
    set e | e in arrows :: if e in back then Arrow(e.to, e.from) else e
  }

  /** A marked arrow together with unmarked ones makes a cycle. */
  ghost predicate ClosesCycle(out: map<int, seq<int>>, back: set<Arrow>, e: Arrow) {
    e.to in Next(out, e.from) &&
    exists p :: Unmarked(out, back, p) && |p| >= 2 && p[0] == e.to && p[|p| - 1] == e.from
  }

  ghost predicate Unmarked(out: map<int, seq<int>>, back: set<Arrow>, p: seq<int>) {
    |p| < 2 || (p[1] in Next(out, p[0]) && Arrow(p[0], p[1]) !in back && Unmarked(out, back, p[1..]))
  }

  // ---------------------------------------------------------------------
  // The search and its invariant.

  datatype Frame = Frame(v: int, i: nat)

  datatype Mark = OnStack | Finished

  /** Discovery numbers, one for each symbol met. */
  ghost predicate Numbered(state: map<int, Mark>, disc: map<int, int>) {
    disc.Keys == state.Keys && forall v | v in disc :: disc[v] < |disc|
  }

  ghost predicate FrameOk(out: map<int, seq<int>>, state: map<int, Mark>, f: Frame) {
    f.i <= |Next(out, f.v)| && f.v in state && state[f.v] == OnStack
  }

  /** The stack holds exactly the symbols still being searched from. */
  ghost predicate Stacked(out: map<int, seq<int>>, stack: seq<Frame>, state: map<int, Mark>) {
    && (forall f | f in stack :: FrameOk(out, state, f))
    && (forall v | v in state && state[v] == OnStack :: exists f :: f in stack && f.v == v)
  }

  /** From `w`, at some frame, to the top: arrows along which symbols were
      discovered later and later. */
  ghost predicate Rising(out: map<int, seq<int>>, disc: map<int, int>, p: seq<int>) {
    |p| > 0 && p[0] in disc &&
    (|p| == 1 || (p[1] in Next(out, p[0]) && p[1] in disc && disc[p[0]] < disc[p[1]] && Rising(out, disc, p[1..])))
  }

  ghost predicate Rises(out: map<int, seq<int>>, disc: map<int, int>, from: int, to: int) {
    exists p :: Rising(out, disc, p) && |p| >= 2 && p[0] == from && p[|p| - 1] == to
  }

  ghost function Path(stack: seq<Frame>): seq<int> {
    if stack == [] then [] else [stack[0].v] + Path(stack[1..])
  }

  ghost predicate Climbs(out: map<int, seq<int>>, stack: seq<Frame>, disc: map<int, int>) {
    stack == [] || Rising(out, disc, Path(stack))
  }

  /** What is known of an arrow (v, w) already looked at. */
  ghost predicate Seen(state: map<int, Mark>, back: set<Arrow>, fin: map<int, int>, v: int, w: int) {
    w in state && (Arrow(v, w) in back || (state[w] == Finished && (v in fin ==> w in fin && fin[w] < fin[v])))
  }

  /** A frame has looked at its first `i` arrows; the last may be the one being followed. */
  ghost predicate FrameSeen(out: map<int, seq<int>>, state: map<int, Mark>, back: set<Arrow>, fin: map<int, int>,
                            f: Frame, above: Option<int>) {
    f.i <= |Next(out, f.v)| &&
    forall w | w in Next(out, f.v)[..f.i] :: Seen(state, back, fin, f.v, w) || above == Some(w)
  }

  ghost predicate FramesSeen(out: map<int, seq<int>>, state: map<int, Mark>, back: set<Arrow>, fin: map<int, int>,
                             stack: seq<Frame>, above: Option<int>) {
    stack == [] ||
    (var n := |stack| - 1;
     FrameSeen(out, state, back, fin, stack[n], above)
       && FramesSeen(out, state, back, fin, stack[..n], Some(stack[n].v)))
  }

  ghost predicate FinishedSeen(out: map<int, seq<int>>, state: map<int, Mark>, back: set<Arrow>, fin: map<int, int>) {
    && (forall v :: v in fin <==> v in state && state[v] == Finished)
    && (forall v | v in fin :: fin[v] < |fin|)
    && (forall v, w | v in fin && w in Next(out, v) :: Seen(state, back, fin, v, w))
  }

  /** What is known of a marked arrow. */
  ghost predicate Marked(out: map<int, seq<int>>, state: map<int, Mark>, disc: map<int, int>, fin: map<int, int>,
                         e: Arrow) {
    && e.from in state && e.to in state && e.from in disc && e.to in disc
    && disc[e.to] < disc[e.from] && e.to in Next(out, e.from)
    && (state[e.from] == OnStack ==> state[e.to] == OnStack)
    && (state[e.to] == Finished ==> e.from in fin && e.to in fin && fin[e.from] < fin[e.to])
    && Rises(out, disc, e.to, e.from)
  }

  ghost predicate AllMarked(out: map<int, seq<int>>, state: map<int, Mark>, back: set<Arrow>, disc: map<int, int>,
                            fin: map<int, int>) {
    forall e | e in back :: Marked(out, state, disc, fin, e)
  }

  ghost predicate Inv(out: map<int, seq<int>>, stack: seq<Frame>, state: map<int, Mark>, back: set<Arrow>,
                      disc: map<int, int>, fin: map<int, int>) {
    && Numbered(state, disc) && Stacked(out, stack, state) && Climbs(out, stack, disc)
    && FramesSeen(out, state, back, fin, stack, None) && FinishedSeen(out, state, back, fin)
    && AllMarked(out, state, back, disc, fin)
  }

  // ---------------------------------------------------------------------
  // Paths.

  lemma {:induction false} RisingGrows(out: map<int, seq<int>>, disc: map<int, int>, w: int, n: int, p: seq<int>)
    requires Rising(out, disc, p) && w !in disc
    ensures Rising(out, disc[w := n], p)
    decreases |p|
  {
    if |p| > 1 { RisingGrows(out, disc, w, n, p[1..]); }
  }

  lemma {:induction false} RisingAppend(out: map<int, seq<int>>, disc: map<int, int>, p: seq<int>, w: int)
    requires Rising(out, disc, p) && w in Next(out, p[|p| - 1]) && w in disc
    requires p[|p| - 1] in disc && disc[p[|p| - 1]] < disc[w]
    ensures Rising(out, disc, p + [w])
    decreases |p|
  {
    if |p| > 1 {
      RisingAppend(out, disc, p[1..], w);
      assert (p + [w])[1..] == p[1..] + [w];
    } else {
      assert (p + [w])[1..] == [w];
    }
  }

  /** Everything before the end of a rising path was discovered before the end. */
  lemma {:induction false} RisingBelow(out: map<int, seq<int>>, disc: map<int, int>, p: seq<int>)
    requires Rising(out, disc, p)
    ensures p[|p| - 1] in disc && forall x | x in p :: x in disc && disc[x] <= disc[p[|p| - 1]]
    decreases |p|
  {
    if |p| > 1 {
      RisingBelow(out, disc, p[1..]);
      assert p[1] in p[1..];
    }
  }

  lemma {:induction false} RisingSuffix(out: map<int, seq<int>>, disc: map<int, int>, p: seq<int>, k: nat)
    requires Rising(out, disc, p) && k < |p|
    ensures Rising(out, disc, p[k..])
    decreases k
  {
    if k > 0 {
      RisingSuffix(out, disc, p[1..], k - 1);
      assert p[1..][k - 1..] == p[k..];
    }
  }

  lemma {:induction false} RisingPrefix(out: map<int, seq<int>>, disc: map<int, int>, p: seq<int>)
    requires Rising(out, disc, p) && |p| > 1
    ensures Rising(out, disc, p[..|p| - 1])
    decreases |p|
  {
    if |p| > 2 {
      RisingPrefix(out, disc, p[1..]);
      assert p[..|p| - 1][1..] == p[1..][..|p| - 2];
    }
  }

  lemma {:induction false} PathOf(stack: seq<Frame>)
    ensures |Path(stack)| == |stack| && forall k | 0 <= k < |stack| :: Path(stack)[k] == stack[k].v
  {
    if stack != [] { PathOf(stack[1..]); }
  }

  lemma PathAppend(stack: seq<Frame>, f: Frame)
    ensures Path(stack + [f]) == Path(stack) + [f.v]
  {
    PathOf(stack);
    PathOf(stack + [f]);
  }

  lemma ClimbsDown(out: map<int, seq<int>>, stack: seq<Frame>, disc: map<int, int>)
    requires Climbs(out, stack, disc) && |stack| > 0
    ensures Climbs(out, stack[..|stack| - 1], disc)
  {
    var s := stack[..|stack| - 1];
    if s != [] {
      PathOf(stack);
      PathOf(s);
      RisingPrefix(out, disc, Path(stack));
      assert Path(s) == Path(stack)[..|stack| - 1];
    }
  }

  /** From any frame to the top. */
  lemma PathToTop(out: map<int, seq<int>>, stack: seq<Frame>, disc: map<int, int>, m: nat) returns (p: seq<int>)
    requires Climbs(out, stack, disc) && m < |stack|
    ensures Rising(out, disc, p) && |p| == |stack| - m && p[0] == stack[m].v && p[|p| - 1] == stack[|stack| - 1].v
  {
    PathOf(stack);
    p := Path(stack)[m..];
    RisingSuffix(out, disc, Path(stack), m);
  }

  /** A frame below the top was discovered before it. */
  lemma BelowTop(out: map<int, seq<int>>, stack: seq<Frame>, disc: map<int, int>, m: nat)
    requires Climbs(out, stack, disc) && m < |stack| - 1
    ensures stack[m].v in disc && stack[|stack| - 1].v in disc && disc[stack[m].v] < disc[stack[|stack| - 1].v]
    ensures Rises(out, disc, stack[m].v, stack[|stack| - 1].v)
  {
    var p := PathToTop(out, stack, disc, m);
    var q := PathToTop(out, stack, disc, m + 1);
    RisingBelow(out, disc, q);
    assert q[0] in q;
    PathNext(out, stack, disc, m);
  }

  lemma RisingFirst(out: map<int, seq<int>>, disc: map<int, int>, p: seq<int>)
    requires Rising(out, disc, p) && |p| > 1
    ensures p[0] in disc && p[1] in disc && disc[p[0]] < disc[p[1]]
  {
  }

  lemma PathNext(out: map<int, seq<int>>, stack: seq<Frame>, disc: map<int, int>, m: nat)
    requires Climbs(out, stack, disc) && m < |stack| - 1
    ensures stack[m].v in disc && stack[m + 1].v in disc && disc[stack[m].v] < disc[stack[m + 1].v]
  {
    PathOf(stack);
    RisingSuffix(out, disc, Path(stack), m);
    RisingFirst(out, disc, Path(stack)[m..]);
  }

  // ---------------------------------------------------------------------
  // The three steps.

  lemma {:induction false} SeenLater(out: map<int, seq<int>>, state: map<int, Mark>, state': map<int, Mark>,
                                     back: set<Arrow>,
                                     back': set<Arrow>, fin: map<int, int>, fin': map<int, int>, stack: seq<Frame>,
                                       above: Option<int>)
    requires FramesSeen(out, state, back, fin, stack, above)
    requires back <= back' && (forall v | v in state :: v in state' && (state[v] == Finished ==> state'[v] == Finished))
    requires forall f | f in stack :: f.v !in fin'
    ensures FramesSeen(out, state', back', fin', stack, above)
    decreases |stack|
  {
    if stack != [] {
      var n := |stack| - 1;
      forall w | w in Next(out, stack[n].v)[..stack[n].i]
        ensures Seen(state', back', fin', stack[n].v, w) || above == Some(w) {
        assert Seen(state, back, fin, stack[n].v, w) || above == Some(w);
      }
      assert stack[n] in stack;
      SeenLater(out, state, state', back, back', fin, fin', stack[..n], Some(stack[n].v));
    }
  }

  /** A symbol met for the first time is pushed; the frame below, if any, has
      just moved past the arrow to it. */
  lemma Discover(out: map<int, seq<int>>, s: seq<Frame>, state: map<int, Mark>, back: set<Arrow>,
                 disc: map<int, int>, fin: map<int, int>, w: int)
    requires Numbered(state, disc) && Stacked(out, s, state) && Climbs(out, s, disc)
    requires FramesSeen(out, state, back, fin, s, Some(w)) && FinishedSeen(out, state, back, fin)
    requires AllMarked(out, state, back, disc, fin)
    requires w !in state && (s != [] ==> w in Next(out, s[|s| - 1].v))
    ensures Inv(out, s + [Frame(w, 0)], state[w := OnStack], back, disc[w := |disc|], fin)
  {
    var s' := s + [Frame(w, 0)];
    var state' := state[w := OnStack];
    var disc' := disc[w := |disc|];
    assert |disc'| == |disc| + 1;
    assert Numbered(state', disc');
    assert Stacked(out, s', state') by { StackedPush(out, s, state, w); }
    assert Climbs(out, s', disc') by { ClimbsPush(out, s, state, disc, w); }
    assert FramesSeen(out, state', back, fin, s', None) by { FramesPush(out, s, state, back, fin, w); }
    assert FinishedSeen(out, state', back, fin) by { FinishedLater(out, state, back, fin, w); }
    assert AllMarked(out, state', back, disc', fin) by {
      forall e | e in back ensures Marked(out, state', disc', fin, e) { MarkedGrows(out, state, disc, fin, e, w); }
    }
  }

  lemma MarkedGrows(out: map<int, seq<int>>, state: map<int, Mark>, disc: map<int, int>, fin: map<int, int>, e: Arrow,
                    w: int)
    requires Numbered(state, disc) && Marked(out, state, disc, fin, e) && w !in state
    ensures Marked(out, state[w := OnStack], disc[w := |disc|], fin, e)
  {
    var p :| Rising(out, disc, p) && |p| >= 2 && p[0] == e.to && p[|p| - 1] == e.from;
    RisingGrows(out, disc, w, |disc|, p);
  }

  lemma FramesPush(out: map<int, seq<int>>, s: seq<Frame>, state: map<int, Mark>, back: set<Arrow>, fin: map<int, int>,
                   w: int)
    requires FramesSeen(out, state, back, fin, s, Some(w)) && FinishedSeen(out, state, back, fin)
    requires Stacked(out, s, state) && w !in state
    ensures FramesSeen(out, state[w := OnStack], back, fin, s + [Frame(w, 0)], None)
  {
    var s' := s + [Frame(w, 0)];
    assert s'[..|s|] == s;
    forall f | f in s ensures f.v !in fin { assert FrameOk(out, state, f); }
    SeenLater(out, state, state[w := OnStack], back, back, fin, fin, s, Some(w));
  }

  lemma FinishedLater(out: map<int, seq<int>>, state: map<int, Mark>, back: set<Arrow>, fin: map<int, int>, w: int)
    requires FinishedSeen(out, state, back, fin) && w !in state
    ensures FinishedSeen(out, state[w := OnStack], back, fin)
  {
    forall v, x | v in fin && x in Next(out, v) ensures Seen(state[w := OnStack], back, fin, v, x) {
      assert Seen(state, back, fin, v, x);
    }
  }

  lemma StackedPush(out: map<int, seq<int>>, s: seq<Frame>, state: map<int, Mark>, w: int)
    requires Stacked(out, s, state) && w !in state
    ensures Stacked(out, s + [Frame(w, 0)], state[w := OnStack])
  {
    var s' := s + [Frame(w, 0)];
    var state' := state[w := OnStack];
    forall v | v in state' && state'[v] == OnStack ensures exists f :: f in s' && f.v == v {
      if v == w { assert Frame(w, 0) in s'; }
      else { var f :| f in s && f.v == v; assert f in s'; }
    }
  }

  lemma ClimbsPush(out: map<int, seq<int>>, s: seq<Frame>, state: map<int, Mark>, disc: map<int, int>, w: int)
    requires Numbered(state, disc) && Climbs(out, s, disc)
    requires w !in state && (s != [] ==> w in Next(out, s[|s| - 1].v))
    ensures Climbs(out, s + [Frame(w, 0)], disc[w := |disc|])
  {
    PathAppend(s, Frame(w, 0));
    if s != [] {
      PathOf(s);
      RisingBelow(out, disc, Path(s));
      RisingGrows(out, disc, w, |disc|, Path(s));
      RisingAppend(out, disc[w := |disc|], Path(s), w);
    } else {
      assert Path(s) == [];
    }
  }

  /** The top frame moves past its next arrow. */
  lemma Advance(out: map<int, seq<int>>, stack: seq<Frame>, state: map<int, Mark>, back: set<Arrow>, disc: map<int,
                int>,
                fin: map<int, int>)
    requires Inv(out, stack, state, back, disc, fin)
    requires |stack| > 0 && stack[|stack| - 1].i < |Next(out, stack[|stack| - 1].v)|
    ensures var f := stack[|stack| - 1];
            var s := stack[..|stack| - 1] + [Frame(f.v, f.i + 1)];
            && Stacked(out, s, state) && Climbs(out, s, disc)
            && FramesSeen(out, state, back, fin, s, Some(Next(out, f.v)[f.i]))
  {
    var n := |stack| - 1;
    var f := stack[n];
    assert f in stack && FrameOk(out, state, f);
    AdvanceStacked(out, stack, state);
    AdvanceClimbs(out, stack, disc);
    AdvanceSeen(out, stack[..n], f, state, back, fin);
    assert stack[..n] + [f] == stack;
  }

  lemma AdvanceSeen(out: map<int, seq<int>>, s: seq<Frame>, f: Frame, state: map<int, Mark>, back: set<Arrow>,
                    fin: map<int, int>)
    requires f.i < |Next(out, f.v)| && FramesSeen(out, state, back, fin, s + [f], None)
    ensures FramesSeen(out, state, back, fin, s + [Frame(f.v, f.i + 1)], Some(Next(out, f.v)[f.i]))
  {
    var ns, g := Next(out, f.v), Frame(f.v, f.i + 1);
    assert (s + [f])[..|s|] == s && (s + [g])[..|s|] == s;
    assert FrameSeen(out, state, back, fin, g, Some(ns[f.i])) by {
      assert ns[..f.i + 1] == ns[..f.i] + [ns[f.i]];
    }
  }

  lemma AdvanceStacked(out: map<int, seq<int>>, stack: seq<Frame>, state: map<int, Mark>)
    requires Stacked(out, stack, state) && |stack| > 0
    requires stack[|stack| - 1].i < |Next(out, stack[|stack| - 1].v)|
    ensures var f := stack[|stack| - 1]; Stacked(out, stack[..|stack| - 1] + [Frame(f.v, f.i + 1)], state)
  {
    var n := |stack| - 1;
    var f := stack[n];
    var g := Frame(f.v, f.i + 1);
    var s := stack[..n] + [g];
    assert f in stack && FrameOk(out, state, f);
    forall v | v in state && state[v] == OnStack ensures exists h :: h in s && h.v == v {
      var h :| h in stack && h.v == v;
      var k :| 0 <= k < |stack| && stack[k] == h;
      assert s[k].v == v && s[k] in s;
    }
    forall h | h in s ensures FrameOk(out, state, h) { assert h == g || h in stack; }
  }

  lemma AdvanceClimbs(out: map<int, seq<int>>, stack: seq<Frame>, disc: map<int, int>)
    requires Climbs(out, stack, disc) && |stack| > 0
    ensures var f := stack[|stack| - 1]; Climbs(out, stack[..|stack| - 1] + [Frame(f.v, f.i + 1)], disc)
  {
    var s := stack[..|stack| - 1] + [Frame(stack[|stack| - 1].v, stack[|stack| - 1].i + 1)];
    PathOf(stack);
    PathOf(s);
    assert Path(s) == Path(stack);
  }

  /** The arrow leads to a symbol already met: marked when that symbol is on the stack. */
  lemma Inspect(out: map<int, seq<int>>, s: seq<Frame>, state: map<int, Mark>, back: set<Arrow>, disc: map<int, int>,
                fin: map<int, int>, w: int)
    requires NoLoops(out) && Numbered(state, disc) && Stacked(out, s, state) && Climbs(out, s, disc)
    requires FramesSeen(out, state, back, fin, s, Some(w)) && FinishedSeen(out, state, back, fin)
    requires AllMarked(out, state, back, disc, fin)
    requires s != [] && w in state && w in Next(out, s[|s| - 1].v)
    ensures Inv(out, s, state, if state[w] == OnStack then back + {Arrow(s[|s| - 1].v, w)} else back, disc, fin)
  {
    var n := |s| - 1;
    var v := s[n].v;
    assert s[n] in s && FrameOk(out, state, s[n]);
    var back' := if state[w] == OnStack then back + {Arrow(v, w)} else back;
    assert v !in fin && Seen(state, back', fin, v, w);
    forall f | f in s ensures f.v !in fin { assert FrameOk(out, state, f); }
    SeenLater(out, state, state, back, back', fin, fin, s, Some(w));
    forall x | x in Next(out, v)[..s[n].i] ensures Seen(state, back', fin, v, x) {
      assert Seen(state, back', fin, v, x) || Some(w) == Some(x);
    }
    assert FinishedSeen(out, state, back', fin) by {
      forall u, x | u in fin && x in Next(out, u)
        ensures Seen(state, back', fin, u, x) { assert Seen(state, back, fin, u, x); }
    }
    if state[w] == OnStack {
      var f :| f in s && f.v == w;
      var m :| 0 <= m < |s| && s[m] == f;
      BelowTop(out, s, disc, m);
      assert Marked(out, state, disc, fin, Arrow(v, w));
    }
  }

  /** The top frame has no arrow left: its symbol is finished. */
  lemma Finish(out: map<int, seq<int>>, stack: seq<Frame>, state: map<int, Mark>, back: set<Arrow>,
               disc: map<int, int>, fin: map<int, int>)
    requires Inv(out, stack, state, back, disc, fin)
    requires |stack| > 0 && stack[|stack| - 1].i == |Next(out, stack[|stack| - 1].v)|
    ensures var v := stack[|stack| - 1].v;
            Inv(out, stack[..|stack| - 1], state[v := Finished], back, disc, fin[v := |fin|])
  {
    var n := |stack| - 1;
    var v := stack[n].v;
    var s := stack[..n];
    var state' := state[v := Finished];
    var fin' := fin[v := |fin|];
    assert stack[n] in stack && FrameOk(out, state, stack[n]);
    FinishStacked(out, stack, state, disc);
    ClimbsDown(out, stack, disc);
    assert FramesSeen(out, state', back, fin', s, None) by { FinishFrames(out, stack, state, back, fin); }
    assert FinishedSeen(out, state', back, fin') by { FinishOne(out, stack[n], state, back, fin); }
    assert AllMarked(out, state', back, disc, fin') by {
      forall e | e in back ensures Marked(out, state', disc, fin',
        e) { FinishKeepsMarked(out, stack, state, back, disc, fin, e); }
    }
  }

  lemma FinishStacked(out: map<int, seq<int>>, stack: seq<Frame>, state: map<int, Mark>, disc: map<int, int>)
    requires Stacked(out, stack, state) && Climbs(out, stack, disc) && |stack| > 0
    ensures Stacked(out, stack[..|stack| - 1], state[stack[|stack| - 1].v := Finished])
  {
    var n := |stack| - 1;
    var v := stack[n].v;
    var s := stack[..n];
    forall f | f in s ensures FrameOk(out, state[v := Finished], f) {
      var m :| 0 <= m < n && stack[m] == f;
      assert f in stack && FrameOk(out, state, f);
      BelowTop(out, stack, disc, m);
    }
    var state' := state[v := Finished];
    forall u | u in state' && state'[u] == OnStack ensures exists f :: f in s && f.v == u {
      var f :| f in stack && f.v == u;
      var k :| 0 <= k < |stack| && stack[k] == f;
      assert f in s;
    }
  }

  lemma FinishFrames(out: map<int, seq<int>>, stack: seq<Frame>, state: map<int, Mark>, back: set<Arrow>, fin: map<int,
                     int>)
    requires FramesSeen(out, state, back, fin, stack, None) && |stack| > 0
    requires Stacked(out, stack[..|stack| - 1], state[stack[|stack| - 1].v := Finished])
    requires FinishedSeen(out, state, back, fin) && stack[|stack| - 1].v in state
    ensures var v := stack[|stack| - 1].v;
            FramesSeen(out, state[v := Finished], back, fin[v := |fin|], stack[..|stack| - 1], None)
  {
    var n := |stack| - 1;
    var v := stack[n].v;
    var s := stack[..n];
    var state' := state[v := Finished];
    forall f | f in s ensures f.v !in fin[v := |fin|] { assert FrameOk(out, state', f); }
    SeenLater(out, state, state', back, back, fin, fin[v := |fin|], s, Some(v));
    if s != [] {
      var m := |s| - 1;
      assert s[m] in s && FrameOk(out, state', s[m]);
      forall w | w in Next(out, s[m].v)[..s[m].i] ensures Seen(state', back, fin[v := |fin|], s[m].v, w) {
        assert Seen(state', back, fin[v := |fin|], s[m].v, w) || Some(v) == Some(w);
      }
    }
  }

  lemma FinishOne(out: map<int, seq<int>>, f: Frame, state: map<int, Mark>, back: set<Arrow>, fin: map<int, int>)
    requires FinishedSeen(out, state, back, fin) && FrameOk(out, state, f)
    requires f.i == |Next(out, f.v)| && FrameSeen(out, state, back, fin, f, None)
    ensures FinishedSeen(out, state[f.v := Finished], back, fin[f.v := |fin|])
  {
    var fin' := fin[f.v := |fin|];
    assert |fin'| == |fin| + 1;
    forall u, w | u in fin' && w in Next(out, u) ensures Seen(state[f.v := Finished], back, fin', u, w) {
      if u == f.v {
        assert Next(out, u)[..f.i] == Next(out, u);
        assert Seen(state, back, fin, u, w);
      } else {
        assert Seen(state, back, fin, u, w);
      }
    }
  }

  lemma FinishKeepsMarked(out: map<int, seq<int>>, stack: seq<Frame>, state: map<int, Mark>, back: set<Arrow>,
                          disc: map<int, int>, fin: map<int, int>, e: Arrow)
    requires Stacked(out, stack, state) && Climbs(out, stack, disc) && FinishedSeen(out, state, back, fin)
    requires |stack| > 0 && Marked(out, state, disc, fin, e)
    ensures var v := stack[|stack| - 1].v; Marked(out, state[v := Finished], disc, fin[v := |fin|], e)
  {
    var n := |stack| - 1;
    var v := stack[n].v;
    assert stack[n] in stack && FrameOk(out, state, stack[n]);
    if state[e.from] == OnStack { TopIsLatest(out, stack, state, disc, e.from); }
  }

  /** Nothing on the stack was discovered after its top. */
  lemma TopIsLatest(out: map<int, seq<int>>, stack: seq<Frame>, state: map<int, Mark>, disc: map<int, int>, u: int)
    requires Stacked(out, stack, state) && Climbs(out, stack, disc) && |stack| > 0
    requires u in state && state[u] == OnStack
    ensures var v := stack[|stack| - 1].v; u == v || (u in disc && v in disc && disc[u] < disc[v])
  {
    var f :| f in stack && f.v == u;
    var m :| 0 <= m < |stack| && stack[m] == f;
    if m < |stack| - 1 { BelowTop(out, stack, disc, m); }
  }

  // ---------------------------------------------------------------------
  // The loop.

  ghost function Work(out: map<int, seq<int>>, stack: seq<Frame>): nat {
    if stack == [] then 0
    else
      var f := stack[|stack| - 1];
      Work(out, stack[..|stack| - 1]) + (if f.i <= |Next(out, f.v)| then |Next(out, f.v)| - f.i else 0) + 1
  }

  lemma WorkAdvance(out: map<int, seq<int>>, stack: seq<Frame>)
    requires |stack| > 0 && stack[|stack| - 1].i < |Next(out, stack[|stack| - 1].v)|
    ensures var f := stack[|stack| - 1];
            Work(out, stack[..|stack| - 1] + [Frame(f.v, f.i + 1)]) == Work(out, stack) - 1
  {
    var f := stack[|stack| - 1];
    var s := stack[..|stack| - 1] + [Frame(f.v, f.i + 1)];
    assert s[..|s| - 1] == stack[..|stack| - 1];
  }

  ghost function AllArrows(out: map<int, seq<int>>): set<Arrow> {
    set v, w | v in out.Keys && w in out[v] :: Arrow(v, w)
  }

  ghost function Universe(ids: seq<int>, out: map<int, seq<int>>): set<int> {
    (set v | v in ids) + set e | e in AllArrows(out) :: e.to
  }

  lemma ArrowKnown(out: map<int, seq<int>>, v: int, w: int)
    requires v in out && w in out[v]
    ensures Arrow(v, w) in AllArrows(out)
  {
    assert v in out.Keys;
  }

  lemma TargetKnown(ids: seq<int>, out: map<int, seq<int>>, v: int, i: nat)
    requires i < |Next(out, v)|
    ensures Next(out, v)[i] in Universe(ids, out)
  {
    ArrowKnown(out, v, out[v][i]);
    assert Arrow(v, out[v][i]).to == out[v][i];
  }

  // ---------------------------------------------------------------------
  // The search as a recursion.

  /** What has been seen, on the way or done with, and the arrows marked. */
  datatype Visit = Visit(state: map<int, Mark>, back: set<Arrow>)

  ghost predicate Closed(all: set<int>, out: map<int, seq<int>>) {
    forall v, w | w in Next(out, v) :: w in all
  }

  /** Follow the arrows of `v` to `ns`, in their order: one to a symbol on the way is
      marked, one to a new symbol is followed to the end first. */
  ghost function Explore(all: set<int>, out: map<int, seq<int>>, v: int, ns: seq<int>, s: Visit): (r: Visit)
    requires Closed(all, out) && s.state.Keys <= all && forall w | w in ns :: w in all
    ensures s.state.Keys <= r.state.Keys <= all
    decreases |all - s.state.Keys|, |ns|
  {
    if ns == [] then s
    else
      var w := ns[0];
      if w in s.state then
        Explore(all, out, v, ns[1..], if s.state[w] == OnStack then s.(back := s.back + {Arrow(v, w)}) else s)
      else
        FewerNew(all, s.state.Keys, w);
        var t := Explore(all, out, w, Next(out, w), s.(state := s.state[w := OnStack]));
        FewerNew(all, s.state.Keys, w);
        LessNew(all, s.state.Keys + {w}, t.state.Keys);
        Explore(all, out, v, ns[1..], t.(state := t.state[w := Finished]))
  }

  lemma FewerNew(all: set<int>, seen: set<int>, w: int)
    requires w in all && w !in seen
    ensures |all - (seen + {w})| < |all - seen|
  {
    assert all - seen == (all - (seen + {w})) + {w};
  }

  lemma LessNew(all: set<int>, a: set<int>, b: set<int>)
    requires a <= b
    ensures |all - b| <= |all - a|
  {
    SubsetSize(all - b, all - a);
  }

  /** Start from each symbol in turn that was not yet met. */
  ghost function DepthFirst(all: set<int>, out: map<int, seq<int>>, ids: seq<int>, s: Visit): (r: Visit)
    requires Closed(all, out) && s.state.Keys <= all && forall v | v in ids :: v in all
    ensures r.state.Keys <= all
  {
    if ids == [] then s
    else
      var t := DepthFirst(all, out, ids[..|ids| - 1], s);
      var v := ids[|ids| - 1];
      if v in t.state then t else Finishing(Explore(all, out, v, Next(out, v), t.(state := t.state[v := OnStack])), v)
  }

  function Finishing(s: Visit, v: int): Visit { s.(state := s.state[v := Finished]) }

  /** What is left to do with the frames of the stack. */
  ghost function Resume(all: set<int>, out: map<int, seq<int>>, stack: seq<Frame>, s: Visit): Visit
    requires Closed(all, out) && s.state.Keys <= all
    requires forall f | f in stack :: f.i <= |Next(out, f.v)| && f.v in all
    decreases |stack|
  {
    if stack == [] then s
    else
      var n := |stack| - 1;
      var f := stack[n];
      assert f in stack;
      Resume(all, out, stack[..n], Finishing(Explore(all, out, f.v, Next(out, f.v)[f.i..], s), f.v))
  }

  lemma UniverseClosed(ids: seq<int>, out: map<int, seq<int>>)
    ensures Closed(Universe(ids, out), out)
  {
    forall v, w | w in Next(out, v) ensures w in Universe(ids, out) {
      var i :| 0 <= i < |Next(out, v)| && Next(out, v)[i] == w;
      TargetKnown(ids, out, v, i);
    }
  }

  ghost predicate Ready(all: set<int>, out: map<int, seq<int>>, stack: seq<Frame>, state: map<int, Mark>) {
    Closed(all, out) && state.Keys <= all && forall f | f in stack :: f.i <= |Next(out, f.v)| && f.v in all
  }

  lemma StackedIsReady(ids: seq<int>, out: map<int, seq<int>>, stack: seq<Frame>, state: map<int, Mark>)
    requires Stacked(out, stack, state) && state.Keys <= Universe(ids, out)
    ensures Ready(Universe(ids, out), out, stack, state)
  {
    UniverseClosed(ids, out);
    forall f | f in stack ensures f.i <= |Next(out, f.v)| && f.v in Universe(ids, out) {
      assert FrameOk(out, state, f) && f.v in state.Keys;
    }
  }

  lemma ResumeTop(all: set<int>, out: map<int, seq<int>>, s: seq<Frame>, f: Frame, x: Visit)
    requires Ready(all, out, s + [f], x.state)
    ensures Ready(all, out, s, x.state) && f.v in all
    ensures Resume(all, out, s + [f], x) ==
            Resume(all, out, s, Finishing(Explore(all, out, f.v, Next(out, f.v)[f.i..], x), f.v))
  {
    assert (s + [f])[..|s|] == s && f in s + [f];
    forall g | g in s ensures g in s + [f] {}
  }

  /** Looking at an arrow to a symbol already met leaves the same to do. */
  lemma ResumeKnown(all: set<int>, out: map<int, seq<int>>, s: seq<Frame>, v: int, i: nat, x: Visit)
    requires Ready(all, out, s + [Frame(v, i)], x.state)
    requires i < |Next(out, v)| && Next(out, v)[i] in x.state
    ensures Ready(all, out, s + [Frame(v, i + 1)], x.state)
    ensures var w := Next(out, v)[i];
            Resume(all, out, s + [Frame(v, i)], x) ==
            Resume(all, out, s + [Frame(v, i + 1)],
                   if x.state[w] == OnStack then x.(back := x.back + {Arrow(v, w)}) else x)
  {
    ResumeTop(all, out, s, Frame(v, i), x);
    var w := Next(out, v)[i];
    var y := if x.state[w] == OnStack then x.(back := x.back + {Arrow(v, w)}) else x;
    ResumeTop(all, out, s, Frame(v, i + 1), y);
    assert Next(out, v)[i..][1..] == Next(out, v)[i + 1..];
  }

  /** So does putting a new symbol on the stack. */
  lemma ResumeNew(all: set<int>, out: map<int, seq<int>>, s: seq<Frame>, v: int, i: nat, x: Visit)
    requires Ready(all, out, s + [Frame(v, i)], x.state)
    requires i < |Next(out, v)| && Next(out, v)[i] !in x.state
    ensures var w := Next(out, v)[i];
            var t := s + [Frame(v, i + 1)] + [Frame(w, 0)];
            && Ready(all, out, t, x.state[w := OnStack])
            && Resume(all, out, s + [Frame(v, i)], x) ==
               Resume(all, out, t, x.(state := x.state[w := OnStack]))
  {
    ResumeTop(all, out, s, Frame(v, i), x);
    var w := Next(out, v)[i];
    var y := x.(state := x.state[w := OnStack]);
    ResumeTop(all, out, s + [Frame(v, i + 1)], Frame(w, 0), y);
    var z := Finishing(Explore(all, out, w, Next(out, w), y), w);
    assert Next(out, w)[0..] == Next(out, w);
    ResumeTop(all, out, s, Frame(v, i + 1), z);
    assert Next(out, v)[i..][1..] == Next(out, v)[i + 1..];
  }

  ghost predicate ReadyFor(ids: seq<int>, out: map<int, seq<int>>, stack: seq<Frame>, state: map<int, Mark>) {
    Ready(Universe(ids, out), out, stack, state)
  }

  /** Where the search ends when nothing goes wrong from here on. */
  ghost function End(ids: seq<int>, out: map<int, seq<int>>, stack: seq<Frame>, state: map<int, Mark>,
                     back: set<Arrow>): Visit
    requires ReadyFor(ids, out, stack, state)
  {
    Resume(Universe(ids, out), out, stack, Visit(state, back))
  }

  /** The depth-first search of the symbols `ids` along `out`. */
  ghost function Searched(ids: seq<int>, out: map<int, seq<int>>, n: nat): Visit
    requires n <= |ids|
  {
    UniverseClosed(ids, out);
    DepthFirst(Universe(ids, out), out, ids[..n], Visit(map[], {}))
  }

  /** From a new start the search ends where the recursion does. */
  lemma EndOfStart(ids: seq<int>, out: map<int, seq<int>>, n: nat, state: map<int, Mark>, back: set<Arrow>)
    requires n < |ids| && Visit(state, back) == Searched(ids, out, n)
    ensures if ids[n] in state then Visit(state, back) == Searched(ids, out, n + 1)
            else
              && ReadyFor(ids, out, [Frame(ids[n], 0)], state[ids[n] := OnStack])
              && End(ids, out, [Frame(ids[n], 0)], state[ids[n] := OnStack], back) == Searched(ids, out, n + 1)
  {
    var v, all := ids[n], Universe(ids, out);
    UniverseClosed(ids, out);
    assert ids[..n + 1][..n] == ids[..n] && ids[..n + 1][n] == v;
    if v !in state {
      var s := Visit(state[v := OnStack], back);
      assert Ready(all, out, [] + [Frame(v, 0)], s.state);
      ResumeTop(all, out, [], Frame(v, 0), s);
      assert [] + [Frame(v, 0)] == [Frame(v, 0)] && Next(out, v)[0..] == Next(out, v);
    }
  }

  /** The next arrow of the top frame leaves the end as it was, when it leads to a symbol already met. */
  lemma EndOfKnown(ids: seq<int>, out: map<int, seq<int>>, stack: seq<Frame>, state: map<int, Mark>, back: set<Arrow>)
    requires ReadyFor(ids, out, stack, state) && stack != []
    requires var top := stack[|stack| - 1]; top.i < |Next(out, top.v)| && Next(out, top.v)[top.i] in state
    ensures var top := stack[|stack| - 1];
            var w, s := Next(out, top.v)[top.i], stack[..|stack| - 1] + [Frame(top.v, top.i + 1)];
            && ReadyFor(ids, out, s, state)
            && End(ids, out, s, state, if state[w] == OnStack then back + {Arrow(top.v, w)} else back)
               == End(ids, out, stack, state, back)
  {
    var s, top := stack[..|stack| - 1], stack[|stack| - 1];
    assert s + [Frame(top.v, top.i)] == stack;
    ResumeKnown(Universe(ids, out), out, s, top.v, top.i, Visit(state, back));
  }

  /** So it does when it leads to a new one. */
  lemma EndOfNew(ids: seq<int>, out: map<int, seq<int>>, stack: seq<Frame>, state: map<int, Mark>, back: set<Arrow>)
    requires ReadyFor(ids, out, stack, state) && stack != []
    requires var top := stack[|stack| - 1]; top.i < |Next(out, top.v)| && Next(out, top.v)[top.i] !in state
    ensures var top := stack[|stack| - 1];
            var w, s := Next(out, top.v)[top.i], stack[..|stack| - 1] + [Frame(top.v, top.i + 1)];
            && ReadyFor(ids, out, s + [Frame(w, 0)], state[w := OnStack])
            && End(ids, out, s + [Frame(w, 0)], state[w := OnStack], back) == End(ids, out, stack, state, back)
  {
    var s, top := stack[..|stack| - 1], stack[|stack| - 1];
    assert s + [Frame(top.v, top.i)] == stack;
    ResumeNew(Universe(ids, out), out, s, top.v, top.i, Visit(state, back));
  }

  /** So does dropping a frame that has no arrow left. */
  lemma EndOfFinish(ids: seq<int>, out: map<int, seq<int>>, stack: seq<Frame>, state: map<int, Mark>, back: set<Arrow>)
    requires ReadyFor(ids, out, stack, state) && stack != []
    requires var top := stack[|stack| - 1]; top.i == |Next(out, top.v)|
    ensures var v, s := stack[|stack| - 1].v, stack[..|stack| - 1];
            && ReadyFor(ids, out, s, state[v := Finished])
            && End(ids, out, s, state[v := Finished], back) == End(ids, out, stack, state, back)
  {
    var s, top := stack[..|stack| - 1], stack[|stack| - 1];
    assert s + [top] == stack;
    ResumeTop(Universe(ids, out), out, s, top, Visit(state, back));
  }

  /** Arrows that close a cycle: those that the depth-first recursion marks, met in
      symbol order. Turning exactly the marked arrows round leaves no cycle, and
      each marked one was needed: it closes a cycle with unmarked arrows alone. */
  method BackEdges(ids: seq<int>, out: map<int, seq<int>>) returns (back: set<Arrow>, ghost rank: map<int, int>)
    requires NoLoops(out)
    ensures Ranked(Turned(Arrows(ids, out), back), rank)
    ensures Acyclic(Turned(Arrows(ids, out), back))
    ensures forall e | e in back :: ClosesCycle(out, back, e)
    ensures back == Searched(ids, out, |ids|).back
  {
    ghost var state, disc;
    state, back, disc, rank := SearchAll(ids, out);
    AllFinished(out, state, back, disc, rank);
    FinishedRanks(ids, out, state, back, rank);
    RankedIsAcyclic(Turned(Arrows(ids, out), back), rank);
  }

  method SearchAll(ids: seq<int>, out: map<int, seq<int>>)
    returns (state: map<int, Mark>, back: set<Arrow>, ghost disc: map<int, int>, ghost fin: map<int, int>)
    requires NoLoops(out)
    ensures Inv(out, [], state, back, disc, fin)
    ensures forall v | v in ids :: v in state
    ensures Visit(state, back) == Searched(ids, out, |ids|)
  {
    state, back, disc, fin := map[], {}, map[], map[];
    NothingSeen(ids, out);
    var n := 0;
    while n < |ids|
      invariant n <= |ids| && state.Keys <= Universe(ids, out)
      invariant Inv(out, [], state, back, disc, fin)
      invariant Met(ids, n, state.Keys)
      invariant Visit(state, back) == Searched(ids, out, n)
    {
      ghost var seen := state.Keys;
      if ids[n] in state {
        EndOfStart(ids, out, n, state, back);
      } else {
        state, back, disc, fin := NextStart(ids, out, n, state, back, disc, fin);
      }
      MetMore(ids, n, seen, state.Keys);
      n := n + 1;
    }
  }

  /** The search from a start that was not met before. */
  method NextStart(ids: seq<int>, out: map<int, seq<int>>, n: nat, state0: map<int, Mark>, back0: set<Arrow>,
                   ghost disc0: map<int, int>, ghost fin0: map<int, int>)
    returns (state: map<int, Mark>, back: set<Arrow>, ghost disc: map<int, int>, ghost fin: map<int, int>)
    requires NoLoops(out) && Inv(out, [], state0, back0, disc0, fin0) && state0.Keys <= Universe(ids, out)
    requires n < |ids| && ids[n] !in state0 && Visit(state0, back0) == Searched(ids, out, n)
    ensures Inv(out, [], state, back, disc, fin) && state.Keys <= Universe(ids, out)
    ensures state0.Keys <= state.Keys && ids[n] in state
    ensures Visit(state, back) == Searched(ids, out, n + 1)
  {
    EndOfStart(ids, out, n, state0, back0);
    state, back, disc, fin := Search(ids, out, ids[n], state0, back0, disc0, fin0);
  }

  ghost predicate Met(ids: seq<int>, n: nat, seen: set<int>) {
    n <= |ids| && forall v | v in ids[..n] :: v in seen
  }

  lemma MetMore(ids: seq<int>, n: nat, seen: set<int>, more: set<int>)
    requires Met(ids, n, seen) && seen <= more && n < |ids| && ids[n] in more
    ensures Met(ids, n + 1, more)
  {
    assert ids[..n + 1] == ids[..n] + [ids[n]];
  }

  lemma NothingSeen(ids: seq<int>, out: map<int, seq<int>>)
    ensures Inv(out, [], map[], {}, map[], map[])
    ensures Visit(map[], {}) == Searched(ids, out, 0)
  {
    UniverseClosed(ids, out);
    assert ids[..0] == [];
  }

  lemma FinishedRanks(ids: seq<int>, out: map<int, seq<int>>, state: map<int, Mark>, back: set<Arrow>, fin: map<int,
                      int>)
    requires forall v | v in ids :: v in fin
    requires forall v, w | v in fin && w in Next(out, v) ::
               w in fin && if Arrow(v, w) in back then fin[v] < fin[w] else fin[w] < fin[v]
    ensures Ranked(Turned(Arrows(ids, out), back), fin)
  {
    forall e | e in Turned(Arrows(ids, out), back) ensures e.from in fin && e.to in fin && fin[e.to] < fin[e.from] {
      var a :| a in Arrows(ids, out) && e == if a in back then Arrow(a.to, a.from) else a;
      assert a == Arrow(a.from, a.to) && a.to in Next(out, a.from);
    }
  }

  /** The search from one start, over an explicit stack. */
  method Search(ids: seq<int>, out: map<int, seq<int>>, start: int, state0: map<int, Mark>, back0: set<Arrow>,
                ghost disc0: map<int, int>, ghost fin0: map<int, int>)
    returns (state: map<int, Mark>, back: set<Arrow>, ghost disc: map<int, int>, ghost fin: map<int, int>)
    requires NoLoops(out) && Inv(out, [], state0, back0, disc0, fin0) && state0.Keys <= Universe(ids, out)
    requires start in ids && start !in state0
    ensures Inv(out, [], state, back, disc, fin) && state.Keys <= Universe(ids, out)
    ensures state0.Keys <= state.Keys && start in state
    ensures ReadyFor(ids, out, [Frame(start, 0)], state0[start := OnStack])
    ensures Visit(state, back) == End(ids, out, [Frame(start, 0)], state0[start := OnStack], back0)
  {
    back, fin := back0, fin0;
    var stack;
    stack, state, disc := Begin(ids, out, start, state0, back0, disc0, fin0);
    ghost var end := End(ids, out, stack, state, back);
    while stack != []
      invariant Inv(out, stack, state, back, disc, fin)
      invariant state.Keys <= Universe(ids, out)
      invariant state0.Keys <= state.Keys && start in state
      invariant ReadyFor(ids, out, stack, state) && End(ids, out, stack, state, back) == end
      decreases Universe(ids, out) - state.Keys, Work(out, stack)
    {
      ghost var seen := state.Keys;
      stack, state, back, disc, fin := Step(ids, out, stack, state, back, disc, fin);
      FewerLeft(Universe(ids, out), seen, state.Keys);
    }
  }

  lemma FewerLeft(all: set<int>, before: set<int>, after: set<int>)
    requires before <= after <= all
    ensures if before == after then all - after == all - before else all - after < all - before
  {
    if before != after {
      assert after == before + (after - before);
      var x := SomeMember(after - before);
      assert x in all - before && x !in all - after;
    }
  }

  method Begin(ids: seq<int>, out: map<int, seq<int>>, start: int, state0: map<int, Mark>, ghost back0: set<Arrow>,
               ghost disc0: map<int, int>, ghost fin0: map<int, int>)
    returns (stack: seq<Frame>, state: map<int, Mark>, ghost disc: map<int, int>)
    requires NoLoops(out) && Inv(out, [], state0, back0, disc0, fin0) && state0.Keys <= Universe(ids, out)
    requires start in ids && start !in state0
    ensures Inv(out, stack, state, back0, disc, fin0) && state.Keys <= Universe(ids, out)
    ensures state0.Keys <= state.Keys && start in state
    ensures stack == [Frame(start, 0)] && state == state0[start := OnStack] && ReadyFor(ids, out, stack, state)
  {
    Discover(out, [], state0, back0, disc0, fin0, start);
    stack := [Frame(start, 0)];
    assert [] + [Frame(start, 0)] == stack;
    state, disc := state0[start := OnStack], disc0[start := |disc0|];
    StackedIsReady(ids, out, stack, state);
  }

  /** One turn of the loop: pop the top frame, look at its next arrow. */
  method Step(ids: seq<int>, out: map<int, seq<int>>, stack0: seq<Frame>, state0: map<int, Mark>, back0: set<Arrow>,
              ghost disc0: map<int, int>, ghost fin0: map<int, int>)
    returns (stack: seq<Frame>, state: map<int, Mark>, back: set<Arrow>, ghost disc: map<int, int>, ghost fin: map<int,
      int>)
    requires NoLoops(out) && Inv(out, stack0, state0, back0, disc0, fin0) && stack0 != []
    requires state0.Keys <= Universe(ids, out)
    ensures Inv(out, stack, state, back, disc, fin)
    ensures state0.Keys <= state.Keys <= Universe(ids, out)
    ensures state0.Keys != state.Keys || Work(out, stack) < Work(out, stack0)
    ensures ReadyFor(ids, out, stack0, state0) && ReadyFor(ids, out, stack, state)
    ensures End(ids, out, stack, state, back) == End(ids, out, stack0, state0, back0)
  {
    StackedIsReady(ids, out, stack0, state0);
    var top := stack0[|stack0| - 1];
    assert top in stack0 && FrameOk(out, state0, top);
    if top.i < |Next(out, top.v)| {
      stack, state, back, disc := Look(ids, out, stack0, state0, back0, disc0, fin0);
      fin := fin0;
    } else {
      Finish(out, stack0, state0, back0, disc0, fin0);
      EndOfFinish(ids, out, stack0, state0, back0);
      stack, back, disc := stack0[..|stack0| - 1], back0, disc0;
      state, fin := state0[top.v := Finished], fin0[top.v := |fin0|];
    }
  }

  /** The next arrow of the top frame: to a new symbol, or to a known one. */
  method Look(ids: seq<int>, out: map<int, seq<int>>, stack0: seq<Frame>, state0: map<int, Mark>, back0: set<Arrow>,
              ghost disc0: map<int, int>, ghost fin0: map<int, int>)
    returns (stack: seq<Frame>, state: map<int, Mark>, back: set<Arrow>, ghost disc: map<int, int>)
    requires NoLoops(out) && Inv(out, stack0, state0, back0, disc0, fin0) && stack0 != []
    requires state0.Keys <= Universe(ids, out)
    requires var top := stack0[|stack0| - 1]; top.i < |Next(out, top.v)|
    ensures Inv(out, stack, state, back, disc, fin0)
    ensures state0.Keys <= state.Keys <= Universe(ids, out)
    ensures state0.Keys != state.Keys || Work(out, stack) < Work(out, stack0)
    ensures ReadyFor(ids, out, stack0, state0) && ReadyFor(ids, out, stack, state)
    ensures End(ids, out, stack, state, back) == End(ids, out, stack0, state0, back0)
  {
    StackedIsReady(ids, out, stack0, state0);
    state, back, disc := state0, back0, disc0;
    var top := stack0[|stack0| - 1];
    var w := Next(out, top.v)[top.i];
    Advance(out, stack0, state, back, disc, fin0);
    WorkAdvance(out, stack0);
    stack := stack0[..|stack0| - 1] + [Frame(top.v, top.i + 1)];
    if w !in state {
      EndOfNew(ids, out, stack0, state0, back0);
      TargetKnown(ids, out, top.v, top.i);
      Discover(out, stack, state, back, disc, fin0, w);
      state, disc := state[w := OnStack], disc[w := |disc|];
      stack := stack + [Frame(w, 0)];
    } else {
      EndOfKnown(ids, out, stack0, state0, back0);
      Inspect(out, stack, state, back, disc, fin0, w);
      if state[w] == OnStack {
        back := back + {Arrow(top.v, w)};
      }
    }
  }

  lemma {:induction false} RisingUnmarked(out: map<int, seq<int>>, state: map<int, Mark>, back: set<Arrow>,
                                          disc: map<int, int>,
                                          fin: map<int, int>, p: seq<int>)
    requires AllMarked(out, state, back, disc, fin) && Rising(out, disc, p)
    ensures Unmarked(out, back, p)
    decreases |p|
  {
    if |p| > 1 {
      assert Arrow(p[0], p[1]) in back ==> Marked(out, state, disc, fin, Arrow(p[0], p[1]));
      RisingUnmarked(out, state, back, disc, fin, p[1..]);
    }
  }

  lemma AllFinished(out: map<int, seq<int>>, state: map<int, Mark>, back: set<Arrow>, disc: map<int, int>, fin: map<int,
                    int>)
    requires Inv(out, [], state, back, disc, fin)
    ensures forall v | v in state :: v in fin
    ensures forall v, w | v in fin && w in Next(out, v) ::
              w in fin && if Arrow(v, w) in back then fin[v] < fin[w] else fin[w] < fin[v]
    ensures forall e | e in back :: ClosesCycle(out, back, e)
  {
    forall v | v in state ensures state[v] == Finished {
      assert state[v] == OnStack ==> exists f: Frame :: f in [] && f.v == v;
    }
    forall v, w | v in fin && w in Next(out, v)
      ensures w in fin && if Arrow(v, w) in back then fin[v] < fin[w] else fin[w] < fin[v]
    {
      assert Seen(state, back, fin, v, w);
      if Arrow(v, w) in back { assert Marked(out, state, disc, fin, Arrow(v, w)); }
    }
    forall e | e in back ensures ClosesCycle(out, back, e) {
      assert Marked(out, state, disc, fin, e);
      var p :| Rising(out, disc, p) && |p| >= 2 && p[0] == e.to && p[|p| - 1] == e.from;
      RisingUnmarked(out, state, back, disc, fin, p);
    }
  }
}
