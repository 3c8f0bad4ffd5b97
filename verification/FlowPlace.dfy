/** Placing the boxes of the rows (`layout_full` of `src/mindmap_flow.rs`):
    packing and coordinates. */
module FlowPlace {
  import opened Base
  import opened FlowCycles
  import opened FlowLayers
  import opened FlowRoutes
  import opened FlowSweeps

  const GAP := 36.0
  const LAYER_GAP := 56.0
  const WAYPOINT := 14.0

  /** A symbol as drawn and the box around it, which also holds a caption. */
  datatype Shape = Shape(sw: real, sh: real, bw: real, bh: real) {
    ghost predicate Valid() { 0.0 <= sw <= bw && 0.0 <= sh <= bh && 0.0 < bw && 0.0 < bh }
  }

  datatype Placed = Placed(layer: nat, cx: real, cy: real, boxX: real, boxY: real, shape: Shape)

  /** `Placed::overlaps`. */
  predicate Overlaps(a: Placed, b: Placed) {
    a.boxX < b.boxX + b.shape.bw && b.boxX < a.boxX + a.shape.bw && a.boxY < b.boxY + b.shape.bh
      && b.boxY < a.boxY + a.shape.bh
  }

  /** Extent across the layers' rows and along the arrows. */
  function AcrossSize(s: Shape, down: bool): real { if down then s.bw else s.bh }
  function AlongSize(s: Shape, down: bool): real { if down then s.bh else s.bw }
  function AcrossStart(p: Placed, down: bool): real { if down then p.boxX else p.boxY }
  function AlongStart(p: Placed, down: bool): real { if down then p.boxY else p.boxX }

  // ---------------------------------------------------------------------
  // Packing a row.

  function Width(shapes: map<int, Shape>, down: bool, v: int): real {
    if v in shapes then AcrossSize(shapes[v], down) else 0.0
  }

  function Thick(shapes: map<int, Shape>, down: bool, v: int): real {
    if v in shapes then AlongSize(shapes[v], down) else 0.0
  }

  /** Centres far enough apart that neighbours keep the gap. */
  ghost predicate Spaced(row: seq<int>, shapes: map<int, Shape>, down: bool, pos: seq<real>) {
    |pos| == |row| &&
    forall i | 0 < i < |row| ::
      pos[i] >= pos[i - 1] + (Width(shapes, down, row[i - 1]) + Width(shapes, down, row[i])) / 2.0 + GAP
  }

  /** Where a member wants its centre: amid its placed predecessors. */
  function Wanted(pred: map<int, seq<int>>, across: map<int, real>, v: int): Option<real> {
    var at := Known(across, Next(pred, v));
    if at == [] then None else Some(Mean(at))
  }

  function WantsOf(row: seq<int>, pred: map<int, seq<int>>, across: map<int, real>): (w: seq<Option<real>>)
    ensures |w| == |row|
  {
    seq(|row|, i requires 0 <= i < |row| => Wanted(pred, across, row[i]))
  }

  /** The least distance of two neighbours' centres. */
  function Pitch(shapes: map<int, Shape>, down: bool, u: int, v: int): real {
    (Width(shapes, down, u) + Width(shapes, down, v)) / 2.0 + GAP
  }

  function Start(want: Option<real>): real { if want.Some? then want.value else 0.0 }

  /** Packed from the first on: each where it wants, or as near as the gap allows. */
  ghost predicate Packed(row: seq<int>, shapes: map<int, Shape>, down: bool, wants: seq<Option<real>>, p: seq<real>) {
    && |p| == |row| == |wants|
    && (row != [] ==> p[0] == Start(wants[0]))
    && forall i | 0 < i < |row| :: NearAt(row, shapes, down, wants, p, i)
  }

  ghost predicate NearAt(row: seq<int>, shapes: map<int, Shape>, down: bool, wants: seq<Option<real>>, p: seq<real>,
                         i: nat)
    requires 0 < i < |row| == |wants| == |p|
  {
    AsNear(p[i - 1] + Pitch(shapes, down, row[i - 1], row[i]), wants[i], p[i])
  }

  ghost predicate AsNear(least: real, want: Option<real>, at: real) {
    at >= least && (at == least || (want.Some? && at == want.value)) && (want.Some? ==> at >= want.value)
  }

  /** What each that wants something misses it by. */
  function Misses(wants: seq<Option<real>>, at: seq<real>): seq<real>
    requires |wants| == |at|
  {
    if wants == [] then []
    else
      var n := |wants| - 1;
      Misses(wants[..n], at[..n]) + if wants[n].Some? then [wants[n].value - at[n]] else []
  }

  /** A packed row, shifted so that what the members miss on either side evens
      out; a row that wants nothing is centred on 0. */
  ghost predicate Settled(row: seq<int>, shapes: map<int, Shape>, down: bool, wants: seq<Option<real>>,
                          at: seq<real>) {
    && |wants| == |row| == |at|
    && (row != [] ==> Packed(row, shapes, down, wants, Moved(at, Start(wants[0]) - at[0])))
    && if forall i | 0 <= i < |wants| :: wants[i].None? then row != [] ==> at[0] + at[|at| - 1] == 0.0
       else Sum(Misses(wants, at)) == 0.0
  }

  function Moved(p: seq<real>, shift: real): (r: seq<real>)
    ensures |r| == |p|
  {
    seq(|p|, i requires 0 <= i < |p| => p[i] + shift)
  }

  lemma {:induction false} MissesMoved(wants: seq<Option<real>>, p: seq<real>, shift: real)
    requires |wants| == |p|
    ensures Misses(wants, Moved(p, shift)) == Less(Misses(wants, p), shift)
    decreases |wants|
  {
    if wants != [] {
      var n := |wants| - 1;
      MissesMoved(wants[..n], p[..n], shift);
      assert Moved(p, shift)[..n] == Moved(p[..n], shift);
      var more := if wants[n].Some? then [wants[n].value - p[n]] else [];
      LessPush(Misses(wants[..n], p[..n]), more, shift);
    }
  }

  lemma LessPush(a: seq<real>, b: seq<real>, c: real)
    requires |b| <= 1
    ensures Less(a + b, c) == Less(a, c) + if b == [] then [] else [b[0] - c]
  {
    if b == [] { assert a + b == a; } else { assert (a + b)[..|a|] == a; }
  }

  lemma {:induction false} NoMisses(wants: seq<Option<real>>, p: seq<real>)
    requires |wants| == |p|
    ensures Misses(wants, p) == [] <==> forall i | 0 <= i < |wants| :: wants[i].None?
    decreases |wants|
  {
    if wants != [] {
      var n := |wants| - 1;
      NoMisses(wants[..n], p[..n]);
      assert forall i | 0 <= i < n :: wants[..n][i] == wants[i];
    }
  }

  lemma PackedSpaced(row: seq<int>, shapes: map<int, Shape>, down: bool, wants: seq<Option<real>>, p: seq<real>,
                     shift: real)
    requires Packed(row, shapes, down, wants, p)
    ensures Spaced(row, shapes, down, Moved(p, shift))
  {
    forall i | 0 < i < |row| ensures p[i] >= p[i - 1] + Pitch(shapes, down, row[i - 1], row[i]) {
      assert NearAt(row, shapes, down, wants, p, i);
    }
  }

  /** Pack in order, each as close to the mean of its predecessors as the gap
      allows, then shift the whole row toward where it wanted to be. */
  method PackRow(row: seq<int>, shapes: map<int, Shape>, down: bool, pred: map<int, seq<int>>, across: map<int, real>)
    returns (pos: seq<real>)
    ensures Settled(row, shapes, down, WantsOf(row, pred, across), pos) && Spaced(row, shapes, down, pos)
  {
    var p, deltas := Pack(row, shapes, down, pred, across);
    var shift := if deltas != [] then Mean(deltas) else if row == [] then 0.0 else -(p[0] + p[|p| - 1]) / 2.0;
    pos := Shifted(p, shift);
    PackedSpaced(row, shapes, down, WantsOf(row, pred, across), p, shift);
    PackedSettles(row, shapes, down, WantsOf(row, pred, across), p, deltas, shift);
  }

  lemma PackedSettles(row: seq<int>, shapes: map<int, Shape>, down: bool, wants: seq<Option<real>>, p: seq<real>,
                      deltas: seq<real>, shift: real)
    requires Packed(row, shapes, down, wants, p) && deltas == Misses(wants, p)
    requires shift == if deltas != [] then Mean(deltas) else if row == [] then 0.0 else -(p[0] + p[|p| - 1]) / 2.0
    ensures Settled(row, shapes, down, wants, Moved(p, shift))
  {
    var at := Moved(p, shift);
    NoMisses(wants, p);
    MissesMoved(wants, p, shift);
    if row != [] { MovedBack(p, shift, Start(wants[0]) - at[0]); }
    if deltas != [] { MeanBalances(deltas); }
  }

  lemma MovedBack(p: seq<real>, shift: real, back: real)
    requires back == -shift
    ensures Moved(Moved(p, shift), back) == p
  {
  }

  lemma PackedPush(row: seq<int>, shapes: map<int, Shape>, down: bool, wants: seq<Option<real>>, p: seq<real>, i: nat,
                   x: real)
    requires |wants| == |row| && i < |row| && Packed(row[..i], shapes, down, wants[..i], p)
    requires if i == 0 then x == Start(wants[0])
             else AsNear(p[i - 1] + Pitch(shapes, down, row[i - 1], row[i]), wants[i], x)
    ensures Packed(row[..i + 1], shapes, down, wants[..i + 1], p + [x])
    ensures Misses(wants[..i + 1], p + [x])
         == Misses(wants[..i], p) + if wants[i].Some? then [wants[i].value - x] else []
  {
    var r, w, q := row[..i + 1], wants[..i + 1], p + [x];
    forall j | 0 < j < |r| ensures NearAt(r, shapes, down, w, q, j) {
      if j < i { assert NearAt(row[..i], shapes, down, wants[..i], p, j); }
    }
    if i > 0 { assert p[0] == q[0] && w[0] == wants[..i][0] && row[..i] != []; }
    MissesPush(w, wants[..i], q, p, i);
  }

  lemma MissesPush(w: seq<Option<real>>, w1: seq<Option<real>>, q: seq<real>, p: seq<real>, i: nat)
    requires |w| == i + 1 == |q| && w1 == w[..i] && p == q[..i]
    ensures Misses(w, q) == Misses(w1, p) + if w[i].Some? then [w[i].value - q[i]] else []
  {
  }

  method Pack(row: seq<int>, shapes: map<int, Shape>, down: bool, pred: map<int, seq<int>>, across: map<int, real>)
      returns (p: seq<real>, deltas: seq<real>)
    ensures var wants := WantsOf(row, pred, across);
            Packed(row, shapes, down, wants, p) && deltas == Misses(wants, p)
  {
    p, deltas := [], [];
    ghost var wants := WantsOf(row, pred, across);
    for i := 0 to |row|
      invariant |p| == i && Packed(row[..i], shapes, down, wants[..i], p) && deltas == Misses(wants[..i], p)
    {
      var w := Wanted(pred, across, row[i]);
      var x: real;
      if i == 0 {
        x := if w.Some? then w.value else 0.0;
      } else {
        var min := p[i - 1] + Pitch(shapes, down, row[i - 1], row[i]);
        x := if w.Some? && w.value > min then w.value else min;
      }
      PackedPush(row, shapes, down, wants, p, i, x);
      p := p + [x];
      if w.Some? { deltas := deltas + [w.value - x]; }
    }
    assert row[..|row|] == row && wants[..|row|] == wants;
  }

  method Shifted(p: seq<real>, shift: real) returns (r: seq<real>)
    ensures r == Moved(p, shift)
  {
    r := [];
    for i := 0 to |p|
      invariant |r| == i && forall j | 0 <= j < i :: r[j] == p[j] + shift
    {
      r := r + [p[i] + shift];
    }
  }

  /** Not only neighbours: any two of a row keep the gap. */
  lemma {:induction false} SpacedApart(row: seq<int>, shapes: map<int, Shape>, down: bool, pos: seq<real>, i: nat,
                                       j: nat)
    requires Spaced(row, shapes, down, pos) && i < j < |row|
    requires forall v :: Width(shapes, down, v) >= 0.0
    ensures pos[j] - Width(shapes, down, row[j]) / 2.0 >= pos[i] + Width(shapes, down, row[i]) / 2.0 + GAP
    decreases j
  {
    if i < j - 1 { SpacedApart(row, shapes, down, pos, i, j - 1); }
  }

  // ---------------------------------------------------------------------
  // Coordinates.

  /** The symbol keeps to its box. */
  ghost predicate InBox(p: Placed) {
    && p.boxX <= p.cx - p.shape.sw / 2.0 && p.cx + p.shape.sw / 2.0 <= p.boxX + p.shape.bw
    && p.boxY <= p.cy - p.shape.sh / 2.0 && p.cy + p.shape.sh / 2.0 <= p.boxY + p.shape.bh
  }

  /** In the middle of its box, or at its start along the side a caption makes longer. */
  ghost predicate Seated(p: Placed, down: bool) {
    if down then
      && p.cy == p.boxY + p.shape.bh / 2.0
      && (p.shape.bw > p.shape.sw ==> p.cx - p.shape.sw / 2.0 == p.boxX)
      && (p.shape.bw == p.shape.sw ==> p.cx == p.boxX + p.shape.bw / 2.0)
    else
      && p.cx == p.boxX + p.shape.bw / 2.0
      && (p.shape.bh > p.shape.sh ==> p.cy - p.shape.sh / 2.0 == p.boxY)
      && (p.shape.bh == p.shape.sh ==> p.cy == p.boxY + p.shape.bh / 2.0)
  }

  function PlaceAt(s: Shape, layer: nat, across: real, along: real, down: bool): (p: Placed)
    ensures s.Valid() ==> InBox(p)
    ensures Seated(p, down)
    ensures AcrossStart(p, down) == across - AcrossSize(s, down) / 2.0
    ensures AlongStart(p, down) == along - AlongSize(s, down) / 2.0
    ensures p.layer == layer && p.shape == s
  {
    var midX, midY := if down then across else along, if down then along else across;
    var boxX, boxY := midX - s.bw / 2.0, midY - s.bh / 2.0;
    if s.bw > s.sw && down then Placed(layer, boxX + s.sw / 2.0, midY, boxX, boxY, s)
    else if s.bh > s.sh && !down then Placed(layer, midX, boxY + s.sh / 2.0, boxX, boxY, s)
    else Placed(layer, midX, midY, boxX, boxY, s)
  }

  /** Two boxes of one layer are GAP apart across, two of different layers
      LAYER_GAP apart along the arrows, the lower layer first. */
  ghost predicate Apart(a: Placed, b: Placed, down: bool) {
    if a.layer == b.layer then
      || AcrossStart(a, down) + AcrossSize(a.shape, down) + GAP <= AcrossStart(b, down)
      || AcrossStart(b, down) + AcrossSize(b.shape, down) + GAP <= AcrossStart(a, down)
    else if a.layer < b.layer then AlongStart(a, down) + AlongSize(a.shape, down) + LAYER_GAP <= AlongStart(b, down)
    else AlongStart(b, down) + AlongSize(b.shape, down) + LAYER_GAP <= AlongStart(a, down)
  }

  lemma ApartDoNotOverlap(a: Placed, b: Placed, down: bool)
    requires Apart(a, b, down)
    ensures !Overlaps(a, b)
  {
  }

  /** What is placed so far: the first `l` rows, ending LAYER_GAP before `along`. */
  ghost predicate PlacedOk(placed: map<int, Placed>, layer: map<int, nat>, shapes: map<int, Shape>, l: nat, along: real,
                           down: bool) {
    && (forall v | v in placed ::
        v in layer && v in shapes && placed[v].layer == layer[v] < l && placed[v].shape == shapes[v]
        && InBox(placed[v]) && Seated(placed[v], down))
    && (forall v | v in layer && layer[v] < l :: v in placed)
    && (forall v | v in placed :: AlongStart(placed[v], down) + AlongSize(shapes[v], down) + LAYER_GAP <= along)
    && (forall u, v | u in placed && v in placed && u != v :: Apart(placed[u], placed[v], down))
  }

  /** The middle of a box across and along. */
  function Centre(p: Placed, down: bool): real { AcrossStart(p, down) + AcrossSize(p.shape, down) / 2.0 }
  function Middle(p: Placed, down: bool): real { AlongStart(p, down) + AlongSize(p.shape, down) / 2.0 }

  function Centres(placed: map<int, Placed>, down: bool): map<int, real> {
    map v | v in placed :: Centre(placed[v], down)
  }

  function Across(row: seq<int>, placed: map<int, Placed>, down: bool): seq<real>
    requires forall i | 0 <= i < |row| :: row[i] in placed
  {
    seq(|row|, i requires 0 <= i < |row| => Centre(placed[row[i]], down))
  }

  /** The thickest member of a row. */
  function ThickOf(row: seq<int>, shapes: map<int, Shape>, down: bool): real {
    if row == [] then 0.0
    else
      var front, last := ThickOf(row[..|row| - 1], shapes, down), Thick(shapes, down, row[|row| - 1]);
      if last > front then last else front
  }

  /** Where the band of a layer begins: the bands before it, LAYER_GAP behind each. */
  function BandStart(rows: Rows, shapes: map<int, Shape>, down: bool, l: nat): real
    requires l <= |rows|
  {
    if l == 0 then 0.0 else BandStart(rows, shapes, down, l - 1) + ThickOf(rows[l - 1], shapes, down) + LAYER_GAP
  }

  function BandMiddle(rows: Rows, shapes: map<int, Shape>, down: bool, l: nat): real
    requires l < |rows|
  {
    BandStart(rows, shapes, down, l) + ThickOf(rows[l], shapes, down) / 2.0
  }

  /** A row in the middle of its band, settled under its predecessors. */
  ghost predicate RowLaid(row: seq<int>, placed: map<int, Placed>, shapes: map<int, Shape>, down: bool,
                          pred: map<int, seq<int>>, mid: real) {
    && (forall i | 0 <= i < |row| :: row[i] in placed && Middle(placed[row[i]], down) == mid)
    && Settled(row, shapes, down, WantsOf(row, pred, Centres(placed, down)), Across(row, placed, down))
  }

  /** Predecessors lie in lower layers. */
  ghost predicate Lower(pred: map<int, seq<int>>, layer: map<int, nat>) {
    forall v, x | v in layer && x in Next(pred, v) && x in layer :: layer[x] < layer[v]
  }

  lemma {:induction false} KnownSame(a: map<int, real>, b: map<int, real>, vs: seq<int>)
    requires forall v | v in vs :: (v in a <==> v in b) && (v in a ==> a[v] == b[v])
    ensures Known(a, vs) == Known(b, vs)
  {
    if vs != [] {
      KnownSame(a, b, vs[1..]);
      SameAt(a, b, vs, vs[0]);
    }
  }

  lemma SameAt(a: map<int, real>, b: map<int, real>, vs: seq<int>, v: int)
    requires v in vs && forall x | x in vs :: (x in a <==> x in b) && (x in a ==> a[x] == b[x])
    ensures (v in a <==> v in b) && (v in a ==> a[v] == b[v])
  {
  }

  /** Rows placed later change nothing in what a row wants. */
  lemma WantsStay(row: seq<int>, placed: map<int, Placed>, more: map<int, Placed>, down: bool, pred: map<int, seq<int>>)
    requires forall v, x | v in row && x in Next(pred, v) :: x !in more
    ensures WantsOf(row, pred, Centres(placed + more, down)) == WantsOf(row, pred, Centres(placed, down))
  {
    forall i | 0 <= i < |row|
      ensures Wanted(pred, Centres(placed + more, down), row[i]) == Wanted(pred, Centres(placed, down), row[i])
    {
      assert row[i] in row;
      KnownSame(Centres(placed + more, down), Centres(placed, down), Next(pred, row[i]));
    }
  }

  lemma LaidStays(row: seq<int>, placed: map<int, Placed>, more: map<int, Placed>, shapes: map<int, Shape>, down: bool,
                  pred: map<int, seq<int>>, mid: real)
    requires RowLaid(row, placed, shapes, down, pred, mid)
    requires forall v, x | v in row && x in Next(pred, v) :: x !in more
    requires forall v | v in row :: v !in more
    ensures RowLaid(row, placed + more, shapes, down, pred, mid)
  {
    WantsStay(row, placed, more, down, pred);
    forall i | 0 <= i < |row| ensures row[i] in placed && row[i] !in more { assert row[i] in row; }
    assert Across(row, placed + more, down) == Across(row, placed, down);
  }

  lemma LaidNow(row: seq<int>, placed: map<int, Placed>, more: map<int, Placed>, shapes: map<int, Shape>, down: bool,
                pred: map<int, seq<int>>, l: nat, pos: seq<real>, mid: real)
    requires Settled(row, shapes, down, WantsOf(row, pred, Centres(placed, down)), pos)
    requires forall v, x | v in row && x in Next(pred, v) :: x !in more
    requires Boxed(row, more, shapes, down, l, mid, pos)
    ensures RowLaid(row, placed + more, shapes, down, pred, mid)
  {
    WantsStay(row, placed, more, down, pred);
    var at := Across(row, placed + more, down);
    forall i | 0 <= i < |row| ensures at[i] == pos[i] && Middle((placed + more)[row[i]], down) == mid {
      PlacedThere(shapes[row[i]], l, pos[i], mid, down);
    }
    assert at == pos;
  }

  lemma PlacedThere(s: Shape, layer: nat, across: real, along: real, down: bool)
    ensures Centre(PlaceAt(s, layer, across, along, down), down) == across
    ensures Middle(PlaceAt(s, layer, across, along, down), down) == along
  {
  }

  /** The rows placed so far lie as they should. */
  ghost predicate RowsLaid(rows: Rows, placed: map<int, Placed>, shapes: map<int, Shape>, down: bool,
                           pred: map<int, seq<int>>, n: nat) {
    n <= |rows|
    && forall l | 0 <= l < n :: RowLaid(rows[l], placed, shapes, down, pred, BandMiddle(rows, shapes, down, l))
  }

  lemma OneMoreLaid(rows: Rows, layer: map<int, nat>, placed: map<int, Placed>, more: map<int, Placed>,
                    shapes: map<int, Shape>, down: bool, pred: map<int, seq<int>>, l: nat, pos: seq<real>)
    requires RowsOk(rows, layer) && Lower(pred, layer) && l < |rows| && RowsLaid(rows, placed, shapes, down, pred, l)
    requires Settled(rows[l], shapes, down, WantsOf(rows[l], pred, Centres(placed, down)), pos)
    requires Boxed(rows[l], more, shapes, down, l, BandMiddle(rows, shapes, down, l), pos)
    ensures RowsLaid(rows, placed + more, shapes, down, pred, l + 1)
  {
    forall k | 0 <= k < l + 1
      ensures RowLaid(rows[k], placed + more, shapes, down, pred, BandMiddle(rows, shapes, down, k))
    {
      forall v, x | v in rows[k] && x in Next(pred, v) ensures x !in more {
        assert On(layer, v, k);
        assert x in more ==> x in rows[l] && On(layer, x, l);
      }
      if k < l {
        forall v | v in rows[k] ensures v !in more {
          assert On(layer, v, k);
          assert v in more ==> v in rows[l] && On(layer, v, l);
        }
        LaidStays(rows[k], placed, more, shapes, down, pred, BandMiddle(rows, shapes, down, k));
      } else {
        LaidNow(rows[l], placed, more, shapes, down, pred, l, pos, BandMiddle(rows, shapes, down, l));
      }
    }
  }

  /** Row by row, the layers one after another. */
  method PlaceRows(rows: Rows, shapes: map<int, Shape>, down: bool, pred: map<int, seq<int>>,
                   ghost layer: map<int, nat>)
    returns (placed: map<int, Placed>)
    requires RowsOk(rows, layer) && layer.Keys <= shapes.Keys && forall v | v in shapes :: shapes[v].Valid()
    requires Lower(pred, layer)
    ensures forall v :: v in placed <==> v in layer
    ensures forall v | v in placed :: placed[v].layer == layer[v] && placed[v].shape == shapes[v]
                                      && InBox(placed[v]) && Seated(placed[v], down)
    ensures forall u, v | u in placed && v in placed && u != v :: Apart(placed[u], placed[v], down)
    ensures RowsLaid(rows, placed, shapes, down, pred, |rows|)
  {
    placed := map[];
    var along := 0.0;
    ghost var boxes: seq<map<int, Placed>>, at: seq<seq<real>> := [], [];
    for l := 0 to |rows|
      invariant |boxes| == |at| == l && placed == Together(boxes) && along == BandStart(rows, shapes, down, l)
      invariant forall k | 0 <= k < l :: RowBoxed(rows, shapes, down, k, boxes[k], at[k])
      invariant forall k | 0 <= k < l :: RowSettled(rows, shapes, down, pred, k, boxes[..k], at[k])
    {
      RowKnown(rows, shapes, layer, l);
      var row, thick, pos := RaiseRow(rows[l], shapes, down, l, pred, Centres(placed, down), along);
      BandNext(rows, shapes, down, l, along, thick);
      BoxedNext(rows, shapes, down, l, boxes, row, at, pos, along, thick);
      SettledNext(rows, shapes, down, pred, l, boxes, row, at, pos);
      boxes, at := boxes + [row], at + [pos];
      placed := placed + row;
      along := along + thick + LAYER_GAP;
    }
    assert boxes[..|rows|] == boxes;
    AllPlaced(rows, shapes, down, layer, boxes, at, |rows|);
    AllLaid(rows, shapes, down, pred, layer, boxes, at, |rows|);
    forall v | v in layer ensures v in placed { assert layer[v] < |rows|; }
  }

  function Together(boxes: seq<map<int, Placed>>): map<int, Placed> {
    if boxes == [] then map[] else Together(boxes[..|boxes| - 1]) + boxes[|boxes| - 1]
  }

  /** A row put in its band, its members apart. */
  ghost predicate RowBoxed(rows: Rows, shapes: map<int, Shape>, down: bool, l: nat, row: map<int, Placed>,
                           pos: seq<real>) {
    && l < |rows| && Boxed(rows[l], row, shapes, down, l, BandMiddle(rows, shapes, down, l), pos)
    && Spaced(rows[l], shapes, down, pos) && Thickness(rows[l], shapes, down, ThickOf(rows[l], shapes, down))
  }

  /** A row settled under the rows before it. */
  ghost predicate RowSettled(rows: Rows, shapes: map<int, Shape>, down: bool, pred: map<int, seq<int>>, l: nat,
                             before: seq<map<int, Placed>>, pos: seq<real>) {
    l < |rows| && Settled(rows[l], shapes, down, WantsOf(rows[l], pred, Centres(Together(before), down)), pos)
  }

  lemma BoxedNext(rows: Rows, shapes: map<int, Shape>, down: bool, l: nat, boxes: seq<map<int, Placed>>,
                  row: map<int, Placed>, at: seq<seq<real>>, pos: seq<real>, along: real, thick: real)
    requires |boxes| == |at| == l < |rows| && along + thick / 2.0 == BandMiddle(rows, shapes, down, l)
    requires forall k | 0 <= k < l :: RowBoxed(rows, shapes, down, k, boxes[k], at[k])
    requires Thickness(rows[l], shapes, down, thick) && Boxed(rows[l], row, shapes, down, l, along + thick / 2.0, pos)
    requires Spaced(rows[l], shapes, down, pos)
    ensures forall k | 0 <= k < l + 1 :: RowBoxed(rows, shapes, down, k, (boxes + [row])[k], (at + [pos])[k])
  {
    assert RowBoxed(rows, shapes, down, l, row, pos);
    forall k | 0 <= k < l + 1 ensures RowBoxed(rows, shapes, down, k, (boxes + [row])[k], (at + [pos])[k]) {
      SameBoxed(rows, shapes, down, k, if k < l then boxes[k] else row, (boxes + [row])[k],
                if k < l then at[k] else pos, (at + [pos])[k]);
    }
  }

  lemma SameBoxed(rows: Rows, shapes: map<int, Shape>, down: bool, l: nat, a: map<int, Placed>, b: map<int, Placed>,
                  p: seq<real>, q: seq<real>)
    requires RowBoxed(rows, shapes, down, l, a, p) && a == b && p == q
    ensures RowBoxed(rows, shapes, down, l, b, q)
  {
  }

  lemma SettledNext(rows: Rows, shapes: map<int, Shape>, down: bool, pred: map<int, seq<int>>, l: nat,
                    boxes: seq<map<int, Placed>>, row: map<int, Placed>, at: seq<seq<real>>, pos: seq<real>)
    requires |boxes| == |at| == l < |rows|
    requires forall k | 0 <= k < l :: RowSettled(rows, shapes, down, pred, k, boxes[..k], at[k])
    requires RowSettled(rows, shapes, down, pred, l, boxes, pos)
    ensures Together(boxes + [row]) == Together(boxes) + row
    ensures forall k | 0 <= k < l + 1 ::
        RowSettled(rows, shapes, down, pred, k, (boxes + [row])[..k], (at + [pos])[k])
  {
    assert (boxes + [row])[..l] == boxes;
    forall k | 0 <= k < l + 1
      ensures RowSettled(rows, shapes, down, pred, k, (boxes + [row])[..k], (at + [pos])[k])
    {
      SameSettled(rows, shapes, down, pred, k, if k < l then boxes[..k] else boxes, (boxes + [row])[..k],
                  if k < l then at[k] else pos, (at + [pos])[k]);
    }
  }

  lemma SameSettled(rows: Rows, shapes: map<int, Shape>, down: bool, pred: map<int, seq<int>>, l: nat,
                    a: seq<map<int, Placed>>, b: seq<map<int, Placed>>, p: seq<real>, q: seq<real>)
    requires RowSettled(rows, shapes, down, pred, l, a, p) && a == b && p == q
    ensures RowSettled(rows, shapes, down, pred, l, b, q)
  {
  }

  lemma {:induction false} AllPlaced(rows: Rows, shapes: map<int, Shape>, down: bool, layer: map<int, nat>,
                                     boxes: seq<map<int, Placed>>, at: seq<seq<real>>, n: nat)
    requires RowsOk(rows, layer) && layer.Keys <= shapes.Keys && forall v | v in shapes :: shapes[v].Valid()
    requires |boxes| == |at| == |rows| && n <= |rows|
    requires forall k | 0 <= k < |rows| :: RowBoxed(rows, shapes, down, k, boxes[k], at[k])
    ensures PlacedOk(Together(boxes[..n]), layer, shapes, n, BandStart(rows, shapes, down, n), down)
    decreases n
  {
    if n > 0 {
      var l := n - 1;
      AllPlaced(rows, shapes, down, layer, boxes, at, l);
      assert boxes[..n][..l] == boxes[..l] && RowBoxed(rows, shapes, down, l, boxes[l], at[l]);
      RowFacts(boxes[l], rows, layer, shapes, l, down, at[l]);
      RowPlaced(Together(boxes[..l]), boxes[l], rows, layer, shapes, l, down);
    }
  }

  lemma {:induction false} AllLaid(rows: Rows, shapes: map<int, Shape>, down: bool, pred: map<int, seq<int>>,
                                   layer: map<int, nat>, boxes: seq<map<int, Placed>>, at: seq<seq<real>>, n: nat)
    requires RowsOk(rows, layer) && Lower(pred, layer) && |boxes| == |at| == |rows| && n <= |rows|
    requires forall k | 0 <= k < |rows| :: RowBoxed(rows, shapes, down, k, boxes[k], at[k])
    requires forall k | 0 <= k < |rows| :: RowSettled(rows, shapes, down, pred, k, boxes[..k], at[k])
    ensures RowsLaid(rows, Together(boxes[..n]), shapes, down, pred, n)
    decreases n
  {
    if n > 0 {
      var l := n - 1;
      AllLaid(rows, shapes, down, pred, layer, boxes, at, l);
      assert boxes[..n][..l] == boxes[..l] && RowBoxed(rows, shapes, down, l, boxes[l], at[l]);
      assert RowSettled(rows, shapes, down, pred, l, boxes[..l], at[l]);
      OneMoreLaid(rows, layer, Together(boxes[..l]), boxes[l], shapes, down, pred, l, at[l]);
    }
  }

  lemma RowKnown(rows: Rows, shapes: map<int, Shape>, layer: map<int, nat>, l: nat)
    requires RowsOk(rows, layer) && layer.Keys <= shapes.Keys && l < |rows|
    ensures NoDup(rows[l]) && forall i | 0 <= i < |rows[l]| :: rows[l][i] in shapes
  {
    forall i | 0 <= i < |rows[l]| ensures rows[l][i] in shapes { assert On(layer, rows[l][i], l); }
  }

  /** The boxes of a row, centred on `mid` along and on `pos` across. */
  ghost predicate Boxed(row: seq<int>, boxes: map<int, Placed>, shapes: map<int, Shape>, down: bool, l: nat,
                        mid: real, pos: seq<real>) {
    && |pos| == |row| && boxes.Keys == Elems(row)
    && forall i | 0 <= i < |row| :: row[i] in shapes && row[i] in boxes
                                    && boxes[row[i]] == PlaceAt(shapes[row[i]], l, pos[i], mid, down)
  }

  /** The thickness of a row, none of whose members is thicker. */
  ghost predicate Thickness(row: seq<int>, shapes: map<int, Shape>, down: bool, thick: real) {
    thick == ThickOf(row, shapes, down) && thick >= 0.0 && forall v | v in row :: Thick(shapes, down, v) <= thick
  }

  method RaiseRow(row: seq<int>, shapes: map<int, Shape>, down: bool, l: nat, pred: map<int, seq<int>>,
                  across: map<int, real>, along: real)
    returns (boxes: map<int, Placed>, thick: real, pos: seq<real>)
    requires NoDup(row) && forall i | 0 <= i < |row| :: row[i] in shapes
    ensures Thickness(row, shapes, down, thick) && Boxed(row, boxes, shapes, down, l, along + thick / 2.0, pos)
    ensures Settled(row, shapes, down, WantsOf(row, pred, across), pos) && Spaced(row, shapes, down, pos)
  {
    thick := Thickest(row, shapes, down);
    pos := PackRow(row, shapes, down, pred, across);
    boxes := PlaceRow(row, shapes, down, l, pos, along + thick / 2.0);
  }

  lemma BandNext(rows: Rows, shapes: map<int, Shape>, down: bool, l: nat, along: real, thick: real)
    requires l < |rows| && along == BandStart(rows, shapes, down, l) && thick == ThickOf(rows[l], shapes, down)
    ensures BandMiddle(rows, shapes, down, l) == along + thick / 2.0
    ensures BandStart(rows, shapes, down, l + 1) == along + thick + LAYER_GAP
  {
  }

  method Thickest(row: seq<int>, shapes: map<int, Shape>, down: bool) returns (thick: real)
    ensures thick == ThickOf(row, shapes, down)
    ensures thick >= 0.0 && forall v | v in row :: Thick(shapes, down, v) <= thick
  {
    thick := 0.0;
    for i := 0 to |row|
      invariant thick == ThickOf(row[..i], shapes, down)
      invariant thick >= 0.0 && forall j | 0 <= j < i :: Thick(shapes, down, row[j]) <= thick
    {
      assert row[..i + 1][..i] == row[..i];
      if Thick(shapes, down, row[i]) > thick { thick := Thick(shapes, down, row[i]); }
    }
    assert row[..|row|] == row;
  }

  method PlaceRow(row: seq<int>, shapes: map<int, Shape>, down: bool, l: nat, pos: seq<real>, mid: real)
      returns (placed: map<int, Placed>)
    requires |pos| == |row| && NoDup(row) && forall i | 0 <= i < |row| :: row[i] in shapes
    ensures placed.Keys == Elems(row)
    ensures forall i | 0 <= i < |row| :: placed[row[i]] == PlaceAt(shapes[row[i]], l, pos[i], mid, down)
  {
    placed := map[];
    for i := 0 to |row|
      invariant placed.Keys == Elems(row[..i])
      invariant forall j | 0 <= j < i ::
          row[j] in placed && placed[row[j]] == PlaceAt(shapes[row[j]], l, pos[j], mid, down)
    {
      assert row[..i + 1] == row[..i] + [row[i]];
      placed := placed[row[i] := PlaceAt(shapes[row[i]], l, pos[i], mid, down)];
    }
    assert row[..|row|] == row;
  }

  /** A row keeps to its band and to itself. */
  ghost predicate RowStands(row: map<int, Placed>, rows: Rows, layer: map<int, nat>, shapes: map<int, Shape>, l: nat,
                            down: bool) {
    && l < |rows| && row.Keys == Elems(rows[l])
    && (forall v | v in row ::
          RowBox(row[v], v, layer, shapes, l, BandStart(rows, shapes, down, l), ThickOf(rows[l], shapes, down), down))
    && forall u, v | u in row && v in row && u != v :: Apart(row[u], row[v], down)
  }

  lemma RowFacts(row: map<int, Placed>, rows: Rows, layer: map<int, nat>, shapes: map<int, Shape>, l: nat, down: bool,
                 pos: seq<real>)
    requires RowsOk(rows, layer) && forall v | v in shapes :: shapes[v].Valid()
    requires RowBoxed(rows, shapes, down, l, row, pos)
    ensures RowStands(row, rows, layer, shapes, l, down) && ThickOf(rows[l], shapes, down) >= 0.0
  {
    var along, thick := BandStart(rows, shapes, down, l), ThickOf(rows[l], shapes, down);
    RowBoxes(row, rows, layer, shapes, l, along, thick, down, pos);
    RowAllApart(row, rows[l], shapes, l, BandMiddle(rows, shapes, down, l), down, pos);
  }

  /** One more row keeps clear of the earlier ones and of itself. */
  lemma RowPlaced(placed: map<int, Placed>, row: map<int, Placed>, rows: Rows, layer: map<int, nat>,
                  shapes: map<int, Shape>, l: nat, down: bool)
    requires RowsOk(rows, layer) && RowStands(row, rows, layer, shapes, l, down)
    requires ThickOf(rows[l], shapes, down) >= 0.0
    requires PlacedOk(placed, layer, shapes, l, BandStart(rows, shapes, down, l), down)
    ensures PlacedOk(placed + row, layer, shapes, l + 1, BandStart(rows, shapes, down, l + 1), down)
  {
    var along, thick := BandStart(rows, shapes, down, l), ThickOf(rows[l], shapes, down);
    RowCovers(placed, row, rows, layer, shapes, l, along, down);
    MergedPlaced(placed, row, layer, shapes, l, along, thick, down);
  }

  lemma RowAllApart(row: map<int, Placed>, order: seq<int>, shapes: map<int, Shape>, l: nat, mid: real, down: bool,
                    pos: seq<real>)
    requires Spaced(order, shapes, down, pos) && forall x | x in shapes :: shapes[x].Valid()
    requires Boxed(order, row, shapes, down, l, mid, pos)
    ensures forall u, v | u in row && v in row && u != v :: Apart(row[u], row[v], down)
  {
    forall u, v | u in row && v in row && u != v ensures Apart(row[u], row[v], down) {
      RowApart(row, order, shapes, l, mid, down, pos, u, v);
    }
  }

  lemma RowCovers(placed: map<int, Placed>, row: map<int, Placed>, rows: Rows, layer: map<int, nat>,
                  shapes: map<int, Shape>, l: nat, along: real, down: bool)
    requires RowsOk(rows, layer) && l < |rows| && PlacedOk(placed, layer, shapes, l, along, down)
    requires row.Keys == Elems(rows[l])
    ensures forall v | v in layer && layer[v] < l + 1 :: v in placed + row
  {
    forall v | v in layer && layer[v] < l + 1 ensures v in placed + row {
      if layer[v] == l { assert v in rows[l]; }
    }
  }

  lemma RowBoxes(row: map<int, Placed>, rows: Rows, layer: map<int, nat>, shapes: map<int, Shape>, l: nat, along: real,
                 thick: real, down: bool, pos: seq<real>)
    requires RowsOk(rows, layer) && l < |rows| && forall v | v in shapes :: shapes[v].Valid()
    requires Thickness(rows[l], shapes, down, thick) && Boxed(rows[l], row, shapes, down, l, along + thick / 2.0, pos)
    ensures forall v | v in row :: RowBox(row[v], v, layer, shapes, l, along, thick, down)
  {
    forall v | v in row ensures RowBox(row[v], v, layer, shapes, l, along, thick, down) {
      var i :| 0 <= i < |rows[l]| && rows[l][i] == v;
      assert On(layer, v, l);
    }
  }

  ghost predicate RowBox(p: Placed, v: int, layer: map<int, nat>, shapes: map<int, Shape>, l: nat, along: real,
                         thick: real, down: bool) {
    && v in layer && v in shapes && p.layer == layer[v] == l && p.shape == shapes[v] && InBox(p) && Seated(p, down)
    && along <= AlongStart(p, down) && AlongStart(p, down) + AlongSize(shapes[v], down) <= along + thick
  }

  lemma RowApart(row: map<int, Placed>, order: seq<int>, shapes: map<int, Shape>, l: nat, mid: real, down: bool,
                 pos: seq<real>, u: int, v: int)
    requires Spaced(order, shapes, down, pos) && (forall x | x in shapes :: shapes[x].Valid())
    requires Boxed(order, row, shapes, down, l, mid, pos) && u in row && v in row && u != v
    ensures Apart(row[u], row[v], down)
  {
    var i :| 0 <= i < |order| && order[i] == u;
    var j :| 0 <= j < |order| && order[j] == v;
    if i < j { SpacedApart(order, shapes, down, pos, i, j); } else { SpacedApart(order, shapes, down, pos, j, i); }
  }

  lemma MergedPlaced(placed: map<int, Placed>, row: map<int, Placed>, layer: map<int, nat>, shapes: map<int, Shape>,
                     l: nat, along: real, thick: real, down: bool)
    requires PlacedOk(placed, layer, shapes, l, along, down) && thick >= 0.0
    requires forall v | v in row :: RowBox(row[v], v, layer, shapes, l, along, thick, down)
    requires forall u, v | u in row && v in row && u != v :: Apart(row[u], row[v], down)
    requires forall v | v in layer && layer[v] < l + 1 :: v in placed + row
    ensures PlacedOk(placed + row, layer, shapes, l + 1, along + thick + LAYER_GAP, down)
  {
    var all := placed + row;
    forall v | v in all
      ensures v in layer && v in shapes && all[v].layer == layer[v] < l + 1 && all[v].shape == shapes[v]
              && InBox(all[v]) && Seated(all[v], down)
      ensures AlongStart(all[v], down) + AlongSize(shapes[v], down) + LAYER_GAP <= along + thick + LAYER_GAP
    {
      assert v in row ==> RowBox(row[v], v, layer, shapes, l, along, thick, down);
    }
    forall u, v | u in all && v in all && u != v ensures Apart(all[u], all[v], down) {
      assert u in row ==> RowBox(row[u], u, layer, shapes, l, along, thick, down);
      assert v in row ==> RowBox(row[v], v, layer, shapes, l, along, thick, down);
      assert u in placed ==> AlongStart(placed[u], down) + AlongSize(shapes[u], down) + LAYER_GAP <= along;
      assert v in placed ==> AlongStart(placed[v], down) + AlongSize(shapes[v], down) + LAYER_GAP <= along;
      assert u in row || u in placed;
      assert v in row || v in placed;
    }
  }
}
