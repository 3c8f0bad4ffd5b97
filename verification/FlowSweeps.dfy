/** Ordering the rows (`layout_full` of `src/mindmap_flow.rs`): sweeps that let
    every row follow the places of its neighbours. */
module FlowSweeps {
  import opened Base
  import opened FlowCycles
  import opened FlowLayers
  import opened FlowRoutes

  // ---------------------------------------------------------------------
  // Means.

  function Sum(xs: seq<real>): real { if xs == [] then 0.0 else Sum(xs[..|xs| - 1]) + xs[|xs| - 1] }

  function Mean(xs: seq<real>): real
    requires xs != []
  {
    Sum(xs) / (|xs| as real)
  }

  /** The positions known for some of `vs`. */
  function Known(pos: map<int, real>, vs: seq<int>): seq<real> {
    if vs == [] then []
    else if vs[0] in pos then [pos[vs[0]]] + Known(pos, vs[1..])
    else Known(pos, vs[1..])
  }

  datatype Key = Key(bary: real, i: nat, id: int)

  predicate KeyBefore(a: Key, b: Key) { a.bary < b.bary || (a.bary == b.bary && a.i <= b.i) }

  function KeyOf(row: seq<int>, neigh: map<int, seq<int>>, pos: map<int, real>, i: nat): Key
    requires i < |row|
  {
    var ns := Known(pos, Next(neigh, row[i]));
    Key(if ns == [] then i as real else Mean(ns), i, row[i])
  }

  function Ids(keys: seq<Key>): seq<int> { if keys == [] then [] else Ids(keys[..|keys| - 1]) + [keys[|keys| - 1].id] }

  ghost predicate InKeyOrder(keys: seq<Key>) {
    forall i, j | 0 <= i < j < |keys| :: KeyBefore(keys[i], keys[j])
  }

  /** One row in the order of its neighbours' mean position, ties as they were. */
  method OrderRow(row: seq<int>, neigh: map<int, seq<int>>, pos: map<int, real>)
      returns (r: seq<int>, ghost keys: seq<Key>)
    ensures multiset(r) == multiset(row)
    ensures r == Ids(keys) && InKeyOrder(keys)
    ensures forall k | k in keys :: k.i < |row| && k == KeyOf(row, neigh, pos, k.i)
  {
    var sorted: seq<Key> := [];
    for i := 0 to |row|
      invariant InKeyOrder(sorted)
      invariant multiset(Ids(sorted)) == multiset(row[..i])
      invariant forall k | k in sorted :: k.i < i && k == KeyOf(row, neigh, pos, k.i)
    {
      assert row[..i + 1] == row[..i] + [row[i]];
      sorted := InsertKey(sorted, KeyOf(row, neigh, pos, i));
    }
    assert row[..|row|] == row;
    r, keys := Ids(sorted), sorted;
  }

  method InsertKey(keys: seq<Key>, k: Key) returns (r: seq<Key>)
    requires InKeyOrder(keys) && forall x | x in keys :: x.i < k.i
    ensures InKeyOrder(r)
    ensures multiset(Ids(r)) == multiset(Ids(keys)) + multiset{k.id}
    ensures forall x | x in r :: x in keys || x == k
  {
    var at := |keys|;
    while at > 0 && k.bary < keys[at - 1].bary
      invariant 0 <= at <= |keys|
      invariant forall j | at <= j < |keys| :: k.bary < keys[j].bary
    {
      at := at - 1;
    }
    r := keys[..at] + [k] + keys[at..];
    InsertedInOrder(keys, k, at);
    InsertedIds(keys, k, at);
  }

  lemma InsertedInOrder(keys: seq<Key>, k: Key, at: nat)
    requires InKeyOrder(keys) && at <= |keys| && forall x | x in keys :: x.i < k.i
    requires forall j | at <= j < |keys| :: k.bary < keys[j].bary
    requires at > 0 ==> keys[at - 1].bary <= k.bary
    ensures InKeyOrder(keys[..at] + [k] + keys[at..])
  {
    var r := keys[..at] + [k] + keys[at..];
    forall i, j | 0 <= i < j < |r| ensures KeyBefore(r[i], r[j]) {
      assert i < at ==> r[i] == keys[i] && keys[i] in keys;
      assert i > at ==> r[i] == keys[i - 1];
      assert j > at ==> r[j] == keys[j - 1];
      assert i < at - 1 ==> KeyBefore(keys[i], keys[at - 1]);
    }
  }

  lemma InsertedIds(keys: seq<Key>, k: Key, at: nat)
    requires at <= |keys|
    ensures multiset(Ids(keys[..at] + [k] + keys[at..])) == multiset(Ids(keys)) + multiset{k.id}
  {
    IdsConcat(keys[..at], [k]);
    IdsConcat(keys[..at] + [k], keys[at..]);
    IdsConcat(keys[..at], keys[at..]);
    assert keys == keys[..at] + keys[at..];
    assert [k][..0] == [] && Ids([k]) == [k.id];
  }

  lemma {:induction false} IdsConcat(a: seq<Key>, b: seq<Key>)
    ensures Ids(a + b) == Ids(a) + Ids(b)
    decreases |b|
  {
    if b == [] {
      assert a + b == a;
    } else {
      assert (a + b)[..|a + b| - 1] == a + b[..|b| - 1];
      IdsConcat(a, b[..|b| - 1]);
    }
  }

  /** Row `l` holds exactly the symbols and waypoints of layer `l`, each once. */
  ghost predicate RowsOk(rows: seq<seq<int>>, layer: map<int, nat>) {
    && (forall v | v in layer :: layer[v] < |rows| && v in rows[layer[v]])
    && (forall l, v | 0 <= l < |rows| && v in rows[l] :: On(layer, v, l))
    && (forall l | 0 <= l < |rows| :: NoDup(rows[l]))
  }

  lemma SameRow(rows: seq<seq<int>>, layer: map<int, nat>, l: nat, r: seq<int>)
    requires RowsOk(rows, layer) && l < |rows| && multiset(r) == multiset(rows[l])
    ensures RowsOk(rows[l := r], layer)
  {
    var rows' := rows[l := r];
    forall v ensures v in r <==>
      v in rows[l] { assert v in r <==> v in multiset(r); assert v in rows[l] <==> v in multiset(rows[l]); }
    forall i, j | 0 <= i < j < |r| ensures r[i] != r[j] { NoDupMultiset(rows[l], r); }
  }

  lemma NoDupMultiset(s: seq<int>, r: seq<int>)
    requires NoDup(s) && multiset(r) == multiset(s)
    ensures NoDup(r)
  {
    OnceEach(s);
    forall i, j | 0 <= i < j < |r| ensures r[i] != r[j] {
      var a, b, c := r[..i], r[i + 1..j], r[j + 1..];
      assert multiset(s)[r[i]] <= 1;
      assert r == a + [r[i]] + b + [r[j]] + c;
      assert multiset(r) == multiset(a) + multiset{r[i]} + multiset(b) + multiset{r[j]} + multiset(c);
    }
  }

  lemma {:induction false} OnceEach(s: seq<int>)
    requires NoDup(s)
    ensures forall x :: multiset(s)[x] <= 1
  {
    if s != [] {
      OnceEach(s[1..]);
      assert s == [s[0]] + s[1..];
      assert s[0] !in s[1..];
    }
  }

  // ---------------------------------------------------------------------
  // What a pass does.

  type Rows = seq<seq<int>>

  /** The place of a member in its row. */
  function Spot(row: seq<int>, v: int): (i: nat)
    requires v in row
    ensures i < |row| && row[i] == v
  {
    if row[0] == v then 0 else 1 + Spot(row[1..], v)
  }

  lemma SpotIs(row: seq<int>, i: nat)
    requires NoDup(row) && i < |row|
    ensures Spot(row, row[i]) == i
  {
  }

  /** The place of a member of the layers. */
  function SpotOf(rows: Rows, layer: map<int, nat>, v: int): real
    requires RowsOk(rows, layer) && v in layer
  {
    Spot(rows[layer[v]], v) as real
  }

  /** The places of those of `vs` that stand in a row. */
  function Spots(rows: Rows, layer: map<int, nat>, vs: seq<int>): seq<real>
    requires RowsOk(rows, layer)
  {
    if vs == [] then []
    else (if vs[0] in layer then [SpotOf(rows, layer, vs[0])] else []) + Spots(rows, layer, vs[1..])
  }

  /** Where a member of a row wants to stand: amid its neighbours, or where it is. */
  function Wish(rows: Rows, layer: map<int, nat>, neigh: map<int, seq<int>>, v: int): real
    requires RowsOk(rows, layer) && v in layer
  {
    var at := Spots(rows, layer, Next(neigh, v));
    if at == [] then SpotOf(rows, layer, v) else Mean(at)
  }

  /** `u` wants to stand left of `v`, or wants the same and stands there already. */
  ghost predicate Sooner(rows: Rows, layer: map<int, nat>, neigh: map<int, seq<int>>, u: int, v: int)
    requires RowsOk(rows, layer)
  {
    && u in layer && v in layer && layer[u] == layer[v]
    && (Wish(rows, layer, neigh, u) < Wish(rows, layer, neigh, v)
        || (Wish(rows, layer, neigh, u) == Wish(rows, layer, neigh, v)
            && SpotOf(rows, layer, u) < SpotOf(rows, layer, v)))
  }

  /** The row holds what it held, as its members want to stand. */
  ghost predicate Follows(rows: Rows, layer: map<int, nat>, neigh: map<int, seq<int>>, row: seq<int>, after: seq<int>)
    requires RowsOk(rows, layer)
  {
    && multiset(after) == multiset(row)
    && forall i, j | 0 <= i < j < |after| :: Sooner(rows, layer, neigh, after[i], after[j])
  }

  /** The row a pass starts from. */
  function First(n: nat, downward: bool): int { if downward then 0 else n - 1 }

  /** One pass: every row but the first follows the places all had before it. */
  ghost predicate Pass(before: Rows, after: Rows, layer: map<int, nat>, neigh: map<int, seq<int>>, downward: bool)
    requires RowsOk(before, layer)
  {
    && |after| == |before|
    && forall l | 0 <= l < |before| ::
         if l == First(|before|, downward) then after[l] == before[l]
         else Follows(before, layer, neigh, before[l], after[l])
  }

  /** Six passes, down and up in turn. */
  ghost predicate Passes(all: seq<Rows>, layer: map<int, nat>, pred: map<int, seq<int>>, succ: map<int, seq<int>>) {
    && |all| == 7 && (forall k | 0 <= k < 7 :: RowsOk(all[k], layer))
    && forall k | 0 <= k < 6 :: Pass(all[k], all[k + 1], layer, if k % 2 == 0 then pred else succ, k % 2 == 0)
  }

  // ---------------------------------------------------------------------
  // The sweeps as they run.

  /** Six sweeps, down and up in turn; each reads the places before it begins. */
  method Sweep(rows0: Rows, pred: map<int, seq<int>>, succ: map<int, seq<int>>, ghost layer: map<int, nat>)
    returns (rows: Rows, ghost all: seq<Rows>)
    requires RowsOk(rows0, layer)
    ensures Passes(all, layer, pred, succ) && all[0] == rows0 && all[6] == rows
  {
    rows, all := rows0, [rows0];
    for sweep := 0 to 6
      invariant |all| == sweep + 1 && all[0] == rows0 && all[sweep] == rows
      invariant forall k | 0 <= k <= sweep :: RowsOk(all[k], layer)
      invariant forall k | 0 <= k < sweep ::
          Pass(all[k], all[k + 1], layer, if k % 2 == 0 then pred else succ, k % 2 == 0)
    {
      rows := OnePass(rows, if sweep % 2 == 0 then pred else succ, sweep % 2 == 0, layer);
      all := all + [rows];
    }
  }

  method OnePass(before: Rows, neigh: map<int, seq<int>>, downward: bool, ghost layer: map<int, nat>)
      returns (rows: Rows)
    requires RowsOk(before, layer)
    ensures RowsOk(rows, layer) && Pass(before, rows, layer, neigh, downward)
  {
    rows := before;
    var pos := Positions(before, layer);
    for k := 0 to if |before| == 0 then 0 else |before| - 1
      invariant |rows| == |before| && RowsOk(rows, layer)
      invariant forall l | 0 <= l < |before| ::
          if Reached(l, k, |before|, downward) then Follows(before, layer, neigh, before[l], rows[l])
          else rows[l] == before[l]
    {
      var l := if downward then k + 1 else |before| - 2 - k;
      var r, keys := OrderRow(rows[l], neigh, pos);
      RowFollows(before, layer, neigh, pos, l, r, keys);
      SameRow(rows, layer, l, r);
      rows := rows[l := r];
    }
  }

  /** The rows ordered after `k` steps of a pass. */
  predicate Reached(l: int, k: nat, n: nat, downward: bool) {
    if downward then 1 <= l <= k else n - 1 - k <= l <= n - 2
  }

  /** Where each symbol stands in its row. */
  ghost predicate PlacesOf(rows: Rows, layer: map<int, nat>, pos: map<int, real>)
    requires RowsOk(rows, layer)
  {
    && (forall v :: v in pos <==> v in layer)
    && forall v | v in layer :: v in pos && pos[v] == SpotOf(rows, layer, v)
  }

  method Positions(rows: Rows, ghost layer: map<int, nat>) returns (pos: map<int, real>)
    requires RowsOk(rows, layer)
    ensures PlacesOf(rows, layer, pos)
  {
    pos := map[];
    for l := 0 to |rows|
      invariant forall v :: v in pos <==> v in layer && layer[v] < l
      invariant forall v | v in pos :: pos[v] == SpotOf(rows, layer, v)
    {
      for i := 0 to |rows[l]|
        invariant forall v :: v in pos <==> v in layer && (layer[v] < l || (layer[v] == l && v in rows[l][..i]))
        invariant forall v | v in pos :: pos[v] == SpotOf(rows, layer, v)
      {
        assert rows[l][i] in rows[l] && On(layer, rows[l][i], l);
        assert rows[l][..i + 1] == rows[l][..i] + [rows[l][i]];
        SpotIs(rows[l], i);
        pos := pos[rows[l][i] := i as real];
      }
      assert rows[l][..|rows[l]|] == rows[l];
    }
  }

  // ---------------------------------------------------------------------
  // The order of the keys is the order of the wishes.

  lemma {:induction false} KnownAreSpots(rows: Rows, layer: map<int, nat>, pos: map<int, real>, vs: seq<int>)
    requires RowsOk(rows, layer) && PlacesOf(rows, layer, pos)
    ensures Known(pos, vs) == Spots(rows, layer, vs)
  {
    if vs != [] {
      KnownAreSpots(rows, layer, pos, vs[1..]);
      KnownSpot(rows, layer, pos, vs[0]);
    }
  }

  lemma KnownSpot(rows: Rows, layer: map<int, nat>, pos: map<int, real>, v: int)
    requires RowsOk(rows, layer) && PlacesOf(rows, layer, pos)
    ensures v in pos <==> v in layer
    ensures v in layer ==> pos[v] == SpotOf(rows, layer, v)
  {
  }

  lemma KeyIsWish(rows: Rows, layer: map<int, nat>, neigh: map<int, seq<int>>, pos: map<int, real>, l: nat, i: nat)
    requires RowsOk(rows, layer) && PlacesOf(rows, layer, pos) && l < |rows| && i < |rows[l]|
    ensures var v := rows[l][i];
            && v in layer && layer[v] == l && Spot(rows[l], v) == i
            && KeyOf(rows[l], neigh, pos, i) == Key(Wish(rows, layer, neigh, v), i, v)
  {
    var v := rows[l][i];
    assert v in rows[l] && On(layer, v, l);
    SpotIs(rows[l], i);
    KnownAreSpots(rows, layer, pos, Next(neigh, v));
  }

  lemma {:induction false} IdsAt(keys: seq<Key>, i: nat)
    requires i < |keys|
    ensures |Ids(keys)| == |keys| && Ids(keys)[i] == keys[i].id
    decreases |keys|
  {
    var n := |keys| - 1;
    if n > 0 { IdsAt(keys[..n], if i < n then i else 0); }
    if i < n { assert keys[..n][i] == keys[i]; }
  }

  lemma RowFollows(rows: Rows, layer: map<int, nat>, neigh: map<int, seq<int>>, pos: map<int, real>, l: nat,
                   after: seq<int>, keys: seq<Key>)
    requires RowsOk(rows, layer) && PlacesOf(rows, layer, pos) && l < |rows|
    requires multiset(after) == multiset(rows[l]) && after == Ids(keys) && InKeyOrder(keys)
    requires forall k | k in keys :: k.i < |rows[l]| && k == KeyOf(rows[l], neigh, pos, k.i)
    ensures Follows(rows, layer, neigh, rows[l], after)
  {
    NoDupMultiset(rows[l], after);
    forall i, j | 0 <= i < j < |after| ensures Sooner(rows, layer, neigh, after[i], after[j]) {
      IdsAt(keys, 0);
      IdsAt(keys, i);
      IdsAt(keys, j);
      assert keys[i] in keys && keys[j] in keys && KeyBefore(keys[i], keys[j]);
      KeyIsWish(rows, layer, neigh, pos, l, keys[i].i);
      KeyIsWish(rows, layer, neigh, pos, l, keys[j].i);
      assert after[i] != after[j];
    }
  }

  // ---------------------------------------------------------------------
  // What the order means.

  lemma SoonerIsLeft(before: Rows, after: Rows, layer: map<int, nat>, neigh: map<int, seq<int>>, downward: bool,
                     u: int, v: int)
    requires RowsOk(before, layer) && RowsOk(after, layer) && Pass(before, after, layer, neigh, downward)
    requires u in layer && v in layer && layer[u] == layer[v] != First(|before|, downward)
    requires Sooner(before, layer, neigh, u, v)
    ensures SpotOf(after, layer, u) < SpotOf(after, layer, v)
  {
    var row := after[layer[u]];
    var i, j := Spot(row, u), Spot(row, v);
    assert Follows(before, layer, neigh, before[layer[u]], row);
    OrderTells(before, layer, neigh, before[layer[u]], row, i, j);
  }

  lemma OrderTells(rows: Rows, layer: map<int, nat>, neigh: map<int, seq<int>>, row: seq<int>, after: seq<int>, i: nat,
                   j: nat)
    requires RowsOk(rows, layer) && Follows(rows, layer, neigh, row, after) && i < |after| && j < |after| && i != j
    ensures Sooner(rows, layer, neigh, after[i], after[j]) ==> i < j
  {
    if j < i { SoonerOnce(rows, layer, neigh, after[j], after[i]); }
  }

  lemma SoonerOnce(rows: Rows, layer: map<int, nat>, neigh: map<int, seq<int>>, u: int, v: int)
    requires RowsOk(rows, layer) && Sooner(rows, layer, neigh, u, v)
    ensures !Sooner(rows, layer, neigh, v, u)
  {
  }

  lemma OneSpot(rows: Rows, layer: map<int, nat>, vs: seq<int>, x: int)
    requires RowsOk(rows, layer) && vs == [x] && x in layer
    ensures Spots(rows, layer, vs) == [SpotOf(rows, layer, x)]
    ensures Mean(Spots(rows, layer, vs)) == SpotOf(rows, layer, x)
  {
    assert vs[1..] == [];
    var at := [SpotOf(rows, layer, x)];
    assert at[..0] == [] && Sum(at) == 0.0 + at[0];
  }

  lemma SpotsDiffer(rows: Rows, layer: map<int, nat>, x: int, y: int)
    requires RowsOk(rows, layer) && x in layer && y in layer && layer[x] == layer[y] && x != y
    ensures SpotOf(rows, layer, x) != SpotOf(rows, layer, y)
  {
  }

  /** After a pass, two of a row with one neighbour each, side by side in another
      row when it began, stand as their neighbours did: their arrows do not cross. */
  lemma NeighboursLead(before: Rows, after: Rows, layer: map<int, nat>, neigh: map<int, seq<int>>, downward: bool,
                       u: int, v: int, x: int, y: int)
    requires RowsOk(before, layer) && RowsOk(after, layer) && Pass(before, after, layer, neigh, downward)
    requires u in layer && v in layer && layer[u] == layer[v] != First(|before|, downward)
    requires Next(neigh, u) == [x] && Next(neigh, v) == [y]
    requires x in layer && y in layer && layer[x] == layer[y] && x != y
    ensures SpotOf(after, layer, u) < SpotOf(after, layer, v) <==> SpotOf(before, layer, x) < SpotOf(before, layer, y)
  {
    OneSpot(before, layer, Next(neigh, u), x);
    OneSpot(before, layer, Next(neigh, v), y);
    SpotsDiffer(before, layer, x, y);
    if SpotOf(before, layer, x) < SpotOf(before, layer, y) {
      SoonerIsLeft(before, after, layer, neigh, downward, u, v);
    } else {
      SoonerIsLeft(before, after, layer, neigh, downward, v, u);
    }
  }

  /** Between the last two layers this holds of the final rows themselves. */
  lemma LastLayersLead(all: seq<Rows>, layer: map<int, nat>, pred: map<int, seq<int>>, succ: map<int, seq<int>>,
                       u: int, v: int, x: int, y: int)
    requires Passes(all, layer, pred, succ)
    requires u in layer && v in layer && x in layer && y in layer && Next(succ, u) == [x] && Next(succ, v) == [y]
    requires layer[u] == layer[v] && layer[x] == layer[y] == |all[0]| - 1 && layer[u] < layer[x] && x != y
    ensures SpotOf(all[6], layer, u) < SpotOf(all[6], layer, v) <==> SpotOf(all[6], layer, x) < SpotOf(all[6], layer, y)
  {
    LastPass(all, layer, pred, succ);
    NeighboursLead(all[5], all[6], layer, succ, false, u, v, x, y);
  }

  lemma LastPass(all: seq<Rows>, layer: map<int, nat>, pred: map<int, seq<int>>, succ: map<int, seq<int>>)
    requires Passes(all, layer, pred, succ)
    ensures RowsOk(all[5], layer) && RowsOk(all[6], layer) && |all[5]| == |all[0]|
    ensures Pass(all[5], all[6], layer, succ, false)
    ensures |all[6]| == |all[5]| && (all[0] != [] ==> all[6][|all[0]| - 1] == all[5][|all[0]| - 1])
  {
    SameHeights(all, layer, pred, succ, 5);
    assert Pass(all[5], all[5 + 1], layer, succ, false);
  }

  lemma {:induction false} SameHeights(all: seq<Rows>, layer: map<int, nat>, pred: map<int, seq<int>>,
                                       succ: map<int, seq<int>>, k: nat)
    requires Passes(all, layer, pred, succ) && k < 7
    ensures |all[k]| == |all[0]|
  {
    if k > 0 {
      SameHeights(all, layer, pred, succ, k - 1);
      assert Pass(all[k - 1], all[k - 1 + 1], layer, if (k - 1) % 2 == 0 then pred else succ, (k - 1) % 2 == 0);
    }
  }

  // ---------------------------------------------------------------------
  // The mean.

  function Less(xs: seq<real>, c: real): seq<real> {
    if xs == [] then [] else Less(xs[..|xs| - 1], c) + [xs[|xs| - 1] - c]
  }

  lemma {:induction false} SumLess(xs: seq<real>, c: real)
    ensures Sum(Less(xs, c)) == Sum(xs) - c * |xs| as real && |Less(xs, c)| == |xs|
    decreases |xs|
  {
    if xs != [] {
      var n := |xs| - 1;
      SumLess(xs[..n], c);
      var l := Less(xs, c);
      assert l[..n] == Less(xs[..n], c);
      assert |xs| as real == n as real + 1.0;
      assert c * (n as real + 1.0) == c * n as real + c;
    }
  }

  /** The values lie around their mean: what some exceed it by the others fall short of it. */
  lemma MeanBalances(xs: seq<real>)
    requires xs != []
    ensures Sum(Less(xs, Mean(xs))) == 0.0
  {
    SumLess(xs, Mean(xs));
  }
}
