/** Sharing maps: `merge` of `src/mindmap.rs` copies the nodes of a map in
    whatever order the rows come, pass after pass, parents before children. */
module MapMerge {
  import opened Base
  import opened MapStore
  import opened MapLoad
  import opened MapRows
  import opened MapChains
  import opened MapCopy

  // ---------------------------------------------------------------------
  // The nodes.

  datatype Copying = Copying(nodes: Nodes, ids: map<int, int>)

  /** A row as it is copied: same fields, on map `m`, under the parent's copy. */
  function ImageRow(row: NodeRow, m: int, ids: map<int, int>): NodeRow {
    row.(map_ := m, parent := if row.parent.Some? && row.parent.value in ids then Some(ids[row.parent.value]) else None)
  }

  /** The parent has no copy yet. */
  predicate Waits(row: NodeRow, ids: map<int, int>) { row.parent.Some? && row.parent.value !in ids }

  ghost function CopyOne(c: Copying, src: Nodes, m: int, x: int): Copying
    requires x in src
  {
    var id := NextRowId(c.nodes.Keys);
    Copying(c.nodes[id := ImageRow(src[x], m, c.ids)], c.ids[x := id])
  }

  /** One `retain`: what can be copied is, the rest is kept. */
  ghost function Pass(c: Copying, src: Nodes, m: int, pending: seq<int>): (r: (Copying, seq<int>))
    requires Inside(pending, src.Keys)
    ensures |r.1| <= |pending| && Inside(r.1, src.Keys)
    decreases |pending|
  {
    if pending == [] then (c, [])
    else if Waits(src[pending[0]], c.ids) then
      var r := Pass(c, src, m, pending[1..]);
      (r.0, [pending[0]] + r.1)
    else Pass(CopyOne(c, src, m, pending[0]), src, m, pending[1..])
  }

  /** Passes until nothing waits, or a pass copied nothing. */
  ghost function Settle(c: Copying, src: Nodes, m: int, pending: seq<int>): (Copying, seq<int>)
    requires Inside(pending, src.Keys)
    decreases |pending|
  {
    if pending == [] then (c, [])
    else
      var r := Pass(c, src, m, pending);
      if |r.1| == |pending| then r else Settle(r.0, src, m, r.1)
  }

  /** What has been copied is a copy: numbered apart, parents first. */
  ghost predicate Faithful(c: Copying, src: Nodes, old_: Nodes, m: int) {
    && OneToOne(c.ids) && (forall y | y in old_ :: y in c.nodes && c.nodes[y] == old_[y])
    && (forall x | x in c.ids :: CopyAt(c, src, old_, m, x))
    && (forall y | y in c.nodes && y !in old_ :: IsCopy(c.ids, y))
  }

  ghost predicate CopyAt(c: Copying, src: Nodes, old_: Nodes, m: int, x: int)
    requires x in c.ids
  {
    && x in src && !Waits(src[x], c.ids)
    && c.ids[x] in c.nodes && c.ids[x] !in old_ && c.nodes[c.ids[x]] == ImageRow(src[x], m, c.ids)
  }

  ghost predicate IsCopy(ids: map<int, int>, y: int) { exists x :: x in ids && ids[x] == y }

  lemma CopyOneFaithful(c: Copying, src: Nodes, old_: Nodes, m: int, x: int)
    requires Faithful(c, src, old_, m) && x in src && x !in c.ids && !Waits(src[x], c.ids)
    requires src[x].parent != Some(x)
    ensures Faithful(CopyOne(c, src, m, x), src, old_, m)
  {
    var d := CopyOne(c, src, m, x);
    var id := NextRowId(c.nodes.Keys);
    assert id !in c.nodes.Keys;
    forall z | z in d.ids ensures CopyAt(d, src, old_, m, z) {
      if z != x { assert CopyAt(c, src, old_, m, z) && src[z].parent != Some(x); }
    }
    forall y | y in d.nodes && y !in old_ ensures IsCopy(d.ids, y) {
      if y == id {
        assert d.ids[x] == y;
      } else {
        assert IsCopy(c.ids, y);
        var z :| z in c.ids && c.ids[z] == y;
        assert d.ids[z] == y;
      }
    }
    forall z, w | z in d.ids && w in d.ids && z != w ensures d.ids[z] != d.ids[w] {
      if z != x { assert CopyAt(c, src, old_, m, z); }
      if w != x { assert CopyAt(c, src, old_, m, w); }
    }
  }

  /** Some nodes are copied, the others wait, each once. */
  ghost predicate Split(all: set<int>, c: Copying, pending: seq<int>) {
    && NoDup(pending) && c.ids.Keys !! Elems(pending) && c.ids.Keys + Elems(pending) == all
  }

  ghost predicate NotItself(src: Nodes) { forall x | x in src :: src[x].parent != Some(x) }

  lemma {:induction false} PassFaithful(c: Copying, src: Nodes, old_: Nodes, m: int, pending: seq<int>)
    requires Faithful(c, src, old_, m) && NotItself(src) && Inside(pending, src.Keys)
    requires NoDup(pending) && c.ids.Keys !! Elems(pending)
    ensures var r := Pass(c, src, m, pending);
            && Faithful(r.0, src, old_, m) && Split(c.ids.Keys + Elems(pending), r.0, r.1)
            && Elems(r.1) <= Elems(pending)
            && (forall i | 0 <= i < |r.1| :: Waits(src[r.1[i]], c.ids))
    decreases |pending|
  {
    if pending == [] {
    } else {
      var x, rest := pending[0], pending[1..];
      assert pending == [x] + rest;
      HeadApart(x, rest);
      if Waits(src[x], c.ids) {
        PassFaithful(c, src, old_, m, rest);
        var r := Pass(c, src, m, rest);
        KeepHead(x, rest, c, r.0, r.1);
      } else {
        CopyOneFaithful(c, src, old_, m, x);
        var d := CopyOne(c, src, m, x);
        assert d.ids.Keys == c.ids.Keys + {x};
        PassFaithful(d, src, old_, m, rest);
      }
    }
  }

  lemma HeadApart(x: int, rest: seq<int>)
    requires NoDup([x] + rest)
    ensures NoDup(rest) && x !in Elems(rest) && Elems([x] + rest) == {x} + Elems(rest)
  {
    var all := [x] + rest;
    forall i | 0 <= i < |rest| ensures rest[i] != x { assert all[0] != all[i + 1]; }
    forall i, j | 0 <= i < j < |rest| ensures rest[i] != rest[j] { assert all[i + 1] != all[j + 1]; }
    assert forall y :: y in all <==> y == x || y in rest;
  }

  lemma KeepHead(x: int, rest: seq<int>, c: Copying, d: Copying, kept: seq<int>)
    requires Split(c.ids.Keys + Elems(rest), d, kept) && Elems(kept) <= Elems(rest)
    requires x !in Elems(rest) && x !in c.ids.Keys
    ensures Split(c.ids.Keys + Elems([x] + rest), d, [x] + kept) && Elems([x] + kept) <= Elems([x] + rest)
  {
    assert x in kept ==> x in Elems(kept);
    NoDupCons(x, kept);
    HeadApart(x, kept);
    assert forall y :: y in [x] + rest <==> y == x || y in rest;
    assert Elems([x] + rest) == {x} + Elems(rest);
  }

  // ---------------------------------------------------------------------
  // Every pass makes progress.

  ghost function Lowest(rank: map<int, int>, pending: seq<int>): (x: int)
    requires pending != [] && forall i | 0 <= i < |pending| :: pending[i] in rank
    ensures x in pending && forall i | 0 <= i < |pending| :: rank[x] <= rank[pending[i]]
  {
    if |pending| == 1 then pending[0]
    else
      var x := Lowest(rank, pending[1..]);
      if rank[x] < rank[pending[0]] then x else pending[0]
  }

  /** In a tree a pass copies something: the highest waiting node can go. */
  lemma PassProgresses(c: Copying, s: Store, old_: Nodes, m: int, m': int, pending: seq<int>)
    requires NodesOk(s) && Faithful(c, s.nodes, old_, m') && NotItself(s.nodes)
    requires pending != [] && Split(NodesOf(s.nodes, m), c, pending) && Inside(pending, s.nodes.Keys)
    ensures |Pass(c, s.nodes, m', pending).1| < |pending|
  {
    PassFaithful(c, s.nodes, old_, m', pending);
    var kept := Pass(c, s.nodes, m', pending).1;
    var x := TopWaiting(c, s, m, pending);
    assert x !in kept;
    NoDupSize(kept);
    NoDupSize(pending);
    SubsetSize(Elems(kept), Elems(pending));
    assert x in Elems(pending) && x !in Elems(kept);
  }

  /** The lowest-ranked node that waits has a parent that does not. */
  lemma TopWaiting(c: Copying, s: Store, m: int, pending: seq<int>) returns (x: int)
    requires NodesOk(s) && pending != [] && Split(NodesOf(s.nodes, m), c, pending) && Inside(pending, s.nodes.Keys)
    ensures x in pending && x in s.nodes && !Waits(s.nodes[x], c.ids)
  {
    var rank :| Ranked(s.nodes, rank);
    forall i | 0 <= i < |pending| ensures pending[i] in rank { assert RankOk(s.nodes, rank, pending[i]); }
    x := Lowest(rank, pending);
    assert x in Elems(pending);
    assert x in NodesOf(s.nodes, m) && RankOk(s.nodes, rank, x);
    if s.nodes[x].parent.Some? {
      var p := s.nodes[x].parent.value;
      assert p in NodesOf(s.nodes, m) && rank[p] < rank[x];
      assert p !in pending;
      assert p !in Elems(pending);
    }
  }

  lemma {:induction false} SettleCopiesAll(c: Copying, s: Store, old_: Nodes, m: int, m': int, pending: seq<int>)
    requires NodesOk(s) && Faithful(c, s.nodes, old_, m') && NotItself(s.nodes)
    requires Split(NodesOf(s.nodes, m), c, pending) && Inside(pending, s.nodes.Keys)
    ensures var r := Settle(c, s.nodes, m', pending);
            r.1 == [] && Faithful(r.0, s.nodes, old_, m') && r.0.ids.Keys == NodesOf(s.nodes, m)
    decreases |pending|
  {
    if pending != [] {
      PassProgresses(c, s, old_, m, m', pending);
      PassFaithful(c, s.nodes, old_, m', pending);
      var r := Pass(c, s.nodes, m', pending);
      SettleCopiesAll(r.0, s, old_, m, m', r.1);
    }
  }

  /** `SELECT … WHERE map_id`, without an order: any order of the map's rows. */
  ghost predicate AnyOrder(rows: seq<int>, ids: set<int>) { NoDup(rows) && Elems(rows) == ids }

  lemma NotOwnParent(s: Store)
    requires NodesOk(s)
    ensures NotItself(s.nodes)
  {
    var rank :| Ranked(s.nodes, rank);
    forall x | x in s.nodes ensures s.nodes[x].parent != Some(x) { assert RankOk(s.nodes, rank, x); }
  }

  /** Whatever the order of the rows: every node copied, each under the copy of
      its parent, all on new ids. */
  lemma NodesMerged(s: Store, m: int, rows: seq<int>, old_: Nodes, m': int)
    requires NodesOk(s) && AnyOrder(rows, NodesOf(s.nodes, m))
    ensures Inside(rows, s.nodes.Keys)
    ensures var r := Settle(Copying(old_, map[]), s.nodes, m', rows);
            && r.1 == [] && r.0.ids.Keys == NodesOf(s.nodes, m)
            && Faithful(r.0, s.nodes, old_, m')
  {
    NotOwnParent(s);
    InsideElems(rows, s.nodes.Keys);
    SettleCopiesAll(Copying(old_, map[]), s, old_, m, m', rows);
  }

  method CopyNodes(s: Store, m: int, rows: seq<int>, old_: Nodes, m': int) returns (c: Copying)
    requires NodesOk(s) && AnyOrder(rows, NodesOf(s.nodes, m))
    ensures Inside(rows, s.nodes.Keys) && c == Settle(Copying(old_, map[]), s.nodes, m', rows).0
    ensures c.ids.Keys == NodesOf(s.nodes, m) && Faithful(c, s.nodes, old_, m')
  {
    NodesMerged(s, m, rows, old_, m');
    var pending := rows;
    c := Copying(old_, map[]);
    while pending != []
      invariant Inside(pending, s.nodes.Keys)
      invariant Settle(c, s.nodes, m', pending) == Settle(Copying(old_, map[]), s.nodes, m', rows)
      decreases |pending|
    {
      var before := |pending|;
      c, pending := Retain(c, s.nodes, m', pending);
      if |pending| == before { break; }
    }
  }

  method Retain(c: Copying, src: Nodes, m: int, pending: seq<int>) returns (d: Copying, kept: seq<int>)
    requires Inside(pending, src.Keys)
    ensures d == Pass(c, src, m, pending).0 && kept == Pass(c, src, m, pending).1
  {
    d, kept := c, [];
    assert pending[0..] == pending;
    for i := 0 to |pending|
      invariant Pass(c, src, m, pending).0 == Pass(d, src, m, pending[i..]).0
      invariant Pass(c, src, m, pending).1 == kept + Pass(d, src, m, pending[i..]).1
    {
      var x := pending[i];
      assert pending[i..][0] == x && pending[i..][1..] == pending[i + 1..];
      if Waits(src[x], d.ids) {
        kept := kept + [x];
      } else {
        var id := NextRow(d.nodes.Keys);
        d := Copying(d.nodes[id := ImageRow(src[x], m, d.ids)], d.ids[x := id]);
      }
    }
  }
}
