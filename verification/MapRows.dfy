/** A table after inserts: the old rows, then the new ones on following rowids. */
module MapRows {
  import opened Base

  function Range(base: int, n: nat): set<int> {
    if n == 0 then {} else Range(base, n - 1) + {base + n - 1}
  }

  lemma {:induction false} InRange(base: int, n: nat)
    ensures forall x :: x in Range(base, n) <==> base <= x < base + n
  {
    if n > 0 { InRange(base, n - 1); }
  }

  ghost predicate Appended<V>(was: map<int, V>, now: map<int, V>, rows: seq<V>) {
    var base := NextRowId(was.Keys);
    && now.Keys == was.Keys + Range(base, |rows|)
    && (forall x | x in was :: x in now && now[x] == was[x])
    && (forall x | x in now && x !in was :: base <= x < base + |rows| && now[x] == rows[x - base])
  }

  lemma NextAfter(ids: set<int>, n: nat)
    ensures NextRowId(ids + Range(NextRowId(ids), n)) == NextRowId(ids) + n
    ensures NextRowId(ids) + n !in ids + Range(NextRowId(ids), n)
  {
    var base := NextRowId(ids);
    var more := ids + Range(base, n);
    InRange(base, n);
    if n == 0 {
      assert more == ids;
    } else {
      assert base + n - 1 in more;
      var top := MaxOf(more);
      assert top in more;
      assert top == base + n - 1;
    }
  }

  lemma Append<V>(was: map<int, V>, now: map<int, V>, rows: seq<V>, row: V)
    requires Appended(was, now, rows)
    ensures NextRowId(now.Keys) == NextRowId(was.Keys) + |rows|
    ensures Appended(was, now[NextRowId(now.Keys) := row], rows + [row])
  {
    var base, n := NextRowId(was.Keys), |rows|;
    NextAfter(was.Keys, n);
    var next := now[base + n := row];
    assert next.Keys == now.Keys + {base + n};
    assert Range(base, n + 1) == Range(base, n) + {base + n};
    assert base + n !in now.Keys;
    forall x | x in next && x !in was ensures base <= x < base + n + 1 && next[x] == (rows + [row])[x - base] {
      if x != base + n { assert x in now; }
    }
  }

  /** The i-th new row. */
  lemma RowOf<V>(was: map<int, V>, now: map<int, V>, rows: seq<V>, i: nat)
    requires Appended(was, now, rows) && i < |rows|
    ensures NextRowId(was.Keys) + i in now && NextRowId(was.Keys) + i !in was && now[NextRowId(was.Keys) + i] == rows[i]
  {
    var base := NextRowId(was.Keys);
    InRange(base, |rows|);
    assert base + i in Range(base, |rows|);
    assert base + i in now.Keys && base + i !in was.Keys;
  }
}
