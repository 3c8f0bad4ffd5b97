/** How chains are written when a map is copied: `INSERT OR IGNORE` of the row,
    then the steps on `last_insert_rowid()`. When the name or the sequence is
    taken there is no new row, and the steps go to whatever row has the id that
    was given out last: the last step written. */
module MapChains {
  import opened Base
  import opened MapStore
  import opened MapRows

  /** UNIQUE(map_id, name) or UNIQUE(map_id, signature) would be hurt. */
  predicate Clash(a: ChainRow, b: ChainRow) {
    a.map_ == b.map_ && (a.name == b.name || a.signature == b.signature)
  }

  ghost predicate Unique(chains: map<int, ChainRow>) {
    forall c, d | c in chains && d in chains && c != d :: !Clash(chains[c], chains[d])
  }

  /** The rows of one map that are wanted differ in name and in sequence. */
  ghost predicate RowsApart(rows: seq<ChainRow>) {
    forall i, j | 0 <= i < j < |rows| :: rows[i].name != rows[j].name && rows[i].signature != rows[j].signature
  }

  ghost predicate RowsNamed(rows: seq<ChainRow>) {
    forall i, j | 0 <= i < j < |rows| :: rows[i].name != rows[j].name
  }

  predicate Ignored(chains: map<int, ChainRow>, row: ChainRow) {
    exists c :: c in chains && Clash(chains[c], row)
  }

  /** The chain tables: the rows with their steps, the last rowid of the table of
      steps, and the rowid last given out. */
  datatype Writing = Writing(chains: map<int, ChainRow>, top: int, last: int)

  function Placed(steps: seq<Option<int>>, pos: nat, e: int): seq<Option<int>> {
    if pos < |steps| then steps[pos := Some(e)] else steps + seq(pos - |steps|, _ => None) + [Some(e)]
  }

  /** A taken place is left as it is; a chain or an entry that is not there
      breaks a foreign key, which is an error. */
  function PlaceStep(w: Writing, id: int, pos: nat, e: int, entries: set<int>): Result<Writing, Error> {
    if id !in w.chains then Err(NoChain)
    else if pos < |w.chains[id].steps| && w.chains[id].steps[pos].Some? then Ok(w)
    else if e !in entries then Err(NoEntry)
    else
      var row := w.chains[id];
      Ok(Writing(w.chains[id := row.(steps := Placed(row.steps, pos, e))], w.top + 1, w.top + 1))
  }

  function PlaceSteps(w: Writing, id: int, es: seq<int>, n: nat, entries: set<int>): Result<Writing, Error>
    requires n <= |es|
  {
    if n == 0 then Ok(w)
    else match PlaceSteps(w, id, es, n - 1, entries)
      case Err(x) => Err(x)
      case Ok(v) => PlaceStep(v, id, n - 1, es[n - 1], entries)
  }

  /** The insert of the row: done, or ignored. */
  ghost function PutRow(w: Writing, row: ChainRow): Writing {
    if Ignored(w.chains, row) then w
    else var id := NextRowId(w.chains.Keys); Writing(w.chains[id := row.(steps := [])], w.top, id)
  }

  ghost function PutChain(w: Writing, row: ChainRow, entries: set<int>): Result<Writing, Error> {
    var v := PutRow(w, row);
    PlaceSteps(v, v.last, row.signature, |row.signature|, entries)
  }

  ghost function PutChains(w: Writing, rows: seq<ChainRow>, entries: set<int>): Result<Writing, Error>
    decreases |rows|
  {
    if rows == [] then Ok(w)
    else match PutChains(w, rows[..|rows| - 1], entries)
      case Err(x) => Err(x)
      case Ok(v) => PutChain(v, rows[|rows| - 1], entries)
  }

  lemma OneMore(w: Writing, rows: seq<ChainRow>, row: ChainRow, entries: set<int>)
    requires PutChains(w, rows, entries).Ok?
    ensures PutChains(w, rows + [row], entries) == PutChain(PutChains(w, rows, entries).value, row, entries)
  {
    assert (rows + [row])[..|rows|] == rows;
  }

  // ---------------------------------------------------------------------
  // What no insert touches.

  /** What has a place keeps it. */
  ghost predicate StepsKept(a: seq<Option<int>>, b: seq<Option<int>>) {
    forall i | 0 <= i < |a| && a[i].Some? :: i < |b| && b[i] == a[i]
  }

  /** A row stays but for steps that may be added to it. */
  ghost predicate RowKept(a: ChainRow, b: ChainRow) { b == a.(steps := b.steps) && StepsKept(a.steps, b.steps) }

  ghost predicate RowsKept(was: map<int, ChainRow>, now: map<int, ChainRow>) {
    forall c | c in was :: c in now && RowKept(was[c], now[c])
  }

  ghost predicate AllKnown(chains: map<int, ChainRow>, entries: set<int>) {
    forall c | c in chains :: StepsKnown(chains[c].steps, entries)
  }

  lemma PlaceStepKeeps(w: Writing, id: int, pos: nat, e: int, entries: set<int>)
    requires PlaceStep(w, id, pos, e, entries).Ok?
    ensures var v := PlaceStep(w, id, pos, e, entries).value;
            && v.chains.Keys == w.chains.Keys && RowsKept(w.chains, v.chains)
            && (forall c | c in w.chains && c != id :: v.chains[c] == w.chains[c])
            && (AllKnown(w.chains, entries) ==> AllKnown(v.chains, entries))
  {
  }

  lemma RowsKeptOn(a: map<int, ChainRow>, b: map<int, ChainRow>, c: map<int, ChainRow>)
    requires RowsKept(a, b) && RowsKept(b, c)
    ensures RowsKept(a, c)
  {
    forall x | x in a ensures x in c && RowKept(a[x], c[x]) { assert RowKept(a[x], b[x]) && RowKept(b[x], c[x]); }
  }

  lemma {:induction false} PlaceStepsKeep(w: Writing, id: int, es: seq<int>, n: nat, entries: set<int>)
    requires n <= |es| && PlaceSteps(w, id, es, n, entries).Ok?
    ensures var v := PlaceSteps(w, id, es, n, entries).value;
            && v.chains.Keys == w.chains.Keys && RowsKept(w.chains, v.chains)
            && (forall c | c in w.chains && c != id :: v.chains[c] == w.chains[c])
            && (AllKnown(w.chains, entries) ==> AllKnown(v.chains, entries))
  {
    if n > 0 {
      var v := PlaceSteps(w, id, es, n - 1, entries).value;
      PlaceStepsKeep(w, id, es, n - 1, entries);
      PlaceStepKeeps(v, id, n - 1, es[n - 1], entries);
      RowsKeptOn(w.chains, v.chains, PlaceSteps(w, id, es, n, entries).value.chains);
    }
  }

  /** A new chain gets its steps exactly when their entries are there. */
  lemma {:induction false} PlaceStepsNew(w: Writing, id: int, es: seq<int>, n: nat, entries: set<int>)
    requires n <= |es| && id in w.chains && w.chains[id].steps == []
    ensures PlaceSteps(w, id, es, n, entries).Ok? <==> forall i | 0 <= i < n :: es[i] in entries
    ensures PlaceSteps(w, id, es, n, entries).Ok? ==>
              PlaceSteps(w, id, es, n, entries).value.chains == w.chains[id := w.chains[id].(steps := Slots(es[..n]))]
  {
    if n == 0 {
      assert Slots(es[..0]) == [];
      assert w.chains[id := w.chains[id].(steps := [])] == w.chains;
    } else {
      PlaceStepsNew(w, id, es, n - 1, entries);
      if PlaceSteps(w, id, es, n - 1, entries).Ok? {
        var before := Slots(es[..n - 1]);
        assert Placed(before, n - 1, es[n - 1]) == Slots(es[..n]);
      }
    }
  }

  // ---------------------------------------------------------------------
  // One chain.

  /** The row of `c` was written for `row`. */
  ghost predicate Wrote(now: map<int, ChainRow>, c: int, row: ChainRow) {
    c in now && now[c] == row.(steps := now[c].steps)
  }

  /** Whether or not the insert is ignored. */
  lemma PutChainKeeps(w: Writing, row: ChainRow, entries: set<int>)
    requires PutChain(w, row, entries).Ok?
    ensures var now := PutChain(w, row, entries).value.chains;
            && RowsKept(w.chains, now) && (Unique(w.chains) ==> Unique(now))
            && (AllKnown(w.chains, entries) ==> AllKnown(now, entries))
            && (forall c | c in now && c !in w.chains :: Wrote(now, c, row))
  {
    var v := PutRow(w, row);
    var now := PutChain(w, row, entries).value.chains;
    PlaceStepsKeep(v, v.last, row.signature, |row.signature|, entries);
    assert RowsKept(w.chains, v.chains);
    RowsKeptOn(w.chains, v.chains, now);
    if Unique(w.chains) {
      forall c, d | c in now && d in now && c != d ensures !Clash(now[c], now[d]) {
        assert c in v.chains && d in v.chains && RowKept(v.chains[c], now[c]) && RowKept(v.chains[d], now[d]);
      }
    }
  }

  /** An insert that is not ignored writes the chain as it is wanted. */
  lemma PutChainNew(w: Writing, row: ChainRow, entries: set<int>)
    requires !Ignored(w.chains, row) && row.steps == Slots(row.signature)
    ensures PutChain(w, row, entries).Ok? <==> forall i | 0 <= i < |row.signature| :: row.signature[i] in entries
    ensures PutChain(w, row, entries).Ok? ==>
              PutChain(w, row, entries).value.chains == w.chains[NextRowId(w.chains.Keys) := row]
  {
    var v := PutRow(w, row);
    PlaceStepsNew(v, v.last, row.signature, |row.signature|, entries);
    assert row.signature[..|row.signature|] == row.signature;
  }

  /** An ignored insert adds no row; where the id given out last is no chain's,
      the copy fails. */
  lemma PutChainIgnored(w: Writing, row: ChainRow, entries: set<int>)
    requires Ignored(w.chains, row)
    ensures PutChain(w, row, entries).Ok? ==> PutChain(w, row, entries).value.chains.Keys == w.chains.Keys
    ensures row.signature != [] && w.last !in w.chains ==> PutChain(w, row, entries).Err?
  {
    if PutChain(w, row, entries).Ok? { PlaceStepsKeep(w, w.last, row.signature, |row.signature|, entries); }
    if row.signature != [] && w.last !in w.chains { NoPlace(w, w.last, row.signature, |row.signature|, entries); }
  }

  lemma {:induction false} NoPlace(w: Writing, id: int, es: seq<int>, n: nat, entries: set<int>)
    requires 0 < n <= |es| && id !in w.chains
    ensures PlaceSteps(w, id, es, n, entries).Err?
  {
    if n > 1 { NoPlace(w, id, es, n - 1, entries); } else { assert PlaceSteps(w, id, es, 0, entries) == Ok(w); }
  }

  // ---------------------------------------------------------------------
  // All chains of a map.

  /** Every new row was written for one of those wanted. */
  ghost predicate WroteSome(now: map<int, ChainRow>, c: int, rows: seq<ChainRow>) {
    exists j :: 0 <= j < |rows| && Wrote(now, c, rows[j])
  }

  lemma {:induction false} PutChainsKeep(w: Writing, rows: seq<ChainRow>, entries: set<int>)
    requires PutChains(w, rows, entries).Ok?
    ensures var now := PutChains(w, rows, entries).value.chains;
            && RowsKept(w.chains, now) && (Unique(w.chains) ==> Unique(now))
            && (AllKnown(w.chains, entries) ==> AllKnown(now, entries))
            && (forall c | c in now && c !in w.chains :: WroteSome(now, c, rows))
    decreases |rows|
  {
    if rows != [] {
      var front, row := rows[..|rows| - 1], rows[|rows| - 1];
      var v := PutChains(w, front, entries).value;
      var now := PutChains(w, rows, entries).value.chains;
      PutChainsKeep(w, front, entries);
      PutChainKeeps(v, row, entries);
      RowsKeptOn(w.chains, v.chains, now);
      forall c | c in now && c !in w.chains ensures WroteSome(now, c, rows) {
        if c in v.chains {
          assert WroteSome(v.chains, c, front) && RowKept(v.chains[c], now[c]);
          var j :| 0 <= j < |front| && Wrote(v.chains, c, front[j]);
          assert Wrote(now, c, rows[j]);
        } else {
          assert Wrote(now, c, rows[|rows| - 1]);
        }
      }
    }
  }

  /** The rows wanted are all for map `m`, with steps that are there. */
  ghost predicate WantedFor(rows: seq<ChainRow>, m: int, entries: set<int>) {
    forall i | 0 <= i < |rows| ::
      && rows[i].map_ == m && rows[i].steps == Slots(rows[i].signature)
      && forall k | 0 <= k < |rows[i].signature| :: rows[i].signature[k] in entries
  }

  /** `w` has no chain of map `m`. */
  ghost predicate NoneOf(chains: map<int, ChainRow>, m: int) { forall c | c in chains :: chains[c].map_ != m }

  /** Chains that differ in name and sequence are all written, as they are. */
  lemma {:induction false} ApartAreWritten(w: Writing, rows: seq<ChainRow>, m: int, entries: set<int>)
    requires WantedFor(rows, m, entries) && NoneOf(w.chains, m) && RowsApart(rows)
    ensures PutChains(w, rows, entries).Ok? && Appended(w.chains, PutChains(w, rows, entries).value.chains, rows)
    decreases |rows|
  {
    if rows != [] {
      var front, row := rows[..|rows| - 1], rows[|rows| - 1];
      ApartAreWritten(w, front, m, entries);
      var v := PutChains(w, front, entries).value;
      assert !Ignored(v.chains, row);
      PutChainNew(v, row, entries);
      Append(w.chains, v.chains, front, row);
      assert front + [row] == rows;
    }
  }

  /** `c` has the name and the sequence of `row`. */
  ghost predicate Holds(now: map<int, ChainRow>, c: int, row: ChainRow) {
    c in now && now[c].map_ == row.map_ && now[c].name == row.name && now[c].signature == row.signature
  }

  /** If every chain wanted is there in the end, no two had one sequence. */
  lemma AllThereAreApart(now: map<int, ChainRow>, rows: seq<ChainRow>, m: int)
    requires Unique(now) && (forall i | 0 <= i < |rows| :: rows[i].map_ == m && exists c :: Holds(now, c, rows[i]))
    requires RowsNamed(rows)
    ensures RowsApart(rows)
  {
    forall i, j | 0 <= i < j < |rows| ensures rows[i].signature != rows[j].signature {
      var c :| Holds(now, c, rows[i]);
      var d :| Holds(now, d, rows[j]);
      assert !Clash(now[c], now[d]);
    }
  }

  /** The rowid given out before the first chain is never read: the first chain
      of a new map is not ignored. */
  lemma {:induction false} LastUnread(w: Writing, x: int, rows: seq<ChainRow>, m: int, entries: set<int>)
    requires rows != [] && NoneOf(w.chains, m) && forall i | 0 <= i < |rows| :: rows[i].map_ == m
    ensures PutChains(w.(last := x), rows, entries) == PutChains(w, rows, entries)
    decreases |rows|
  {
    var front, row := rows[..|rows| - 1], rows[|rows| - 1];
    if front == [] {
      assert !Ignored(w.chains, row);
      assert PutRow(w.(last := x), row) == PutRow(w, row);
      assert PutChains(w, front, entries) == Ok(w) && PutChains(w.(last := x), front, entries) == Ok(w.(last := x));
    } else {
      LastUnread(w, x, front, m, entries);
    }
  }
}
