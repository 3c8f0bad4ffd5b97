/** The round trip through `import`: the copy is the same map, and nothing else
    of the journal changed. */
module MapImport {
  import opened Base
  import opened MapStore
  import opened MapRuns
  import opened MapLoad
  import opened MapOrder
  import opened MapRows
  import opened MapChains
  import opened MapCopy
  import opened MapRoundTrip

  /** What an import leaves: the old rows, the map's row, and the copied rows behind. */
  ghost predicate Written(s: Store, t: Store, m: int, l: Loaded, row: MapRow, ids: map<int, int>, top: int) {
    && m == NextRowId(s.maps.Keys) && t.maps == s.maps[m := row] && t.entries == s.entries
    && Importable(l) && NodesPut(s, m, l, |l.nodes|, NodesSoFar(t.nodes, t.nodeRefs, ids))
    && Drawable(s, m, l, ids) && EdgesPut(s, m, l, ids, |l.edges|, EdgesSoFar(t.edges, t.edgeRefs))
    && ChainsPut(s, m, l, top).Ok? && t.chains == ChainsPut(s, m, l, top).value.chains
  }

  /** The chain tables once all of the list's chains were written. */
  ghost function ChainsPut(s: Store, m: int, l: Loaded, top: int): Result<Writing, Error> {
    PutChains(Writing(s.chains, top, m), Survivors(m, l.row.createdAt, l.chains, s.entries), s.entries)
  }

  /** Every arrow joins nodes of the list, and no two arrows are alike. */
  ghost predicate Joined(l: Loaded) {
    && (forall i, j | 0 <= i < j < |l.edges| :: Ends(l.edges[i]) != Ends(l.edges[j]))
    && (forall i | 0 <= i < |l.edges| :: HasId(l, l.edges[i].from) && HasId(l, l.edges[i].to))
  }

  ghost predicate HasId(l: Loaded, x: int) { exists i :: 0 <= i < |l.nodes| && l.nodes[i].id == x }

  /** The import goes through exactly when the chains could be written. */
  lemma ImportWrites(s: Store, l: Loaded, host: Option<string>, now: int, top: int)
      returns (t: Store, m: int, ids: map<int, int>)
    requires WellFormed(s) && Importable(l) && Joined(l) && !Seen(s, l.row)
    ensures m == NextRowId(s.maps.Keys)
    ensures match ChainsPut(s, m, l, top)
            case Err(x) => ImportSpec(s, l, host, now, top) == Err(x)
            case Ok(_) => ImportSpec(s, l, host, now, top) == Ok(Some((t, m)))
                          && Written(s, t, m, l, ImportedRow(l.row, host, now), ids, top)
  {
    m := NextRowId(s.maps.Keys);
    PutNodesDo(s, m, l, |l.nodes|);
    var p := PutNodes(s, m, l, |l.nodes|).value;
    ids := p.ids;
    CanDraw(s, m, l, ids);
    PutEdgesDo(s, m, l, ids, |l.edges|);
    t := if ChainsPut(s, m, l, top).Ok? then ImportSpec(s, l, host, now, top).value.value.0 else s;
  }

  lemma CanDraw(s: Store, m: int, l: Loaded, ids: map<int, int>)
    requires WellFormed(s) && m == NextRowId(s.maps.Keys)
    requires Importable(l) && Joined(l) && Numbered(l, NextRowId(s.nodes.Keys), |l.nodes|, ids)
    ensures Drawable(s, m, l, ids)
  {
    var base := NextRowId(s.nodes.Keys);
    forall x, y | x in ids && y in ids && x != y ensures ids[x] != ids[y] {
      var i :| 0 <= i < |l.nodes| && l.nodes[i].id == x;
      var j :| 0 <= j < |l.nodes| && l.nodes[j].id == y;
    }
    forall i | 0 <= i < |l.edges| ensures l.edges[i].from in ids && l.edges[i].to in ids {
      assert HasId(l, l.edges[i].from) && HasId(l, l.edges[i].to);
    }
    forall e | e in s.edges ensures s.edges[e].map_ != m { assert s.edges[e].map_ in s.maps.Keys; }
  }

  // ---------------------------------------------------------------------
  // The copied rows.

  /** A map that is new has no rows yet. */
  ghost predicate NoRows(s: Store, m: int) {
    && (forall n | n in s.nodes :: s.nodes[n].map_ != m)
    && (forall e | e in s.edges :: s.edges[e].map_ != m)
    && (forall c | c in s.chains :: s.chains[c].map_ != m)
  }

  lemma NewMapHasNoRows(s: Store)
    requires WellFormed(s)
    ensures NoRows(s, NextRowId(s.maps.Keys))
  {
    var m := NextRowId(s.maps.Keys);
    forall n | n in s.nodes ensures s.nodes[n].map_ != m { assert s.nodes[n].map_ in s.maps.Keys; }
    forall e | e in s.edges ensures s.edges[e].map_ != m { assert s.edges[e].map_ in s.maps.Keys; }
    forall c | c in s.chains ensures s.chains[c].map_ != m { assert ChainOk(s, c) && s.chains[c].map_ in s.maps.Keys; }
  }

  lemma NewOnly<V>(was: map<int, V>, now: map<int, V>, rows: seq<V>, on: set<int>)
    requires Appended(was, now, rows) && on <= now.Keys
    requires forall x | x in was :: x !in on
    requires forall x | x in now && x !in was :: x in on
    ensures on == Range(NextRowId(was.Keys), |rows|)
  {
    var base, n := NextRowId(was.Keys), |rows|;
    InRange(base, n);
    forall x ensures x in on <==> x in Range(base, n) {
      if x in on { assert x in now.Keys && x !in was.Keys; }
      if x in Range(base, n) { assert x in now.Keys && x !in was.Keys; }
    }
  }

  lemma CopyRow(s: Store, m: int, l: Loaded, p: NodesSoFar, i: nat)
    requires Importable(l) && NodesPut(s, m, l, |l.nodes|, p) && i < |l.nodes|
    ensures var base := NextRowId(s.nodes.Keys);
              base + i in p.nodes && p.nodes[base + i] == RowAt(l, m, base, i) && base + i !in s.nodes
  {
    var base := NextRowId(s.nodes.Keys);
    RowsUpToAt(l, m, base, |l.nodes|);
    RowOf(s.nodes, p.nodes, RowsUpTo(l, m, base, |l.nodes|), i);
  }

  lemma NodesOfCopy(s: Store, m: int, l: Loaded, p: NodesSoFar)
    requires NoRows(s, m) && Importable(l) && NodesPut(s, m, l, |l.nodes|, p)
    ensures NodesOf(p.nodes, m) == Range(NextRowId(s.nodes.Keys), |l.nodes|)
  {
    var base, n := NextRowId(s.nodes.Keys), |l.nodes|;
    RowsUpToAt(l, m, base, n);
    NewOnly(s.nodes, p.nodes, RowsUpTo(l, m, base, n), NodesOf(p.nodes, m));
  }

  lemma NodesInOrder(s: Store, m: int, l: Loaded, p: NodesSoFar)
    requires Importable(l) && NodesPut(s, m, l, |l.nodes|, p)
    ensures InOrder(p.nodes, Numbers(NextRowId(s.nodes.Keys), |l.nodes|))
  {
    var base, n := NextRowId(s.nodes.Keys), |l.nodes|;
    var ys := Numbers(base, n);
    forall i, j | 0 <= i < j < n ensures RowBefore(p.nodes, ys[i], ys[j]) {
      CopyRow(s, m, l, p, i);
      CopyRow(s, m, l, p, j);
    }
  }

  lemma NodeRowsOfCopy(s: Store, t: Store, m: int, l: Loaded, p: NodesSoFar)
    requires NoRows(s, m) && Importable(l) && NodesPut(s, m, l, |l.nodes|, p) && t.nodes == p.nodes
    ensures NodeRows(t, m) == Numbers(NextRowId(s.nodes.Keys), |l.nodes|)
  {
    NodesOfCopy(s, m, l, p);
    NodesInOrder(s, m, l, p);
    NumbersInOrder(t.nodes, NextRowId(s.nodes.Keys), |l.nodes|);
  }

  lemma EdgeRowsOfCopy(s: Store, t: Store, m: int, l: Loaded, ids: map<int, int>)
    requires NoRows(s, m) && Drawable(s, m, l, ids) && Appended(s.edges, t.edges, EdgesUpTo(s, m, l, ids, |l.edges|))
    ensures EdgeRows(t, m) == Numbers(NextRowId(s.edges.Keys), |l.edges|)
  {
    EdgesUpToAt(s, m, l, ids, |l.edges|);
    NewOnly(s.edges, t.edges, EdgesUpTo(s, m, l, ids, |l.edges|), EdgesOf(t, m));
    NumbersInOrder(map[], NextRowId(s.edges.Keys), |l.edges|);
  }

  lemma ChainRowsOfCopy(s: Store, t: Store, m: int, at: int, chains: seq<LoadedChain>)
    requires NoRows(s, m) && Appended(s.chains, t.chains, Survivors(m, at, chains, s.entries))
    ensures ChainRows(t, m) == Numbers(NextRowId(s.chains.Keys), |Survivors(m, at, chains, s.entries)|)
  {
    SurvivorsWanted(m, at, chains, s.entries);
    NewOnly(s.chains, t.chains, Survivors(m, at, chains, s.entries), ChainsOf(t, m));
    NumbersInOrder(map[], NextRowId(s.chains.Keys), |Survivors(m, at, chains, s.entries)|);
  }

  lemma {:induction false} SurvivorsWanted(m: int, at: int, chains: seq<LoadedChain>, entries: set<int>)
    ensures WantedFor(Survivors(m, at, chains, entries), m, entries)
  {
    if chains != [] { SurvivorsWanted(m, at, chains[..|chains| - 1], entries); }
  }
}
