/** What copying a map does to the other journal, field by field: import adds to
    it and changes nothing, and a shared map stands there as it was. */
module MapCopies {
  import opened Base
  import opened MapStore
  import opened MapRuns
  import opened MapLoad
  import opened MapRows
  import opened MapChains
  import opened MapCopy
  import opened MapImport
  import opened MapTrip
  import opened MapMerge
  import opened MapShare
  import opened MapShared

  // ---------------------------------------------------------------------
  // Import.

  /** Only rows of map `m` are added. */
  ghost predicate NodesAdded(d: Store, t: Store, m: int) {
    && (forall n | n in d.nodes :: n in t.nodes && t.nodes[n] == d.nodes[n])
    && (forall n | n in t.nodes && n !in d.nodes :: t.nodes[n].map_ == m)
    && (forall n, e | n in d.nodes :: (n, e) in t.nodeRefs <==> (n, e) in d.nodeRefs)
  }

  ghost predicate EdgesAdded(d: Store, t: Store, m: int) {
    && (forall a | a in d.edges :: a in t.edges && t.edges[a] == d.edges[a])
    && (forall a | a in t.edges && a !in d.edges :: t.edges[a].map_ == m)
    && (forall a, e | a in d.edges :: (a, e) in t.edgeRefs <==> (a, e) in d.edgeRefs)
  }

  ghost predicate ChainsAdded(d: Store, t: Store, m: int) {
    RowsKept(d.chains, t.chains) && forall c | c in t.chains && c !in d.chains :: t.chains[c].map_ == m
  }

  ghost predicate MapAdded(d: Store, t: Store, m: int) {
    && t.entries == d.entries && m !in d.maps && t.maps.Keys == d.maps.Keys + {m}
    && forall x | x in d.maps :: x in t.maps && t.maps[x] == d.maps[x]
  }

  lemma WrittenMap(d: Store, t: Store, m: int, l: Loaded, row: MapRow, ids: map<int, int>, top: int)
    requires Written(d, t, m, l, row, ids, top)
    ensures MapAdded(d, t, m)
  {
    assert m !in d.maps.Keys;
  }

  lemma WrittenNodes(d: Store, t: Store, m: int, l: Loaded, row: MapRow, ids: map<int, int>, top: int)
    requires Written(d, t, m, l, row, ids, top)
    ensures NodesAdded(d, t, m)
  {
    RowsUpToAt(l, m, NextRowId(d.nodes.Keys), |l.nodes|);
  }

  lemma WrittenEdges(d: Store, t: Store, m: int, l: Loaded, row: MapRow, ids: map<int, int>, top: int)
    requires Written(d, t, m, l, row, ids, top)
    ensures EdgesAdded(d, t, m)
  {
    EdgesUpToAt(d, m, l, ids, |l.edges|);
  }

  lemma WrittenChains(d: Store, t: Store, m: int, l: Loaded, row: MapRow, ids: map<int, int>, top: int)
    requires Written(d, t, m, l, row, ids, top)
    ensures ChainsAdded(d, t, m)
  {
    var rows := Survivors(m, l.row.createdAt, l.chains, d.entries);
    PutChainsKeep(Writing(d.chains, top, m), rows, d.entries);
    SurvivorsWanted(m, l.row.createdAt, l.chains, d.entries);
    forall c | c in t.chains && c !in d.chains ensures t.chains[c].map_ == m { assert WroteSome(t.chains, c, rows); }
  }

  lemma OneMoreMap(d: Store, t: Store, m: int)
    requires MapAdded(d, t, m) && NodesAdded(d, t, m) && EdgesAdded(d, t, m) && ChainsAdded(d, t, m)
    ensures Enlarges(d, t)
  {
  }

  lemma WrittenAdds(d: Store, t: Store, m: int, l: Loaded, row: MapRow, ids: map<int, int>, top: int)
    requires Written(d, t, m, l, row, ids, top)
    ensures Enlarges(d, t) && MapAdded(d, t, m)
  {
    WrittenMap(d, t, m, l, row, ids, top);
    WrittenNodes(d, t, m, l, row, ids, top);
    WrittenEdges(d, t, m, l, row, ids, top);
    WrittenChains(d, t, m, l, row, ids, top);
    OneMoreMap(d, t, m);
  }

  /** An import adds one map, with rows of its own; of the rest only steps of
      chains could be added, and none are when the chains that come differ. */
  lemma ImportAdds(s: Store, m: int, d: Store, entries: map<int, int>, host: Option<string>, now: int, top: int)
    requires WellFormed(s) && m in s.maps && WellFormed(d)
    ensures LoadSpec(s, m).Ok?
    ensures var a := LoadSpec(s, m).value;
            var r := ImportSpec(d, Renumber(a, entries), host, now, top);
            if Seen(d, s.maps[m]) then r == Ok(None)
            else r.Ok? ==>
              && r.value.Some? && var (t, m') := r.value.value;
              && Enlarges(d, t) && MapAdded(d, t, m')
              && (ComeApart(ChainsThatCome(a.chains, entries, d.entries)) ==> SameChains(d, t))
  {
    LoadedIsReady(s, m, entries);
    var a := LoadSpec(s, m).value;
    var l := Renumber(a, entries);
    if !Seen(d, s.maps[m]) {
      var t, m', ids := ImportWrites(d, l, host, now, top);
      NewMapHasNoRows(d);
      if ChainsPut(d, m', l, top).Ok? {
        WrittenAdds(d, t, m', l, ImportedRow(l.row, host, now), ids, top);
        if ComeApart(ChainsThatCome(a.chains, entries, d.entries)) { CanBeWritten(a, l, entries, d, m', top); }
      }
    }
  }

  // ---------------------------------------------------------------------
  // Sharing.

  /** Node `x` of `s`, standing in `t` as `ids[x]`. */
  ghost predicate NodeAsItWas(s: Store, x: int, t: Store, m: int, ids: map<int, int>, entries: map<int, int>) {
    && x in s.nodes && x in ids && ids[x] in t.nodes
    && var was, got := s.nodes[x], t.nodes[ids[x]];
    && got.map_ == m && got.kind == was.kind && got.text == was.text && got.state == was.state
    && got.ord == was.ord && got.createdAt == was.createdAt && got.author == was.author
    && (match was.parent
        case None => got.parent == None
        case Some(p) => p in ids && got.parent == Some(ids[p]))
    && forall e :: (ids[x], e) in t.nodeRefs <==> RefCame(s.nodeRefs, x, e, entries)
  }

  ghost predicate RefCame(refs: set<(int, int)>, row: int, e: int, entries: map<int, int>) {
    exists from :: (row, from) in refs && from in entries && entries[from] == e
  }

  ghost predicate EdgeAsItWas(s: Store, a: int, t: Store, b: int, m: int, ids: map<int, int>, entries: map<int, int>) {
    && a in s.edges && b in t.edges
    && var was, got := s.edges[a], t.edges[b];
    && was.from in ids && was.to in ids
    && got.map_ == m && got.from == ids[was.from] && got.to == ids[was.to] && got.caption == was.caption
    && forall e :: (b, e) in t.edgeRefs <==> RefCame(s.edgeRefs, a, e, entries)
  }

  /** All steps of a chain came. */
  predicate StepsCame(steps: seq<int>, entries: map<int, int>, there: seq<int>) {
    |there| == |steps| && forall i | 0 <= i < |steps| :: steps[i] in entries && there[i] == entries[steps[i]]
  }

  ghost predicate ChainAsItWas(s: Store, a: int, t: Store, b: int, m: int, entries: map<int, int>) {
    && a in s.chains && b in t.chains
    && var was, got := s.chains[a], t.chains[b];
    && got.map_ == m && got.name == was.name && got.createdAt == was.createdAt
    && StepsCame(Held(was.steps), entries, Held(got.steps)) && got.signature == Held(got.steps)
  }

  /** The map `m` of `s`, standing in `t` as `m'`, chains aside. */
  ghost predicate TreeAsItWas(s: Store, m: int, t: Store, m': int, ids: map<int, int>, entries: map<int, int>) {
    && m in s.maps && m' in t.maps && t.maps[m'] == s.maps[m]
    && (forall x, y | x in ids && y in ids && x != y :: ids[x] != ids[y])
    && (forall x :: x in ids <==> x in s.nodes && s.nodes[x].map_ == m)
    && (forall x | x in ids :: NodeAsItWas(s, x, t, m', ids, entries))
    && (forall y | y in t.nodes && t.nodes[y].map_ == m' :: exists x :: x in ids && ids[x] == y)
    && (forall a | a in s.edges && s.edges[a].map_ == m :: exists b :: EdgeAsItWas(s, a, t, b, m', ids, entries))
    && (forall b | b in t.edges && t.edges[b].map_ == m' :: exists a :: EdgeAsItWas(s, a, t, b, m', ids, entries))
  }

  /** The chains of `m` all of whose steps came, and no others. */
  ghost predicate ChainsAsTheyWere(s: Store, m: int, t: Store, m': int, entries: map<int, int>) {
    && (forall a | a in s.chains && s.chains[a].map_ == m && AllCome(Held(s.chains[a].steps), entries) ::
          exists b :: ChainAsItWas(s, a, t, b, m', entries))
    && (forall b | b in t.chains && t.chains[b].map_ == m' ::
          exists a :: a in s.chains && s.chains[a].map_ == m && ChainAsItWas(s, a, t, b, m', entries))
  }

  predicate AllCome(steps: seq<int>, entries: map<int, int>) { forall i | 0 <= i < |steps| :: steps[i] in entries }

  lemma CameFrom(refs: set<(int, int)>, row: int, e: int, entries: map<int, int>, from: int)
    requires (row, from) in refs && from in entries && entries[from] == e
    ensures RefCame(refs, row, e, entries)
  {
  }

  lemma RefIs(refs: set<(int, int)>, row: int, e: int, entries: map<int, int>)
    ensures Referred(refs, row, e, entries) <==> RefCame(refs, row, e, entries)
  {
    if r :| r in refs && r.0 == row && r.1 in entries && entries[r.1] == e {
      assert r == (row, r.1);
      CameFrom(refs, row, e, entries, r.1);
    }
    if from :| (row, from) in refs && from in entries && entries[from] == e {
      var r := (row, from);
      assert r in refs && r.0 == row && r.1 in entries && entries[r.1] == e;
    }
  }

  lemma NodeIs(s: Store, x: int, t: Store, m: int, ids: map<int, int>, entries: map<int, int>)
    requires x in ids && NodeCopy(s, x, t, m, ids, entries)
    ensures NodeAsItWas(s, x, t, m, ids, entries)
  {
    forall e ensures (ids[x], e) in t.nodeRefs <==> RefCame(s.nodeRefs, x, e, entries) {
      RefIs(s.nodeRefs, x, e, entries);
    }
  }

  lemma EdgeIs(s: Store, a: int, t: Store, b: int, m: int, ids: map<int, int>, entries: map<int, int>)
    requires EdgeCopy(s, a, t, b, m, ids, entries)
    ensures EdgeAsItWas(s, a, t, b, m, ids, entries)
  {
    forall e ensures (b, e) in t.edgeRefs <==> RefCame(s.edgeRefs, a, e, entries) { RefIs(s.edgeRefs, a, e, entries); }
  }

  lemma ChainIs(s: Store, a: int, t: Store, b: int, m: int, entries: map<int, int>)
    requires b in t.chains && IsSharedRow(s, a, m, entries, t.chains[b])
    ensures ChainAsItWas(s, a, t, b, m, entries)
  {
    RenumberedAll(Held(s.chains[a].steps), entries);
    HeldSlots(StepsOver(s.chains[a], entries));
  }

  lemma StepsComeIff(s: Store, a: int, entries: map<int, int>)
    requires a in s.chains
    ensures StepsCome(s, a, entries) <==> AllCome(Held(s.chains[a].steps), entries)
  {
    RenumberedAll(Held(s.chains[a].steps), entries);
  }

  lemma TreeIs(s: Store, m: int, t: Store, m': int, ids: map<int, int>, entries: map<int, int>)
    requires TreeStands(s, m, t, m', ids, entries)
    ensures TreeAsItWas(s, m, t, m', ids, entries)
  {
    forall x ensures x in ids <==> x in s.nodes && s.nodes[x].map_ == m { assert x in ids.Keys <==> x in ids; }
    forall x | x in ids ensures NodeAsItWas(s, x, t, m', ids, entries) { NodeIs(s, x, t, m', ids, entries); }
    forall y | y in t.nodes && t.nodes[y].map_ == m' ensures exists x :: x in ids && ids[x] == y {
      assert IsCopy(ids, y);
    }
    forall a | a in s.edges && s.edges[a].map_ == m ensures exists b :: EdgeAsItWas(s, a, t, b, m', ids, entries) {
      var b :| EdgeCopy(s, a, t, b, m', ids, entries);
      EdgeIs(s, a, t, b, m', ids, entries);
    }
    forall b | b in t.edges && t.edges[b].map_ == m' ensures exists a :: EdgeAsItWas(s, a, t, b, m', ids, entries) {
      var a :| EdgeCopy(s, a, t, b, m', ids, entries);
      EdgeIs(s, a, t, b, m', ids, entries);
    }
  }

  lemma ChainsAre(s: Store, m: int, t: Store, m': int, entries: map<int, int>)
    requires ChainsStand(s, m, t, m', entries)
    ensures ChainsAsTheyWere(s, m, t, m', entries)
  {
    forall a | a in s.chains && s.chains[a].map_ == m && AllCome(Held(s.chains[a].steps), entries)
      ensures exists b :: ChainAsItWas(s, a, t, b, m', entries)
    {
      StepsComeIff(s, a, entries);
      var b :| b in t.chains && IsSharedRow(s, a, m', entries, t.chains[b]);
      ChainIs(s, a, t, b, m', entries);
    }
    forall b | b in t.chains && t.chains[b].map_ == m'
      ensures exists a :: a in s.chains && s.chains[a].map_ == m && ChainAsItWas(s, a, t, b, m', entries)
    {
      var a :| a in s.chains && s.chains[a].map_ == m && IsSharedRow(s, a, m', entries, t.chains[b]);
      ChainIs(s, a, t, b, m', entries);
    }
  }

  /** A map that stands is there as it was, each row in each field. */
  lemma StandsAsItWas(s: Store, m: int, t: Store, m': int, ids: map<int, int>, entries: map<int, int>)
    requires TreeStands(s, m, t, m', ids, entries)
    ensures TreeAsItWas(s, m, t, m', ids, entries)
    ensures ChainsStand(s, m, t, m', entries) ==> ChainsAsTheyWere(s, m, t, m', entries)
  {
    TreeIs(s, m, t, m', ids, entries);
    if ChainsStand(s, m, t, m', entries) { ChainsAre(s, m, t, m', entries); }
  }

  /** So a share that goes through copies the map as it was, and its chains too
      where no two of them come with the same steps. */
  lemma ShareCopies(s: Store, m: int, d: Store, entries: map<int, int>, rows: seq<int>, edgeRows: seq<int>, top: int)
    requires WellFormed(s) && Homed(d) && EntriesThere(entries, d) && RowsOfMap(s, m, rows, edgeRows)
    ensures var r := ShareSpec(s, m, d, entries, rows, edgeRows, top);
            r.Ok? ==>
              && Enlarges(d, r.value.t) && TreeAsItWas(s, m, r.value.t, r.value.m, r.value.ids, entries)
              && (SharedApart(s, m, entries) ==> ChainsAsTheyWere(s, m, r.value.t, r.value.m, entries))
  {
    ShareStands(s, m, d, entries, rows, edgeRows, top);
    var r := ShareSpec(s, m, d, entries, rows, edgeRows, top);
    if r.Ok? { StandsAsItWas(s, m, r.value.t, r.value.m, r.value.ids, entries); }
  }
}
