/** The journal operations row by row: which rows are there afterwards, and
    what they say. */
module JournalRows {
  import opened Base
  import opened Branch
  import opened Refs
  import opened Text
  import opened Labels
  import opened JournalSpec
  import opened JournalRuns
  import opened RefGrammar
  import opened Evidence
  import opened EvidenceForm

  /** The row of a flag, if there is one. */
  function Row(t: Tables, e: int, f: Flag): Option<FlagRow> {
    if (e, f) in t.flags then Some(t.flags[(e, f)]) else None
  }

  /** Only flag rows of `id` that are named in `fs` may differ. */
  ghost predicate FlagsOnly(t: Tables, u: Tables, id: int, fs: set<Flag>) {
    && u.(flags := t.flags) == t
    && forall e, f | e != id || f !in fs :: Row(u, e, f) == Row(t, e, f)
  }

  ghost predicate OpenSince(t: Tables, e: int, f: Flag, at: int) { Row(t, e, f) == Some(FlagRow(at, None)) }

  lemma SameFlags(t: Tables, u: Tables)
    requires u.(flags := t.flags) == t && forall e, f :: Row(u, e, f) == Row(t, e, f)
    ensures u == t
  {
    forall k ensures k in u.flags <==> k in t.flags { assert Row(u, k.0, k.1) == Row(t, k.0, k.1) && k == (k.0, k.1); }
    forall k | k in t.flags ensures u.flags[k] == t.flags[k] {
      assert Row(u, k.0, k.1) == Row(t, k.0, k.1) && k == (k.0, k.1);
    }
    assert u.flags == t.flags;
  }

  /** Marking opens each flag that has no row, and leaves the rows there are. */
  lemma MarkRows(t: Tables, id: int, fs: set<Flag>, now: int)
    requires MarkSpec(t, id, fs, now).Ok?
    ensures var u := MarkSpec(t, id, fs, now).value;
            && FlagsOnly(t, u, id, fs)
            && forall f | f in fs :: if Row(t, id, f).None? then OpenSince(u, id, f, now)
                                     else Row(u, id, f) == Row(t, id, f)
  {
    var u := MarkSpec(t, id, fs, now).value;
    forall f | f in fs && (id, f) !in t.flags ensures (id, f) in u.flags && u.flags[(id, f)] == FlagRow(now, None) {
    }
  }

  /** Unmarking takes the rows of the named flags away, open or closed. */
  lemma UnmarkRows(t: Tables, id: int, fs: set<Flag>)
    requires UnmarkSpec(t, id, fs).Ok?
    ensures var u := UnmarkSpec(t, id, fs).value;
            FlagsOnly(t, u, id, fs) && forall f | f in fs :: Row(u, id, f).None?
  {
  }

  /** Flags that were not there come off again — a hypothesis only once it is proved. */
  lemma UnmarkUndoesMark(t: Tables, id: int, fs: set<Flag>, now: int)
    requires MarkSpec(t, id, fs, now).Ok? && forall f | f in fs :: Row(t, id, f).None?
    ensures var u := MarkSpec(t, id, fs, now).value;
            if Unverified in fs && forall c :: !Proves(u, c, id) then UnmarkSpec(u, id, fs) == Err(StaysUnverified)
            else UnmarkSpec(u, id, fs) == Ok(t)
  {
    var u := MarkSpec(t, id, fs, now).value;
    MarkRows(t, id, fs, now);
    ProofOfFinds(u, id);
    assert fs != {} && id in u.entries;
    if Unverified in fs { assert OpenSince(u, id, Unverified, now); }
    if UnmarkSpec(u, id, fs).Ok? {
      UnmarkRows(u, id, fs);
      SameFlags(t, UnmarkSpec(u, id, fs).value);
    }
  }

  // ---------------------------------------------------------------------
  // What goes through.

  /** A note is taken when it has a text, something to name it by and a tag. */
  lemma AddGoesThrough(t: Tables, n: NewEntry, now: int)
    ensures AddSpec(t, n, now).Ok? <==>
            && 0 < |Trim(n.body)| <= 20_000 && (Label(n.category) != "" || n.flags != {})
            && exists raw :: raw in n.tags && Label(raw) != ""
  {
    if raw :| raw in n.tags && Label(raw) != "" { assert Label(raw) in TagsOf(n); }
    if TagsOf(n) != {} {
      var l := SomeMember(TagsOf(n));
      assert exists raw :: raw in n.tags && Label(raw) == l;
    }
  }

  /** Flags go on any entry, and come off it unless one is an unproved hypothesis. */
  lemma FlagsGoThrough(t: Tables, id: int, fs: set<Flag>, now: int)
    ensures MarkSpec(t, id, fs, now).Ok? <==> fs != {} && id in t.entries
    ensures UnmarkSpec(t, id, fs).Ok? <==>
            && fs != {} && id in t.entries
            && (Unverified in fs && t.OpenFlag(id, Unverified) ==> exists c :: Proves(t, c, id))
  {
    ProofOfFinds(t, id);
  }

  ghost predicate BearsProof(t: Tables, e: int) { t.OpenFlag(e, Verified) && t.IsEvidence(e) }

  /** A close goes through exactly when it names open work items, or there are
      some, and: checked, a hypothesis is proved and a todo's branch bears a proof;
      abandoned, a reason is given for either. */
  lemma CloseGoesThrough(t: Tables, id: int, named: set<Flag>, who: Option<string>, res: Option<string>, now: int,
                         mode: CloseMode)
    ensures var targets := if named == {} then t.OpenItems(id) else named;
            CloseSpec(t, id, named, who, res, now, mode).Ok? <==>
            && id in t.entries && targets != {} && (forall f | f in targets :: t.OpenFlag(id, f) && Closable(f))
            && (mode.Checked? && Unverified in targets ==> exists c :: Proves(t, c, id))
            && (mode.Checked? && Todo in targets ==>
                  exists e :: e in BranchIds(t.Work(), id) && e != id && BearsProof(t, e))
            && (mode.Abandon? && (Unverified in targets || Todo in targets) ==> Clean(res).Some?)
  {
    var targets := TargetsOf(named, t.OpenItems(id));
    GatesOpen(t, id, targets, Clean(res), mode);
    TargetsOpen(t, id, targets);
    if f :| f in named && !Closable(f) { assert f in targets; }
  }

  lemma GatesOpen(t: Tables, id: int, targets: set<Flag>, given: Option<string>, mode: CloseMode)
    ensures (ProofGate(t, id, targets, given, mode).Ok?
             && TodoGate(t, id, targets, ProofGate(t, id, targets, given, mode).value, mode).Ok?) <==>
            && (mode.Checked? && Unverified in targets ==> exists c :: Proves(t, c, id))
            && (mode.Checked? && Todo in targets ==>
                  exists e :: e in BranchIds(t.Work(), id) && e != id && BearsProof(t, e))
            && (mode.Abandon? && (Unverified in targets || Todo in targets) ==> given.Some?)
  {
    ProofOfFinds(t, id);
  }

  lemma TargetsOpen(t: Tables, id: int, targets: set<Flag>)
    ensures targets <= t.OpenItems(id) <==> forall f | f in targets :: t.OpenFlag(id, f) && Closable(f)
  {
    forall f ensures f in t.OpenItems(id) <==> t.OpenFlag(id, f) && Closable(f) {
      if t.OpenFlag(id, f) { assert (id, f) in t.flags; }
      if f in t.OpenItems(id) {
        var k :| k in t.flags && k.0 == id && t.flags[k].closed.None? && Closable(k.1) && k.1 == f;
        assert k == (id, f);
      }
    }
  }

  lemma ReopenGoesThrough(t: Tables, id: int, named: set<Flag>)
    ensures ReopenSpec(t, id, named).Ok? <==>
            && id in t.entries && (forall f | f in named :: t.ClosedFlag(id, f))
            && exists f :: t.ClosedFlag(id, f)
  {
    forall f ensures f in ClosedItems(t, id) <==> t.ClosedFlag(id, f) {
      if t.ClosedFlag(id, f) { assert (id, f) in t.flags; }
      if f in ClosedItems(t, id) {
        var k :| k in t.flags && k.0 == id && t.flags[k].closed.Some? && k.1 == f;
        assert k == (id, f);
      }
    }
    if named != {} {
      var f := SomeMember(named);
      assert f in named;
    }
    if f :| t.ClosedFlag(id, f) { assert f in ClosedItems(t, id); }
    if ClosedItems(t, id) != {} {
      var f := SomeMember(ClosedItems(t, id));
      assert t.ClosedFlag(id, f);
    }
  }

  lemma LinkGoesThrough(t: Tables, from: int, to: int, kind: LinkKind)
    ensures LinkSpec(t, from, to, kind).Ok? <==> from != to && from in t.entries && to in t.entries
  {
  }

  // ---------------------------------------------------------------------
  // What a close writes down.

  /** The resolution a close records, given the one it was called with. */
  ghost predicate Records(t: Tables, id: int, targets: set<Flag>, given: Option<string>, mode: CloseMode,
                          said: Option<string>) {
    match mode
    case Restore => said == given
    case Abandon =>
      if Unverified in targets || Todo in targets then given.Some? && said == Some("abandoned: " + given.value)
      else said == given
    case Checked =>
      if given.Some? then said == given
      else if Unverified in targets then
        exists c :: Proves(t, c, id) && (forall d | Proves(t, d, id) :: c <= d) && said == Some(VerifiedBy(c))
      else if Todo in targets then
        exists i ::
          FirstProof(t, BranchIds(t.Work(), id), id, i) && said == Some(VerifiedBy(BranchIds(t.Work(), id)[i]))
      else said == None
  }

  /** The first entry of the branch after its todo that is marked and is evidence. */
  ghost predicate FirstProof(t: Tables, branch: seq<int>, root: int, i: int) {
    && 0 <= i < |branch| && branch[i] != root && BearsProof(t, branch[i])
    && forall j | 0 <= j < i && branch[j] != root :: !BearsProof(t, branch[j])
  }

  lemma {:induction false} FirstVerifiedIs(t: Tables, branch: seq<int>, root: int)
    ensures t.FirstVerified(branch, root).Some? ==>
              exists i :: FirstProof(t, branch, root, i) && branch[i] == t.FirstVerified(branch, root).value
    decreases |branch|
  {
    if t.FirstVerified(branch, root).Some? {
      if branch[0] != root && BearsProof(t, branch[0]) {
        assert FirstProof(t, branch, root, 0);
      } else {
        FirstVerifiedIs(t, branch[1..], root);
        var i :| FirstProof(t, branch[1..], root, i) && branch[1..][i] == t.FirstVerified(branch[1..], root).value;
        forall j | 0 <= j < i + 1 && branch[j] != root ensures !BearsProof(t, branch[j]) {
          if j > 0 { assert branch[1..][j - 1] == branch[j]; }
        }
        assert FirstProof(t, branch, root, i + 1);
      }
    }
  }

  lemma {:induction false} FirstEvidenceIs(t: Tables, rows: seq<int>)
    requires Sorted(rows, false)
    ensures t.FirstEvidence(rows).Some? ==>
              forall d | d in rows && t.IsEvidence(d) :: t.FirstEvidence(rows).value <= d
  {
    if rows != [] && !t.IsEvidence(rows[0]) {
      FirstEvidenceIs(t, rows[1..]);
    } else if rows != [] {
      forall d | d in rows ensures rows[0] <= d {
        var i :| 0 <= i < |rows| && rows[i] == d;
        assert i > 0 ==> Precedes(rows[0], rows[i], false);
      }
    }
  }

  /** Of the entries that prove a hypothesis the oldest is named. */
  lemma OldestProof(t: Tables, e: int)
    ensures forall c :: t.ProofOf(e) == Some(c) <==> Proves(t, c, e) && forall d | Proves(t, d, e) :: c <= d
  {
    var rows := OrderBy(Verifiers(t.links, e), false);
    ProofOfFinds(t, e);
    VerifierRows(t.links, e);
    OrderByRows(Verifiers(t.links, e), false);
    FirstEvidenceIs(t, rows);
    if t.ProofOf(e).Some? {
      forall d | Proves(t, d, e) ensures t.ProofOf(e).value <= d {
        EvidenceMeans(t, d, e);
        assert d in rows;
      }
    }
  }

  /** Every row a close takes says when, who and why; no other row changes. */
  lemma CloseWrites(t: Tables, id: int, named: set<Flag>, who: Option<string>, res: Option<string>, now: int,
                    mode: CloseMode)
    requires CloseSpec(t, id, named, who, res, now, mode).Ok?
    ensures var c, targets := CloseSpec(t, id, named, who, res, now, mode).value, TargetsOf(named, t.OpenItems(id));
            && (forall f :: (id, f) in c.rows <==> f in targets)
            && (forall k | k in c.rows :: Row(t, k.0, k.1).Some? && t.OpenFlag(k.0, k.1) && Closable(k.1))
            && (forall e, f | (e, f) !in c.rows :: Row(c.t, e, f) == Row(t, e, f))
            && c.t.(flags := t.flags) == t
            && exists said :: Records(t, id, targets, Clean(res), mode, said)
                 && forall k | k in c.rows ::
                      Row(c.t, k.0, k.1) == Some(t.flags[k].(closed := Some(Closure(now, Clean(who), said))))
  {
    var c, targets := CloseSpec(t, id, named, who, res, now, mode).value, TargetsOf(named, t.OpenItems(id));
    var given := ProofGate(t, id, targets, Clean(res), mode).value;
    var said := TodoGate(t, id, targets, given, mode).value;
    GatesRecord(t, id, targets, Clean(res), mode);
    forall k | k in c.rows ensures t.OpenFlag(k.0, k.1) && Closable(k.1) {
      if k.0 == id { assert k.1 in t.OpenItems(id) && k == (id, k.1); }
    }
    forall f | f in targets ensures (id, f) in c.rows { assert f in t.OpenItems(id) && (id, f) in t.flags; }
  }

  lemma GatesRecord(t: Tables, id: int, targets: set<Flag>, given: Option<string>, mode: CloseMode)
    requires ProofGate(t, id, targets, given, mode).Ok?
    requires TodoGate(t, id, targets, ProofGate(t, id, targets, given, mode).value, mode).Ok?
    ensures Records(t, id, targets, given, mode,
                    TodoGate(t, id, targets, ProofGate(t, id, targets, given, mode).value, mode).value)
  {
    OldestProof(t, id);
    FirstVerifiedIs(t, BranchIds(t.Work(), id), id);
  }

  /** Reopening clears the closure and nothing else. */
  lemma ReopenRows(t: Tables, id: int, named: set<Flag>)
    requires ReopenSpec(t, id, named).Ok?
    ensures var u, fs := ReopenSpec(t, id, named).value, if named == {} then ClosedItems(t, id) else named;
            FlagsOnly(t, u, id, fs)
            && forall f | f in fs :: t.ClosedFlag(id, f) && OpenSince(u, id, f, t.flags[(id, f)].setAt)
  {
    forall f | f in ClosedItems(t, id) ensures t.ClosedFlag(id, f) {
      var k :| k in t.flags && k.0 == id && t.flags[k].closed.Some? && k.1 == f;
      assert k == (id, f);
    }
  }

  // ---------------------------------------------------------------------
  // Adding.

  /** The text of `from` refers to `to`, another entry there is, in this way. */
  ghost predicate Refers(entries: set<int>, from: int, body: string, l: Link) {
    l.from == from && l.to != from && l.to in entries &&
    exists r :: r in ParseRefs(body) && l == Link(from, r.id, r.kind)
  }

  lemma {:induction false} AllLinksAdded(entries: set<int>, links: seq<Link>, id: int, refs: seq<Ref>)
    ensures forall r | r in refs && r.id != id && r.id in entries ::
              Link(id, r.id, r.kind) in WithLinks(entries, links, id, refs)
    decreases |refs|
  {
    if refs != [] {
      var l := Link(id, refs[0].id, refs[0].kind);
      var links' := if l.to != id && l.to in entries && l !in links then links + [l] else links;
      AllLinksAdded(entries, links', id, refs[1..]);
      LinksAdded(entries, links', id, refs[1..]);
      forall r | r in refs && r.id != id && r.id in entries
        ensures Link(id, r.id, r.kind) in WithLinks(entries, links, id, refs)
      {
        if r == refs[0] { assert l in links'; } else { assert r in refs[1..]; }
      }
    }
  }

  /** The links of a new entry are exactly those its text makes. */
  lemma TextLinks(entries: set<int>, links: seq<Link>, id: int, body: string)
    ensures forall l ::
              l in WithLinks(entries, links, id, ParseRefs(body)) <==> l in links || Refers(entries, id, body, l)
  {
    AllLinksAdded(entries, links, id, ParseRefs(body));
    LinksAdded(entries, links, id, ParseRefs(body));
  }

  /** An entry like the new one, not older than 30 days. */
  ghost predicate Likeness(t: Tables, e: int, n: NewEntry, now: int) {
    && e in t.entries && t.entries[e].body == Trim(n.body) && Some(t.entries[e].category) == CategoryOf(n)
    && now - t.entries[e].createdAt <= 30 * 24 * 60 * 60
  }

  /** What adding gives the entry `id`: tags, open flags, proofs; all others stay. */
  ghost predicate Gains(t: Tables, u: Tables, id: int, n: NewEntry, now: int) {
    && (forall e, l :: (e, l) in u.tags <==>
          (e, l) in t.tags || (e == id && l != "" && exists raw :: raw in n.tags && Label(raw) == l))
    && (forall e, f :: Row(u, e, f) ==
          if e == id && f in n.flags && Row(t, e, f).None? then Some(FlagRow(now, None)) else Row(t, e, f))
    && (forall e, p :: (e, p) in u.proofs <==>
          (e, p) in t.proofs || (e == id && p != "" && exists raw :: raw in n.proofs && Trim(raw) == p))
    && u.evidenceFirst == t.evidenceFirst
  }

  lemma AnnotateGains(t: Tables, id: int, n: NewEntry, now: int)
    ensures var u := Annotate(t, id, n, now);
            Gains(t, u, id, n, now) && u.entries == t.entries && u.links == t.links
  {
    var u := Annotate(t, id, n, now);
    forall e, f ensures Row(u, e, f) ==
      if e == id && f in n.flags && Row(t, e, f).None? then Some(FlagRow(now, None)) else Row(t, e, f) {
      if e == id && f in n.flags && (id, f) !in t.flags { assert (id, f) in u.flags; }
    }
    forall e, p ensures (e, p) in u.proofs <==>
      (e, p) in t.proofs || (e == id && p != "" && exists raw :: raw in n.proofs && Trim(raw) == p) {
      if raw :| raw in n.proofs && Trim(raw) == p { assert p != "" ==> (id, Trim(raw)) in u.proofs; }
    }
    forall e, l ensures (e, l) in u.tags <==>
      (e, l) in t.tags || (e == id && l != "" && exists raw :: raw in n.tags && Label(raw) == l) {
      assert l in TagsOf(n) <==> l != "" && exists raw :: raw in n.tags && Label(raw) == l;
    }
  }

  /** The note added to an entry like it, the newest of those. */
  ghost predicate Merged(t: Tables, u: Tables, id: int, n: NewEntry, now: int) {
    && Likeness(t, id, n, now) && (forall e | Likeness(t, e, n, now) :: e <= id)
    && Gains(t, u, id, n, now) && u.entries == t.entries && u.links == t.links
  }

  /** The note stored as a new entry, linked as its text says. */
  ghost predicate Stored(t: Tables, u: Tables, id: int, n: NewEntry, now: int) {
    && (forall e | e in t.entries :: e < id)
    && CategoryOf(n).Some?
    && u.entries == t.entries[id := Entry(now, CategoryOf(n).value, Trim(n.body), n.salience)]
    && Gains(t, u, id, n, now)
    && forall l :: l in u.links <==>
         l in t.links || (!n.foreign && Refers(t.entries.Keys + {id}, id, Trim(n.body), l))
  }

  /** A note like one of the last 30 days adds to the newest of these; any other
      becomes an entry of its own. */
  lemma AddWrites(t: Tables, n: NewEntry, now: int)
    requires AddSpec(t, n, now).Ok?
    ensures var a := AddSpec(t, n, now).value;
            if exists e :: Likeness(t, e, n, now) then a.status.Deduped? && Merged(t, a.t, a.id, n, now)
            else a.status.Written? && Stored(t, a.t, a.id, n, now)
  {
    var a, category := AddSpec(t, n, now).value, CategoryOf(n).value;
    var same := Repeats(t, Trim(n.body), category, now);
    assert forall e :: e in same <==> Likeness(t, e, n, now);
    if same != {} {
      AnnotateGains(t, a.id, n, now);
      assert a.id in same;
    } else {
      InsertStores(t, a.id, n, category, now);
    }
  }

  lemma InsertStores(t: Tables, id: int, n: NewEntry, category: string, now: int)
    requires CategoryOf(n) == Some(category) && forall e | e in t.entries :: e < id
    ensures Stored(t, Insert(t, id, n, category, now), id, n, now)
  {
    var t1 := t.(entries := t.entries[id := Entry(now, category, Trim(n.body), n.salience)]);
    var a, u := Annotate(t1, id, n, now), Insert(t, id, n, category, now);
    AnnotateGains(t1, id, n, now);
    assert t1.entries.Keys == t.entries.Keys + {id};
    TextLinks(t1.entries.Keys, t.links, id, Trim(n.body));
    assert Gains(t, u, id, n, now) by {
      SameGains(t, t1, a, id, n, now);
      LinkedGains(t, a, u, id, n, now);
    }
  }

  lemma LinkedGains(t: Tables, a: Tables, u: Tables, id: int, n: NewEntry, now: int)
    requires Gains(t, a, id, n, now) && u.(links := a.links) == a
    ensures Gains(t, u, id, n, now)
  {
    assert forall e, f :: Row(u, e, f) == Row(a, e, f);
  }

  lemma SameGains(t: Tables, t1: Tables, u: Tables, id: int, n: NewEntry, now: int)
    requires t1.(entries := t.entries) == t && Gains(t1, u, id, n, now)
    ensures Gains(t, u, id, n, now)
  {
    assert forall e, f :: Row(t1, e, f) == Row(t, e, f);
  }

  // ---------------------------------------------------------------------
  // Links, retention, deletion.

  lemma LinkRows(t: Tables, from: int, to: int, kind: LinkKind)
    requires LinkSpec(t, from, to, kind).Ok?
    ensures var u := LinkSpec(t, from, to, kind).value;
            u.(links := t.links) == t && forall l :: l in u.links <==> l in t.links || l == Link(from, to, kind)
  {
  }

  /** Unlinking takes the links of one kind, or of all, between two entries. */
  lemma UnlinkRows(t: Tables, from: int, to: int, only: Option<LinkKind>)
    ensures var u := UnlinkSpec(t, from, to, only);
            && u.(links := t.links) == t
            && forall a, b, k :: Link(a, b, k) in u.links <==>
                 Link(a, b, k) in t.links && !(a == from && b == to && (only.None? || only == Some(k)))
  {
    KeptLinks(t.links, Unlinks(from, to, only));
  }

  const DAY := 24 * 60 * 60

  /** Past its salience's retention, with nothing that holds it. */
  ghost predicate Lapsed(t: Tables, e: int, now: int) {
    && e in t.entries
    && (t.entries[e].salience == Medium || t.entries[e].salience == Low)
    && now - t.entries[e].createdAt > (if t.entries[e].salience == Medium then 365 else 90) * DAY
    && forall f | t.OpenFlag(e, f) :: f in {Idea, Concept, Comment, Verified, Deprecated}
  }

  /** Those entries are gone with all their rows, and nothing else is. */
  ghost predicate GoneWith(t: Tables, u: Tables, gone: set<int>) {
    && (forall e :: e in u.entries <==> e in t.entries && e !in gone)
    && (forall e | e in u.entries :: u.entries[e] == t.entries[e])
    && (forall e, f :: Row(u, e, f) == if e in gone then None else Row(t, e, f))
    && (forall e, l :: (e, l) in u.tags <==> (e, l) in t.tags && e !in gone)
    && (forall e, p :: (e, p) in u.proofs <==> (e, p) in t.proofs && e !in gone)
    && (forall l :: l in u.links <==> l in t.links && l.from !in gone && l.to !in gone)
    && u.evidenceFirst == t.evidenceFirst
  }

  lemma WithoutRows(t: Tables, gone: set<int>)
    ensures GoneWith(t, WithoutEntries(t, gone), gone)
  {
    KeptLinks(t.links, Touches(gone));
  }

  /** Retention takes a medium entry after 365 days and a low one after 90, when
      no open flag but a passive mark is on it; every other entry keeps all its rows. */
  lemma GcTakesLapsed(t: Tables, now: int)
    ensures GoneWith(t, Apply(t, Gc(now)), set e | e in t.entries && Lapsed(t, e, now))
  {
    var gone := Dead(t, now);
    WithoutRows(t, gone);
    forall e ensures e in gone <==> Lapsed(t, e, now) {
      if e in t.entries { NotHeld(t, e); }
    }
    assert gone == set e | e in t.entries && Lapsed(t, e, now);
  }

  lemma NotHeld(t: Tables, e: int)
    ensures !Held(t, e) <==> forall f | t.OpenFlag(e, f) :: f in {Idea, Concept, Comment, Verified, Deprecated}
  {
    if Held(t, e) {
      var k :| k in t.flags && k.0 == e && t.flags[k].closed.None? && !Passive(k.1);
      assert k == (e, k.1) && t.OpenFlag(e, k.1);
    } else {
      forall f | t.OpenFlag(e, f) ensures f in {Idea, Concept, Comment, Verified, Deprecated} {
        assert (e, f) in t.flags && Passive((e, f).1);
      }
    }
  }

  lemma DeleteTakesOne(t: Tables, id: int)
    ensures GoneWith(t, Apply(t, Delete(id)), {id})
  {
    WithoutRows(t, {id});
  }

  // ---------------------------------------------------------------------
  // The flag an entry is named after.

  const LISTED: seq<Flag> := [
    Todo, Question, Problem, Bugreport, Reminder, Unverified, Disputed, AiFeedback,
    Specification, Constraint, Invariant, Important, Idea, Concept, Comment, Verified, Deprecated]

  /** An entry with no category is named after the first of its flags as the
      journal lists them. */
  lemma NamedAfterFirst(n: NewEntry, i: nat)
    requires Label(n.category) == "" && i < |LISTED| && LISTED[i] in n.flags
    requires forall j | 0 <= j < i :: LISTED[j] !in n.flags
    ensures CategoryOf(n) == Some(if LISTED[i] == Bugreport then "bug" else FlagName(LISTED[i]))
  {
    FirstIs(n.flags, i);
  }

  lemma FirstIs(fs: set<Flag>, i: nat)
    requires i < |LISTED| && LISTED[i] in fs && forall j | 0 <= j < i :: LISTED[j] !in fs
    ensures FirstFlag(fs) == Some(LISTED[i])
  {
    assert LISTED[0] == Todo && LISTED[1] == Question && LISTED[2] == Problem && LISTED[3] == Bugreport;
    assert LISTED[4] == Reminder && LISTED[5] == Unverified && LISTED[6] == Disputed && LISTED[7] == AiFeedback;
    if i >= 8 {
      assert FirstItem(fs) == None;
      FirstMarkIs(fs, i);
    }
  }

  lemma FirstMarkIs(fs: set<Flag>, i: nat)
    requires 8 <= i < |LISTED| && LISTED[i] in fs && forall j | 8 <= j < i :: LISTED[j] !in fs
    ensures FirstMark(fs) == Some(LISTED[i])
  {
    assert LISTED[8] == Specification && LISTED[9] == Constraint && LISTED[10] == Invariant;
    assert LISTED[11] == Important && LISTED[12] == Idea && LISTED[13] == Concept && LISTED[14] == Comment;
    assert LISTED[15] == Verified && LISTED[16] == Deprecated;
  }

  // ---------------------------------------------------------------------
  // What is too little to be evidence.

  /** An entry all of whose references carry their mark, none of whose numbers
      begins another, is evidence by the words besides them. */
  lemma EvidenceBesides(t: Tables, e: int, cells: seq<Cell>, tail: string)
    requires e in t.entries && Lower(t.entries[e].body) == Flat(cells, tail) && Shaped(cells, tail, true)
    requires NoneBegins(cells) && forall i | 0 <= i < |cells| :: cells[i].marked && cells[i].n <= I64_MAX
    ensures t.IsEvidence(e) <==>
            && !t.OpenFlag(e, Deprecated) && |Collapsed(Besides(cells, tail))| >= 40
            && (t.evidenceFirst ==> t.HasProof(e))
  {
    var body := t.entries[e].body;
    forall i | 0 <= i < |cells| ensures cells[i].n in IdsOf(ParseRefs(body)) { MarkedIsReported(body, cells, tail, i); }
    ReferencesCountNothing(body, cells, tail);
  }

  /** The entry is a verb and references, and nothing else. */
  ghost predicate OnlyRefers(t: Tables, e: int, verb: string, first: nat, more: seq<Later>) {
    && e in t.entries && t.entries[e].body == Render([Verbal(verb, first, more)])
    && PlainWord(verb) && first <= I64_MAX && Fitting(more) && NoneBegins(CellsOf([Verbal(verb, first, more)], ""))
  }

  /** It is evidence only if the verb and what joins the references come to 40
      characters: never while there are few of them. */
  lemma ReferencesAreNoEvidence(t: Tables, e: int, verb: string, first: nat, more: seq<Later>)
    requires OnlyRefers(t, e, verb, first, more)
    ensures t.IsEvidence(e) <==>
            !t.OpenFlag(e, Deprecated) && |verb| + Cost(more, false) >= 40 && (t.evidenceFirst ==> t.HasProof(e))
    ensures |verb| + 4 * |more| < 40 ==> !t.IsEvidence(e)
  {
    VerbAndReferences(verb, first, more);
    CostBound(more, false);
  }

  /** "verifies" and nine references with an "and" between them do come to 40. */
  lemma AndsAreCounted(t: Tables, e: int, first: nat, more: seq<Later>)
    requires OnlyRefers(t, e, "Verifies", first, more) && |more| == 8
    requires forall i | 0 <= i < |more| :: more[i].sep == AndThen
    requires !t.OpenFlag(e, Deprecated) && !t.evidenceFirst
    ensures t.IsEvidence(e)
  {
    ReferencesAreNoEvidence(t, e, "Verifies", first, more);
    CostBound(more, false);
  }

  /** A hypothesis verified only by such entries stays open under a checked close. */
  lemma ReferencesLiftNothing(t: Tables, id: int, who: Option<string>, res: Option<string>, now: int)
    requires t.WellFormed() && t.OpenFlag(id, Unverified)
    requires forall e | e != id && Link(e, id, Verifies) in t.links ::
               exists verb, first: nat, more :: OnlyRefers(t, e, verb, first, more) && |verb| + Cost(more, false) < 40
    ensures CloseSpec(t, id, {Unverified}, who, res, now, Checked) == Err(StaysUnverified)
    ensures UnmarkSpec(t, id, {Unverified}) == Err(StaysUnverified)
  {
    forall c ensures !Proves(t, c, id) {
      if c != id && Link(c, id, Verifies) in t.links {
        var verb, first: nat, more :| OnlyRefers(t, c, verb, first, more) && |verb| + Cost(more, false) < 40;
        ReferencesAreNoEvidence(t, c, verb, first, more);
        EvidenceMeans(t, c, id);
      }
    }
    ProofOfFinds(t, id);
    HypothesisOpen(t, id);
    assert Unverified in {Unverified};
  }
}
