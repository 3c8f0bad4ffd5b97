/** Sharing a journal, row by row: what the other journal holds afterwards, and
    nothing more. */
module JournalMergeRows {
  import opened Base
  import opened Branch
  import opened Refs
  import opened Text
  import opened Labels
  import opened JournalSpec
  import opened JournalRuns
  import M = JournalMerge
  import R = JournalRows

  /** The source entry `e` came as `d`. */
  predicate Came(ids: map<int, int>, e: int, d: int) { e in ids && ids[e] == d }

  /** The name that `e` gets: its category read again, or its first flag. */
  ghost predicate NamedBy(src: Tables, e: int, category: string)
    requires e in src.entries
  {
    if Label(src.entries[e].category) != "" then category == Label(src.entries[e].category)
    else exists i :: 0 <= i < |R.LISTED| && (e, R.LISTED[i]) in src.flags
           && (forall j | 0 <= j < i :: (e, R.LISTED[j]) !in src.flags)
           && category == if R.LISTED[i] == Bugreport then "bug" else FlagName(R.LISTED[i])
  }

  /** The entry row that `e` makes. */
  ghost predicate RowOf(src: Tables, e: int, row: Entry) {
    && e in src.entries && NamedBy(src, e, row.category)
    && row.createdAt == src.entries[e].createdAt && row.body == src.entries[e].body
    && row.salience == src.entries[e].salience
  }

  /** A closed row as it comes over. */
  function ClosureOf(src: Tables, e: int, f: Flag): Option<Closure> {
    if src.ClosedFlag(e, f) then
      var c := src.flags[(e, f)].closed.value;
      Some(Closure(c.at, Clean(c.who), Clean(c.resolution)))
    else None
  }

  // ---------------------------------------------------------------------
  // One entry.

  /** Tags and proofs of `e` are added to `d`. */
  ghost predicate LabelsCome(t: Tables, u: Tables, src: Tables, e: int, d: int) {
    && (forall x, l :: (x, l) in u.tags <==>
          (x, l) in t.tags || (x == d && l != "" && exists raw :: (e, raw) in src.tags && Label(raw) == l))
    && (forall x, p :: (x, p) in u.proofs <==>
          (x, p) in t.proofs || (x == d && p != "" && exists raw :: (e, raw) in src.proofs && Trim(raw) == p))
  }

  /** The row of a flag after `e` came as `d`: an open one is added where there was
      none, and an open one closes if that of `e` is closed. */
  function RowAfter(was: Option<FlagRow>, src: Tables, e: int, f: Flag): Option<FlagRow>
    requires e in src.entries
  {
    if (e, f) !in src.flags then was
    else
      var row := if was.Some? then was.value else FlagRow(src.entries[e].createdAt, None);
      Some(if row.closed.Some? then row else row.(closed := ClosureOf(src, e, f)))
  }

  ghost predicate FlagsCome(t: Tables, u: Tables, src: Tables, e: int, d: int)
    requires e in src.entries
  {
    forall x, f :: R.Row(u, x, f) == if x == d then RowAfter(R.Row(t, x, f), src, e, f) else R.Row(t, x, f)
  }

  /** The entry `row` says what `e` says, under the name that `e` gets. */
  ghost predicate Says(src: Tables, e: int, row: Entry) {
    e in src.entries && row.body == src.entries[e].body && NamedBy(src, e, row.category)
  }

  /** The entry `d` says the same as `e`, and `e` is no more than 30 days younger. */
  ghost predicate Alike(t: Tables, src: Tables, e: int, d: int) {
    && d in t.entries && Says(src, e, t.entries[d])
    && src.entries[e].createdAt - t.entries[d].createdAt <= 30 * 24 * 60 * 60
  }

  /** `e` joins the newest entry like it, or comes as a new one if there is none. */
  ghost predicate EntryComes(t: Tables, u: Tables, src: Tables, e: int, d: int) {
    if exists x :: Alike(t, src, e, x) then
      Alike(t, src, e, d) && (forall x | Alike(t, src, e, x) :: x <= d) && u.entries == t.entries
    else
      && (forall x | x in t.entries :: x < d) && d in u.entries && u.entries == t.entries[d := u.entries[d]]
      && RowOf(src, e, u.entries[d])
  }

  /** The note that is added has what the entry has. */
  lemma NoteHas(src: Tables, e: int)
    requires e in src.entries
    ensures var n := M.NoteOf(src, e);
            && n.body == src.entries[e].body && n.category == src.entries[e].category && n.foreign
            && n.salience == src.entries[e].salience
            && (forall f :: f in n.flags <==> (e, f) in src.flags)
            && (forall l :: l in n.tags <==> (e, l) in src.tags)
            && (forall p :: p in n.proofs <==> (e, p) in src.proofs)
  {
    forall f ensures f in M.NoteOf(src, e).flags <==> (e, f) in src.flags { assert (e, f).0 == e && (e, f).1 == f; }
    forall l ensures l in M.NoteOf(src, e).tags <==> (e, l) in src.tags { assert (e, l).0 == e && (e, l).1 == l; }
    forall p ensures p in M.NoteOf(src, e).proofs <==> (e, p) in src.proofs { assert (e, p).0 == e && (e, p).1 == p; }
  }

  lemma NoteIsNamed(src: Tables, e: int)
    requires e in src.entries && CategoryOf(M.NoteOf(src, e)).Some?
    ensures forall c :: NamedBy(src, e, c) <==> CategoryOf(M.NoteOf(src, e)) == Some(c)
  {
    NoteHas(src, e);
    var n := M.NoteOf(src, e);
    if Label(n.category) == "" {
      var i := FirstListed(n.flags);
      R.NamedAfterFirst(n, i);
      forall c | NamedBy(src, e, c) ensures CategoryOf(n) == Some(c) {
        var j :| 0 <= j < |R.LISTED| && (e, R.LISTED[j]) in src.flags
          && (forall k | 0 <= k < j :: (e, R.LISTED[k]) !in src.flags)
          && c == if R.LISTED[j] == Bugreport then "bug" else FlagName(R.LISTED[j]);
        R.NamedAfterFirst(n, j);
      }
    }
  }

  lemma FirstListed(fs: set<Flag>) returns (i: nat)
    requires FirstFlag(fs).Some?
    ensures i < |R.LISTED| && R.LISTED[i] in fs && forall j | 0 <= j < i :: R.LISTED[j] !in fs
  {
    var last := Listed(FirstFlag(fs).value);
    i := 0;
    while R.LISTED[i] !in fs
      invariant 0 <= i <= last < |R.LISTED| && R.LISTED[last] in fs
      invariant forall j | 0 <= j < i :: R.LISTED[j] !in fs
      decreases last - i
    {
      i := i + 1;
    }
  }

  lemma Listed(f: Flag) returns (i: nat)
    ensures i < |R.LISTED| && R.LISTED[i] == f
  {
    i := match f
      case Todo => 0 case Question => 1 case Problem => 2 case Bugreport => 3 case Reminder => 4
      case Unverified => 5 case Disputed => 6 case AiFeedback => 7 case Specification => 8 case Constraint => 9
      case Invariant => 10 case Important => 11 case Idea => 12 case Concept => 13 case Comment => 14
      case Verified => 15 case Deprecated => 16;
  }

  lemma RestoredRows(t: Tables, d: int, src: Tables, e: int)
    requires e in src.entries
    ensures var u := M.Restored(t, d, src, e, M.FlagsOf(src, e));
            && u == t.(flags := u.flags)
            && forall x, f :: R.Row(u, x, f) ==
                 if x == d && (e, f) in src.flags && R.Row(t, x, f).Some? && t.flags[(x, f)].closed.None?
                 then Some(t.flags[(x, f)].(closed := ClosureOf(src, e, f))) else R.Row(t, x, f)
  {
    var u := M.Restored(t, d, src, e, M.FlagsOf(src, e));
    forall x, f ensures R.Row(u, x, f) ==
      if x == d && (e, f) in src.flags && R.Row(t, x, f).Some? && t.flags[(x, f)].closed.None?
      then Some(t.flags[(x, f)].(closed := ClosureOf(src, e, f))) else R.Row(t, x, f)
    {
      assert f in M.FlagsOf(src, e) <==> (e, f) in src.flags by { assert (e, f).0 == e && (e, f).1 == f; }
      assert (x, f) in u.flags <==> (x, f) in t.flags;
    }
  }

  lemma GainsLabels(t: Tables, u: Tables, src: Tables, e: int, d: int, now: int)
    requires e in src.entries && R.Gains(t, u, d, M.NoteOf(src, e), now)
    ensures LabelsCome(t, u, src, e, d)
  {
    NoteHas(src, e);
  }

  /** The rows of flags after the note and what was closed. */
  lemma GainsFlags(t: Tables, u: Tables, src: Tables, e: int, d: int)
    requires e in src.entries && R.Gains(t, u, d, M.NoteOf(src, e), src.entries[e].createdAt)
    ensures FlagsCome(t, M.Restored(u, d, src, e, M.FlagsOf(src, e)), src, e, d)
  {
    NoteHas(src, e);
    RestoredRows(u, d, src, e);
  }

  lemma NoteComes(t: Tables, src: Tables, e: int)
    requires src.WellFormed() && e in src.entries && M.Portable(src, e)
    ensures AddSpec(t, M.NoteOf(src, e), src.entries[e].createdAt).Ok?
    ensures var a := AddSpec(t, M.NoteOf(src, e), src.entries[e].createdAt).value;
            && EntryComes(t, a.t, src, e, a.id) && a.t.links == t.links
            && R.Gains(t, a.t, a.id, M.NoteOf(src, e), src.entries[e].createdAt)
            && (if a.status.Written? then 1 else 0) == |a.t.entries| - |t.entries|
  {
    var n, now := M.NoteOf(src, e), src.entries[e].createdAt;
    M.NoteIsAccepted(t, src, e);
    NoteHas(src, e);
    NoteIsNamed(src, e);
    R.AddWrites(t, n, now);
    forall d ensures R.Likeness(t, d, n, now) <==> Alike(t, src, e, d) {}
    SameLinks(t, AddSpec(t, n, now).value, n, now);
  }

  lemma SameLinks(t: Tables, a: Added, n: NewEntry, now: int)
    requires AddSpec(t, n, now) == Ok(a) && n.foreign
    ensures a.t.links == t.links
  {
  }

  /** What the entry `e` brings, coming as `u.ids[e]`. */
  ghost predicate Brings(m: M.Merged, u: M.Merged, src: Tables, e: int) {
    && e in src.entries && e in u.ids && u.ids == m.ids[e := u.ids[e]]
    && EntryComes(m.t, u.t, src, e, u.ids[e]) && u.t.links == m.t.links && u.t.evidenceFirst == m.t.evidenceFirst
    && LabelsCome(m.t, u.t, src, e, u.ids[e]) && FlagsCome(m.t, u.t, src, e, u.ids[e])
    && u.written - |u.t.entries| == m.written - |m.t.entries|
  }

  /** Adding the note of `e` and closing what was closed comes to this. */
  lemma EntryBrings(m: M.Merged, src: Tables, e: int)
    requires src.WellFormed() && e in src.entries && M.Portable(src, e)
    ensures Brings(m, M.MergeEntry(m, src, e), src, e)
  {
    NoteComes(m.t, src, e);
    var now := src.entries[e].createdAt;
    var a := AddSpec(m.t, M.NoteOf(src, e), now).value;
    var u := M.Restored(a.t, a.id, src, e, M.FlagsOf(src, e));
    assert u.entries == a.t.entries && u.tags == a.t.tags && u.proofs == a.t.proofs && u.links == a.t.links;
    GainsLabels(m.t, a.t, src, e, a.id, now);
    GainsFlags(m.t, a.t, src, e, a.id);
  }

  // ---------------------------------------------------------------------
  // The whole merge.

  ghost predicate RowFrom(src: Tables, ids: map<int, int>, d: int, row: Entry) {
    exists e :: Came(ids, e, d) && RowOf(src, e, row)
  }

  /** The entries: those there were, and those that came as new ones. */
  ghost predicate EntriesExact(dst: Tables, src: Tables, u: Tables, ids: map<int, int>) {
    && (forall d | d in dst.entries :: d in u.entries && u.entries[d] == dst.entries[d])
    && (forall d | d in u.entries && d !in dst.entries ::
          (forall x | x in dst.entries :: x < d) && RowFrom(src, ids, d, u.entries[d]))
    && (forall e, d | Came(ids, e, d) :: d in u.entries && Says(src, e, u.entries[d]))
  }

  ghost predicate TagFrom(src: Tables, ids: map<int, int>, d: int, l: string) {
    l != "" && exists e, raw :: Came(ids, e, d) && (e, raw) in src.tags && Label(raw) == l
  }

  ghost predicate ProofFrom(src: Tables, ids: map<int, int>, d: int, p: string) {
    p != "" && exists e, raw :: Came(ids, e, d) && (e, raw) in src.proofs && Trim(raw) == p
  }

  /** Tags and proofs: those there were, and those of the entries that came. */
  ghost predicate LabelsExact(dst: Tables, src: Tables, u: Tables, ids: map<int, int>) {
    && (forall d, l :: (d, l) in u.tags <==> (d, l) in dst.tags || TagFrom(src, ids, d, l))
    && (forall d, p :: (d, p) in u.proofs <==> (d, p) in dst.proofs || ProofFrom(src, ids, d, p))
  }

  ghost predicate FlagFrom(src: Tables, ids: map<int, int>, d: int, f: Flag) {
    exists e :: Came(ids, e, d) && (e, f) in src.flags
  }

  ghost predicate SetFrom(src: Tables, ids: map<int, int>, d: int, f: Flag, at: int) {
    exists e :: Came(ids, e, d) && (e, f) in src.flags && e in src.entries && src.entries[e].createdAt == at
  }

  ghost predicate ClosedFrom(src: Tables, ids: map<int, int>, d: int, f: Flag, c: Closure) {
    exists e :: Came(ids, e, d) && ClosureOf(src, e, f) == Some(c)
  }

  /** A flag: there if it was or came; set when it was, or when an entry that brings
      it was made; closed as it was, or as one that came was, if any came closed. */
  ghost predicate FlagExact(dst: Tables, src: Tables, u: Tables, ids: map<int, int>, d: int, f: Flag) {
    match R.Row(u, d, f)
    case None => R.Row(dst, d, f).None? && !FlagFrom(src, ids, d, f)
    case Some(row) =>
      && (match R.Row(dst, d, f)
          case Some(was) => row.setAt == was.setAt && (was.closed.Some? ==> row == was)
          case None => SetFrom(src, ids, d, f, row.setAt))
      && (match row.closed
          case None => forall c :: !ClosedFrom(src, ids, d, f, c)
          case Some(c) => R.Row(dst, d, f) == Some(row) || ClosedFrom(src, ids, d, f, c))
  }

  ghost predicate FlagsExact(dst: Tables, src: Tables, u: Tables, ids: map<int, int>) {
    forall d, f :: FlagExact(dst, src, u, ids, d, f)
  }

  ghost predicate Exact(dst: Tables, src: Tables, m: M.Merged) {
    && EntriesExact(dst, src, m.t, m.ids) && LabelsExact(dst, src, m.t, m.ids) && FlagsExact(dst, src, m.t, m.ids)
    && m.t.links == dst.links && m.t.evidenceFirst == dst.evidenceFirst
  }

  /** `ids'` has `e` come as `d` besides. */
  ghost predicate Plus(ids: map<int, int>, ids': map<int, int>, e: int, d: int) {
    forall x, y :: Came(ids', x, y) <==> Came(ids, x, y) || (x == e && y == d)
  }

  lemma RowStillFrom(src: Tables, ids: map<int, int>, ids': map<int, int>, e: int, d: int, x: int, row: Entry)
    requires Plus(ids, ids', e, d) && (RowFrom(src, ids, x, row) || (x == d && RowOf(src, e, row)))
    ensures RowFrom(src, ids', x, row)
  {
    if RowFrom(src, ids, x, row) {
      var z :| Came(ids, z, x) && RowOf(src, z, row);
      assert Came(ids', z, x);
    } else {
      assert Came(ids', e, x);
    }
  }

  lemma EntriesStep(dst: Tables, src: Tables, t: Tables, u: Tables, ids: map<int, int>, ids': map<int, int>, e: int,
                    d: int)
    requires EntriesExact(dst, src, t, ids) && EntryComes(t, u, src, e, d) && Plus(ids, ids', e, d)
             && e in src.entries
    ensures EntriesExact(dst, src, u, ids')
  {
    forall x | x in u.entries && x !in dst.entries ensures RowFrom(src, ids', x, u.entries[x]) {
      RowStillFrom(src, ids, ids', e, d, x, u.entries[x]);
    }
  }

  lemma LabelsStep(dst: Tables, src: Tables, t: Tables, u: Tables, ids: map<int, int>, ids': map<int, int>, e: int,
                   d: int)
    requires LabelsExact(dst, src, t, ids) && LabelsCome(t, u, src, e, d) && Plus(ids, ids', e, d)
    ensures LabelsExact(dst, src, u, ids')
  {
    forall x, l ensures TagFrom(src, ids', x, l) <==>
      TagFrom(src, ids, x, l) || (x == d && l != "" && exists raw :: (e, raw) in src.tags && Label(raw) == l) {}
    forall x, p ensures ProofFrom(src, ids', x, p) <==>
      ProofFrom(src, ids, x, p) || (x == d && p != "" && exists raw :: (e, raw) in src.proofs && Trim(raw) == p) {}
  }

  /** What one entry more can bring to a flag. */
  lemma FlagFromMore(src: Tables, ids: map<int, int>, ids': map<int, int>, e: int, d: int, x: int, f: Flag)
    requires Plus(ids, ids', e, d)
    ensures FlagFrom(src, ids', x, f) <==> FlagFrom(src, ids, x, f) || (x == d && (e, f) in src.flags)
  {
    if x == d && (e, f) in src.flags { assert Came(ids', e, x); }
    if z :| Came(ids, z, x) && (z, f) in src.flags { assert Came(ids', z, x); }
  }

  lemma SetFromMore(src: Tables, ids: map<int, int>, ids': map<int, int>, e: int, d: int, x: int, f: Flag, at: int)
    requires Plus(ids, ids', e, d) && e in src.entries
    ensures SetFrom(src, ids', x, f, at) <==>
            SetFrom(src, ids, x, f, at) || (x == d && (e, f) in src.flags && src.entries[e].createdAt == at)
  {
    if x == d { assert Came(ids', e, x); }
    if z :| Came(ids, z, x) && (z, f) in src.flags && z in src.entries && src.entries[z].createdAt == at {
      assert Came(ids', z, x);
    }
  }

  lemma ClosedFromMore(src: Tables, ids: map<int, int>, ids': map<int, int>, e: int, d: int, x: int, f: Flag,
                       c: Closure)
    requires Plus(ids, ids', e, d)
    ensures ClosedFrom(src, ids', x, f, c) <==>
            ClosedFrom(src, ids, x, f, c) || (x == d && ClosureOf(src, e, f) == Some(c))
  {
    if x == d { assert Came(ids', e, x); }
    if z :| Came(ids, z, x) && ClosureOf(src, z, f) == Some(c) { assert Came(ids', z, x); }
  }

  lemma FlagStep(dst: Tables, src: Tables, t: Tables, u: Tables, ids: map<int, int>, ids': map<int, int>, e: int,
                 d: int, x: int, f: Flag)
    requires FlagExact(dst, src, t, ids, x, f) && Plus(ids, ids', e, d) && e in src.entries
    requires R.Row(u, x, f) == if x == d then RowAfter(R.Row(t, x, f), src, e, f) else R.Row(t, x, f)
    ensures FlagExact(dst, src, u, ids', x, f)
  {
    FlagFromMore(src, ids, ids', e, d, x, f);
    if R.Row(u, x, f).Some? { SetFromMore(src, ids, ids', e, d, x, f, R.Row(u, x, f).value.setAt); }
    forall c ensures ClosedFrom(src, ids', x, f, c) <==>
      ClosedFrom(src, ids, x, f, c) || (x == d && ClosureOf(src, e, f) == Some(c))
    {
      ClosedFromMore(src, ids, ids', e, d, x, f, c);
    }
  }

  /** What one entry brings keeps the whole exact. */
  lemma BringsExact(dst: Tables, src: Tables, m: M.Merged, u: M.Merged, e: int)
    requires Exact(dst, src, m) && Brings(m, u, src, e) && e !in m.ids
    ensures Exact(dst, src, u)
  {
    var d := u.ids[e];
    assert Plus(m.ids, u.ids, e, d);
    EntriesStep(dst, src, m.t, u.t, m.ids, u.ids, e, d);
    LabelsStep(dst, src, m.t, u.t, m.ids, u.ids, e, d);
    FlagsStep(dst, src, m.t, u.t, m.ids, u.ids, e, d);
  }

  lemma FlagsStep(dst: Tables, src: Tables, t: Tables, u: Tables, ids: map<int, int>, ids': map<int, int>, e: int,
                  d: int)
    requires FlagsExact(dst, src, t, ids) && Plus(ids, ids', e, d) && e in src.entries && FlagsCome(t, u, src, e, d)
    ensures FlagsExact(dst, src, u, ids')
  {
    forall x, f ensures FlagExact(dst, src, u, ids', x, f) { FlagStep(dst, src, t, u, ids, ids', e, d, x, f); }
  }

  lemma {:induction false} EntriesExactly(dst: Tables, src: Tables, m: M.Merged, order: seq<int>)
    requires src.WellFormed() && NoDup(order) && Exact(dst, src, m)
    requires forall e | e in order :: e in src.entries && M.Portable(src, e) && e !in m.ids
    ensures var u := M.MergeEntries(m, src, order);
            Exact(dst, src, u) && u.written - |u.t.entries| == m.written - |m.t.entries|
    decreases |order|
  {
    if order != [] {
      var u := M.MergeEntry(m, src, order[0]);
      EntryBrings(m, src, order[0]);
      BringsExact(dst, src, m, u, order[0]);
      NoDupHead(order, {});
      EntriesExactly(dst, src, u, order[1..]);
    }
  }

  /** A link of `from` that came as `l`. */
  ghost predicate LinkFrom(from: seq<Link>, ids: map<int, int>, l: Link) {
    l.from != l.to && exists k :: k in from && ComesAs(ids, k, l)
  }

  predicate ComesAs(ids: map<int, int>, k: Link, l: Link) {
    k.kind == l.kind && Came(ids, k.from, l.from) && Came(ids, k.to, l.to)
  }

  lemma {:induction false} LinksExactly(links: seq<Link>, from: seq<Link>, ids: map<int, int>, l: Link)
    ensures l in M.MergeLinks(links, from, ids) <==> l in links || LinkFrom(from, ids, l)
    decreases |from|
  {
    if from != [] {
      var k := from[0];
      var there := k.from in ids && k.to in ids && ids[k.from] != ids[k.to];
      var links' := if there && Link(ids[k.from], ids[k.to], k.kind) !in links
                    then links + [Link(ids[k.from], ids[k.to], k.kind)] else links;
      LinksExactly(links', from[1..], ids, l);
      assert l in links' <==> l in links || (l.from != l.to && ComesAs(ids, k, l));
      assert forall x :: x in from <==> x == k || x in from[1..];
    }
  }

  /** After a merge the other journal holds what it held and what the entries
      brought, and nothing else: each new entry as its source has it, read again,
      each tag, proof, flag, closure and link. */
  lemma MergeIsExact(dst: Tables, src: Tables, order: seq<int>)
    requires src.WellFormed() && NoDup(order) && Elems(order) == src.entries.Keys
    ensures forall e | e in order :: e in src.entries
    ensures var m := M.MergeSpec(dst, src, order);
            && EntriesExact(dst, src, m.t, m.ids) && LabelsExact(dst, src, m.t, m.ids)
            && FlagsExact(dst, src, m.t, m.ids) && m.t.evidenceFirst == dst.evidenceFirst
            && m.written == |m.t.entries| - |dst.entries|
            && forall l :: l in m.t.links <==>
                 l in dst.links || (M.AllPortable(src) && LinkFrom(src.links, m.ids, l))
  {
    M.PortableOrder(src, order);
    var part := M.Carried(src, order);
    var m0 := M.Merged(dst, map[], 0, 0);
    StartsExact(dst, src);
    EntriesExactly(dst, src, m0, part);
    var m := M.MergeEntries(m0, src, part);
    forall l ensures l in M.MergeLinks(dst.links, src.links, m.ids) <==>
      l in dst.links || LinkFrom(src.links, m.ids, l)
    {
      LinksExactly(dst.links, src.links, m.ids, l);
    }
    LinksApart(dst, src, m, M.MergeLinks(dst.links, src.links, m.ids));
  }

  lemma StartsExact(dst: Tables, src: Tables)
    ensures Exact(dst, src, M.Merged(dst, map[], 0, 0))
  {
    var ids: map<int, int> := map[];
    assert forall e, d :: !Came(ids, e, d);
    forall d, f ensures FlagExact(dst, src, dst, ids, d, f) {}
  }

  /** Links do not touch the rest. */
  lemma LinksApart(dst: Tables, src: Tables, m: M.Merged, links: seq<Link>)
    requires Exact(dst, src, m)
    ensures var t := m.t.(links := links);
            EntriesExact(dst, src, t, m.ids) && LabelsExact(dst, src, t, m.ids) && FlagsExact(dst, src, t, m.ids)
  {
    var t := m.t.(links := links);
    forall d, f ensures FlagExact(dst, src, t, m.ids, d, f) {
      assert FlagExact(dst, src, m.t, m.ids, d, f) && R.Row(t, d, f) == R.Row(m.t, d, f);
    }
  }
}
