/** Sharing a journal: `merge_into` copies every entry of one journal into
    another, merging what is already there. */
module JournalMerge {
  import opened Base
  import opened Branch
  import opened Refs
  import opened Text
  import opened Labels
  import opened JournalSpec
  import opened JournalRuns
  import opened JournalStore

  function FlagsOf(src: Tables, e: int): set<Flag> { set k | k in src.flags && k.0 == e :: k.1 }

  /** An entry of `src` as the note that is added to `dst`. */
  ghost function NoteOf(src: Tables, e: int): NewEntry
    requires e in src.entries
  {
    NewEntry(src.entries[e].body, src.entries[e].category,
             set p | p in src.tags && p.0 == e :: p.1, src.entries[e].salience,
             FlagsOf(src, e),
             set p | p in src.proofs && p.0 == e :: p.1, true)
  }

  /** History coming back: the rows of `id` that `src` has closed and `t` has open. */
  ghost function Restored(t: Tables, id: int, src: Tables, e: int, fs: set<Flag>): Tables {
    t.(flags := map k | k in t.flags ::
      if k.0 == id && k.1 in fs && src.ClosedFlag(e, k.1) && t.flags[k].closed.None? then
        t.flags[k].(closed :=
          Some(Closure(src.flags[(e, k.1)].closed.value.at, Clean(src.flags[(e, k.1)].closed.value.who),
                                           Clean(src.flags[(e, k.1)].closed.value.resolution))))
      else t.flags[k])
  }

  /** `add` takes the entry: its category and one tag are still something when
      they are read again. */
  ghost predicate Portable(src: Tables, e: int)
    requires e in src.entries
  {
    CategoryOf(NoteOf(src, e)).Some? && TagsOf(NoteOf(src, e)) != {}
  }

  /** The longest front of `order` inside `good`. */
  ghost function Front(order: seq<int>, good: set<int>): (part: seq<int>)
    ensures forall e | e in part :: e in order && e in good
  {
    if order == [] || order[0] !in good then [] else [order[0]] + Front(order[1..], good)
  }

  /** How far the loop gets: up to the first entry that `add` refuses. */
  ghost function Carried(src: Tables, order: seq<int>): (part: seq<int>)
    ensures forall e | e in part :: e in order && e in src.entries && Portable(src, e)
  {
    Front(order, set e | e in src.entries && Portable(src, e))
  }

  datatype Merged = Merged(t: Tables, ids: map<int, int>, written: nat, merged: nat)

  /** One entry: add it, then close what was closed. */
  ghost function MergeEntry(m: Merged, src: Tables, e: int): Merged
    requires e in src.entries
  {
    match AddSpec(m.t, NoteOf(src, e), src.entries[e].createdAt)
    case Err(_) => m
    case Ok(a) =>
      var fs := FlagsOf(src, e);
      Merged(Restored(a.t, a.id, src, e, fs), m.ids[e := a.id],
             if a.status.Written? then m.written + 1 else m.written,
             if a.status.Written? then m.merged else m.merged + 1)
  }

  ghost function MergeEntries(m: Merged, src: Tables, order: seq<int>): Merged
    requires forall e | e in order :: e in src.entries
    decreases |order|
  {
    if order == [] then m else MergeEntries(MergeEntry(m, src, order[0]), src, order[1..])
  }

  ghost function MergeLinks(links: seq<Link>, from: seq<Link>, ids: map<int, int>): seq<Link>
    decreases |from|
  {
    if from == [] then links
    else
      var l := from[0];
      var links' := if l.from in ids && l.to in ids && ids[l.from] != ids[l.to]
                       && Link(ids[l.from], ids[l.to], l.kind) !in links
                    then links + [Link(ids[l.from], ids[l.to], l.kind)] else links;
      MergeLinks(links', from[1..], ids)
  }

  /** All entries and then the links; or what was written before the refusal. */
  ghost function MergeSpec(dst: Tables, src: Tables, order: seq<int>): Merged
    requires forall e | e in order :: e in src.entries
  {
    var part := Carried(src, order);
    var m := MergeEntries(Merged(dst, map[], 0, 0), src, part);
    if part == order then m.(t := m.t.(links := MergeLinks(m.t.links, src.links, m.ids))) else m
  }

  // ---------------------------------------------------------------------
  // Nothing the destination had is lost, and every source entry has an image.

  ghost predicate Grows(a: Tables, b: Tables) {
    && (forall e | e in a.entries :: e in b.entries && b.entries[e] == a.entries[e])
    && a.tags <= b.tags && a.proofs <= b.proofs
    && (forall k | k in a.flags :: k in b.flags && b.flags[k].setAt == a.flags[k].setAt
                                   && (a.flags[k].closed.Some? ==> b.flags[k] == a.flags[k]))
    && a.links <= b.links && a.evidenceFirst == b.evidenceFirst
  }

  /** `d` carries everything the entry `e` of `src` had. */
  ghost predicate Image(src: Tables, e: int, t: Tables, d: int)
    requires e in src.entries
  {
    && Same(src, e, t, d)
    && (forall l | (e, l) in src.tags && Label(l) != "" :: (d, Label(l)) in t.tags)
    && (forall p | Trim(p) != "" && (e, p) in src.proofs :: (d, Trim(p)) in t.proofs)
    && (forall f | (e, f) in src.flags :: (d, f) in t.flags && (src.ClosedFlag(e, f) ==> t.ClosedFlag(d, f)))
  }

  /** `d` is an entry the same note would be merged into. */
  ghost predicate Same(src: Tables, e: int, t: Tables, d: int)
    requires e in src.entries
  {
    && d in t.entries
    && t.entries[d].body == src.entries[e].body && Some(t.entries[d].category) == CategoryOf(NoteOf(src, e))
    && t.entries[d].createdAt >= src.entries[e].createdAt - DEDUP_WINDOW_SECS
  }

  /** Every entry of `src` would be merged rather than written. */
  ghost predicate Covers(t: Tables, src: Tables) {
    forall e | e in src.entries :: exists d :: Same(src, e, t, d)
  }

  lemma GrowsThrough(a: Tables, b: Tables, c: Tables)
    requires Grows(a, b) && Grows(b, c)
    ensures Grows(a, c)
  {
  }

  lemma ImageGrows(src: Tables, e: int, t: Tables, u: Tables, d: int)
    requires e in src.entries && Image(src, e, t, d) && Grows(t, u)
    ensures Image(src, e, u, d)
  {
  }

  lemma AnnotateGrows(t: Tables, id: int, n: NewEntry, now: int)
    ensures Grows(t, Annotate(t, id, n, now))
  {
  }

  lemma NoteIsAccepted(t: Tables, src: Tables, e: int)
    requires src.WellFormed() && e in src.entries
    ensures AddSpec(t, NoteOf(src, e), src.entries[e].createdAt).Ok? <==> Portable(src, e)
    ensures AddSpec(t, NoteOf(src, e), src.entries[e].createdAt).Err? ==>
              AddSpec(t, NoteOf(src, e), src.entries[e].createdAt).error
              == if CategoryOf(NoteOf(src, e)).None? then NoCategory else NoTag
    ensures Trim(NoteOf(src, e).body) == src.entries[e].body
  {
    assert src.EntryWellFormed(e);
  }

  /** A category crosses over as it is exactly when it has no leading mark, and
      so does each tag: `add` reads them again and takes one mark off. */
  lemma CategoryCrosses(src: Tables, e: int)
    requires src.WellFormed() && e in src.entries
    ensures CategoryOf(NoteOf(src, e)) == Some(src.entries[e].category) <==> src.entries[e].category[0] != '#'
  {
    assert src.EntryWellFormed(e);
    var c := src.entries[e].category;
    LabelAgain(c);
    if c == "#" {
      CategoryNamed(NoteOf(src, e));
      if FirstFlag(NoteOf(src, e).flags).Some? { NameIsNoMark(FirstFlag(NoteOf(src, e).flags).value); }
    }
  }

  lemma NameIsNoMark(f: Flag)
    ensures FlagName(f)[0] != '#'
  {
  }

  lemma TagCrosses(src: Tables, e: int, l: string)
    requires src.WellFormed() && (e, l) in src.tags
    ensures Label(l) == l <==> l[0] != '#'
  {
    assert (e, l).1 == l;
    LabelAgain(l);
  }

  /** When every entry can cross: none is marked `#` with no flag to name it,
      and none has only the tag `#`. */
  lemma WhoIsPortable(src: Tables, e: int)
    requires src.WellFormed() && e in src.entries
    ensures Portable(src, e) <==>
            && (src.entries[e].category != "#" || exists f :: (e, f) in src.flags)
            && exists l :: l != "#" && (e, l) in src.tags
  {
    assert src.EntryWellFormed(e);
    CategoryComes(src, e);
    TagsCome(src, e);
  }

  lemma CategoryComes(src: Tables, e: int)
    requires src.WellFormed() && e in src.entries
    ensures CategoryOf(NoteOf(src, e)).Some? <==> src.entries[e].category != "#" || exists f :: (e, f) in src.flags
  {
    assert src.EntryWellFormed(e);
    var fs := NoteOf(src, e).flags;
    LabelAgain(src.entries[e].category);
    if f :| (e, f) in src.flags {
      assert (e, f).0 == e && (e, f).1 == f;
      assert f in fs;
    }
    if fs != {} { var f := SomeMember(fs); }
  }

  lemma TagsCome(src: Tables, e: int)
    requires src.WellFormed()
    ensures e in src.entries ==> (TagsOf(NoteOf(src, e)) != {} <==> exists l :: l != "#" && (e, l) in src.tags)
  {
    if e in src.entries {
      if l :| l != "#" && (e, l) in src.tags {
        assert (e, l).0 == e && (e, l).1 == l;
        LabelAgain(l);
        assert l in NoteOf(src, e).tags;
        assert Label(l) in TagsOf(NoteOf(src, e));
      }
      if TagsOf(NoteOf(src, e)) != {} {
        var t := SomeMember(TagsOf(NoteOf(src, e)));
        var l :| l in NoteOf(src, e).tags && Label(l) == t && t != "";
        assert (e, l) in src.tags;
        assert (e, l).1 == l;
        LabelAgain(l);
      }
    }
  }

  /** The entry `id` has what the note brings. */
  ghost predicate Carries(t: Tables, id: int, n: NewEntry) {
    && (forall l | l in TagsOf(n) :: (id, l) in t.tags)
    && (forall f | f in n.flags :: (id, f) in t.flags)
    && (forall p | p in n.proofs && Trim(p) != "" :: (id, Trim(p)) in t.proofs)
  }

  lemma AnnotateCarries(t: Tables, id: int, n: NewEntry, now: int)
    ensures Carries(Annotate(t, id, n, now), id, n)
  {
  }

  lemma InsertGrows(t: Tables, id: int, n: NewEntry, category: string, now: int)
    requires id !in t.entries
    ensures Grows(t, Insert(t, id, n, category, now)) && Carries(Insert(t, id, n, category, now), id, n)
  {
    var t1 := t.(entries := t.entries[id := Entry(now, category, Trim(n.body), n.salience)]);
    AnnotateCarries(t1, id, n, now);
    LinksAdded(t1.entries.Keys, t.links, id, ParseRefs(Trim(n.body)));
    AnnotateGrows(t1, id, n, now);
  }

  lemma AddGrows(t: Tables, n: NewEntry, now: int)
    requires AddSpec(t, n, now).Ok?
    ensures var a := AddSpec(t, n, now).value;
            && Grows(t, a.t) && a.id in a.t.entries && Carries(a.t, a.id, n)
            && a.t.entries[a.id].body == Trim(n.body) && a.t.entries[a.id].category == CategoryOf(n).value
            && a.t.entries[a.id].createdAt >= now - DEDUP_WINDOW_SECS
            && (a.status.Written? <==> Repeats(t, Trim(n.body), CategoryOf(n).value, now) == {})
  {
    var category := CategoryOf(n).value;
    var same := Repeats(t, Trim(n.body), category, now);
    if same == {} {
      InsertGrows(t, NextRowId(t.entries.Keys), n, category, now);
    } else {
      AnnotateGrows(t, MaxOf(same), n, now);
      AnnotateCarries(t, MaxOf(same), n, now);
    }
  }

  lemma RestoredKeeps(t: Tables, id: int, src: Tables, e: int, fs: set<Flag>)
    requires t.WellFormed() && src.WellFormed()
    ensures Restored(t, id, src, e, fs).WellFormed() && Grows(t, Restored(t, id, src, e, fs))
  {
    SameEntriesKeep(t, Restored(t, id, src, e, fs));
  }

  /** The note went in as `a`. */
  ghost predicate Noted(t: Tables, src: Tables, e: int, a: Added)
    requires e in src.entries
  {
    AddSpec(t, NoteOf(src, e), src.entries[e].createdAt) == Ok(a)
  }

  lemma NoteKeeps(t: Tables, src: Tables, e: int, a: Added)
    requires t.WellFormed() && src.WellFormed() && e in src.entries && Noted(t, src, e, a)
    ensures a.t.WellFormed() && Grows(t, a.t) && Same(src, e, a.t, a.id) && Carries(a.t, a.id, NoteOf(src, e))
  {
    NoteIsAccepted(t, src, e);
    AddKeeps(t, NoteOf(src, e), src.entries[e].createdAt);
    AddGrows(t, NoteOf(src, e), src.entries[e].createdAt);
  }

  lemma NoteIsNew(t: Tables, src: Tables, e: int, a: Added)
    requires src.WellFormed() && e in src.entries && Noted(t, src, e, a)
    ensures a.status.Deduped? <==> exists d :: Same(src, e, t, d)
  {
    var n, now := NoteOf(src, e), src.entries[e].createdAt;
    NoteIsAccepted(t, src, e);
    AddGrows(t, n, now);
    var same := Repeats(t, Trim(n.body), CategoryOf(n).value, now);
    assert forall d :: d in same <==> Same(src, e, t, d);
    if same != {} { var d := SomeMember(same); }
  }

  lemma RestoredImage(src: Tables, e: int, t: Tables, d: int)
    requires e in src.entries && Same(src, e, t, d) && Carries(t, d, NoteOf(src, e))
    ensures Image(src, e, Restored(t, d, src, e, FlagsOf(src, e)), d)
  {
    var n := NoteOf(src, e);
    forall l | (e, l) in src.tags && Label(l) != "" ensures (d, Label(l)) in t.tags {
      assert (e, l).0 == e && (e, l).1 == l;
      assert Label(l) in TagsOf(n);
    }
    forall p | (e, p) in src.proofs ensures p in n.proofs { assert (e, p).0 == e && (e, p).1 == p; }
    forall f | (e, f) in src.flags ensures f in n.flags { assert (e, f).0 == e && (e, f).1 == f; }
  }

  lemma MergeEntryKeeps(m: Merged, src: Tables, e: int, a: Added)
    requires m.t.WellFormed() && src.WellFormed() && e in src.entries && Noted(m.t, src, e, a)
    ensures var r := Restored(a.t, a.id, src, e, FlagsOf(src, e));
            r.WellFormed() && Grows(m.t, r) && Image(src, e, r, a.id)
  {
    var fs := FlagsOf(src, e);
    var r := Restored(a.t, a.id, src, e, fs);
    NoteKeeps(m.t, src, e, a);
    assert Image(src, e, r, a.id) by { RestoredImage(src, e, a.t, a.id); }
    assert r.WellFormed() && Grows(a.t, r) by { RestoredKeeps(a.t, a.id, src, e, fs); }
    assert Grows(m.t, r) by { GrowsThrough(m.t, a.t, r); }
  }

  /** One entry: the destination only grows, stays consistent, and holds the image. */
  lemma MergeEntryEmbeds(m: Merged, src: Tables, e: int)
    requires m.t.WellFormed() && src.WellFormed() && e in src.entries && Portable(src, e)
    ensures var r := MergeEntry(m, src, e);
            && r.t.WellFormed() && Grows(m.t, r.t)
            && r.ids.Keys == m.ids.Keys + {e} && (forall x | x in m.ids && x != e :: r.ids[x] == m.ids[x])
            && Image(src, e, r.t, r.ids[e])
            && r.written + r.merged == m.written + m.merged + 1 && r.written >= m.written
            && (r.written == m.written <==> exists d :: Same(src, e, m.t, d))
  {
    NoteIsAccepted(m.t, src, e);
    var a := AddSpec(m.t, NoteOf(src, e), src.entries[e].createdAt).value;
    MergeEntryKeeps(m, src, e, a);
    NoteIsNew(m.t, src, e, a);
  }

  ghost predicate Embedded(src: Tables, m: Merged, done: set<int>) {
    && done <= src.entries.Keys && m.ids.Keys == done
    && forall e | e in done :: Image(src, e, m.t, m.ids[e])
  }

  lemma ImagesGrow(src: Tables, a: Merged, b: Merged, done: set<int>)
    requires Embedded(src, a, done) && Grows(a.t, b.t)
    requires forall x | x in done :: x in b.ids && b.ids[x] == a.ids[x]
    ensures forall x | x in done :: Image(src, x, b.t, b.ids[x])
  {
    forall x | x in done ensures Image(src, x, b.t, b.ids[x]) {
      ImageGrows(src, x, a.t, b.t, a.ids[x]);
    }
  }

  /** The entries in `done` are merged, and nothing of `dst` is lost. */
  ghost predicate Underway(dst: Tables, src: Tables, m: Merged, done: set<int>) {
    m.t.WellFormed() && Grows(dst, m.t) && Embedded(src, m, done)
  }

  lemma UnderwayStep(dst: Tables, src: Tables, m: Merged, done: set<int>, e: int)
    requires src.WellFormed() && Underway(dst, src, m, done) && e in src.entries && e !in done && Portable(src, e)
    ensures Underway(dst, src, MergeEntry(m, src, e), done + {e})
  {
    var m' := MergeEntry(m, src, e);
    MergeEntryEmbeds(m, src, e);
    assert forall x | x in done :: Image(src, x, m'.t, m'.ids[x]) by { ImagesGrow(src, m, m', done); }
    assert Grows(dst, m'.t) by { GrowsThrough(dst, m.t, m'.t); }
  }

  lemma {:induction false} MergeEntriesEmbed(dst: Tables, src: Tables, m: Merged, order: seq<int>, done: set<int>)
    requires src.WellFormed() && Underway(dst, src, m, done)
    requires NoDup(order) && forall e | e in order :: e in src.entries && e !in done && Portable(src, e)
    ensures Underway(dst, src, MergeEntries(m, src, order), done + Elems(order))
    decreases |order|
  {
    if order == [] {
      assert done + Elems(order) == done;
    } else {
      NoDupHead(order, done);
      UnderwayStep(dst, src, m, done, order[0]);
      MergeEntriesEmbed(dst, src, MergeEntry(m, src, order[0]), order[1..], done + {order[0]});
    }
  }

  lemma {:induction false} MergeEntriesCount(m: Merged, src: Tables, order: seq<int>)
    requires m.t.WellFormed() && src.WellFormed()
    requires forall e | e in order :: e in src.entries && Portable(src, e)
    ensures var r := MergeEntries(m, src, order);
            && r.written + r.merged == m.written + m.merged + |order| && r.written >= m.written
            && (Covers(m.t, src) ==> r.written == m.written)
    decreases |order|
  {
    if order != [] {
      var m' := MergeEntry(m, src, order[0]);
      MergeEntryEmbeds(m, src, order[0]);
      CoversGrows(m.t, m'.t, src);
      MergeEntriesCount(m', src, order[1..]);
    }
  }

  lemma CoversGrows(t: Tables, u: Tables, src: Tables)
    requires Grows(t, u)
    ensures Covers(t, src) ==> Covers(u, src)
  {
    if Covers(t, src) {
      forall e | e in src.entries ensures exists d :: Same(src, e, u, d) {
        var d :| Same(src, e, t, d);
        assert Same(src, e, u, d);
      }
    }
  }

  /** A link between the images of two entries. */
  ghost predicate Mapped(l: Link, ids: map<int, int>) {
    l.from != l.to && exists a, b :: a in ids && b in ids && ids[a] == l.from && ids[b] == l.to
  }

  lemma {:induction false} MergeLinksCopies(links: seq<Link>, from: seq<Link>, ids: map<int, int>)
    ensures var r := MergeLinks(links, from, ids);
            && links <= r && (NoDup(links) ==> NoDup(r))
            && (forall l | l in from && l.from in ids && l.to in ids && ids[l.from] != ids[l.to] ::
                  Link(ids[l.from], ids[l.to], l.kind) in r)
            && (forall l | l in r :: l in links || Mapped(l, ids))
    decreases |from|
  {
    if from != [] {
      var l := from[0];
      var links' := if l.from in ids && l.to in ids && ids[l.from] != ids[l.to]
                       && Link(ids[l.from], ids[l.to], l.kind) !in links
                    then links + [Link(ids[l.from], ids[l.to], l.kind)] else links;
      if links' != links && NoDup(links) { NoDupConcat(links, [Link(ids[l.from], ids[l.to], l.kind)]); }
      MergeLinksCopies(links', from[1..], ids);
      assert from == [l] + from[1..];
      var r := MergeLinks(links', from[1..], ids);
      assert forall x | x in links' :: x in r by {
        forall x | x in links' ensures x in r { var i :| 0 <= i < |links'| && links'[i] == x; assert r[i] == x; }
      }
    }
  }

  lemma LinksMerged(m: Merged, src: Tables)
    requires m.t.WellFormed() && src.WellFormed() && Embedded(src, m, src.entries.Keys)
    ensures var t := m.t.(links := MergeLinks(m.t.links, src.links, m.ids));
            && t.WellFormed() && Grows(m.t, t) && Embedded(src, m.(t := t), src.entries.Keys) && Covers(t, src)
            && (forall l | l in src.links && m.ids[l.from] != m.ids[l.to] ::
              Link(m.ids[l.from], m.ids[l.to], l.kind) in t.links)
  {
    var t := m.t.(links := MergeLinks(m.t.links, src.links, m.ids));
    MergeLinksCopies(m.t.links, src.links, m.ids);
    forall e | e in m.ids ensures m.ids[e] in m.t.entries { assert Image(src, e, m.t, m.ids[e]); }
    SameEntriesKeep(m.t, t);
    forall e | e in src.entries ensures Image(src, e, t, m.ids[e]) && Same(src, e, t, m.ids[e]) {
      ImageGrows(src, e, m.t, t, m.ids[e]);
    }
  }

  /** Every entry of `src` can cross. */
  ghost predicate AllPortable(src: Tables) { forall e | e in src.entries :: Portable(src, e) }

  lemma {:induction false} FrontIs(order: seq<int>, good: set<int>)
    ensures Front(order, good) == order <==> forall e | e in order :: e in good
    ensures NoDup(order) ==> NoDup(Front(order, good))
  {
    if order != [] && order[0] in good {
      var rest := Front(order[1..], good);
      FrontIs(order[1..], good);
      assert order == [order[0]] + order[1..];
      if NoDup(order) {
        NoDupHead(order, {});
        NoDupCons(order[0], rest);
      }
    }
    assert forall e :: e in order <==> order != [] && (e == order[0] || e in order[1..]);
  }

  lemma PortableOrder(src: Tables, order: seq<int>)
    requires Elems(order) == src.entries.Keys
    ensures forall e | e in order :: e in src.entries
    ensures NoDup(order) ==> NoDup(Carried(src, order))
    ensures Carried(src, order) == order <==> AllPortable(src)
    ensures Elems(Carried(src, order)) == src.entries.Keys <==> AllPortable(src)
  {
    OrderInside(src, order);
    FrontIs(order, set e | e in src.entries && Portable(src, e));
    forall e | e in src.entries ensures e in order { assert e in Elems(order); }
    if Elems(Carried(src, order)) == src.entries.Keys {
      forall e | e in src.entries ensures Portable(src, e) { assert e in Elems(Carried(src, order)); }
    }
  }

  /** Merging embeds the source as far as it gets, and it gets through exactly
      when every entry can cross. Each entry then has an image with the same
      text, its category and tags read again, its proofs and flags (the closed
      ones closed); every link between entries that stay apart is there; and a
      destination that covers the source already gets no new entry. Either way
      nothing the destination had is lost, and the result is consistent. */
  lemma MergeEmbeds(dst: Tables, src: Tables, order: seq<int>)
    requires dst.WellFormed() && src.WellFormed()
    requires NoDup(order) && Elems(order) == src.entries.Keys
    ensures forall e | e in order :: e in src.entries
    ensures var m := MergeSpec(dst, src, order);
            && m.t.WellFormed() && Grows(dst, m.t) && Embedded(src, m, m.ids.Keys)
            && (m.ids.Keys == src.entries.Keys <==> AllPortable(src))
            && (AllPortable(src) ==> MergedWhole(dst, src, m))
  {
    PortableOrder(src, order);
    var part := Carried(src, order);
    EntriesAllEmbed(dst, src, part);
    if AllPortable(src) { WholeEmbeds(dst, src, order); }
  }

  /** All entries and all links came. */
  ghost predicate MergedWhole(dst: Tables, src: Tables, m: Merged) {
    && m.ids.Keys == src.entries.Keys
    && (forall l | l in src.links && l.from in m.ids && l.to in m.ids && m.ids[l.from] != m.ids[l.to] ::
          Link(m.ids[l.from], m.ids[l.to], l.kind) in m.t.links)
    && m.written + m.merged == |src.entries| && Covers(m.t, src)
    && (Covers(dst, src) ==> m.written == 0)
  }

  lemma WholeEmbeds(dst: Tables, src: Tables, order: seq<int>)
    requires dst.WellFormed() && src.WellFormed() && AllPortable(src)
    requires NoDup(order) && Elems(order) == src.entries.Keys
    ensures forall e | e in order :: e in src.entries
    ensures var m := MergeSpec(dst, src, order);
            && m.t.WellFormed() && Grows(dst, m.t) && Embedded(src, m, src.entries.Keys) && MergedWhole(dst, src, m)
  {
    PortableOrder(src, order);
    EntriesEmbed(dst, src, order);
    var m1 := MergeEntries(Merged(dst, map[], 0, 0), src, order);
    LinksMerged(m1, src);
    GrowsThrough(dst, m1.t, MergeSpec(dst, src, order).t);
  }

  lemma EntriesEmbed(dst: Tables, src: Tables, order: seq<int>)
    requires dst.WellFormed() && src.WellFormed() && AllPortable(src)
    requires NoDup(order) && Elems(order) == src.entries.Keys
    ensures var m := MergeEntries(Merged(dst, map[], 0, 0), src, order);
            && m.t.WellFormed() && Grows(dst, m.t) && Embedded(src, m, src.entries.Keys)
            && m.written + m.merged == |src.entries|
            && (Covers(dst, src) ==> m.written == 0)
  {
    OrderInside(src, order);
    EntriesCount(dst, src, order);
    EntriesAllEmbed(dst, src, order);
  }

  lemma EntriesAllEmbed(dst: Tables, src: Tables, order: seq<int>)
    requires dst.WellFormed() && src.WellFormed() && NoDup(order)
    requires forall e | e in order :: e in src.entries && Portable(src, e)
    ensures Underway(dst, src, MergeEntries(Merged(dst, map[], 0, 0), src, order), Elems(order))
  {
    var m0 := Merged(dst, map[], 0, 0);
    assert Underway(dst, src, m0, {});
    MergeEntriesEmbed(dst, src, m0, order, {});
    NothingAnd(Elems(order));
  }

  lemma OrderInside(src: Tables, order: seq<int>)
    requires Elems(order) == src.entries.Keys
    ensures forall e | e in order :: e in src.entries
  {
    forall e | e in order ensures e in src.entries { assert e in Elems(order); }
  }

  lemma EntriesCount(dst: Tables, src: Tables, order: seq<int>)
    requires dst.WellFormed() && src.WellFormed() && (forall e | e in order :: e in src.entries && Portable(src, e))
    requires NoDup(order) && Elems(order) == src.entries.Keys
    ensures var m := MergeEntries(Merged(dst, map[], 0, 0), src, order);
            m.written + m.merged == |src.entries| && (Covers(dst, src) ==> m.written == 0)
  {
    MergeEntriesCount(Merged(dst, map[], 0, 0), src, order);
    NoDupSize(order);
  }

  // ---------------------------------------------------------------------
  // The loop.

  ghost predicate OlderFirst(t: Tables, order: seq<int>) {
    forall i, j | 0 <= i < j < |order| :: Older(t, order[i], order[j])
  }

  predicate Older(t: Tables, a: int, b: int) {
    && a in t.entries && b in t.entries
    && (t.entries[a].createdAt < t.entries[b].createdAt || (t.entries[a].createdAt == t.entries[b].createdAt && a < b))
  }

  /** `SELECT id FROM entries ORDER BY created_at, id`. */
  method EntriesInOrder(src: Journal) returns (order: seq<int>)
    ensures NoDup(order) && Elems(order) == src.entries.Keys
    ensures OlderFirst(src.View(), order)
  {
    order := [];
    var rest := src.entries.Keys;
    while rest != {}
      invariant rest <= src.entries.Keys && NoDup(order) && Elems(order) == src.entries.Keys - rest
      invariant OlderFirst(src.View(), order)
      invariant forall a, b | a in order && b in rest :: Older(src.View(), a, b)
      decreases rest
    {
      var e := Oldest(src, rest);
      NoDupConcat(order, [e]);
      assert Elems(order + [e]) == Elems(order) + {e};
      order := order + [e];
      rest := rest - {e};
    }
  }

  method Oldest(src: Journal, ids: set<int>) returns (e: int)
    requires ids != {} && ids <= src.entries.Keys
    ensures e in ids && forall x | x in ids && x != e :: Older(src.View(), e, x)
  {
    ghost var some := SomeMember(ids);
    e :| e in ids;
    var rest := ids - {e};
    while rest != {}
      invariant rest <= ids && e in ids && e !in rest
      invariant forall x | x in ids && x !in rest && x != e :: Older(src.View(), e, x)
      decreases rest
    {
      ghost var other := SomeMember(rest);
      var x :| x in rest;
      rest := rest - {x};
      if Older(src.View(), x, e) { e := x; }
    }
  }

  /** `t` and `r` are what a merge of `src` into `dst` leaves and answers. */
  ghost predicate Merges(dst: Tables, src: Tables, order: seq<int>, t: Tables, r: Result<(nat, nat), Error>) {
    && NoDup(order) && Elems(order) == src.entries.Keys && OlderFirst(src, order)
    && (forall e | e in order :: e in src.entries)
    && var m := MergeSpec(dst, src, order); m.t == t && (r.Ok? ==> r.value == (m.written, m.merged))
  }

  /** What the two loops did is the merge, and what the merge promises holds. */
  lemma MergeEnds(dst: Tables, src: Tables, order: seq<int>, m: Merged, t: Tables, r: Result<(nat, nat), Error>)
    requires dst.WellFormed() && src.WellFormed()
    requires NoDup(order) && Elems(order) == src.entries.Keys && OlderFirst(src, order)
             && (forall e | e in order :: e in src.entries)
    requires m == MergeEntries(Merged(dst, map[], 0, 0), src, Carried(src, order))
    requires r.Ok? <==> Carried(src, order) == order
    requires t == if r.Ok? then m.t.(links := MergeLinks(m.t.links, src.links, m.ids)) else m.t
    requires r.Ok? ==> r.value == (m.written, m.merged)
    ensures Merges(dst, src, order, t, r) && (r.Ok? <==> AllPortable(src)) && t.WellFormed() && Grows(dst, t)
    ensures r.Ok? ==> Covers(t, src) && (Covers(dst, src) ==> r.value.0 == 0)
  {
    PortableOrder(src, order);
    MergeEmbeds(dst, src, order);
  }

  /** `merge_into`: entries oldest first, then the links between them. It
      fails at the first entry that `add` refuses, and what was copied stays. */
  method MergeInto(dst: Journal, src: Journal) returns (r: Result<(nat, nat), Error>)
    requires dst != src && dst.View().WellFormed() && src.View().WellFormed()
    modifies dst
    ensures src.View() == old(src.View())
    ensures r.Ok? <==> AllPortable(src.View())
    ensures exists order :: Merges(old(dst.View()), src.View(), order, dst.View(), r)
    ensures dst.View().WellFormed() && Grows(old(dst.View()), dst.View())
    ensures r.Ok? ==> Covers(dst.View(), src.View()) && (Covers(old(dst.View()), src.View()) ==> r.value.0 == 0)
  {
    ghost var s, d := src.View(), dst.View();
    var order := EntriesInOrder(src);
    OrderInside(s, order);
    var all, ids, written, merged := CopyEntries(dst, src, order);
    ghost var m := Merged(dst.View(), ids, written, merged);
    if all.Ok? {
      CopyLinks(dst, src, ids);
      r := Ok((written, merged));
    } else {
      r := Err(all.error);
    }
    MergeEnds(d, s, order, m, dst.View(), r);
  }

  method CopyEntries(dst: Journal, src: Journal, order: seq<int>)
      returns (all: Result<(), Error>, ids: map<int, int>, written: nat, merged: nat)
    requires dst != src && dst.View().WellFormed() && src.View().WellFormed()
    requires forall e | e in order :: e in src.entries
    modifies dst
    ensures src.View() == old(src.View())
    ensures all.Ok? <==> Carried(src.View(), order) == order
    ensures Merged(dst.View(), ids, written, merged)
            == MergeEntries(Merged(old(dst.View()), map[], 0, 0), src.View(), Carried(src.View(), order))
  {
    ghost var s := src.View();
    ghost var goal := MergeEntries(Merged(dst.View(), map[], 0, 0), s, Carried(s, order));
    ids, written, merged := map[], 0, 0;
    assert order[0..] == order;
    for i := 0 to |order|
      invariant src.View() == s && dst.View().WellFormed()
      invariant MergeEntries(Merged(dst.View(), ids, written, merged), s, Carried(s, order[i..])) == goal
      invariant Carried(s, order) == order <==> Carried(s, order[i..]) == order[i..]
    {
      ghost var before := Merged(dst.View(), ids, written, merged);
      CarryOne(before, s, order, i);
      all, ids, written, merged := CopyEntry(dst, src, order[i], ids, written, merged);
      if all.Err? { return; }
    }
    all := Ok(());
  }

  /** The next entry is carried and merged, or ends the loop. */
  lemma CarryOne(m: Merged, src: Tables, order: seq<int>, i: nat)
    requires m.t.WellFormed() && src.WellFormed() && i < |order| && forall e | e in order :: e in src.entries
    ensures var rest := order[i + 1..];
            if Portable(src, order[i]) then
              && MergeEntry(m, src, order[i]).t.WellFormed()
              && (Carried(src, order[i..]) == order[i..] <==> Carried(src, rest) == rest)
              && MergeEntries(m, src, Carried(src, order[i..]))
                == MergeEntries(MergeEntry(m, src, order[i]), src, Carried(src, rest))
            else
              && MergeEntry(m, src, order[i]) == m
              && Carried(src, order[i..]) == [] != order[i..] && MergeEntries(m, src, Carried(src, order[i..])) == m
  {
    var e, rest := order[i], order[i + 1..];
    assert order[i..] == [e] + rest && order[i..][1..] == rest;
    if Portable(src, e) {
      MergeEntryEmbeds(m, src, e);
      var part := Carried(src, order[i..]);
      assert part == [e] + Carried(src, rest) && part[1..] == Carried(src, rest);
    } else {
      NoteIsAccepted(m.t, src, e);
    }
  }

  method CopyLinks(dst: Journal, src: Journal, ids: map<int, int>)
    requires dst != src
    modifies dst`links
    ensures dst.links == MergeLinks(old(dst.links), src.links, ids)
    ensures dst.View() == old(dst.View()).(links := dst.links) && src.View() == old(src.View())
  {
    var ls := src.links;
    for i := 0 to |ls|
      invariant src.links == ls
      invariant MergeLinks(dst.links, ls[i..], ids) == MergeLinks(old(dst.links), ls, ids)
    {
      var l := ls[i];
      assert ls[i..][0] == l && ls[i..][1..] == ls[i + 1..];
      if l.from in ids && l.to in ids && ids[l.from] != ids[l.to]
        && Link(ids[l.from], ids[l.to], l.kind) !in dst.links {
        dst.links := dst.links + [Link(ids[l.from], ids[l.to], l.kind)];
      }
    }
  }

  method AddNote(dst: Journal, src: Journal, e: int) returns (a: Result<(AddStatus, int), Error>)
    requires dst != src && e in src.entries && src.View().WellFormed()
    modifies dst
    ensures src.View() == old(src.View())
    ensures match AddSpec(old(dst.View()), NoteOf(src.View(), e), src.entries[e].createdAt)
            case Ok(x) => a == Ok((x.status, x.id)) && dst.View() == x.t && x.id in dst.entries
            case Err(x) => a == Err(x) && dst.View() == old(dst.View())
    ensures a.Ok? <==> Portable(src.View(), e)
  {
    NoteIsAccepted(dst.View(), src.View(), e);
    ghost var t := dst.View();
    var note := NewEntry(src.entries[e].body, src.entries[e].category,
                         set p | p in src.tags && p.0 == e :: p.1, src.entries[e].salience,
                         FlagsOf(src.View(), e),
                         set p | p in src.proofs && p.0 == e :: p.1, true);
    a := dst.Add(note, src.entries[e].createdAt);
    if a.Ok? { AddGrows(t, note, src.entries[e].createdAt); }
  }

  /** One entry across: `add` it as it is, then close each flag it had closed. */
  method CopyEntry(dst: Journal, src: Journal, e: int, ids0: map<int, int>, written0: nat, merged0: nat)
      returns (r: Result<(), Error>, ids: map<int, int>, written: nat, merged: nat)
    requires dst != src && e in src.entries && src.View().WellFormed()
    modifies dst
    ensures src.View() == old(src.View()) && (r.Ok? <==> Portable(src.View(), e))
    ensures Merged(dst.View(), ids, written, merged)
            == MergeEntry(Merged(old(dst.View()), ids0, written0, merged0), src.View(), e)
  {
    var a := AddNote(dst, src, e);
    if a.Err? { return Err(a.error), ids0, written0, merged0; }
    RestoreFlags(dst, a.value.1, src, e, FlagsOf(src.View(), e));
    r, ids, written, merged := Ok(()), ids0[e := a.value.1], written0, merged0;
    if a.value.0.Written? { written := written + 1; } else { merged := merged + 1; }
  }

  method RestoreFlags(dst: Journal, id: int, src: Journal, e: int, fs: set<Flag>)
    requires dst != src && src.View().WellFormed() && id in dst.entries
    modifies dst`flags
    ensures src.View() == old(src.View())
    ensures dst.View() == Restored(old(dst.View()), id, src.View(), e, fs)
  {
    ghost var t, s := dst.View(), src.View();
    var rest := fs;
    assert t.flags == Restored(t, id, s, e, {}).flags;
    while rest != {}
      invariant rest <= fs && src.View() == s
      invariant dst.View() == Restored(t, id, s, e, fs - rest)
      decreases rest
    {
      var f :| f in rest;
      RestoredStep(t, id, s, e, fs - rest, f);
      assert fs - (rest - {f}) == (fs - rest) + {f};
      if src.View().ClosedFlag(e, f) {
        var c := src.flags[(e, f)].closed.value;
        RestoreOne(dst.View(), id, f, c);
        var ignored := dst.CloseWith(id, {f}, c.who, c.resolution, c.at, Restore);
      }
      rest := rest - {f};
    }
    assert fs - rest == fs;
  }

  /** A restoring close takes just the named flag, when it is open, with no gate. */
  lemma RestoreOne(t: Tables, id: int, f: Flag, c: Closure)
    requires id in t.entries && Closable(f)
    ensures var r := CloseSpec(t, id, {f}, c.who, c.resolution, c.at, Restore);
            if t.OpenFlag(id, f) then
              r.Ok? && r.value.t == WithClosed(t, {(id, f)}, Closure(c.at, Clean(c.who), Clean(c.resolution)))
            else r.Err?
  {
    if t.OpenFlag(id, f) {
      assert (id, f) in t.flags && (id, f).0 == id;
      assert {f} <= t.OpenItems(id);
      assert Closing(t, id, {f}, Restore) == {(id, f)} by {
        assert Closes(t, id, {f}, Restore, (id, f));
        forall k | k in Closing(t, id, {f}, Restore) ensures k == (id, f) {
          assert Closes(t, id, {f}, Restore, k);
        }
      }
    } else {
      assert f !in t.OpenItems(id);
      assert f in {f};
    }
  }

  lemma RestoredStep(t: Tables, id: int, src: Tables, e: int, fs: set<Flag>, f: Flag)
    ensures var u := Restored(t, id, src, e, fs);
            Restored(t, id, src, e, fs + {f}) ==
            if src.ClosedFlag(e, f) && u.OpenFlag(id, f) then
              WithClosed(u, {(id, f)},
                Closure(src.flags[(e, f)].closed.value.at, Clean(src.flags[(e, f)].closed.value.who),
                                              Clean(src.flags[(e, f)].closed.value.resolution)))
            else u
  {
    var u := Restored(t, id, src, e, fs);
    var v := Restored(t, id, src, e, fs + {f});
    forall k | k in t.flags && k != (id, f) ensures v.flags[k] == u.flags[k] {
      assert k == (k.0, k.1);
    }
    if !(src.ClosedFlag(e, f) && u.OpenFlag(id, f)) {
      assert v.flags == u.flags;
    } else {
      var w := WithClosed(u, {(id, f)},
        Closure(src.flags[(e, f)].closed.value.at, Clean(src.flags[(e, f)].closed.value.who),
                                                Clean(src.flags[(e, f)].closed.value.resolution)));
      assert v.flags == w.flags;
    }
  }

  /** Sharing again finds everything merged: no new entry is written. */
  method MergeTwice(dst: Journal, src: Journal) returns (r: Result<(nat, nat), Error>)
    requires dst != src && dst.View().WellFormed() && src.View().WellFormed()
    modifies dst
    ensures r.Ok? <==> AllPortable(src.View())
    ensures r.Ok? ==> r.value.1 == 0
    ensures dst.View().WellFormed() && Grows(old(dst.View()), dst.View()) && src.View() == old(src.View())
  {
    var first := MergeInto(dst, src);
    if first.Err? { return Err(first.error); }
    ghost var once := dst.View();
    var again := MergeInto(dst, src);
    GrowsThrough(old(dst.View()), once, dst.View());
    return Ok((first.value.0, again.value.0));
  }
}
