/** What every journal operation keeps, and what holds over whole runs. */
module JournalRuns {
  import opened Base
  import opened Branch
  import opened Refs
  import opened Text
  import opened Labels
  import opened JournalSpec

  datatype Step =
    | Add(note: NewEntry, now: int)
    | Mark(id: int, flags: set<Flag>, now: int)
    | Unmark(id: int, flags: set<Flag>)
    | Close(id: int, flags: set<Flag>, who: Option<string>, resolution: Option<string>, now: int, mode: CloseMode)
    | Reopen(id: int, flags: set<Flag>)
    | LinkUp(from: int, to: int, kind: LinkKind)
    | Unlink(from: int, to: int, only: Option<LinkKind>)
    | Policy(on: bool)
    | Gc(now: int)
    | Delete(id: int)

  ghost function OrElse(r: Result<Tables, Error>, t: Tables): Tables {
    match r case Ok(t') => t' case Err(_) => t
  }

  ghost function Apply(t: Tables, s: Step): Tables {
    match s
    case Add(n, now) => (match AddSpec(t, n, now) case Ok(a) => a.t case Err(_) => t)
    case Mark(id, fs, now) => OrElse(MarkSpec(t, id, fs, now), t)
    case Unmark(id, fs) => OrElse(UnmarkSpec(t, id, fs), t)
    case Close(id, fs, who, res, now, mode) =>
      (match CloseSpec(t, id, fs, who, res, now, mode) case Ok(c) => c.t case Err(_) => t)
    case Reopen(id, fs) => OrElse(ReopenSpec(t, id, fs), t)
    case LinkUp(from, to, kind) => OrElse(LinkSpec(t, from, to, kind), t)
    case Unlink(from, to, only) => UnlinkSpec(t, from, to, only)
    case Policy(on) => t.(evidenceFirst := on)
    case Gc(now) => WithoutEntries(t, Dead(t, now))
    case Delete(id) => WithoutEntries(t, {id})
  }

  ghost function Run(t: Tables, steps: seq<Step>): Tables
    decreases |steps|
  {
    if steps == [] then t else Run(Apply(t, steps[0]), steps[1..])
  }

  // ---------------------------------------------------------------------
  // Well-formedness.

  lemma {:induction false} KeptLinks(links: seq<Link>, drop: Link -> bool)
    ensures forall l :: l in KeepLinks(links, drop) <==> l in links && !drop(l)
    ensures NoDup(links) ==> NoDup(KeepLinks(links, drop))
  {
    if links != [] {
      var rest := KeepLinks(links[1..], drop);
      KeptLinks(links[1..], drop);
      assert forall l :: l in links <==> l == links[0] || l in links[1..];
      if NoDup(links) {
        assert NoDup(links[1..]) && links[0] !in links[1..];
        if !drop(links[0]) { NoDupCons(links[0], rest); }
      }
    }
  }

  lemma {:induction false} LinksAdded(entries: set<int>, links: seq<Link>, id: int, refs: seq<Ref>)
    ensures var r := WithLinks(entries, links, id, refs);
            && links <= r && (NoDup(links) ==> NoDup(r))
            && forall l | l in r :: l in links || (l.from == id && l.to != id && l.to in entries
                                                   && exists x :: x in refs && l == Link(id, x.id, x.kind))
    decreases |refs|
  {
    if refs != [] {
      var l := Link(id, refs[0].id, refs[0].kind);
      var links' := if l.to != id && l.to in entries && l !in links then links + [l] else links;
      if links' != links && NoDup(links) { NoDupConcat(links, [l]); }
      LinksAdded(entries, links', id, refs[1..]);
      assert refs[0] in refs && forall x | x in refs[1..] :: x in refs;
    }
  }

  lemma AnnotateKeeps(t: Tables, id: int, n: NewEntry, now: int)
    requires t.WellFormed() && id in t.entries
    ensures Annotate(t, id, n, now).WellFormed()
  {
    var a := Annotate(t, id, n, now);
    TagsNamed(n);
    forall e | e in a.entries ensures a.EntryWellFormed(e) {
      assert t.EntryWellFormed(e);
    }
  }

  lemma ItemNamed(f: Flag)
    requires Closable(f)
    ensures IsLabel(FlagName(f))
  {
  }

  lemma MarkNamed(f: Flag)
    requires !Closable(f)
    ensures IsLabel(FlagName(f))
  {
  }

  lemma CategoryNamed(n: NewEntry)
    ensures CategoryOf(n).Some? ==> IsLabel(CategoryOf(n).value)
  {
    LabelIsPlain(n.category);
    if Label(n.category) == "" && FirstFlag(n.flags).Some? {
      var f := FirstFlag(n.flags).value;
      if Closable(f) { ItemNamed(f); } else { MarkNamed(f); }
      assert CategoryOf(n) == Some(if f.Bugreport? then "bug" else FlagName(f));
    }
  }

  lemma TagsNamed(n: NewEntry)
    ensures forall l | l in TagsOf(n) :: IsLabel(l)
  {
    forall l | l in TagsOf(n) ensures IsLabel(l) {
      var raw :| raw in n.tags && Label(raw) == l && l != "";
      LabelIsPlain(raw);
    }
  }

  lemma InsertKeeps(t: Tables, id: int, n: NewEntry, category: string, now: int)
    requires t.WellFormed() && id !in t.entries && id >= 1 && IsLabel(category)
    requires 0 < |Trim(n.body)| <= MAX_BODY_CHARS && TagsOf(n) != {}
    ensures Insert(t, id, n, category, now).WellFormed()
  {
    var t1 := t.(entries := t.entries[id := Entry(now, category, Trim(n.body), n.salience)]);
    var a := Annotate(t1, id, n, now);
    var r := Insert(t, id, n, category, now);
    LinksAdded(t1.entries.Keys, a.links, id, ParseRefs(Trim(n.body)));
    TrimTwice(n.body);
    TagsNamed(n);
    forall e | e in r.entries ensures r.EntryWellFormed(e) {
      if e == id {
        var l := SomeMember(TagsOf(n));
        assert (id, l) in r.tags;
      } else {
        assert t.EntryWellFormed(e);
      }
    }
  }

  lemma AddKeeps(t: Tables, n: NewEntry, now: int)
    requires t.WellFormed() && AddSpec(t, n, now).Ok?
    ensures AddSpec(t, n, now).value.t.WellFormed()
    ensures AddSpec(t, n, now).value.id in AddSpec(t, n, now).value.t.entries
  {
    var category := CategoryOf(n).value;
    var same := Repeats(t, Trim(n.body), category, now);
    CategoryNamed(n);
    if same != {} {
      AnnotateKeeps(t, MaxOf(same), n, now);
    } else {
      var id := NextRowId(t.entries.Keys);
      if t.entries.Keys != {} { assert t.EntryWellFormed(MaxOf(t.entries.Keys)); }
      InsertKeeps(t, id, n, category, now);
    }
  }

  lemma WithoutKeeps(t: Tables, gone: set<int>)
    requires t.WellFormed()
    ensures WithoutEntries(t, gone).WellFormed()
  {
    var r := WithoutEntries(t, gone);
    KeptLinks(t.links, Touches(gone));
    forall e | e in r.entries ensures r.EntryWellFormed(e) {
      assert t.EntryWellFormed(e);
      var tag :| (e, tag) in t.tags;
      assert (e, tag) in r.tags;
    }
  }

  lemma SameEntriesKeep(t: Tables, r: Tables)
    requires t.WellFormed()
    requires r.entries == t.entries && r.tags == t.tags && r.proofs == t.proofs
    requires forall k | k in r.flags :: k.0 in t.entries && (r.flags[k].closed.Some? ==> Closable(k.1))
    requires NoDup(r.links) && forall l | l in r.links :: l.from in t.entries && l.to in t.entries && l.from != l.to
    ensures r.WellFormed()
  {
    forall e | e in r.entries ensures r.EntryWellFormed(e) { assert t.EntryWellFormed(e); }
  }

  lemma CloseTargetsClosable(t: Tables, id: int, named: set<Flag>, who: Option<string>, res: Option<string>, now: int,
                             mode: CloseMode)
    requires CloseSpec(t, id, named, who, res, now, mode).Ok?
    ensures var targets := TargetsOf(named, t.OpenItems(id));
            forall f | f in targets :: Closable(f) && t.OpenFlag(id, f)
  {
  }

  lemma CloseKeeps(t: Tables, s: Step)
    requires t.WellFormed() && s.Close?
    ensures Apply(t, s).WellFormed()
  {
    if CloseSpec(t, s.id, s.flags, s.who, s.resolution, s.now, s.mode).Ok? {
      CloseTargetsClosable(t, s.id, s.flags, s.who, s.resolution, s.now, s.mode);
      SameEntriesKeep(t, Apply(t, s));
    }
  }

  lemma FlagStepKeeps(t: Tables, s: Step)
    requires t.WellFormed() && (s.Mark? || s.Unmark? || s.Reopen? || s.Policy?)
    ensures Apply(t, s).WellFormed()
  {
    SameEntriesKeep(t, Apply(t, s));
  }

  lemma LinkStepKeeps(t: Tables, s: Step)
    requires t.WellFormed() && (s.LinkUp? || s.Unlink?)
    ensures Apply(t, s).WellFormed()
  {
    if s.Unlink? {
      KeptLinks(t.links, Unlinks(s.from, s.to, s.only));
      SameEntriesKeep(t, Apply(t, s));
    } else if Apply(t, s) != t {
      NoDupConcat(t.links, [Link(s.from, s.to, s.kind)]);
      SameEntriesKeep(t, Apply(t, s));
    }
  }

  /** Every operation, succeeding or failing, leaves the tables consistent. */
  lemma StepKeeps(t: Tables, s: Step)
    requires t.WellFormed()
    ensures Apply(t, s).WellFormed()
  {
    if s.Add? {
      if AddSpec(t, s.note, s.now).Ok? { AddKeeps(t, s.note, s.now); }
    } else if s.Close? {
      CloseKeeps(t, s);
    } else if s.LinkUp? || s.Unlink? {
      LinkStepKeeps(t, s);
    } else if s.Gc? {
      WithoutKeeps(t, Dead(t, s.now));
    } else if s.Delete? {
      WithoutKeeps(t, {s.id});
    } else {
      FlagStepKeeps(t, s);
    }
  }

  lemma {:induction false} RunKeeps(t: Tables, steps: seq<Step>)
    requires t.WellFormed()
    ensures Run(t, steps).WellFormed()
    decreases |steps|
  {
    if steps != [] {
      StepKeeps(t, steps[0]);
      RunKeeps(Apply(t, steps[0]), steps[1..]);
    }
  }

  // ---------------------------------------------------------------------
  // The gate on `unverified`.

  /** `c` carries the evidence for `e`: a separate live entry that verifies it,
      says enough, and points at a proof where the project asks for one. */
  ghost predicate Proves(t: Tables, c: int, e: int) {
    && c != e && Link(c, e, Verifies) in t.links
    && c in t.entries && !t.OpenFlag(c, Deprecated)
    && SaidChars(t.entries[c].body) >= MIN_EVIDENCE_CHARS
    && (t.evidenceFirst ==> exists p :: (c, p) in t.proofs)
  }

  lemma {:induction false} VerifierRows(links: seq<Link>, id: int)
    ensures forall c :: c in Verifiers(links, id) <==> c != id && Link(c, id, Verifies) in links
  {
    if links != [] {
      VerifierRows(links[1..], id);
      assert forall l :: l in links <==> l == links[0] || l in links[1..];
      forall c ensures c in Verifiers(links, id) <==> c != id && Link(c, id, Verifies) in links {
        assert Link(c, id, Verifies) == links[0] <==>
               c == links[0].from && links[0].to == id && links[0].kind.Verifies?;
      }
    }
  }

  lemma EvidenceMeans(t: Tables, c: int, e: int)
    requires c != e && Link(c, e, Verifies) in t.links
    ensures t.IsEvidence(c) <==> Proves(t, c, e)
  {
    if t.HasProof(c) {
      var p :| p in t.proofs && p.0 == c;
      assert (c, p.1) in t.proofs;
    }
    if p :| (c, p) in t.proofs { assert (c, p).0 == c; }
  }

  /** `proof_of` answers exactly when some entry proves `e`, with one that does. */
  lemma ProofOfFinds(t: Tables, e: int)
    ensures t.ProofOf(e).Some? <==> exists c :: Proves(t, c, e)
    ensures t.ProofOf(e).Some? ==> Proves(t, t.ProofOf(e).value, e)
  {
    VerifierRows(t.links, e);
    OrderByRows(Verifiers(t.links, e), false);
    if t.ProofOf(e).Some? {
      EvidenceMeans(t, t.ProofOf(e).value, e);
    }
    if c :| Proves(t, c, e) {
      EvidenceMeans(t, c, e);
      assert c in OrderBy(Verifiers(t.links, e), false);
    }
  }

  /** When a close goes through. */
  lemma CloseOutcome(t: Tables, id: int, f: Flag, who: Option<string>, res: Option<string>, now: int, mode: CloseMode)
    requires Closable(f)
    ensures CloseSpec(t, id, {f}, who, res, now, mode).Ok? <==>
            id in t.entries && {f} <= t.OpenItems(id) && ProofGate(t, id, {f}, Clean(res), mode).Ok?
            && TodoGate(t, id, {f}, ProofGate(t, id, {f}, Clean(res), mode).value, mode).Ok?
  {
    assert f in {f};
  }

  lemma HypothesisGates(t: Tables, e: int, res: Option<string>)
    ensures ProofGate(t, e, {Unverified}, Clean(res), Checked).Ok? <==> t.ProofOf(e).Some?
    ensures forall r :: TodoGate(t, e, {Unverified}, r, Checked).Ok?
  {
    assert Unverified in {Unverified} && Todo !in {Unverified};
  }

  /** A checked close of the hypothesis itself goes through exactly when it is
      open and proved. */
  lemma CheckedCloseNeedsProof(t: Tables, e: int, who: Option<string>, res: Option<string>, now: int)
    requires t.WellFormed()
    ensures CloseSpec(t, e, {Unverified}, who, res, now, Checked).Ok? <==>
            t.OpenFlag(e, Unverified) && exists c :: Proves(t, c, e)
  {
    assert t.ProofOf(e).Some? <==> exists c :: Proves(t, c, e) by { ProofOfFinds(t, e); }
    HypothesisGates(t, e, res);
    HypothesisOpen(t, e);
    CloseOutcome(t, e, Unverified, who, res, now, Checked);
  }

  lemma HypothesisOpen(t: Tables, e: int)
    requires t.WellFormed()
    ensures t.OpenFlag(e, Unverified) <==> {Unverified} <= t.OpenItems(e)
    ensures t.OpenFlag(e, Unverified) ==> e in t.entries
  {
    assert Unverified in {Unverified};
    if t.OpenFlag(e, Unverified) { assert (e, Unverified) in t.flags; }
  }

  /** The hypothesis was given up, with a stated reason, not checked. */
  ghost predicate GivenUp(t: Tables, s: Step, e: int) {
    && s.Close? && s.mode.Abandon? && Clean(s.resolution).Some?
    && Apply(t, s).ClosedFlag(e, Unverified)
    && Apply(t, s).flags[(e, Unverified)].closed.value.resolution == Some("abandoned: " + Clean(s.resolution).value)
  }

  lemma CloseLifts(t: Tables, s: Step, e: int)
    requires t.WellFormed() && s.Close? && !s.mode.Restore?
    requires t.OpenFlag(e, Unverified) && !Apply(t, s).OpenFlag(e, Unverified)
    ensures (s.mode.Checked? && exists c :: Proves(t, c, e)) || GivenUp(t, s, e)
  {
    var targets := TargetsOf(s.flags, t.OpenItems(s.id));
    assert CloseSpec(t, s.id, s.flags, s.who, s.resolution, s.now, s.mode).Ok?;
    assert Closes(t, s.id, targets, s.mode, (e, Unverified));
    if s.mode.Checked? {
      CheckedTakesProved(t, s, targets, e);
      ProofOfFinds(t, e);
    }
  }

  lemma CheckedTakesProved(t: Tables, s: Step, targets: set<Flag>, e: int)
    requires s.Close? && s.mode.Checked? && targets == TargetsOf(s.flags, t.OpenItems(s.id))
    requires CloseSpec(t, s.id, s.flags, s.who, s.resolution, s.now, s.mode).Ok?
             && Closes(t, s.id, targets, s.mode, (e, Unverified))
    ensures t.ProofOf(e).Some?
  {
  }

  lemma UnmarkLifts(t: Tables, s: Step, e: int)
    requires s.Unmark?
    requires t.OpenFlag(e, Unverified) && !Apply(t, s).OpenFlag(e, Unverified)
    ensures exists c :: Proves(t, c, e)
  {
    ProofOfFinds(t, e);
  }

  lemma AddLiftsNothing(t: Tables, s: Step, e: int)
    requires s.Add? && t.OpenFlag(e, Unverified)
    ensures Apply(t, s).OpenFlag(e, Unverified)
  {
    var r := AddSpec(t, s.note, s.now);
    if r.Ok? {
      var kept := WithFlags(t.flags, r.value.id, s.note.flags, s.now);
      assert r.value.t.flags == kept;
      assert (e, Unverified) in kept && kept[(e, Unverified)] == t.flags[(e, Unverified)];
    }
  }

  lemma OtherStepLiftsNothing(t: Tables, s: Step, e: int)
    requires s.Mark? || s.Reopen? || s.LinkUp? || s.Unlink? || s.Policy?
    requires t.OpenFlag(e, Unverified)
    ensures Apply(t, s).OpenFlag(e, Unverified)
  {
  }

  lemma GcLiftsNothing(t: Tables, s: Step, e: int)
    requires t.WellFormed() && s.Gc? && t.OpenFlag(e, Unverified)
    ensures Apply(t, s).OpenFlag(e, Unverified)
  {
    GcSpares(t, s.now, e, Unverified);
  }

  /** An open `unverified` stops being open only on evidence: some other live
      entry verifies it, says enough and, under evidence-first, has a proof.
      Otherwise it was abandoned with a reason, restored from another journal's
      history, or its entry was deleted by hand. Retention never takes it. */
  lemma LiftedOnlyByEvidence(t: Tables, s: Step, e: int)
    requires t.WellFormed()
    requires t.OpenFlag(e, Unverified) && !Apply(t, s).OpenFlag(e, Unverified)
    ensures (exists c :: Proves(t, c, e)) || GivenUp(t, s, e) || (s.Close? && s.mode.Restore?) || s == Delete(e)
    ensures !s.Gc?
  {
    if s.Unmark? {
      UnmarkLifts(t, s, e);
    } else if s.Add? {
      AddLiftsNothing(t, s, e);
    } else if s.Close? {
      if !s.mode.Restore? { CloseLifts(t, s, e); }
    } else if s.Gc? {
      GcLiftsNothing(t, s, e);
    } else if !s.Delete? {
      OtherStepLiftsNothing(t, s, e);
    }
  }

  /** Retention never removes an entry with an open work item, a specification,
      a constraint, an invariant or an important mark. */
  lemma GcSpares(t: Tables, now: int, e: int, f: Flag)
    requires t.WellFormed() && t.OpenFlag(e, f) && !Passive(f)
    ensures e in Apply(t, Gc(now)).entries
    ensures Apply(t, Gc(now)).OpenFlag(e, f)
  {
    assert (e, f) in t.flags;
    assert Held(t, e);
  }

  /** Over a whole run: if the hypothesis is open before and not after, some
      step of the run lifted it, and that step met the gate. */
  lemma {:induction false} RunLiftsOnlyByEvidence(t: Tables, steps: seq<Step>, e: int) returns (i: nat)
    requires t.WellFormed()
    requires t.OpenFlag(e, Unverified) && !Run(t, steps).OpenFlag(e, Unverified)
    ensures i < |steps|
    ensures var u := Run(t, steps[..i]);
            && u.WellFormed() && u.OpenFlag(e, Unverified) && !Apply(u, steps[i]).OpenFlag(e, Unverified)
            && ((exists c :: Proves(u, c, e)) || GivenUp(u, steps[i], e)
                || (steps[i].Close? && steps[i].mode.Restore?) || steps[i] == Delete(e))
            && !steps[i].Gc?
    decreases |steps|
  {
    var u := Apply(t, steps[0]);
    StepKeeps(t, steps[0]);
    if u.OpenFlag(e, Unverified) {
      var j := RunLiftsOnlyByEvidence(u, steps[1..], e);
      i := j + 1;
      assert steps[..i][1..] == steps[1..][..j] && steps[..i][0] == steps[0];
      assert Run(t, steps[..i]) == Run(u, steps[1..][..j]);
    } else {
      i := 0;
      assert steps[..0] == [];
      LiftedOnlyByEvidence(t, steps[0], e);
    }
  }

  // ---------------------------------------------------------------------
  // Closing a todo.

  /** Closing reads no differently afterwards: links, todo rows and so every
      branch stay what they were. */
  lemma ClosingKeepsBranches(t: Tables, keys: set<FlagKey>, c: Closure)
    ensures WithClosed(t, keys, c).Work() == t.Work()
  {
    var r := WithClosed(t, keys, c);
    assert r.flags.Keys == t.flags.Keys;
    assert r.Todos() == t.Todos() by {
      forall e ensures e in r.Todos() <==> e in t.Todos() {
        if e in r.Todos() { assert (e, Todo) in r.flags; assert (e, Todo) in t.flags; }
        if e in t.Todos() { assert (e, Todo) in t.flags; assert (e, Todo) in r.flags; }
      }
    }
  }

  /** Closing any marks neither hides nor makes evidence. */
  lemma ClosingKeepsEvidence(t: Tables, keys: set<FlagKey>, c: Closure, e: int)
    requires forall k | k in keys :: Closable(k.1)
    ensures WithClosed(t, keys, c).IsEvidence(e) <==> t.IsEvidence(e)
    ensures WithClosed(t, keys, c).ProofOf(e) == t.ProofOf(e)
  {
    var r := WithClosed(t, keys, c);
    SameFirstEvidence(t, r, OrderBy(Verifiers(t.links, e), false));
  }

  lemma {:induction false} SameFirstEvidence(t: Tables, r: Tables, rows: seq<int>)
    requires forall e :: r.IsEvidence(e) <==> t.IsEvidence(e)
    ensures r.FirstEvidence(rows) == t.FirstEvidence(rows)
  {
    if rows != [] { SameFirstEvidence(t, r, rows[1..]); }
  }

  /** Closing a todo, checked or abandoned: nothing outside its branch changes,
      no other todo's row changes, and all branches keep their entries. */
  lemma CloseStaysInBranch(t: Tables, id: int, named: set<Flag>, who: Option<string>, res: Option<string>, now: int,
                           mode: CloseMode)
    requires t.WellFormed() && Todo in TargetsOf(named, t.OpenItems(id))
    requires CloseSpec(t, id, named, who, res, now, mode).Ok?
    ensures var r := CloseSpec(t, id, named, who, res, now, mode).value.t;
            && r.flags.Keys == t.flags.Keys
            && r.ClosedFlag(id, Todo)
            && (forall k | k in t.flags && k.0 !in BranchIds(t.Work(), id) :: r.flags[k] == t.flags[k])
            && (forall e | (e, Todo) in t.flags && e != id :: r.flags[(e, Todo)] == t.flags[(e, Todo)])
            && r.Work() == t.Work()
  {
    var c := CloseSpec(t, id, named, who, res, now, mode).value;
    var r := c.t;
    assert t.OpenFlag(id, Todo) by { assert Todo in t.OpenItems(id); }
    assert id in t.Todos() by { assert (id, Todo) in t.flags; }
    BranchIdsSound(t.Work(), id);
    assert Closes(t, id, TargetsOf(named, t.OpenItems(id)), mode, (id, Todo));
    var rows := c.rows;
    forall e | (e, Todo) in t.flags && e != id ensures (e, Todo) !in rows {
      assert (e, Todo).1 == Todo;
      assert e in t.Todos();
    }
    var closure :| r == WithClosed(t, rows, closure);
    ClosingKeepsBranches(t, rows, closure);
  }

  /** A checked close of a todo had a verified entry with evidence in the branch,
      and leaves the rest of the branch with no open work item but hypotheses
      that nothing proves. */
  lemma CheckedCloseFinishesBranch(t: Tables, id: int, named: set<Flag>, who: Option<string>, res: Option<string>,
                                   now: int)
    requires t.WellFormed() && Todo in TargetsOf(named, t.OpenItems(id))
    requires CloseSpec(t, id, named, who, res, now, Checked).Ok?
    ensures exists v :: v in BranchIds(t.Work(), id) && v != id && t.OpenFlag(v, Verified) && t.IsEvidence(v)
    ensures var r := CloseSpec(t, id, named, who, res, now, Checked).value.t;
            forall e, f | e in BranchIds(t.Work(), id) && e != id && Closable(f) && r.OpenFlag(e, f) ::
              f == Unverified && forall c :: !Proves(r, c, e)
  {
    var c := CloseSpec(t, id, named, who, res, now, Checked).value;
    var r := c.t;
    var v := t.FirstVerified(BranchIds(t.Work(), id), id);
    assert v.Some?;
    CloseTargetsClosable(t, id, named, who, res, now, Checked);
    var closure :| r == WithClosed(t, c.rows, closure);
    forall e, f | e in BranchIds(t.Work(), id) && e != id && Closable(f) && r.OpenFlag(e, f)
      ensures f == Unverified && forall p :: !Proves(r, p, e)
    {
      assert (e, f) in t.flags && (e, f).0 == e && (e, f).1 == f;
      assert !Closes(t, id, TargetsOf(named, t.OpenItems(id)), Checked, (e, f));
      assert t.ProofOf(e).None?;
      ClosingKeepsEvidence(t, c.rows, closure, e);
      ProofOfFinds(r, e);
    }
  }

  /** What a close took on its entry can be reopened by name. */
  lemma CloseCanReopen(t: Tables, id: int, named: set<Flag>, who: Option<string>, res: Option<string>, now: int,
                       mode: CloseMode)
    requires CloseSpec(t, id, named, who, res, now, mode).Ok?
    ensures var r, targets := CloseSpec(t, id, named, who, res, now, mode).value.t, TargetsOf(named, t.OpenItems(id));
            ReopenSpec(r, id, targets) == Ok(Reopened(r, id, targets))
  {
    var r, targets := CloseSpec(t, id, named, who, res, now, mode).value.t, TargetsOf(named, t.OpenItems(id));
    forall f | f in targets ensures f in ClosedItems(r, id) {
      assert f in t.OpenItems(id);
      assert (id, f) in t.flags && Closes(t, id, targets, mode, (id, f));
      assert (id, f) in r.flags && (id, f).0 == id && (id, f).1 == f;
    }
  }

  lemma ReopenedRows(t: Tables, id: int, targets: set<Flag>, keys: set<FlagKey>, c: Closure)
    requires targets <= t.OpenItems(id)
    requires forall k | k in keys && k.0 == id :: k.1 in targets
    ensures var u := Reopened(WithClosed(t, keys, c), id, targets);
            && (forall k | k in t.flags && k.0 == id :: k in u.flags && u.flags[k] == t.flags[k])
            && ((forall k | k in keys :: k.0 == id) ==> u.flags == t.flags)
  {
    var u := Reopened(WithClosed(t, keys, c), id, targets);
    forall k | k in t.flags && k.0 == id ensures u.flags[k] == t.flags[k] {
      if k.1 in targets {
        assert k.1 in t.OpenItems(id) && k == (id, k.1);
      }
    }
  }

  /** Reopening just what a close took undoes it on the entry: its flag rows are
      exactly what they were, and so is the whole journal unless a todo's branch
      closed along. */
  lemma ReopenUndoesClose(t: Tables, id: int, named: set<Flag>, who: Option<string>, res: Option<string>, now: int,
                          mode: CloseMode)
    requires CloseSpec(t, id, named, who, res, now, mode).Ok?
    ensures var targets := TargetsOf(named, t.OpenItems(id));
            var u := ReopenSpec(CloseSpec(t, id, named, who, res, now, mode).value.t, id, targets);
            && u.Ok?
            && (forall k | k in t.flags && k.0 == id :: k in u.value.flags && u.value.flags[k] == t.flags[k])
            && (Todo !in targets ==> u.value == t)
  {
    var c, targets := CloseSpec(t, id, named, who, res, now, mode).value, TargetsOf(named, t.OpenItems(id));
    CloseCanReopen(t, id, named, who, res, now, mode);
    var closure :| c.t == WithClosed(t, c.rows, closure);
    assert forall k | k in c.rows :: Closes(t, id, targets, mode, k);
    ReopenedRows(t, id, targets, c.rows, closure);
  }
}
