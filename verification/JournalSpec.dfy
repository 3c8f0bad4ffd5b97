/** A project journal as a value: its tables, and what each operation of
    `src/journal.rs` makes of them. An operation that fails leaves them as they
    were (its transaction is never committed). */
module JournalSpec {
  import opened Base
  import opened Branch
  import opened Refs
  import opened Text
  import opened Labels

  datatype Flag =
    | Todo | Question | Problem | Bugreport | Reminder | Unverified | Disputed | AiFeedback
    | Specification | Constraint | Invariant | Important | Idea | Concept | Comment | Verified | Deprecated

  /** A work item, closed by closing it; the others are marks, removed by unmarking. */
  predicate Closable(f: Flag) {
    f.Todo? || f.Question? || f.Problem? || f.Bugreport? || f.Reminder? || f.Unverified? || f.Disputed? || f.AiFeedback?
  }

  /** Marks that do not hold an entry past retention. */
  predicate Passive(f: Flag) {
    f.Idea? || f.Concept? || f.Comment? || f.Verified? || f.Deprecated?
  }

  function FlagName(f: Flag): string {
    match f
    case Todo => "todo" case Question => "question" case Problem => "problem" case Bugreport => "bugreport"
    case Reminder => "reminder" case Unverified => "unverified" case Disputed => "disputed"
    case AiFeedback => "ai-feedback" case Specification => "specification" case Constraint => "constraint"
    case Invariant => "invariant" case Important => "important" case Idea => "idea" case Concept => "concept"
    case Comment => "comment" case Verified => "verified" case Deprecated => "deprecated"
  }

  datatype Salience = High | Medium | Low

  const MEDIUM_TTL_SECS := 365 * 86_400
  const LOW_TTL_SECS := 90 * 86_400
  const DEDUP_WINDOW_SECS := 30 * 86_400
  const MAX_BODY_CHARS := 20_000
  const MIN_EVIDENCE_CHARS := 40

  datatype Entry = Entry(createdAt: int, category: string, body: string, salience: Salience)

  datatype Closure = Closure(at: int, who: Option<string>, resolution: Option<string>)

  datatype FlagRow = FlagRow(setAt: int, closed: Option<Closure>)

  type FlagKey = (int, Flag)

  datatype Tables = Tables(
    entries: map<int, Entry>,
    tags: set<(int, string)>,
    flags: map<FlagKey, FlagRow>,
    links: seq<Link>,
    proofs: set<(int, string)>,
    evidenceFirst: bool)
  {
    ghost predicate WellFormed() {
      && (forall l | l in links :: l.from in entries && l.to in entries && l.from != l.to)
      && NoDup(links)
      && (forall p | p in tags :: p.0 in entries && IsLabel(p.1))
      && (forall k | k in flags :: k.0 in entries && (flags[k].closed.Some? ==> Closable(k.1)))
      && (forall p | p in proofs :: p.0 in entries)
      && (forall e | e in entries :: EntryWellFormed(e))
    }

    ghost predicate EntryWellFormed(e: int)
      requires e in entries
    {
      && e >= 1
      && 0 < |entries[e].body| <= MAX_BODY_CHARS && Trim(entries[e].body) == entries[e].body
      && IsLabel(entries[e].category) && exists tag :: (e, tag) in tags
    }

    function Todos(): set<int> {
      set k | k in flags && k.1.Todo? :: k.0
    }

    function Work(): WorkGraph { WorkGraph(entries.Keys, links, Todos()) }

    predicate OpenFlag(e: int, f: Flag) {
      (e, f) in flags && flags[(e, f)].closed.None?
    }

    predicate ClosedFlag(e: int, f: Flag) {
      (e, f) in flags && flags[(e, f)].closed.Some?
    }

    /** `open_work_items`. */
    function OpenItems(e: int): set<Flag> {
      set k | k in flags && k.0 == e && flags[k].closed.None? && Closable(k.1) :: k.1
    }

    predicate HasProof(e: int) {
      exists p :: p in proofs && p.0 == e
    }

    /** `evidence_gap` finds nothing missing. */
    predicate IsEvidence(e: int) {
      && e in entries
      && !OpenFlag(e, Deprecated)
      && SaidChars(entries[e].body) >= MIN_EVIDENCE_CHARS
      && (evidenceFirst ==> HasProof(e))
    }

    function FirstEvidence(rows: seq<int>): (r: Option<int>)
      ensures r.Some? ==> r.value in rows && IsEvidence(r.value)
      ensures r.None? ==> forall c | c in rows :: !IsEvidence(c)
    {
      if rows == [] then None
      else if IsEvidence(rows[0]) then Some(rows[0])
      else FirstEvidence(rows[1..])
    }

    /** `proof_of`: the first entry that verifies `id` and is evidence. */
    function ProofOf(id: int): Option<int> { FirstEvidence(OrderBy(Verifiers(links, id), false)) }

    function FirstVerified(branch: seq<int>, root: int): (r: Option<int>)
      ensures r.Some? ==> r.value in branch && r.value != root && OpenFlag(r.value, Verified) && IsEvidence(r.value)
      ensures r.None? ==> forall e | e in branch && e != root :: !(OpenFlag(e, Verified) && IsEvidence(e))
    {
      if branch == [] then None
      else if branch[0] != root && OpenFlag(branch[0], Verified) && IsEvidence(branch[0]) then Some(branch[0])
      else FirstVerified(branch[1..], root)
    }
  }

  function Verifiers(links: seq<Link>, id: int): seq<int> {
    if links == [] then []
    else if links[0].to == id && links[0].kind.Verifies? && links[0].from != id then
      [links[0].from] + Verifiers(links[1..], id)
    else Verifiers(links[1..], id)
  }

  datatype Error =
    | EmptyBody | LongBody | NoCategory | NoTag | NoFlag | NoEntry | SelfLink
    | NotAWorkItem | NotOpen | NothingOpen | NotClosed | NothingClosed
    | StaysUnverified | BranchUnverified | NoReason

  datatype AddStatus = Written | Deduped

  datatype NewEntry = NewEntry(
    body: string, category: string, tags: set<string>, salience: Salience,
    flags: set<Flag>, proofs: set<string>, foreign: bool)

  datatype CloseMode = Checked | Abandon | Restore

  // ---------------------------------------------------------------------
  // add

  /** The first of the work items, in the order the journal lists them. */
  function FirstItem(fs: set<Flag>): (f: Option<Flag>)
    ensures f.Some? ==> f.value in fs && Closable(f.value)
    ensures f.None? ==> forall x | x in fs :: !Closable(x)
  {
    if Todo in fs then Some(Todo) else if Question in fs then Some(Question)
    else if Problem in fs then Some(Problem) else if Bugreport in fs then Some(Bugreport)
    else if Reminder in fs then Some(Reminder) else if Unverified in fs then Some(Unverified)
    else if Disputed in fs then Some(Disputed) else if AiFeedback in fs then Some(AiFeedback) else None
  }

  /** The first of the marks. */
  function FirstMark(fs: set<Flag>): (f: Option<Flag>)
    ensures f.Some? ==> f.value in fs && !Closable(f.value)
    ensures f.None? ==> forall x | x in fs :: Closable(x)
  {
    if Specification in fs then Some(Specification) else if Constraint in fs then Some(Constraint)
    else if Invariant in fs then Some(Invariant) else if Important in fs then Some(Important)
    else if Idea in fs then Some(Idea) else if Concept in fs then Some(Concept)
    else if Comment in fs then Some(Comment) else if Verified in fs then Some(Verified)
    else if Deprecated in fs then Some(Deprecated) else None
  }

  function FirstFlag(fs: set<Flag>): (f: Option<Flag>)
    ensures f.Some? ==> f.value in fs
    ensures f.None? <==> fs == {}
  {
    if FirstItem(fs).Some? then FirstItem(fs) else FirstMark(fs)
  }

  /** The category given, else the first flag's name (a bug report is a bug). */
  function CategoryOf(n: NewEntry): Option<string> {
    if Label(n.category) != "" then Some(Label(n.category))
    else
      match FirstFlag(n.flags)
      case None => None
      case Some(f) => Some(if f.Bugreport? then "bug" else FlagName(f))
  }

  /** `normalize_tags`. */
  function TagsOf(n: NewEntry): set<string> { set t | t in n.tags && Label(t) != "" :: Label(t) }

  /** Entries this note would repeat. */
  ghost function Repeats(t: Tables, body: string, category: string, now: int): set<int> {
    set e | e in t.entries && t.entries[e].body == body && t.entries[e].category == category
            && t.entries[e].createdAt >= now - DEDUP_WINDOW_SECS
  }

  ghost function WithFlags(flags: map<FlagKey, FlagRow>, id: int, fs: set<Flag>, now: int): map<FlagKey, FlagRow> {
    flags + map f | f in fs && (id, f) !in flags :: (id, f) := FlagRow(now, None)
  }

  ghost function WithProofs(proofs: set<(int, string)>, id: int, ps: set<string>): set<(int, string)> {
    proofs + set p | p in ps && Trim(p) != "" :: (id, Trim(p))
  }

  /** What an entry gains when the same note is added again: tags, flags, proofs. */
  ghost function Annotate(t: Tables, id: int, n: NewEntry, now: int): Tables {
    t.(tags := t.tags + (set l | l in TagsOf(n) :: (id, l)),
       flags := WithFlags(t.flags, id, n.flags, now),
       proofs := WithProofs(t.proofs, id, n.proofs))
  }

  /** `insert_links`: references to existing other entries, each kind once. */
  function WithLinks(entries: set<int>, links: seq<Link>, id: int, refs: seq<Ref>): seq<Link>
    decreases |refs|
  {
    if refs == [] then links
    else
      var l := Link(id, refs[0].id, refs[0].kind);
      WithLinks(entries, if l.to != id && l.to in entries && l !in links then links + [l] else links, id, refs[1..])
  }

  ghost function Insert(t: Tables, id: int, n: NewEntry, category: string, now: int): Tables {
    var entries := t.entries[id := Entry(now, category, Trim(n.body), n.salience)];
    var a := Annotate(t.(entries := entries), id, n, now);
    if n.foreign then a else a.(links := WithLinks(entries.Keys, a.links, id, ParseRefs(Trim(n.body))))
  }

  datatype Added = Added(t: Tables, status: AddStatus, id: int)

  ghost function AddSpec(t: Tables, n: NewEntry, now: int): Result<Added, Error> {
    var body := Trim(n.body);
    if body == "" then Err(EmptyBody)
    else if |body| > MAX_BODY_CHARS then Err(LongBody)
    else if CategoryOf(n).None? then Err(NoCategory)
    else if TagsOf(n) == {} then Err(NoTag)
    else
      var category := CategoryOf(n).value;
      var same := Repeats(t, body, category, now);
      if same != {} then Ok(Added(Annotate(t, MaxOf(same), n, now), Deduped, MaxOf(same)))
      else
        var id := NextRowId(t.entries.Keys);
        Ok(Added(Insert(t, id, n, category, now), Written, id))
  }

  // ---------------------------------------------------------------------
  // mark, unmark, reopen, link, unlink

  ghost function MarkSpec(t: Tables, id: int, fs: set<Flag>, now: int): Result<Tables, Error> {
    if fs == {} then Err(NoFlag)
    else if id !in t.entries then Err(NoEntry)
    else Ok(t.(flags := WithFlags(t.flags, id, fs, now)))
  }

  /** An open `unverified` is lifted only by evidence. */
  ghost function UnmarkSpec(t: Tables, id: int, fs: set<Flag>): Result<Tables, Error> {
    if fs == {} then Err(NoFlag)
    else if id !in t.entries then Err(NoEntry)
    else if Unverified in fs && t.OpenFlag(id, Unverified) && t.ProofOf(id).None? then Err(StaysUnverified)
    else Ok(t.(flags := map k | k in t.flags && !(k.0 == id && k.1 in fs) :: t.flags[k]))
  }

  function ClosedItems(t: Tables, id: int): set<Flag> {
    set k | k in t.flags && k.0 == id && t.flags[k].closed.Some? :: k.1
  }

  ghost function Reopened(t: Tables, id: int, fs: set<Flag>): Tables {
    t.(flags := map k | k in t.flags :: if k.0 == id && k.1 in fs then t.flags[k].(closed := None) else t.flags[k])
  }

  ghost function ReopenSpec(t: Tables, id: int, named: set<Flag>): Result<Tables, Error> {
    if id !in t.entries then Err(NoEntry)
    else
      var targets := TargetsOf(named, ClosedItems(t, id));
      if !(targets <= ClosedItems(t, id)) then Err(NotClosed)
      else if targets == {} then Err(NothingClosed)
      else Ok(Reopened(t, id, targets))
  }

  ghost function LinkSpec(t: Tables, from: int, to: int, kind: LinkKind): Result<Tables, Error> {
    if from == to then Err(SelfLink)
    else if from !in t.entries || to !in t.entries then Err(NoEntry)
    else if Link(from, to, kind) in t.links then Ok(t)
    else Ok(t.(links := t.links + [Link(from, to, kind)]))
  }

  function KeepLinks(links: seq<Link>, drop: Link -> bool): seq<Link> {
    if links == [] then []
    else if drop(links[0]) then KeepLinks(links[1..], drop)
    else [links[0]] + KeepLinks(links[1..], drop)
  }

  function Unlinks(from: int, to: int, kind: Option<LinkKind>): Link -> bool {
    (l: Link) => l.from == from && l.to == to && (kind.None? || l.kind == kind.value)
  }

  ghost function UnlinkSpec(t: Tables, from: int, to: int, kind: Option<LinkKind>): Tables {
    t.(links := KeepLinks(t.links, Unlinks(from, to, kind)))
  }

  // ---------------------------------------------------------------------
  // close

  function Prefixed(reason: Option<string>): Option<string> {
    match reason case None => None case Some(r) => Some("abandoned: " + r)
  }

  function VerifiedBy(e: int): string { "verified: journal#" + Digits(if e < 0 then 0 else e) }

  /** The items a close or a reopening is about: those named, else all there are. */
  function TargetsOf(named: set<Flag>, there: set<Flag>): set<Flag> { if named == {} then there else named }

  /** The gate on `unverified`; answers the resolution to record. */
  ghost function ProofGate(t: Tables, id: int, targets: set<Flag>, res: Option<string>,
                           mode: CloseMode): Result<Option<string>, Error> {
    if Unverified !in targets then Ok(res)
    else match mode
      case Checked =>
        if t.ProofOf(id).None? then Err(StaysUnverified)
        else Ok(if res.None? then Some(VerifiedBy(t.ProofOf(id).value)) else res)
      case Abandon =>
        if res.None? then Err(NoReason) else Ok(if Todo in targets then res else Prefixed(res))
      case Restore => Ok(res)
  }

  /** The gate on a todo; answers the resolution to record. */
  ghost function TodoGate(t: Tables, id: int, targets: set<Flag>, res: Option<string>,
                          mode: CloseMode): Result<Option<string>, Error> {
    if Todo !in targets then Ok(res)
    else match mode
      case Checked =>
        var v := t.FirstVerified(BranchIds(t.Work(), id), id);
        if v.None? then Err(BranchUnverified)
        else Ok(if res.None? then Some(VerifiedBy(v.value)) else res)
      case Abandon => if res.None? then Err(NoReason) else Ok(Prefixed(res))
      case Restore => Ok(res)
  }

  /** The flag rows a close takes: the targets, and for a todo the open work
      items of the rest of its branch — an `unverified` one, when checked, only
      with its own proof. */
  ghost predicate Closes(t: Tables, id: int, targets: set<Flag>, mode: CloseMode, k: FlagKey) {
    k in t.flags &&
    if k.0 == id then k.1 in targets
    else
      && Todo in targets && !mode.Restore? && k.0 in BranchIds(t.Work(), id)
      && t.OpenFlag(k.0, k.1) && Closable(k.1)
      && !(k.1.Unverified? && mode.Checked? && t.ProofOf(k.0).None?)
  }

  ghost function WithClosed(t: Tables, keys: set<FlagKey>, c: Closure): Tables {
    t.(flags := map k | k in t.flags :: if k in keys then t.flags[k].(closed := Some(c)) else t.flags[k])
  }

  ghost function Closing(t: Tables, id: int, targets: set<Flag>, mode: CloseMode): set<FlagKey> {
    set k | k in t.flags && Closes(t, id, targets, mode, k)
  }

  datatype Closed = Closed(t: Tables, rows: set<FlagKey>)

  ghost function CloseSpec(t: Tables, id: int, named: set<Flag>, who: Option<string>, resolution: Option<string>,
                           now: int, mode: CloseMode): Result<Closed, Error> {
    if exists f :: f in named && !Closable(f) then Err(NotAWorkItem)
    else if id !in t.entries then Err(NoEntry)
    else
      var open := t.OpenItems(id);
      var targets := TargetsOf(named, open);
      if !(targets <= open) then Err(NotOpen)
      else if targets == {} then Err(NothingOpen)
      else
        match ProofGate(t, id, targets, Clean(resolution), mode)
        case Err(e) => Err(e)
        case Ok(res) =>
          match TodoGate(t, id, targets, res, mode)
          case Err(e) => Err(e)
          case Ok(res') =>
            var keys := Closing(t, id, targets, mode);
            Ok(Closed(WithClosed(t, keys, Closure(now, Clean(who), res')), keys))
  }

  // ---------------------------------------------------------------------
  // gc, delete

  /** An open flag that keeps its entry past retention. */
  predicate Held(t: Tables, e: int) {
    exists k :: k in t.flags && k.0 == e && t.flags[k].closed.None? && !Passive(k.1)
  }

  predicate Expired(t: Tables, e: int, now: int)
    requires e in t.entries
  {
    || (t.entries[e].salience.Medium? && t.entries[e].createdAt < now - MEDIUM_TTL_SECS)
    || (t.entries[e].salience.Low? && t.entries[e].createdAt < now - LOW_TTL_SECS)
  }

  function Dead(t: Tables, now: int): set<int> {
    set e | e in t.entries && Expired(t, e, now) && !Held(t, e)
  }

  /** Those of one salience. */
  function Dying(t: Tables, now: int, salience: Salience): set<int> {
    set e | e in Dead(t, now) && t.entries[e].salience == salience
  }

  function Touches(gone: set<int>): Link -> bool {
    (l: Link) => l.from in gone || l.to in gone
  }

  /** Deleting entries takes their rows in every table with them. */
  ghost function WithoutEntries(t: Tables, gone: set<int>): Tables {
    t.(entries := t.entries - gone,
       tags := (set p | p in t.tags && p.0 !in gone),
       flags := (map k | k in t.flags && k.0 !in gone :: t.flags[k]),
       links := KeepLinks(t.links, Touches(gone)),
       proofs := (set p | p in t.proofs && p.0 !in gone))
  }
}
