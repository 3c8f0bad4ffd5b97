/** The journal itself: the tables as fields, the operations as loops over
    them, each proved to do what `JournalSpec` says. */
module JournalStore {
  import opened Base
  import opened Branch
  import opened Refs
  import opened Text
  import opened Labels
  import opened JournalSpec
  import opened JournalRuns

  class Journal {
    var entries: map<int, Entry>
    var tags: set<(int, string)>
    var flags: map<FlagKey, FlagRow>
    var links: seq<Link>
    var proofs: set<(int, string)>
    var evidenceFirst: bool

    constructor ()
      ensures View() == Tables(map[], {}, map[], [], {}, false)
      ensures View().WellFormed()
    {
      entries, tags, flags, links, proofs, evidenceFirst := map[], {}, map[], [], {}, false;
    }

    function View(): Tables
      reads this
    {
      Tables(entries, tags, flags, links, proofs, evidenceFirst)
    }

    /** `branch_root`: breadth first upstream, ties by the row order, at most
        BRANCH_LIMIT entries visited. */
    method FindBranchRoot(id: int) returns (r: Option<int>)
      ensures r == BranchRoot(View().Work(), id)
    {
      var g := View().Work();
      var seen, queue := [id], [id];
      while queue != []
        invariant |seen| <= BRANCH_LIMIT
        invariant UpWalk(g, seen, queue).root == BranchRoot(g, id)
        decreases BRANCH_LIMIT - |seen|, |queue|
      {
        var at := queue[0];
        queue := queue[1..];
        if at in g.todos {
          return Some(at);
        }
        var parents := UpRows(g, at);
        ghost var seen0, queue0, f := seen, queue, Fresh(seen, parents);
        for i := 0 to |parents|
          invariant |seen| <= BRANCH_LIMIT
          invariant seen + Fresh(seen, parents[i..]) == seen0 + f
          invariant queue + Fresh(seen, parents[i..]) == queue0 + f
        {
          var p := parents[i];
          assert parents[i..][0] == p && parents[i..][1..] == parents[i + 1..];
          if p !in seen && |seen| < BRANCH_LIMIT {
            ghost var rest := Fresh(seen + [p], parents[i + 1..]);
            assert seen + ([p] + rest) == (seen + [p]) + rest && queue + ([p] + rest) == (queue + [p]) + rest;
            seen := seen + [p];
            queue := queue + [p];
          }
        }
        assert seen + [] == seen && queue + [] == queue;
      }
      return None;
    }

    /** `branch_ids`: breadth first downstream, each candidate asked again which
        todo it hangs from. */
    method FindBranchIds(root: int) returns (seen: seq<int>)
      ensures seen == BranchIds(View().Work(), root)
    {
      var g := View().Work();
      seen := [root];
      var queue := [root];
      while queue != []
        invariant |seen| <= BRANCH_LIMIT
        invariant DownWalk(g, root, seen, queue) == BranchIds(g, root)
        decreases BRANCH_LIMIT - |seen|, |queue|
      {
        var children := DownRows(g, queue[0]);
        seen, queue := TakeHanging(root, seen, queue[1..], children);
      }
    }

    /** The children that hang from `root` are seen and wait to be walked. */
    method TakeHanging(root: int, seen0: seq<int>, queue0: seq<int>, children: seq<int>)
        returns (seen: seq<int>, queue: seq<int>)
      requires |seen0| <= BRANCH_LIMIT
      ensures |seen| <= BRANCH_LIMIT
      ensures var f := Hanging(View().Work(), root, seen0, children); seen == seen0 + f && queue == queue0 + f
    {
      ghost var g := View().Work();
      ghost var f := Hanging(g, root, seen0, children);
      seen, queue := seen0, queue0;
      assert children[0..] == children;
      for i := 0 to |children|
        invariant |seen| <= BRANCH_LIMIT
        invariant seen + Hanging(g, root, seen, children[i..]) == seen0 + f
        invariant queue + Hanging(g, root, seen, children[i..]) == queue0 + f
      {
        var c := children[i];
        assert children[i..][0] == c && children[i..][1..] == children[i + 1..];
        if !(c in seen || |seen| >= BRANCH_LIMIT || c in View().Work().todos) {
          var hangs := FindBranchRoot(c);
          if hangs == Some(root) {
            ghost var rest := Hanging(g, root, seen + [c], children[i + 1..]);
            assert seen + ([c] + rest) == (seen + [c]) + rest && queue + ([c] + rest) == (queue + [c]) + rest;
            seen := seen + [c];
            queue := queue + [c];
          }
        }
      }
      assert seen + [] == seen && queue + [] == queue;
    }

    /** The highest of the given ids, or 0: `ORDER BY id DESC LIMIT 1`. */
    method Highest(ids: set<int>) returns (m: int)
      requires ids != {}
      ensures m == MaxOf(ids)
    {
      ghost var some := SomeMember(ids);
      m :| m in ids;
      var rest := ids - {m};
      while rest != {}
        invariant rest <= ids && m in ids
        invariant forall x | x in ids && x !in rest :: x <= m
        decreases rest
      {
        ghost var other := SomeMember(rest);
        var x :| x in rest;
        if m < x { m := x; }
        rest := rest - {x};
      }
    }

    /** `insert_flags`: a flag already set, open or closed, is left as it is. */
    method InsertFlags(id: int, fs: set<Flag>, now: int)
      modifies this`flags
      ensures flags == WithFlags(old(flags), id, fs, now)
    {
      var rest := fs;
      while rest != {}
        invariant rest <= fs
        invariant forall k | k in old(flags) :: k in flags && flags[k] == old(flags)[k]
        invariant forall k | k in flags && k !in old(flags) ::
                    k.0 == id && k.1 in fs && k.1 !in rest && flags[k] == FlagRow(now, None)
        invariant forall f | f in fs && f !in rest :: (id, f) in flags
        decreases rest
      {
        var f :| f in rest;
        if (id, f) !in flags {
          flags := flags[(id, f) := FlagRow(now, None)];
        }
        rest := rest - {f};
      }
      assert forall k | k in flags && k !in old(flags) :: k == (id, k.1);
    }

    /** `insert_links`: read from the text, to entries that exist. */
    method InsertLinks(id: int, body: string)
      modifies this`links
      ensures links == WithLinks(entries.Keys, old(links), id, ParseRefs(body))
    {
      var refs := Parse(body);
      for i := 0 to |refs|
        invariant WithLinks(entries.Keys, links, id, refs[i..]) == WithLinks(entries.Keys, old(links), id, refs)
      {
        var l := Link(id, refs[i].id, refs[i].kind);
        assert refs[i..][0] == refs[i] && refs[i..][1..] == refs[i + 1..];
        if l.to != id && l.to in entries && l !in links {
          links := links + [l];
        }
      }
    }

    method AnnotateEntry(id: int, n: NewEntry, now: int)
      modifies this`tags, this`flags, this`proofs
      ensures View() == Annotate(old(View()), id, n, now)
    {
      tags := tags + set l | l in TagsOf(n) :: (id, l);
      InsertFlags(id, n.flags, now);
      proofs := proofs + set p | p in n.proofs && Trim(p) != "" :: (id, Trim(p));
    }

    /** `add`: validate, then store or merge into the same note. */
    method Add(n: NewEntry, now: int) returns (r: Result<(AddStatus, int), Error>)
      modifies this
      ensures match AddSpec(old(View()), n, now)
              case Ok(a) => r == Ok((a.status, a.id)) && View() == a.t
              case Err(e) => r == Err(e) && View() == old(View())
    {
      var body := Trim(n.body);
      if body == "" { return Err(EmptyBody); }
      if |body| > MAX_BODY_CHARS { return Err(LongBody); }
      var category := CategoryOf(n);
      if category.None? { return Err(NoCategory); }
      if TagsOf(n) == {} { return Err(NoTag); }
      var same := set e | e in entries && entries[e].body == body && entries[e].category == category.value
                          && entries[e].createdAt >= now - DEDUP_WINDOW_SECS;
      assert same == Repeats(View(), body, category.value, now);
      if same != {} {
        var id := Highest(same);
        AnnotateEntry(id, n, now);
        return Ok((Deduped, id));
      }
      var id := 1;
      if entries.Keys != {} {
        id := Highest(entries.Keys);
        id := id + 1;
      }
      assert id == NextRowId(entries.Keys);
      entries := entries[id := Entry(now, category.value, body, n.salience)];
      AnnotateEntry(id, n, now);
      if !n.foreign {
        InsertLinks(id, body);
      }
      return Ok((Written, id));
    }

    method Mark(id: int, fs: set<Flag>, now: int) returns (r: Result<set<Flag>, Error>)
      modifies this`flags
      ensures match MarkSpec(old(View()), id, fs, now)
              case Ok(t) => View() == t && r == Ok(set f | f in fs && (id, f) !in old(flags))
              case Err(e) => r == Err(e) && View() == old(View())
    {
      if fs == {} { return Err(NoFlag); }
      if id !in entries { return Err(NoEntry); }
      var added := set f | f in fs && (id, f) !in flags;
      InsertFlags(id, fs, now);
      return Ok(added);
    }

    method Unmark(id: int, fs: set<Flag>) returns (r: Result<set<Flag>, Error>)
      modifies this`flags
      ensures match UnmarkSpec(old(View()), id, fs)
              case Ok(t) => View() == t && r == Ok(set f | f in fs && (id, f) in old(flags))
              case Err(e) => r == Err(e) && View() == old(View())
    {
      if fs == {} { return Err(NoFlag); }
      if id !in entries { return Err(NoEntry); }
      if Unverified in fs && View().OpenFlag(id, Unverified) && View().ProofOf(id).None? {
        return Err(StaysUnverified);
      }
      var removed := RemoveFlags(id, fs);
      return Ok(removed);
    }

    method RemoveFlags(id: int, fs: set<Flag>) returns (removed: set<Flag>)
      modifies this`flags
      ensures flags == map k | k in old(flags) && !(k.0 == id && k.1 in fs) :: old(flags)[k]
      ensures removed == set f | f in fs && (id, f) in old(flags)
    {
      removed := {};
      var rest := fs;
      while rest != {}
        invariant rest <= fs
        invariant forall k | k in flags :: k in old(flags) && flags[k] == old(flags)[k]
        invariant forall k | k in old(flags) :: k in flags <==> !(k.0 == id && k.1 in fs && k.1 !in rest)
        invariant forall f :: f in removed <==> f in fs && f !in rest && (id, f) in old(flags)
        decreases rest
      {
        var f :| f in rest;
        if (id, f) in flags {
          removed := removed + {f};
          flags := map k | k in flags && k != (id, f) :: flags[k];
        }
        rest := rest - {f};
      }
    }

    /** Close the given items of one entry. */
    method CloseItems(e: int, items: set<Flag>, c: Closure)
      requires forall f | f in items :: (e, f) in flags
      modifies this`flags
      ensures View() == WithClosed(old(View()), set f | f in items :: (e, f), c)
    {
      var rest := items;
      while rest != {}
        invariant rest <= items
        invariant flags == WithClosed(old(View()), set f | f in items - rest :: (e, f), c).flags
        decreases rest
      {
        var f :| f in rest;
        flags := flags[(e, f) := flags[(e, f)].(closed := Some(c))];
        assert items - (rest - {f}) == (items - rest) + {f};
        rest := rest - {f};
      }
      assert items - rest == items;
    }

    /** `close_with`: close the named open items, or all; a todo takes its branch. */
    method CloseWith(id: int, named: set<Flag>, who: Option<string>, resolution: Option<string>, now: int,
                     mode: CloseMode)
      returns (r: Result<set<FlagKey>, Error>)
      modifies this`flags
      ensures match CloseSpec(old(View()), id, named, who, resolution, now, mode)
              case Ok(c) => r == Ok(c.rows) && View() == c.t
              case Err(e) => r == Err(e) && View() == old(View())
    {
      if exists f :: f in named && !Closable(f) { return Err(NotAWorkItem); }
      if id !in entries { return Err(NoEntry); }
      var open := View().OpenItems(id);
      var targets := TargetsOf(named, open);
      if !(targets <= open) { return Err(NotOpen); }
      if targets == {} { return Err(NothingOpen); }
      var gate := CheckGates(id, targets, Clean(resolution), mode);
      if gate.Err? { return Err(gate.error); }
      var c := Closure(now, Clean(who), gate.value);
      var branch := [];
      if Todo in targets && !mode.Restore? {
        branch := FindBranchIds(id);
      }
      r := CloseBranch(id, targets, branch, mode, c);
    }

    /** The two gates, in order: the hypothesis's proof, then the todo's branch. */
    method CheckGates(id: int, targets: set<Flag>, given: Option<string>, mode: CloseMode)
        returns (r: Result<Option<string>, Error>)
      ensures r == match ProofGate(View(), id, targets, given, mode)
                   case Err(e) => Err(e)
                   case Ok(res) => TodoGate(View(), id, targets, res, mode)
    {
      var res := given;
      if Unverified in targets {
        match mode
        case Checked =>
          var proof := View().ProofOf(id);
          if proof.None? { return Err(StaysUnverified); }
          if res.None? { res := Some(VerifiedBy(proof.value)); }
        case Abandon =>
          if res.None? { return Err(NoReason); }
          if Todo !in targets { res := Prefixed(res); }
        case Restore =>
      }
      if Todo in targets {
        match mode
        case Checked =>
          var branch := FindBranchIds(id);
          var v := View().FirstVerified(branch, id);
          if v.None? { return Err(BranchUnverified); }
          if res.None? { res := Some(VerifiedBy(v.value)); }
        case Abandon =>
          if res.None? { return Err(NoReason); }
          res := Prefixed(res);
        case Restore =>
      }
      return Ok(res);
    }

    /** The rows a close has taken once it has walked part of the branch. */
    ghost function Taken(t: Tables, id: int, targets: set<Flag>, mode: CloseMode, walked: seq<int>): set<FlagKey> {
      set k | k in t.flags && Closes(t, id, targets, mode, k) && (k.0 == id || k.0 in walked)
    }

    method CloseBranch(id: int, targets: set<Flag>, branch: seq<int>, mode: CloseMode, c: Closure)
        returns (r: Result<set<FlagKey>, Error>)
      requires targets <= View().OpenItems(id)
      requires Todo in targets && !mode.Restore? ==> branch == BranchIds(View().Work(), id)
      requires !(Todo in targets && !mode.Restore?) ==> branch == []
      modifies this`flags
      ensures r == Ok(Closing(old(View()), id, targets, mode))
      ensures View() == WithClosed(old(View()), Closing(old(View()), id, targets, mode), c)
    {
      ghost var t := View();
      var closed := set f | f in targets :: (id, f);
      CloseItems(id, targets, c);
      assert closed == Taken(t, id, targets, mode, []) by { TargetRows(t, id, targets, mode); }
      if branch != [] { BranchNoDup(t, id, targets); }
      for i := 0 to |branch|
        invariant closed == Taken(t, id, targets, mode, branch[..i])
        invariant View() == WithClosed(t, closed, c)
      {
        var e := branch[i];
        if e != id {
          var items := View().OpenItems(e);
          if mode.Checked? && View().ProofOf(e).None? {
            items := items - {Unverified};
          }
          StepTaken(t, id, targets, mode, branch, i, c, items);
          CloseItems(e, items, c);
          closed := closed + set f | f in items :: (e, f);
        } else {
          assert Taken(t, id, targets, mode, branch[..i + 1]) == Taken(t, id, targets, mode, branch[..i]);
        }
      }
      assert branch[..|branch|] == branch;
      assert closed == Closing(t, id, targets, mode);
      return Ok(closed);
    }

    lemma TargetRows(t: Tables, id: int, targets: set<Flag>, mode: CloseMode)
      requires targets <= t.OpenItems(id)
      ensures (set f | f in targets :: (id, f)) == Taken(t, id, targets, mode, [])
    {
      forall f | f in targets ensures (id, f) in t.flags { assert f in t.OpenItems(id); }
    }

    lemma BranchNoDup(t: Tables, id: int, targets: set<Flag>)
      requires targets <= t.OpenItems(id) && Todo in targets
      ensures NoDup(BranchIds(t.Work(), id))
    {
      assert Todo in t.OpenItems(id);
      assert (id, Todo) in t.flags;
      assert id in t.Todos();
      BranchIdsSound(t.Work(), id);
    }

    /** What one more entry of the branch adds, judged on the tables as they are
        in the middle of the transaction. */
    lemma StepTaken(t: Tables, id: int, targets: set<Flag>, mode: CloseMode, branch: seq<int>, i: nat, c: Closure,
                    items: set<Flag>)
      requires Todo in targets && !mode.Restore? && branch == BranchIds(t.Work(), id) && NoDup(branch)
      requires targets <= t.OpenItems(id)
      requires i < |branch| && branch[i] != id
      requires var u := WithClosed(t, Taken(t, id, targets, mode, branch[..i]), c);
               items == if mode.Checked? && u.ProofOf(branch[i]).None? then u.OpenItems(branch[i]) - {Unverified}
                 else u.OpenItems(branch[i])
      ensures var before := Taken(t, id, targets, mode, branch[..i]);
              var more := set f | f in items :: (branch[i], f);
              && (forall f | f in items :: (branch[i], f) in t.flags)
              && Taken(t, id, targets, mode, branch[..i + 1]) == before + more
              && WithClosed(WithClosed(t, before, c), more, c) == WithClosed(t, before + more, c)
    {
      var e := branch[i];
      var before := Taken(t, id, targets, mode, branch[..i]);
      var u := WithClosed(t, before, c);
      SameItems(t, before, c, e);
      forall k | k in before ensures Closable(k.1) {
        if k.0 == id { assert k.1 in t.OpenItems(id); }
      }
      ClosingKeepsEvidence(t, before, c, e);
      OneMoreTaken(t, id, targets, mode, branch, i, items);
    }

    /** What closed rows of other entries leave of an entry's open items. */
    lemma SameItems(t: Tables, before: set<FlagKey>, c: Closure, e: int)
      requires forall k | k in before :: k.0 != e
      ensures WithClosed(t, before, c).OpenItems(e) == t.OpenItems(e)
    {
    }

    lemma OneMoreTaken(t: Tables, id: int, targets: set<Flag>, mode: CloseMode, branch: seq<int>, i: nat,
                       items: set<Flag>)
      requires Todo in targets && !mode.Restore? && branch == BranchIds(t.Work(), id) && NoDup(branch)
      requires i < |branch| && branch[i] != id
      requires items == if mode.Checked? && t.ProofOf(branch[i]).None? then t.OpenItems(branch[i]) - {Unverified}
               else t.OpenItems(branch[i])
      ensures var more := set f | f in items :: (branch[i], f);
              && (forall f | f in items :: (branch[i], f) in t.flags)
              && Taken(t, id, targets, mode, branch[..i + 1]) == Taken(t, id, targets, mode, branch[..i]) + more
    {
      var e := branch[i];
      var before := Taken(t, id, targets, mode, branch[..i]);
      var more := set f | f in items :: (e, f);
      forall k ensures k in Taken(t, id, targets, mode, branch[..i + 1]) <==> k in before || k in more {
        assert branch[..i + 1] == branch[..i] + [e];
        if k.0 == e && k in t.flags {
          assert k == (e, k.1);
          assert k in more <==> k.1 in items;
          assert k.1 in t.OpenItems(e) <==> t.OpenFlag(e, k.1) && Closable(k.1);
          assert e in branch;
        }
      }
    }

    method Reopen(id: int, named: set<Flag>) returns (r: Result<set<Flag>, Error>)
      modifies this`flags
      ensures match ReopenSpec(old(View()), id, named)
              case Ok(t) => r == Ok(TargetsOf(named, ClosedItems(old(View()), id))) && View() == t
              case Err(e) => r == Err(e) && View() == old(View())
    {
      if id !in entries { return Err(NoEntry); }
      var closed := ClosedItems(View(), id);
      var targets := TargetsOf(named, closed);
      if !(targets <= closed) { return Err(NotClosed); }
      if targets == {} { return Err(NothingClosed); }
      var rest := targets;
      while rest != {}
        invariant rest <= targets
        invariant flags == Reopened(old(View()), id, targets - rest).flags
        decreases rest
      {
        var f :| f in rest;
        assert f in closed;
        flags := flags[(id, f) := flags[(id, f)].(closed := None)];
        assert targets - (rest - {f}) == (targets - rest) + {f};
        rest := rest - {f};
      }
      assert targets - rest == targets;
      return Ok(targets);
    }

    method AddLink(from: int, to: int, kind: LinkKind) returns (r: Result<bool, Error>)
      modifies this`links
      ensures match LinkSpec(old(View()), from, to, kind)
              case Ok(t) => View() == t && r == Ok(Link(from, to, kind) !in old(links))
              case Err(e) => r == Err(e) && View() == old(View())
    {
      if from == to { return Err(SelfLink); }
      if from !in entries || to !in entries { return Err(NoEntry); }
      var added := Link(from, to, kind) !in links;
      if added { links := links + [Link(from, to, kind)]; }
      return Ok(added);
    }

    method RemoveLinks(from: int, to: int, only: Option<LinkKind>) returns (n: nat)
      modifies this`links
      ensures View() == UnlinkSpec(old(View()), from, to, only)
      ensures n == |old(links)| - |links|
    {
      var kept := KeepLinks(links, Unlinks(from, to, only));
      KeptCount(links, Unlinks(from, to, only));
      n := |links| - |kept|;
      links := kept;
    }

    lemma {:induction false} KeptCount(ls: seq<Link>, drop: Link -> bool)
      ensures |KeepLinks(ls, drop)| <= |ls|
    {
      if ls != [] { KeptCount(ls[1..], drop); }
    }

    method SetEvidenceFirst(on: bool)
      modifies this`evidenceFirst
      ensures View() == old(View()).(evidenceFirst := on)
    {
      evidenceFirst := on;
    }

    method RemoveEntries(gone: set<int>)
      modifies this
      ensures View() == WithoutEntries(old(View()), gone)
    {
      entries := entries - gone;
      tags := set p | p in tags && p.0 !in gone;
      flags := map k | k in flags && k.0 !in gone :: flags[k];
      links := KeepLinks(links, Touches(gone));
      proofs := set p | p in proofs && p.0 !in gone;
    }

    /** `gc`: how many medium and low entries are past retention; drop them
        unless this is a dry run. */
    method Gc(now: int, dryRun: bool) returns (medium: nat, low: nat)
      modifies this
      ensures medium == |Dying(old(View()), now, Medium)| && low == |Dying(old(View()), now, Low)|
      ensures View() == if dryRun then old(View()) else WithoutEntries(old(View()), Dead(old(View()), now))
    {
      var dead := Dead(View(), now);
      var ms, ls := Dying(View(), now, Medium), Dying(View(), now, Low);
      assert dead == ms + ls && ms !! ls;
      medium, low := |ms|, |ls|;
      if !dryRun && medium + low > 0 {
        RemoveEntries(dead);
      } else if !dryRun {
        NothingGone(View());
      }
    }

    lemma NothingGone(t: Tables)
      ensures WithoutEntries(t, {}) == t
    {
      KeepAll(t.links);
      assert t.entries - {} == t.entries;
      assert (map k | k in t.flags && k.0 !in {} :: t.flags[k]) == t.flags;
    }

    lemma {:induction false} KeepAll(ls: seq<Link>)
      ensures KeepLinks(ls, Touches({})) == ls
    {
      if ls != [] { KeepAll(ls[1..]); }
    }

    method Delete(id: int) returns (gone: bool)
      modifies this
      ensures gone == (id in old(entries))
      ensures View() == WithoutEntries(old(View()), {id})
    {
      gone := id in entries;
      RemoveEntries({id});
    }
  }
}
