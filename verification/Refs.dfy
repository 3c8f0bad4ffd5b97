/** Reading `journal#N` references out of an entry's text (`parse_refs`), and
    how much an evidence entry says besides them (`evidence_gap`). Text is a
    sequence of characters; letters and blanks are the ASCII ones. */
module Refs {
  import opened Base
  import opened Branch
  import opened Text

  const MARK := "journal#"
  const MARK_LEN := 8
  const I64_MAX := 9223372036854775807

  datatype Ref = Ref(id: nat, kind: LinkKind)

  predicate IsAlnum(c: char) { IsDigit(c) || 'a' <= c <= 'z' || 'A' <= c <= 'Z' }

  predicate EndsClause(c: char) { c == '.' || c == ';' || c == '\n' || c == '(' }

  predicate JoinsRun(c: char) { c == '/' || c == ',' || c == ' ' }

  predicate MarkAt(s: string, at: nat) {
    at + MARK_LEN <= |s| && Matches(s, at, MARK)
  }

  /** The first mark at or after `from`. */
  function FindMark(s: string, from: nat): (r: Option<nat>)
    ensures r.Some? ==> from <= r.value && MarkAt(s, r.value)
    decreases |s| - from
  {
    if from + MARK_LEN > |s| then None
    else if MarkAt(s, from) then Some(from)
    else FindMark(s, from + 1)
  }

  // ---------------------------------------------------------------------
  // The words right before a reference decide its kind.

  function ClauseStart(s: string, at: nat): (r: nat)
    requires at <= |s|
    ensures r <= at
  {
    if at == 0 then 0 else if EndsClause(s[at - 1]) then at else ClauseStart(s, at - 1)
  }

  function LastThree(ws: seq<string>): seq<string> {
    if |ws| <= 3 then ws else ws[|ws| - 3..]
  }

  function TrimFront(w: string): string {
    if w == [] || IsAlnum(w[0]) then w else TrimFront(w[1..])
  }

  function TrimBack(w: string): string {
    if w == [] || IsAlnum(w[|w| - 1]) then w else TrimBack(w[..|w| - 1])
  }

  function Bare(w: string): string { TrimBack(TrimFront(w)) }

  predicate OneOf(w: string, verbs: seq<string>) {
    verbs != [] && ((|w| == |verbs[0]| && Matches(w, 0, verbs[0])) || OneOf(w, verbs[1..]))
  }

  predicate Said(ws: seq<string>, verbs: seq<string>) {
    ws != [] && (OneOf(Bare(ws[0]), verbs) || Said(ws[1..], verbs))
  }

  const REPLACING: seq<string> := ["replaces", "supersedes", "corrects", "reverses"]
  const FIXING: seq<string> := ["fixes"]
  const IMPLEMENTING: seq<string> := ["implements"]
  const VERIFYING: seq<string> := ["verifies"]

  function KindOf(ws: seq<string>): LinkKind {
    if Said(ws, REPLACING) then Replaces
    else if Said(ws, FIXING) then Fixes
    else if Said(ws, IMPLEMENTING) then Implements
    else if Said(ws, VERIFYING) then Verifies
    else Cites
  }

  function KindBefore(s: string, at: nat): LinkKind
    requires at <= |s|
  {
    KindOf(LastThree(Words(s[ClauseStart(s, at)..at])))
  }

  // ---------------------------------------------------------------------
  // A run of ids: digits, then `/#`, `, #` or ` and #` and digits again.

  function DigitsEnd(s: string, i: nat): (r: nat)
    requires i <= |s|
    ensures i <= r <= |s|
    decreases |s| - i
  {
    if i < |s| && IsDigit(s[i]) then DigitsEnd(s, i + 1) else i
  }

  function ValueOf(digits: string): (v: nat)
    requires forall k | 0 <= k < |digits| :: IsDigit(digits[k])
  {
    if digits == [] then 0
    else
      assert IsDigit(digits[|digits| - 1]);
      10 * ValueOf(digits[..|digits| - 1]) + (digits[|digits| - 1] as int - '0' as int)
  }

  /** `parse::<i64>`: nothing for no digits or too large a number. */
  function ParseId(digits: string): Option<nat>
    requires forall k | 0 <= k < |digits| :: IsDigit(digits[k])
  {
    if digits == [] || ValueOf(digits) > I64_MAX then None else Some(ValueOf(digits))
  }

  lemma {:induction false} DigitsEndAfter(s: string, i: nat)
    requires i <= |s|
    ensures forall k | i <= k < DigitsEnd(s, i) :: IsDigit(s[k])
    decreases |s| - i
  {
    if i < |s| && IsDigit(s[i]) { DigitsEndAfter(s, i + 1); }
  }

  /** The number that stands at `i`. */
  function IdAt(s: string, i: nat): Option<nat>
    requires i <= |s|
  {
    DigitsEndAfter(s, i);
    ParseId(s[i..DigitsEnd(s, i)])
  }

  function JoinEnd(s: string, i: nat): (r: nat)
    requires i <= |s|
    ensures i <= r <= |s|
    decreases |s| - i
  {
    if i < |s| && JoinsRun(s[i]) then JoinEnd(s, i + 1) else i
  }

  function AndEnd(s: string, j: nat): (r: nat)
    requires j <= |s|
    ensures j <= r <= |s|
  {
    if j + 4 <= |s| && Matches(s, j, "and ") then j + 4 else j
  }

  /** Where the next number of the run starts, when the run goes on. */
  function NextInRun(s: string, i: nat): (r: Option<nat>)
    requires i <= |s|
    ensures r.Some? ==> i < r.value < |s|
  {
    var j := AndEnd(s, JoinEnd(s, i));
    if j + 1 < |s| && s[j] == '#' && IsDigit(s[j + 1]) then Some(j + 1) else None
  }

  /** Keep a reference once, where it was first seen. */
  function Note(out: seq<Ref>, id: Option<nat>, kind: LinkKind): seq<Ref> {
    if id.None? || Ref(id.value, kind) in out then out else out + [Ref(id.value, kind)]
  }

  datatype Scan = Scan(out: seq<Ref>, end: nat)

  /** Read the run that starts at `i`. */
  function ReadRun(s: string, i: nat, kind: LinkKind, out: seq<Ref>): (r: Scan)
    requires i <= |s|
    ensures i <= r.end <= |s|
    decreases |s| - i
  {
    var e := DigitsEnd(s, i);
    var out' := Note(out, IdAt(s, i), kind);
    match NextInRun(s, e)
    case Some(next) => ReadRun(s, next, kind, out')
    case None => Scan(out', e)
  }

  function UpTo(n: nat, f: nat -> LinkKind): (kinds: seq<LinkKind>)
    ensures |kinds| == n + 1
  {
    (if n == 0 then [] else UpTo(n - 1, f)) + [f(n)]
  }

  lemma {:induction false} UpToAt(n: nat, f: nat -> LinkKind, at: nat)
    requires at <= n
    ensures UpTo(n, f)[at] == f(at)
  {
    if at < n { UpToAt(n - 1, f, at); }
  }

  /** The kind a reference gets at each place of the text. */
  function Kinds(s: string): seq<LinkKind> {
    UpTo(|s|, (k: nat) => if k <= |s| then KindBefore(s, k) else Cites)
  }

  lemma KindAt(s: string, at: nat)
    requires at <= |s|
    ensures Kinds(s)[at] == KindBefore(s, at)
  {
    UpToAt(|s|, (k: nat) => if k <= |s| then KindBefore(s, k) else Cites, at);
  }

  function ScanFrom(s: string, kinds: seq<LinkKind>, from: nat, out: seq<Ref>): seq<Ref>
    requires |kinds| == |s| + 1
    decreases |s| - from
  {
    match FindMark(s, from)
    case None => out
    case Some(at) =>
      var run := ReadRun(s, at + MARK_LEN, kinds[at], out);
      ScanFrom(s, kinds, run.end, run.out)
  }

  lemma ScanStep(s: string, kinds: seq<LinkKind>, from: nat, at: nat, out: seq<Ref>, more: seq<Ref>, end: nat)
    requires |kinds| == |s| + 1 && FindMark(s, from) == Some(at)
             && ReadRun(s, at + MARK_LEN, kinds[at], out) == Scan(more, end)
    ensures ScanFrom(s, kinds, from, out) == ScanFrom(s, kinds, end, more)
  {
  }

  /** The references a text makes. */
  function ParseRefs(body: string): seq<Ref> { ScanFrom(Lower(body), Kinds(Lower(body)), 0, []) }

  // ---------------------------------------------------------------------
  // The loops themselves.

  method Parse(body: string) returns (out: seq<Ref>)
    ensures out == ParseRefs(body)
  {
    var lower := Lower(body);
    out := [];
    var from := 0;
    ghost var kinds := Kinds(lower);
    ghost var goal := ScanFrom(lower, kinds, 0, []);
    while FindMark(lower, from).Some?
      invariant ScanFrom(lower, kinds, from, out) == goal
      decreases |lower| - from
    {
      var at := FindMark(lower, from).value;
      var more, end := ParseMark(lower, at, kinds, out);
      ScanStep(lower, kinds, from, at, out, more, end);
      out, from := more, end;
    }
  }

  /** The words before a mark, then its run. */
  method ParseMark(lower: string, at: nat, ghost kinds: seq<LinkKind>, before: seq<Ref>) returns (out: seq<Ref>, i: nat)
    requires MarkAt(lower, at) && kinds == Kinds(lower)
    ensures Scan(out, i) == ReadRun(lower, at + MARK_LEN, kinds[at], before)
  {
    var kind := KindBefore(lower, at);
    KindAt(lower, at);
    out, i := ParseRun(lower, at + MARK_LEN, kind, before);
  }

  method ParseRun(lower: string, first: nat, kind: LinkKind, before: seq<Ref>) returns (out: seq<Ref>, i: nat)
    requires first <= |lower|
    ensures Scan(out, i) == ReadRun(lower, first, kind, before)
  {
    ghost var goal := ReadRun(lower, first, kind, before);
    i, out := first, before;
    while true
      invariant first <= i <= |lower|
      invariant ReadRun(lower, i, kind, out) == goal
      decreases |lower| - i
    {
      var e := SkipDigits(lower, i);
      var next := NextNumber(lower, e);
      var id := IdAt(lower, i);
      assert goal == match next
                     case Some(n) => ReadRun(lower, n, kind, Note(out, id, kind))
                     case None => Scan(Note(out, id, kind), e);
      out := Note(out, id, kind);
      if next.None? {
        i := e;
        return;
      }
      i := next.value;
    }
  }

  method SkipDigits(s: string, start: nat) returns (i: nat)
    requires start <= |s|
    ensures i == DigitsEnd(s, start)
  {
    i := start;
    while i < |s| && IsDigit(s[i])
      invariant start <= i <= |s|
      invariant DigitsEnd(s, i) == DigitsEnd(s, start)
    {
      i := i + 1;
    }
  }

  method NextNumber(s: string, start: nat) returns (next: Option<nat>)
    requires start <= |s|
    ensures next == NextInRun(s, start)
  {
    var j := start;
    while j < |s| && JoinsRun(s[j])
      invariant start <= j <= |s|
      invariant JoinEnd(s, j) == JoinEnd(s, start)
    {
      j := j + 1;
    }
    if j + 4 <= |s| && Matches(s, j, "and ") {
      j := j + 4;
    }
    next := if j + 1 < |s| && s[j] == '#' && IsDigit(s[j + 1]) then Some(j + 1) else None;
  }

  // ---------------------------------------------------------------------
  // What is reported.

  /** `i` starts a number of the run that begins at `first`. */
  ghost predicate InRun(s: string, first: nat, i: nat)
    requires first <= |s|
    decreases |s| - first
  {
    i == first ||
    (NextInRun(s, DigitsEnd(s, first)).Some? && InRun(s, NextInRun(s, DigitsEnd(s, first)).value, i))
  }

  /** `r` is spelled at a mark or in its run, with the kind of the words before. */
  ghost predicate Spelled(s: string, r: Ref) {
    exists at: nat, i: nat :: SpelledAt(s, r, at, i)
  }

  ghost predicate SpelledAt(s: string, r: Ref, at: nat, i: nat) {
    && MarkAt(s, at) && KindBefore(s, at) == r.kind
    && i <= |s| && InRun(s, at + MARK_LEN, i)
    && IdAt(s, i) == Some(r.id)
  }

  lemma {:induction false} InRunStep(s: string, first: nat, i: nat)
    requires first <= i <= |s| && InRun(s, first, i)
    requires NextInRun(s, DigitsEnd(s, i)).Some?
    ensures InRun(s, first, NextInRun(s, DigitsEnd(s, i)).value)
    decreases |s| - first
  {
    if i != first {
      var next := NextInRun(s, DigitsEnd(s, first)).value;
      InRunForward(s, next, i);
      InRunStep(s, next, i);
    }
  }

  lemma {:induction false} InRunForward(s: string, first: nat, i: nat)
    requires first <= |s| && InRun(s, first, i)
    ensures first <= i <= |s|
    decreases |s| - first
  {
    if i != first {
      InRunForward(s, NextInRun(s, DigitsEnd(s, first)).value, i);
    }
  }

  /** What a run adds is a number of it. */
  lemma {:induction false} RunSpells(s: string, first: nat, i: nat, kind: LinkKind, out: seq<Ref>, r: Ref)
      returns (j: nat)
    requires first <= i <= |s| && InRun(s, first, i) && r in ReadRun(s, i, kind, out).out && r !in out
    ensures r.kind == kind && j <= |s| && InRun(s, first, j) && IdAt(s, j) == Some(r.id)
    decreases |s| - i
  {
    if r in Note(out, IdAt(s, i), kind) {
      j := i;
    } else {
      InRunStep(s, first, i);
      j := RunSpells(s, first, NextInRun(s, DigitsEnd(s, i)).value, kind, Note(out, IdAt(s, i), kind), r);
    }
  }

  /** What the scan adds is spelled at a mark or in its run. */
  lemma {:induction false} ScanSpells(s: string, kinds: seq<LinkKind>, from: nat, out: seq<Ref>, r: Ref)
      returns (at: nat, i: nat)
    requires |kinds| == |s| + 1 && r in ScanFrom(s, kinds, from, out) && r !in out
    ensures MarkAt(s, at) && kinds[at] == r.kind && i <= |s| && InRun(s, at + MARK_LEN, i) && IdAt(s, i) == Some(r.id)
    decreases |s| - from
  {
    at := FindMark(s, from).value;
    var run := ReadRun(s, at + MARK_LEN, kinds[at], out);
    if r in run.out {
      i := RunSpells(s, at + MARK_LEN, at + MARK_LEN, kinds[at], out, r);
    } else {
      at, i := ScanSpells(s, kinds, run.end, run.out, r);
    }
  }

  lemma {:induction false} RunNoDup(s: string, i: nat, kind: LinkKind, out: seq<Ref>)
    requires i <= |s| && NoDup(out)
    ensures NoDup(ReadRun(s, i, kind, out).out)
    decreases |s| - i
  {
    var noted := Note(out, IdAt(s, i), kind);
    if noted != out { NoDupConcat(out, [Ref(IdAt(s, i).value, kind)]); }
    if NextInRun(s, DigitsEnd(s, i)).Some? { RunNoDup(s, NextInRun(s, DigitsEnd(s, i)).value, kind, noted); }
  }

  lemma {:induction false} ScanNoDup(s: string, kinds: seq<LinkKind>, from: nat, out: seq<Ref>)
    requires |kinds| == |s| + 1 && NoDup(out)
    ensures NoDup(ScanFrom(s, kinds, from, out))
    decreases |s| - from
  {
    if FindMark(s, from).Some? {
      var at := FindMark(s, from).value;
      var run := ReadRun(s, at + MARK_LEN, kinds[at], out);
      RunNoDup(s, at + MARK_LEN, kinds[at], out);
      ScanNoDup(s, kinds, run.end, run.out);
    }
  }

  // ---------------------------------------------------------------------
  // Everything that is spelled is reported.

  lemma {:induction false} FindMarkFirst(s: string, from: nat)
    ensures forall k: nat | from <= k && MarkAt(s, k) :: FindMark(s, from).Some? && FindMark(s, from).value <= k
    decreases |s| - from
  {
    if from + MARK_LEN <= |s| && !MarkAt(s, from) { FindMarkFirst(s, from + 1); }
  }

  lemma {:induction false} JoinEndAfter(s: string, i: nat)
    requires i <= |s|
    ensures forall k | i <= k < JoinEnd(s, i) :: JoinsRun(s[k])
    decreases |s| - i
  {
    if i < |s| && JoinsRun(s[i]) { JoinEndAfter(s, i + 1); }
  }

  /** What leads from one number of a run to the next holds no `j`. */
  lemma NoJToNext(s: string, e: nat)
    requires e <= |s| && NextInRun(s, e).Some?
    ensures forall k | e <= k < NextInRun(s, e).value :: s[k] != 'j'
  {
    var i := JoinEnd(s, e);
    JoinEndAfter(s, e);
    var j := AndEnd(s, i);
    forall k | i <= k < j ensures s[k] != 'j' { assert s[i + (k - i)] == "and "[k - i]; }
  }

  /** Nor does a run. */
  lemma {:induction false} NoJInRun(s: string, i: nat, kind: LinkKind, out: seq<Ref>)
    requires i <= |s|
    ensures forall k | i <= k < ReadRun(s, i, kind, out).end :: s[k] != 'j'
    decreases |s| - i
  {
    var e := DigitsEnd(s, i);
    DigitsEndAfter(s, i);
    if NextInRun(s, e).Some? {
      NoJToNext(s, e);
      NoJInRun(s, NextInRun(s, e).value, kind, Note(out, IdAt(s, i), kind));
    }
  }

  /** So no mark begins inside the run of another. */
  lemma MarksApart(s: string, at: nat, later: nat, kind: LinkKind, out: seq<Ref>)
    requires MarkAt(s, at) && MarkAt(s, later) && at < later
    ensures ReadRun(s, at + MARK_LEN, kind, out).end <= later
  {
    assert s[later + 0] == MARK[0];
    forall q | at < q < at + MARK_LEN ensures s[q] != 'j' {
      var k := q - at;
      assert s[at + k] == MARK[k];
    }
    NoJInRun(s, at + MARK_LEN, kind, out);
  }

  lemma {:induction false} RunCovers(s: string, first: nat, i: nat, kind: LinkKind, out: seq<Ref>)
    requires first <= |s| && i <= |s| && InRun(s, first, i)
    ensures var n := ReadRun(s, first, kind, out).out;
            && (forall r | r in out :: r in n)
            && (IdAt(s, i).Some? ==> Ref(IdAt(s, i).value, kind) in n)
    decreases |s| - first
  {
    var noted := Note(out, IdAt(s, first), kind);
    if NextInRun(s, DigitsEnd(s, first)).Some? {
      var next := NextInRun(s, DigitsEnd(s, first)).value;
      RunCovers(s, next, if i == first then next else i, kind, noted);
    }
  }

  lemma {:induction false} ScanKeeps(s: string, kinds: seq<LinkKind>, from: nat, out: seq<Ref>)
    requires |kinds| == |s| + 1
    ensures forall r | r in out :: r in ScanFrom(s, kinds, from, out)
    decreases |s| - from
  {
    if FindMark(s, from).Some? {
      var at := FindMark(s, from).value;
      var run := ReadRun(s, at + MARK_LEN, kinds[at], out);
      RunCovers(s, at + MARK_LEN, at + MARK_LEN, kinds[at], out);
      ScanKeeps(s, kinds, run.end, run.out);
    }
  }

  lemma {:induction false} ScanCovers(s: string, kinds: seq<LinkKind>, from: nat, out: seq<Ref>, at: nat, i: nat)
    requires |kinds| == |s| + 1 && from <= at && MarkAt(s, at) && i <= |s| && InRun(s, at + MARK_LEN, i)
             && IdAt(s, i).Some?
    ensures Ref(IdAt(s, i).value, kinds[at]) in ScanFrom(s, kinds, from, out)
    decreases |s| - from
  {
    FindMarkFirst(s, from);
    var f := FindMark(s, from).value;
    var run := ReadRun(s, f + MARK_LEN, kinds[f], out);
    if f == at {
      RunCovers(s, at + MARK_LEN, i, kinds[at], out);
      ScanKeeps(s, kinds, run.end, run.out);
    } else {
      MarksApart(s, f, at, kinds[f], out);
      ScanCovers(s, kinds, run.end, run.out, at, i);
    }
  }

  /** No reference is reported twice, and those reported are exactly those
      spelled in the text. */
  lemma ParseRefsExact(body: string)
    ensures NoDup(ParseRefs(body))
    ensures forall r :: r in ParseRefs(body) <==> Spelled(Lower(body), r)
  {
    var s := Lower(body);
    ScanNoDup(s, Kinds(s), 0, []);
    forall r | r in ParseRefs(body) ensures Spelled(s, r) {
      var at, i := ScanSpells(s, Kinds(s), 0, [], r);
      KindAt(s, at);
      assert SpelledAt(s, r, at, i);
    }
    forall r | Spelled(s, r) ensures r in ParseRefs(body) {
      var at: nat, i: nat :| SpelledAt(s, r, at, i);
      KindAt(s, at);
      ScanCovers(s, Kinds(s), 0, [], at, i);
    }
  }

  // ---------------------------------------------------------------------
  // What an evidence entry says besides its references.

  function Digits(n: nat): string {
    if n < 10 then [('0' as int + n) as char] else Digits(n / 10) + [('0' as int + n % 10) as char]
  }

  /** `str::replace(pat, "")`. */
  function Remove(s: string, pat: string): string
    requires pat != []
    decreases |s|
  {
    if |s| < |pat| then s
    else if s[..|pat|] == pat then Remove(s[|pat|..], pat)
    else [s[0]] + Remove(s[1..], pat)
  }

  function WithoutRefs(text: string, refs: seq<Ref>): string
    decreases |refs|
  {
    if refs == [] then text
    else
      var n := Digits(refs[0].id);
      WithoutRefs(Remove(Remove(text, MARK + n), "#" + n), refs[1..])
  }

  function JoinedLen(ws: seq<string>): nat {
    if ws == [] then 0 else |ws[0]| + (if |ws| > 1 then 1 else 0) + JoinedLen(ws[1..])
  }

  /** Characters an entry says, references aside and blanks collapsed. */
  function SaidChars(body: string): nat {
    JoinedLen(Words(WithoutRefs(Lower(body), ParseRefs(body))))
  }
}
