/** The documented way to refer to entries is read back: groups such as
    "Replaces journal#1, #2 and #3. Fixes journal#4" give their ids in order,
    each with the kind that the words before its mark set. */
module RefGrammar {
  import opened Base
  import opened Text
  import opened Branch
  import opened Refs

  datatype Separator = Slash | Comma | AndThen

  datatype Later = Later(sep: Separator, id: nat)

  /** The words before a reference and the ids they are said of. */
  datatype Group = Group(words: seq<string>, first: nat, more: seq<Later>)

  function SepText(s: Separator): string {
    match s case Slash => "/#" case Comma => ", #" case AndThen => " and #"
  }

  /** A number and those said after it. */
  function Run(n: nat, more: seq<Later>): string
    decreases |more|
  {
    if more == [] then Digits(n) else Digits(n) + SepText(more[0].sep) + Run(more[0].id, more[1..])
  }

  function Ids(g: Group): string { Run(g.first, g.more) }

  /** The words, each with a blank behind it. */
  function Phrase(words: seq<string>): string {
    if words == [] then "" else words[0] + " " + Phrase(words[1..])
  }

  function Lead(g: Group): string { Phrase(g.words) }

  function RenderGroup(g: Group): string { Lead(g) + MARK + Ids(g) }

  function Render(gs: seq<Group>): string {
    if gs == [] then "" else RenderGroup(gs[0]) + if |gs| == 1 then "" else ". " + Render(gs[1..])
  }

  // ---------------------------------------------------------------------
  // What the groups say.

  function NoteMore(more: seq<Later>, kind: LinkKind, out: seq<Ref>): seq<Ref> {
    if more == [] then out else NoteMore(more[1..], kind, Note(out, Some(more[0].id), kind))
  }

  function NoteRun(g: Group, kind: LinkKind, out: seq<Ref>): seq<Ref> {
    NoteMore(g.more, kind, Note(out, Some(g.first), kind))
  }

  /** Every id of every group in order, under the kind of its group, the first time it is said. */
  function Reported(gs: seq<Group>, kinds: seq<LinkKind>, out: seq<Ref>): seq<Ref>
    requires |kinds| == |gs|
    decreases |gs|
  {
    if gs == [] then out else Reported(gs[1..], kinds[1..], NoteRun(gs[0], kinds[0], out))
  }

  /** What the last three words of each group say. */
  function WordKinds(gs: seq<Group>): (kinds: seq<LinkKind>)
    ensures |kinds| == |gs|
  {
    if gs == [] then [] else [KindOf(LastThree(gs[0].words))] + WordKinds(gs[1..])
  }

  predicate Fitting(more: seq<Later>) { more == [] || (more[0].id <= I64_MAX && Fitting(more[1..])) }

  /** No blank, no end of a clause, no hash. */
  predicate WordChar(c: char) { !IsSpace(c) && !EndsClause(c) && c != '#' }

  ghost predicate PlainWord(w: string) { w != "" && forall i | 0 <= i < |w| :: WordChar(w[i]) }

  ghost predicate PlainWords(words: seq<string>) { words == [] || (PlainWord(words[0]) && PlainWords(words[1..])) }

  /** Any words within one clause, as many as there are; ids are 64-bit. */
  ghost predicate Written(g: Group) { PlainWords(g.words) && g.first <= I64_MAX && Fitting(g.more) }

  ghost predicate AllWritten(gs: seq<Group>) { gs == [] || (Written(gs[0]) && AllWritten(gs[1..])) }

  // ---------------------------------------------------------------------
  // Numbers.

  lemma {:induction false} DigitsAre(n: nat)
    ensures Digits(n) != "" && (forall k | 0 <= k < |Digits(n)| :: IsDigit(Digits(n)[k]))
    ensures ValueOf(Digits(n)) == n
  {
    if n >= 10 {
      DigitsAre(n / 10);
      assert Digits(n)[..|Digits(n)| - 1] == Digits(n / 10);
    } else {
      assert Digits(n)[..0] == "";
    }
  }

  /** `t` stands in `s` at `i`. */
  ghost predicate Stands(s: string, i: nat, t: string) { i + |t| <= |s| && Matches(s, i, t) }

  lemma StandsParts(s: string, i: nat, a: string, b: string)
    requires Stands(s, i, a + b)
    ensures Stands(s, i, a) && Stands(s, i + |a|, b)
  {
    var ab := a + b;
    forall k | 0 <= k < |a| ensures s[i + k] == a[k] { assert ab[k] == a[k]; }
    forall k | 0 <= k < |b| ensures s[i + |a| + k] == b[k] { assert ab[|a| + k] == b[k]; }
  }

  lemma CharAt(s: string, i: nat, t: string, k: nat)
    requires Stands(s, i, t) && k < |t|
    ensures s[i + k] == t[k]
  {
  }

  /** Digits are read to their end, and give their number. */
  lemma DigitsRead(s: string, i: nat, n: nat)
    requires Stands(s, i, Digits(n)) && n <= I64_MAX
    requires i + |Digits(n)| < |s| ==> !IsDigit(s[i + |Digits(n)|])
    ensures DigitsEnd(s, i) == i + |Digits(n)| && IdAt(s, i) == Some(n)
  {
    DigitsAre(n);
    var e := i + |Digits(n)|;
    forall k | i <= k < e ensures IsDigit(s[k]) { CharAt(s, i, Digits(n), k - i); }
    DigitsRun(s, i, e);
    MatchesSlice(s, i, Digits(n));
  }

  lemma {:induction false} DigitsRun(s: string, i: nat, e: nat)
    requires i <= e <= |s| && (forall k | i <= k < e :: IsDigit(s[k])) && (e < |s| ==> !IsDigit(s[e]))
    ensures DigitsEnd(s, i) == e
    decreases e - i
  {
    if i < e { DigitsRun(s, i + 1, e); }
  }

  // ---------------------------------------------------------------------
  // Runs.

  lemma NoAnd(s: string, j: nat)
    requires j < |s| && s[j] != 'a'
    ensures AndEnd(s, j) == j
  {
    assert "and "[0] == 'a';
  }

  lemma SlashRead(s: string, e: nat)
    requires e + 2 < |s| && s[e] == '/' && s[e + 1] == '#' && IsDigit(s[e + 2])
    ensures NextInRun(s, e) == Some(e + 2)
  {
    assert JoinEnd(s, e + 1) == e + 1;
    NoAnd(s, e + 1);
  }

  lemma CommaRead(s: string, e: nat)
    requires e + 3 < |s| && s[e] == ',' && s[e + 1] == ' ' && s[e + 2] == '#' && IsDigit(s[e + 3])
    ensures NextInRun(s, e) == Some(e + 3)
  {
    assert JoinEnd(s, e + 2) == e + 2;
    assert JoinEnd(s, e + 1) == e + 2;
    NoAnd(s, e + 2);
  }

  lemma AndRead(s: string, e: nat)
    requires e + 6 < |s| && s[e] == ' ' && s[e + 1] == 'a' && s[e + 2] == 'n' && s[e + 3] == 'd' && s[e + 4] == ' '
    requires s[e + 5] == '#' && IsDigit(s[e + 6])
    ensures NextInRun(s, e) == Some(e + 6)
  {
    assert Matches(s, e + 1, "and ");
    assert JoinEnd(s, e + 1) == e + 1;
  }

  /** Each separator leads on to the number behind it. */
  lemma SeparatorRead(s: string, e: nat, sep: Separator, n: nat)
    requires Stands(s, e, SepText(sep)) && Stands(s, e + |SepText(sep)|, Digits(n))
    ensures NextInRun(s, e) == Some(e + |SepText(sep)|) && !IsDigit(s[e])
  {
    DigitsAre(n);
    CharAt(s, e + |SepText(sep)|, Digits(n), 0);
    var t := SepText(sep);
    CharAt(s, e, t, 0);
    CharAt(s, e, t, 1);
    CharAt(s, e, t, |t| - 1);
    match sep
    case Slash => SlashRead(s, e);
    case Comma => CommaRead(s, e);
    case AndThen =>
      CharAt(s, e, t, 2);
      CharAt(s, e, t, 3);
      CharAt(s, e, t, 4);
      AndRead(s, e);
  }

  /** A full stop or the end of the text ends the run. */
  lemma RunEnds(s: string, e: nat)
    requires e == |s| || (e < |s| && s[e] == '.')
    ensures NextInRun(s, e) == None
  {
    if e < |s| { NoAnd(s, e); }
  }

  lemma ReadStep(s: string, i: nat, n: nat, next: nat, kind: LinkKind, out: seq<Ref>)
    requires i <= |s| && IdAt(s, i) == Some(n) && NextInRun(s, DigitsEnd(s, i)) == Some(next)
    ensures ReadRun(s, i, kind, out) == ReadRun(s, next, kind, Note(out, Some(n), kind))
  {
  }

  lemma ReadLast(s: string, i: nat, n: nat, kind: LinkKind, out: seq<Ref>)
    requires i <= |s| && IdAt(s, i) == Some(n) && NextInRun(s, DigitsEnd(s, i)) == None
    ensures ReadRun(s, i, kind, out) == Scan(Note(out, Some(n), kind), DigitsEnd(s, i))
  {
  }

  lemma ThreeParts(s: string, i: nat, a: string, b: string, c: string)
    requires Stands(s, i, a + b + c)
    ensures Stands(s, i, a) && Stands(s, i + |a|, b) && Stands(s, i + |a| + |b|, c)
  {
    StandsParts(s, i, a + b, c);
    StandsParts(s, i, a, b);
  }

  /** A run begins with its number. */
  lemma RunBegins(s: string, i: nat, n: nat, more: seq<Later>)
    requires Stands(s, i, Run(n, more))
    ensures Stands(s, i, Digits(n))
  {
    if more != [] { ThreeParts(s, i, Digits(n), SepText(more[0].sep), Run(more[0].id, more[1..])); }
  }

  /** A number with a separator and another behind it is noted, and read on from there. */
  lemma NumberRead(s: string, i: nat, n: nat, l: Later, next: nat, kind: LinkKind, out: seq<Ref>)
    requires n <= I64_MAX && Stands(s, i, Digits(n)) && Stands(s, i + |Digits(n)|, SepText(l.sep))
    requires next == i + |Digits(n)| + |SepText(l.sep)| && Stands(s, next, Digits(l.id))
    ensures ReadRun(s, i, kind, out) == ReadRun(s, next, kind, Note(out, Some(n), kind))
  {
    NumberFollowed(s, i, n, i + |Digits(n)|, l, next);
    ReadStep(s, i, n, next, kind, out);
  }

  lemma NumberFollowed(s: string, i: nat, n: nat, e: nat, l: Later, next: nat)
    requires n <= I64_MAX && Stands(s, i, Digits(n)) && e == i + |Digits(n)| && Stands(s, e, SepText(l.sep))
    requires next == e + |SepText(l.sep)| && Stands(s, next, Digits(l.id))
    ensures IdAt(s, i) == Some(n) && NextInRun(s, DigitsEnd(s, i)) == Some(next)
  {
    SeparatorRead(s, e, l.sep, l.id);
    DigitsRead(s, i, n);
  }

  /** The numbers of a run are read one after the other. */
  lemma {:induction false} MoreRead(s: string, i: nat, n: nat, more: seq<Later>, kind: LinkKind, out: seq<Ref>,
                                    end: nat)
    requires Stands(s, i, Run(n, more)) && n <= I64_MAX && Fitting(more)
    requires end == i + |Run(n, more)| && (end == |s| || s[end] == '.')
    ensures ReadRun(s, i, kind, out) == Scan(NoteMore(more, kind, Note(out, Some(n), kind)), end)
    decreases |more|
  {
    if more == [] {
      LastRead(s, i, n, kind, out, end);
    } else {
      var next := NextRun(s, i, n, more, kind, out, end);
      MoreRead(s, next, more[0].id, more[1..], kind, Note(out, Some(n), kind), end);
    }
  }

  /** The first number is read; where the rest of the run stands. */
  lemma NextRun(s: string, i: nat, n: nat, more: seq<Later>, kind: LinkKind, out: seq<Ref>, end: nat)
      returns (next: nat)
    requires Stands(s, i, Run(n, more)) && n <= I64_MAX && more != [] && end == i + |Run(n, more)|
    ensures Stands(s, next, Run(more[0].id, more[1..])) && end == next + |Run(more[0].id, more[1..])|
    ensures ReadRun(s, i, kind, out) == ReadRun(s, next, kind, Note(out, Some(n), kind))
  {
    next := RunTail(s, i, n, more);
    NumberRead(s, i, n, more[0], next, kind, out);
  }

  /** A number, its separator, the number behind it and the run that begins there. */
  lemma RunTail(s: string, i: nat, n: nat, more: seq<Later>) returns (next: nat)
    requires Stands(s, i, Run(n, more)) && more != []
    ensures next == i + |Digits(n)| + |SepText(more[0].sep)|
            && next + |Run(more[0].id, more[1..])| == i + |Run(n, more)|
    ensures Stands(s, i, Digits(n)) && Stands(s, i + |Digits(n)|, SepText(more[0].sep))
    ensures Stands(s, next, Digits(more[0].id)) && Stands(s, next, Run(more[0].id, more[1..]))
  {
    next := i + |Digits(n)| + |SepText(more[0].sep)|;
    ThreeParts(s, i, Digits(n), SepText(more[0].sep), Run(more[0].id, more[1..]));
    RunBegins(s, next, more[0].id, more[1..]);
  }

  lemma LastRead(s: string, i: nat, n: nat, kind: LinkKind, out: seq<Ref>, end: nat)
    requires Stands(s, i, Run(n, [])) && n <= I64_MAX && end == i + |Run(n, [])| && (end == |s| || s[end] == '.')
    ensures ReadRun(s, i, kind, out) == Scan(Note(out, Some(n), kind), end)
  {
    DigitsRead(s, i, n);
    RunEnds(s, end);
    ReadLast(s, i, n, kind, out);
  }

  // ---------------------------------------------------------------------
  // Groups.

  /** A group begins the text or follows a full stop. */
  ghost predicate Opens(s: string, from: nat, start: nat) {
    from <= start <= |s| && ((from == 0 && start == 0) || (start == from + 2 && Stands(s, from, ". ")))
  }

  lemma {:induction false} FindFirst(s: string, from: nat, at: nat)
    requires from <= at && MarkAt(s, at) && forall k: nat | from <= k < at :: !MarkAt(s, k)
    ensures FindMark(s, from) == Some(at)
    decreases at - from
  {
    if from < at { FindFirst(s, from + 1, at); }
  }

  /** A group stands at `start`. */
  ghost predicate GroupAt(s: string, start: nat, g: Group) {
    && Stands(s, start, Lead(g)) && Stands(s, start + |Lead(g)|, MARK)
    && Stands(s, start + |Lead(g)| + MARK_LEN, Ids(g))
  }

  function GroupEnd(start: nat, g: Group): nat { start + |Lead(g)| + MARK_LEN + |Ids(g)| }

  lemma GroupStandsAt(s: string, start: nat, g: Group)
    requires Stands(s, start, RenderGroup(g))
    ensures GroupAt(s, start, g) && GroupEnd(start, g) == start + |RenderGroup(g)|
  {
    var run := Ids(g);
    ThreeParts(s, start, Lead(g), MARK, run);
  }

  lemma MarkHasHash(s: string, k: nat)
    requires MarkAt(s, k)
    ensures s[k + 7] == '#'
  {
    CharAt(s, k, MARK, 7);
  }

  lemma NoMarkAt(s: string, k: nat)
    requires k + MARK_LEN <= |s| && s[k + 7] != '#'
    ensures !MarkAt(s, k)
  {
    if MarkAt(s, k) { MarkHasHash(s, k); }
  }

  lemma NoMarkBefore(s: string, from: nat, start: nat, g: Group)
    requires Opens(s, from, start) && Written(g) && GroupAt(s, start, g)
    ensures FindMark(s, from) == Some(start + |Lead(g)|)
  {
    var at := start + |Lead(g)|;
    assert MarkAt(s, at);
    forall k: nat | from <= k < at ensures !MarkAt(s, k) {
      if k + MARK_LEN <= |s| {
        NoHash(s, from, start, g, k + 7);
        NoMarkAt(s, k);
      }
    }
    FindFirst(s, from, at);
  }

  lemma NoHash(s: string, from: nat, start: nat, g: Group, k: nat)
    requires Opens(s, from, start) && Written(g) && GroupAt(s, start, g) && from <= k < start + |Lead(g)| + 7
    ensures k < |s| && s[k] != '#'
  {
    if k < start {
      CharAt(s, from, ". ", k - from);
    } else if k < start + |Lead(g)| {
      PhraseChars(g.words);
      CharAt(s, start, Lead(g), k - start);
    } else {
      CharAt(s, start + |Lead(g)|, MARK, k - start - |Lead(g)|);
    }
  }

  /** A word is read up to the blank behind it. */
  lemma {:induction false} WordRead(word: string, done: string, rest: string)
    requires (forall i | 0 <= i < |word| :: !IsSpace(word[i])) && done + word != ""
    ensures WordsFrom(word + " " + rest, done) == [done + word] + WordsFrom(rest, "")
    decreases |word|
  {
    var text := word + " " + rest;
    if word == "" {
      assert text[1..] == rest && IsSpace(text[0]);
      assert done + word == done;
    } else {
      assert text[1..] == word[1..] + " " + rest;
      WordRead(word[1..], done + [word[0]], rest);
      assert done + [word[0]] + word[1..] == done + word;
    }
  }

  /** A phrase is read back as its words. */
  lemma {:induction false} PhraseRead(words: seq<string>)
    requires PlainWords(words)
    ensures Words(Phrase(words)) == words && Words(" " + Phrase(words)) == words
  {
    if words != [] {
      PhraseRead(words[1..]);
      WordRead(words[0], "", Phrase(words[1..]));
      assert "" + words[0] == words[0] && [words[0]] + words[1..] == words;
    }
    var text := " " + Phrase(words);
    assert text[0] == ' ' && text[1..] == Phrase(words);
    assert [] + Words(Phrase(words)) == Words(Phrase(words));
  }

  lemma {:induction false} PhraseChars(words: seq<string>)
    requires PlainWords(words)
    ensures forall i | 0 <= i < |Phrase(words)| :: Phrase(words)[i] == ' ' || WordChar(Phrase(words)[i])
  {
    if words != [] { PhraseChars(words[1..]); }
  }

  ghost predicate OneClause(t: string) { forall k | 0 <= k < |t| :: !EndsClause(t[k]) }

  /** The clause before a place is what stands since the last full stop. */
  lemma ClauseIs(s: string, c: nat, at: nat, u: string)
    requires OneClause(u) && Stands(s, c, u) && at == c + |u| && (c == 0 || EndsClause(s[c - 1]))
    ensures ClauseStart(s, at) == c && s[c..at] == u
  {
    forall k | c <= k < at ensures !EndsClause(s[k]) { CharAt(s, c, u, k - c); }
    ClauseBack(s, at, c);
    MatchesSlice(s, c, u);
  }

  lemma AfterStop(s: string, from: nat, t: string)
    requires Stands(s, from, ". ") && Stands(s, from + 2, t)
    ensures EndsClause(s[from]) && Stands(s, from + 1, " " + t)
  {
    CharAt(s, from, ". ", 0);
    CharAt(s, from, ". ", 1);
    assert (" " + t)[1..] == t;
  }

  /** The clause before a mark is the words of its group. */
  lemma WordsBefore(s: string, from: nat, start: nat, g: Group)
    requires Opens(s, from, start) && Written(g) && Stands(s, start, Lead(g))
    ensures start + |Lead(g)| <= |s| && KindBefore(s, start + |Lead(g)|) == KindOf(LastThree(g.words))
  {
    PhraseClause(g.words);
    if start != 0 { AfterStop(s, from, Lead(g)); }
    var c, u := if start == 0 then 0 else from + 1, if start == 0 then Lead(g) else " " + Lead(g);
    KindRead(s, c, start + |Lead(g)|, u, g.words);
  }

  lemma PhraseClause(words: seq<string>)
    requires PlainWords(words)
    ensures OneClause(Phrase(words)) && OneClause(" " + Phrase(words))
    ensures Words(Phrase(words)) == words && Words(" " + Phrase(words)) == words
  {
    PhraseRead(words);
    PhraseChars(words);
  }

  lemma KindRead(s: string, c: nat, at: nat, u: string, words: seq<string>)
    requires OneClause(u) && Stands(s, c, u) && at == c + |u| && (c == 0 || EndsClause(s[c - 1]))
    requires Words(u) == words
    ensures at <= |s| && KindBefore(s, at) == KindOf(LastThree(words))
  {
    ClauseIs(s, c, at, u);
  }

  lemma {:induction false} ClauseBack(s: string, at: nat, start: nat)
    requires start <= at <= |s| && (forall k | start <= k < at :: !EndsClause(s[k]))
             && (start == 0 || EndsClause(s[start - 1]))
    ensures ClauseStart(s, at) == start
    decreases at
  {
    if at > start { ClauseBack(s, at - 1, start); }
  }

  /** Behind the mark the run is read, and the scan goes on from its end. */
  lemma TailRead(s: string, kinds: seq<LinkKind>, from: nat, at: nat, g: Group, out: seq<Ref>, more: seq<Ref>, end: nat)
    requires |kinds| == |s| + 1 && FindMark(s, from) == Some(at) && at <= |s| && more == NoteRun(g, kinds[at], out)
    requires Stands(s, at + MARK_LEN, Ids(g)) && g.first <= I64_MAX && Fitting(g.more)
    requires end == at + MARK_LEN + |Ids(g)| && (end == |s| || s[end] == '.')
    ensures ScanFrom(s, kinds, from, out) == ScanFrom(s, kinds, end, more)
  {
    RunRead(s, at + MARK_LEN, g, kinds[at], out, more, end);
    ScanStep(s, kinds, from, at, out, more, end);
  }

  lemma RunRead(s: string, i: nat, g: Group, kind: LinkKind, out: seq<Ref>, more: seq<Ref>, end: nat)
    requires Stands(s, i, Ids(g)) && g.first <= I64_MAX && Fitting(g.more) && more == NoteRun(g, kind, out)
    requires end == i + |Ids(g)| && (end == |s| || s[end] == '.')
    ensures ReadRun(s, i, kind, out) == Scan(more, end)
  {
    MoreRead(s, i, g.first, g.more, kind, out, end);
  }

  /** The groups stand one behind the other, a full stop between them. */
  ghost predicate Laid(s: string, from: nat, start: nat, gs: seq<Group>)
    decreases |gs|
  {
    gs == [] || (GroupStarts(s, from, start, gs[0]) && LaidEnd(s, GroupEnd(start, gs[0]), |gs|)
                 && (|gs| > 1 ==> Laid(s, GroupEnd(start, gs[0]), GroupEnd(start, gs[0]) + 2, gs[1..])))
  }

  ghost predicate GroupStarts(s: string, from: nat, start: nat, g: Group) {
    Opens(s, from, start) && Written(g) && GroupAt(s, start, g)
  }

  ghost predicate LaidEnd(s: string, end: nat, left: nat) {
    if left == 1 then end == |s| else end < |s| && s[end] == '.'
  }

  lemma {:induction false} RenderLaid(s: string, from: nat, start: nat, gs: seq<Group>)
    requires gs != [] && AllWritten(gs) && Opens(s, from, start)
    requires Stands(s, start, Render(gs)) && start + |Render(gs)| == |s|
    ensures Laid(s, from, start, gs)
    decreases |gs|
  {
    GroupStands(s, start, gs);
    GroupStandsAt(s, start, gs[0]);
    var end := GroupEnd(start, gs[0]);
    if |gs| > 1 { RenderLaid(s, end, end + 2, gs[1..]); }
  }

  /** At the marks of the groups stand these kinds. */
  ghost predicate Labelled(kinds: seq<LinkKind>, start: nat, gs: seq<Group>, said: seq<LinkKind>)
    decreases |gs|
  {
    |said| == |gs| &&
    (gs == [] || (LabelledAt(kinds, start, gs[0], said[0])
      && Labelled(kinds, GroupEnd(start, gs[0]) + 2, gs[1..], said[1..])))
  }

  ghost predicate LabelledAt(kinds: seq<LinkKind>, start: nat, g: Group, kind: LinkKind) {
    start + |Lead(g)| < |kinds| && kinds[start + |Lead(g)|] == kind
  }

  lemma {:induction false} GroupsLabelled(s: string, from: nat, start: nat, gs: seq<Group>)
    requires Laid(s, from, start, gs)
    ensures Labelled(Kinds(s), start, gs, WordKinds(gs))
    decreases |gs|
  {
    if gs != [] {
      var end := GroupEnd(start, gs[0]);
      LaidHead(s, from, start, gs);
      if |gs| > 1 { GroupsLabelled(s, end, end + 2, gs[1..]); }
      HeadLabelled(s, from, start, gs);
    }
  }

  lemma LaidHead(s: string, from: nat, start: nat, gs: seq<Group>)
    requires gs != [] && Laid(s, from, start, gs)
    ensures GroupStarts(s, from, start, gs[0])
    ensures var end := GroupEnd(start, gs[0]); |gs| > 1 ==> Laid(s, end, end + 2, gs[1..])
  {
  }

  lemma HeadLabelled(s: string, from: nat, start: nat, gs: seq<Group>)
    requires gs != [] && GroupStarts(s, from, start, gs[0])
    requires |gs| > 1 ==> Labelled(Kinds(s), GroupEnd(start, gs[0]) + 2, gs[1..], WordKinds(gs[1..]))
    ensures Labelled(Kinds(s), start, gs, WordKinds(gs))
  {
    LabelRead(s, from, start, gs[0]);
    assert WordKinds(gs) == [KindOf(LastThree(gs[0].words))] + WordKinds(gs[1..]);
    assert WordKinds(gs)[1..] == WordKinds(gs[1..]);
  }

  lemma LabelRead(s: string, from: nat, start: nat, g: Group)
    requires GroupStarts(s, from, start, g)
    ensures LabelledAt(Kinds(s), start, g, KindOf(LastThree(g.words)))
  {
    var at := start + |Lead(g)|;
    WordsBefore(s, from, start, g);
    KindAt(s, at);
  }

  lemma {:induction false} GroupsRead(s: string, kinds: seq<LinkKind>, from: nat, start: nat, gs: seq<Group>,
                                      said: seq<LinkKind>, out: seq<Ref>)
    requires gs != [] && |kinds| == |s| + 1 && Labelled(kinds, start, gs, said) && Laid(s, from, start, gs)
    ensures ScanFrom(s, kinds, from, out) == Reported(gs, said, out)
    decreases |gs|
  {
    if |gs| == 1 {
      OneRead(s, kinds, from, start, gs, said, out);
    } else {
      var end := GroupEnd(start, gs[0]);
      GroupsRead(s, kinds, end, end + 2, gs[1..], said[1..], NoteRun(gs[0], said[0], out));
      NextRead(s, kinds, from, start, gs, said, out);
    }
  }

  lemma OneRead(s: string, kinds: seq<LinkKind>, from: nat, start: nat, gs: seq<Group>, said: seq<LinkKind>,
                out: seq<Ref>)
    requires |gs| == |said| == 1 && |kinds| == |s| + 1 && LabelledAt(kinds, start, gs[0], said[0])
    requires GroupStarts(s, from, start, gs[0]) && GroupEnd(start, gs[0]) == |s|
    ensures ScanFrom(s, kinds, from, out) == Reported(gs, said, out)
  {
    var more := NoteRun(gs[0], said[0], out);
    FirstRead(s, kinds, from, start, gs[0], said[0], out, more, |s|);
    LastScan(s, kinds, more);
    assert Reported(gs[1..], said[1..], more) == more;
  }

  lemma NextRead(s: string, kinds: seq<LinkKind>, from: nat, start: nat, gs: seq<Group>, said: seq<LinkKind>,
                 out: seq<Ref>)
    requires |gs| == |said| > 0 && |kinds| == |s| + 1 && LabelledAt(kinds, start, gs[0], said[0])
    requires GroupStarts(s, from, start, gs[0]) && GroupEnd(start, gs[0]) < |s| && s[GroupEnd(start, gs[0])] == '.'
    requires var more := NoteRun(gs[0], said[0], out);
             ScanFrom(s, kinds, GroupEnd(start, gs[0]), more) == Reported(gs[1..], said[1..], more)
    ensures ScanFrom(s, kinds, from, out) == Reported(gs, said, out)
  {
    FirstRead(s, kinds, from, start, gs[0], said[0], out, NoteRun(gs[0], said[0], out), GroupEnd(start, gs[0]));
  }

  lemma FirstRead(s: string, kinds: seq<LinkKind>, from: nat, start: nat, g: Group, kind: LinkKind, out: seq<Ref>,
                  more: seq<Ref>, end: nat)
    requires |kinds| == |s| + 1 && GroupStarts(s, from, start, g) && LabelledAt(kinds, start, g, kind)
    requires end == GroupEnd(start, g) && (end == |s| || s[end] == '.') && more == NoteRun(g, kind, out)
    ensures ScanFrom(s, kinds, from, out) == ScanFrom(s, kinds, end, more)
  {
    NoMarkBefore(s, from, start, g);
    TailRead(s, kinds, from, start + |Lead(g)|, g, out, more, end);
  }

  lemma LastScan(s: string, kinds: seq<LinkKind>, out: seq<Ref>)
    requires |kinds| == |s| + 1
    ensures ScanFrom(s, kinds, |s|, out) == out
  {
  }

  lemma GroupStands(s: string, start: nat, gs: seq<Group>)
    requires gs != [] && Stands(s, start, Render(gs)) && start + |Render(gs)| == |s|
    ensures var end := start + |RenderGroup(gs[0])|;
            && Stands(s, start, RenderGroup(gs[0])) && (end == |s| || s[end] == '.')
            && if |gs| == 1 then end == |s|
               else Opens(s, end, end + 2) && Stands(s, end + 2, Render(gs[1..])) && end + 2 + |Render(gs[1..])| == |s|
  {
    var one := RenderGroup(gs[0]);
    var end := start + |one|;
    if |gs| == 1 {
      assert Render(gs) == one + "" == one;
    } else {
      FullStop(s, start, one, Render(gs[1..]));
    }
  }

  lemma FullStop(s: string, start: nat, one: string, rest: string)
    requires Stands(s, start, one + (". " + rest))
    ensures Stands(s, start, one) && Stands(s, start + |one|, ". ") && Stands(s, start + |one| + 2, rest)
    ensures start + |one| < |s| && s[start + |one|] == '.'
  {
    StandsParts(s, start, one, ". " + rest);
    StandsParts(s, start + |one|, ". ", rest);
    CharAt(s, start + |one|, ". ", 0);
  }

  // ---------------------------------------------------------------------
  // Capitals.

  function LowerWords(words: seq<string>): seq<string> {
    if words == [] then [] else [Lower(words[0])] + LowerWords(words[1..])
  }

  /** The group with its words in lower case. */
  function LowerGroup(g: Group): Group { g.(words := LowerWords(g.words)) }

  function LowerGroups(gs: seq<Group>): seq<Group> {
    if gs == [] then [] else [LowerGroup(gs[0])] + LowerGroups(gs[1..])
  }

  lemma LowerConcat(a: string, b: string)
    ensures Lower(a + b) == Lower(a) + Lower(b)
  {
  }

  lemma LowerDigits(n: nat)
    ensures Lower(Digits(n)) == Digits(n)
  {
    DigitsAre(n);
  }

  lemma {:induction false} LowerRun(n: nat, more: seq<Later>)
    ensures Lower(Run(n, more)) == Run(n, more)
    decreases |more|
  {
    LowerDigits(n);
    if more != [] {
      var sep, rest := SepText(more[0].sep), Run(more[0].id, more[1..]);
      LowerRun(more[0].id, more[1..]);
      assert Lower(sep) == sep;
      LowerConcat(Digits(n), sep);
      LowerConcat(Digits(n) + sep, rest);
    }
  }

  lemma {:induction false} LowerPhrase(words: seq<string>)
    ensures Lower(Phrase(words)) == Phrase(LowerWords(words))
    ensures PlainWords(words) ==> PlainWords(LowerWords(words))
  {
    if words != [] {
      var w, rest := words[0], Phrase(words[1..]);
      LowerPhrase(words[1..]);
      LowerConcat(w + " ", rest);
      LowerConcat(w, " ");
      assert Lower(" ") == " ";
      assert LowerWords(words)[1..] == LowerWords(words[1..]);
      if PlainWords(words) {
        forall i | 0 <= i < |w| ensures WordChar(Lower(w)[i]) { assert WordChar(w[i]); }
      }
    }
  }

  lemma LowerRendered(g: Group)
    ensures Lower(RenderGroup(g)) == RenderGroup(LowerGroup(g)) && (Written(g) ==> Written(LowerGroup(g)))
  {
    LowerRun(g.first, g.more);
    LowerPhrase(g.words);
    assert Lower(MARK) == MARK;
    LowerConcat(Lead(g), MARK);
    LowerConcat(Lead(g) + MARK, Ids(g));
  }

  lemma {:induction false} LowerRender(gs: seq<Group>)
    ensures Lower(Render(gs)) == Render(LowerGroups(gs)) && |LowerGroups(gs)| == |gs|
    ensures AllWritten(gs) ==> AllWritten(LowerGroups(gs))
  {
    if gs != [] {
      LowerRendered(gs[0]);
      LowerRender(gs[1..]);
      assert LowerGroups(gs)[1..] == LowerGroups(gs[1..]);
      if |gs| > 1 {
        var rest := Render(gs[1..]);
        assert Lower(". ") == ". ";
        LowerConcat(". ", rest);
        LowerConcat(RenderGroup(gs[0]), ". " + rest);
      } else {
        LowerConcat(RenderGroup(gs[0]), "");
      }
    }
  }

  lemma WrittenFormIsRead(gs: seq<Group>)
    requires AllWritten(gs)
    ensures ScanFrom(Render(gs), Kinds(Render(gs)), 0, []) == Reported(gs, WordKinds(gs), [])
  {
    if gs == [] {
      assert FindMark("", 0) == None;
    } else {
      var s := Render(gs);
      assert s[0..0 + |s|] == s;
      MatchesSlice(s, 0, s);
      RenderLaid(s, 0, 0, gs);
      GroupsLabelled(s, 0, 0, gs);
      GroupsRead(s, Kinds(s), 0, 0, gs, WordKinds(gs), []);
    }
  }

  lemma ParsedLower(body: string, lower: string)
    requires Lower(body) == lower
    ensures ParseRefs(body) == ScanFrom(lower, Kinds(lower), 0, [])
  {
  }

  /** Groups written as documented are read back in order, each id with the
      kind that the last three words before its mark set, repeats left out. */
  lemma DocumentedFormIsRead(gs: seq<Group>)
    requires AllWritten(gs)
    ensures ParseRefs(Render(gs)) == Reported(LowerGroups(gs), WordKinds(LowerGroups(gs)), [])
  {
    LowerRender(gs);
    ParsedLower(Render(gs), Render(LowerGroups(gs)));
    WrittenFormIsRead(LowerGroups(gs));
  }

  /** Capitals make no difference to what a text refers to. */
  lemma ReferencesIgnoreCase(a: string, b: string)
    requires CapitalsAside(a, b)
    ensures ParseRefs(a) == ParseRefs(b)
  {
    SameLower(a, b);
  }

  /** One of the words is one of the verbs, punctuation around it aside. */
  ghost predicate Says(ws: seq<string>, verbs: seq<string>) { exists i :: 0 <= i < |ws| && Bare(ws[i]) in verbs }

  /** What words make of a reference: the first of these that they say. */
  lemma WordsMean(ws: seq<string>)
    ensures KindOf(ws) == Replaces <==> Says(ws, REPLACING)
    ensures KindOf(ws) == Fixes <==> !Says(ws, REPLACING) && Says(ws, FIXING)
    ensures KindOf(ws) == Implements <==> !Says(ws, REPLACING) && !Says(ws, FIXING) && Says(ws, IMPLEMENTING)
    ensures KindOf(ws) == Verifies <==>
            !Says(ws, REPLACING) && !Says(ws, FIXING) && !Says(ws, IMPLEMENTING) && Says(ws, VERIFYING)
    ensures KindOf(ws) == Cites <==>
            !Says(ws, REPLACING) && !Says(ws, FIXING) && !Says(ws, IMPLEMENTING) && !Says(ws, VERIFYING)
  {
    SaidIs(ws, REPLACING);
    SaidIs(ws, FIXING);
    SaidIs(ws, IMPLEMENTING);
    SaidIs(ws, VERIFYING);
  }

  lemma {:induction false} SaidIs(ws: seq<string>, verbs: seq<string>)
    ensures Said(ws, verbs) <==> Says(ws, verbs)
  {
    if ws != [] {
      SaidIs(ws[1..], verbs);
      OneOfIn(Bare(ws[0]), verbs);
      if i :| 0 <= i < |ws| - 1 && Bare(ws[1..][i]) in verbs { assert ws[i + 1] == ws[1..][i]; }
      if i :| 0 < i < |ws| && Bare(ws[i]) in verbs { assert ws[1..][i - 1] == ws[i]; }
    }
  }

  lemma {:induction false} OneOfIn(w: string, verbs: seq<string>)
    ensures OneOf(w, verbs) <==> w in verbs
  {
    if verbs != [] {
      OneOfIn(w, verbs[1..]);
      if |w| == |verbs[0]| { MatchesSlice(w, 0, verbs[0]); }
      assert w[0..0 + |w|] == w;
    }
  }
}
