/** The count of `evidence_gap` for entries written as documented. */
module EvidenceForm {
  import opened Base
  import opened Text
  import opened Branch
  import opened Refs
  import opened RefGrammar
  import opened Evidence

  /** A separator without the hash. */
  function Join(s: Separator): string {
    match s case Slash => "/" case Comma => ", " case AndThen => " and "
  }

  function Joins(more: seq<Later>): string { if more == [] then "" else Join(more[0].sep) + Joins(more[1..]) }

  /** The groups with every mark and id blanked out. */
  function Remark(gs: seq<Group>): string {
    if gs == [] then ""
    else Lead(gs[0]) + Joins(gs[0].more) + if |gs| == 1 then "" else ". " + Remark(gs[1..])
  }

  function LaterCells(more: seq<Later>): seq<Cell> {
    if more == [] then [] else [Cell(Join(more[0].sep), false, more[0].id)] + LaterCells(more[1..])
  }

  function CellsOf(gs: seq<Group>, lead: string): seq<Cell> {
    if gs == [] then []
    else [Cell(lead + Lead(gs[0]), true, gs[0].first)] + LaterCells(gs[0].more) + CellsOf(gs[1..], ". ")
  }

  lemma CellsHead(gs: seq<Group>, lead: string)
    requires gs != []
    ensures var cells := CellsOf(gs, lead);
            && cells != [] && cells[0] == Cell(lead + Lead(gs[0]), true, gs[0].first)
            && cells[1..] == LaterCells(gs[0].more) + CellsOf(gs[1..], ". ")
  {
    TailOf(Cell(lead + Lead(gs[0]), true, gs[0].first), LaterCells(gs[0].more), CellsOf(gs[1..], ". "));
  }

  lemma TailOf(c: Cell, a: seq<Cell>, b: seq<Cell>)
    ensures ([c] + a + b)[0] == c && ([c] + a + b)[1..] == a + b
  {
  }

  lemma LaterHead(more: seq<Later>, cells: seq<Cell>)
    requires more != []
    ensures var all := LaterCells(more) + cells;
            && all[0] == Cell(Join(more[0].sep), false, more[0].id) && all[1..] == LaterCells(more[1..]) + cells
  {
    TailOf(Cell(Join(more[0].sep), false, more[0].id), LaterCells(more[1..]), cells);
  }

  /** A number, the rest of its run, and what follows. */
  lemma {:induction false} RunFlat(n: nat, more: seq<Later>, cells: seq<Cell>, tail: string)
    ensures Digits(n) + Flat(LaterCells(more) + cells, tail) == Run(n, more) + Flat(cells, tail)
    decreases |more|
  {
    var t := Flat(cells, tail);
    if more == [] {
      assert [] + cells == cells;
    } else {
      var rest := LaterCells(more[1..]);
      LaterHead(more, cells);
      RunFlat(more[0].id, more[1..], cells, tail);
      assert SepText(more[0].sep) == Join(more[0].sep) + "#";
      Regroup5(Digits(n), Join(more[0].sep), "#", Digits(more[0].id), Flat(rest + cells, tail));
      Regroup3(Digits(n) + SepText(more[0].sep), Run(more[0].id, more[1..]), t);
    }
  }

  lemma Regroup5(a: string, b: string, c: string, d: string, e: string)
    ensures a + (b + (c + d) + e) == a + (b + c) + (d + e)
  {
  }

  lemma {:induction false} RenderFlat(gs: seq<Group>, lead: string)
    requires gs != []
    ensures Flat(CellsOf(gs, lead), "") == lead + Render(gs)
    decreases |gs|
  {
    var g, more := gs[0], CellsOf(gs[1..], ". ");
    var c := Cell(lead + Lead(g), true, g.first);
    var rest := LaterCells(g.more) + more;
    assert CellsOf(gs, lead)[0] == c && CellsOf(gs, lead)[1..] == rest;
    RunFlat(g.first, g.more, more, "");
    if |gs| > 1 { RenderFlat(gs[1..], ". "); }
    assert Flat(more, "") == if |gs| == 1 then "" else ". " + Render(gs[1..]);
    GroupFlat(lead, Lead(g), Digits(g.first), Flat(rest, ""), Ids(g), Flat(more, ""));
  }

  lemma GroupFlat(lead: string, words: string, digits: string, rest: string, ids: string, t: string)
    requires digits + rest == ids + t
    ensures lead + words + (MARK + digits) + rest == lead + (words + MARK + ids + t)
  {
    Regroup4(lead + words, MARK, digits, rest);
    assert lead + words + MARK + (ids + t) == lead + (words + MARK + ids + t);
  }

  lemma Regroup4(a: string, b: string, c: string, d: string)
    ensures a + (b + c) + d == a + b + (c + d)
  {
  }

  lemma {:induction false} LaterShaped(more: seq<Later>, cells: seq<Cell>, tail: string)
    requires Shaped(cells, tail, false)
    ensures Shaped(LaterCells(more) + cells, tail, false)
  {
    if more == [] {
      assert [] + cells == cells;
    } else {
      LaterShaped(more[1..], cells, tail);
      JoinPlain(more[0].sep);
      LaterHead(more, cells);
    }
  }

  lemma JoinPlain(sep: Separator)
    ensures Hashless(Join(sep)) && Join(sep) != "" && NoDigitFirst(Join(sep)) && Join(sep)[|Join(sep)| - 1] != 'l'
  {
    match sep case Slash => case Comma => case AndThen =>
  }

  lemma LeadPlain(lead: string, g: Group)
    requires Written(g) && Hashless(lead)
    ensures Hashless(lead + Lead(g)) && (lead != "" && NoDigitFirst(lead) ==> NoDigitFirst(lead + Lead(g)))
  {
    PhraseChars(g.words);
    assert Hashless(Lead(g));
  }

  lemma {:induction false} GroupsShaped(gs: seq<Group>, lead: string, first: bool)
    requires AllWritten(gs) && Hashless(lead) && (!first ==> lead != "" && NoDigitFirst(lead))
    ensures Shaped(CellsOf(gs, lead), "", first)
    decreases |gs|
  {
    if gs != [] {
      var more := CellsOf(gs[1..], ". ");
      GroupsShaped(gs[1..], ". ", false);
      LaterShaped(gs[0].more, more, "");
      LeadPlain(lead, gs[0]);
      CellsHead(gs, lead);
    }
  }

  lemma {:induction false} LaterBesides(more: seq<Later>, cells: seq<Cell>, tail: string)
    ensures Besides(LaterCells(more) + cells, tail) == Joins(more) + Besides(cells, tail)
  {
    if more == [] {
      assert [] + cells == cells;
    } else {
      LaterBesides(more[1..], cells, tail);
      LaterHead(more, cells);
      Regroup3(Join(more[0].sep), Joins(more[1..]), Besides(cells, tail));
    }
  }

  lemma {:induction false} GroupsBesides(gs: seq<Group>, lead: string)
    requires gs != []
    ensures Besides(CellsOf(gs, lead), "") == lead + Remark(gs)
    decreases |gs|
  {
    var g, more := gs[0], CellsOf(gs[1..], ". ");
    CellsHead(gs, lead);
    LaterBesides(g.more, more, "");
    if |gs| > 1 { GroupsBesides(gs[1..], ". "); }
    var rest := if |gs| == 1 then "" else ". " + Remark(gs[1..]);
    assert Besides(more, "") == rest;
    Regroup6(lead, Lead(g), Joins(g.more), rest);
  }

  lemma Regroup6(a: string, b: string, c: string, d: string)
    ensures a + b + (c + d) == a + (b + c + d)
  {
  }

  /** The ids of the groups. */
  ghost predicate SaysId(gs: seq<Group>, n: nat) {
    exists i :: 0 <= i < |gs| && (n == gs[i].first || exists k :: 0 <= k < |gs[i].more| && gs[i].more[k].id == n)
  }

  lemma {:induction false} LaterNumbers(more: seq<Later>, i: nat)
    requires i < |LaterCells(more)|
    ensures |LaterCells(more)| == |more| && LaterCells(more)[i].n == more[i].id
  {
    if i > 0 { LaterNumbers(more[1..], i - 1); } else if |more| > 1 { LaterNumbers(more[1..], 0); }
  }

  lemma {:induction false} GroupNumbers(gs: seq<Group>, lead: string, i: nat)
    requires AllWritten(gs) && i < |CellsOf(gs, lead)|
    ensures CellsOf(gs, lead)[i].n <= I64_MAX && SaysId(gs, CellsOf(gs, lead)[i].n)
    decreases |gs|
  {
    var g, later, more := gs[0], LaterCells(gs[0].more), CellsOf(gs[1..], ". ");
    var n := CellsOf(gs, lead)[i].n;
    if i == 0 {
      assert n == gs[0].first;
    } else if i <= |later| {
      LaterNumbers(g.more, i - 1);
      FittingAt(g.more, i - 1);
      assert g.more[i - 1].id == n;
    } else {
      GroupNumbers(gs[1..], ". ", i - 1 - |later|);
      var k :| 0 <= k < |gs| - 1 && (n == gs[1..][k].first
        || exists h :: 0 <= h < |gs[1..][k].more| && gs[1..][k].more[h].id == n);
      assert gs[k + 1] == gs[1..][k];
    }
  }

  lemma {:induction false} FittingAt(more: seq<Later>, i: nat)
    requires Fitting(more) && i < |more|
    ensures more[i].id <= I64_MAX
  {
    if i > 0 { FittingAt(more[1..], i - 1); }
  }

  // ---------------------------------------------------------------------
  // All of them are reported.

  ghost predicate Told(refs: seq<Ref>, n: nat) { exists r :: r in refs && r.id == n }

  lemma NoteTells(out: seq<Ref>, n: nat, kind: LinkKind)
    ensures Told(Note(out, Some(n), kind), n) && forall m | Told(out, m) :: Told(Note(out, Some(n), kind), m)
  {
    assert Ref(n, kind) in Note(out, Some(n), kind);
    forall m | Told(out, m) ensures Told(Note(out, Some(n), kind), m) {
      var r :| r in out && r.id == m;
      assert r in Note(out, Some(n), kind);
    }
  }

  lemma {:induction false} MoreTells(more: seq<Later>, kind: LinkKind, out: seq<Ref>)
    ensures forall i | 0 <= i < |more| :: Told(NoteMore(more, kind, out), more[i].id)
    ensures forall m | Told(out, m) :: Told(NoteMore(more, kind, out), m)
    decreases |more|
  {
    if more != [] {
      NoteTells(out, more[0].id, kind);
      MoreTells(more[1..], kind, Note(out, Some(more[0].id), kind));
      forall i | 0 <= i < |more| ensures Told(NoteMore(more, kind, out), more[i].id) {
        if i > 0 { assert more[1..][i - 1] == more[i]; }
      }
    }
  }

  lemma {:induction false} ReportTells(gs: seq<Group>, kinds: seq<LinkKind>, out: seq<Ref>, n: nat)
    requires |kinds| == |gs| && (Told(out, n) || SaysId(gs, n))
    ensures Told(Reported(gs, kinds, out), n)
    decreases |gs|
  {
    if gs != [] {
      var g, noted := gs[0], Note(out, Some(gs[0].first), kinds[0]);
      NoteTells(out, g.first, kinds[0]);
      MoreTells(g.more, kinds[0], noted);
      if !Told(NoteRun(g, kinds[0], out), n) { SaidLater(gs, n); }
      ReportTells(gs[1..], kinds[1..], NoteRun(g, kinds[0], out), n);
    }
  }

  lemma SaidLater(gs: seq<Group>, n: nat)
    requires SaysId(gs, n) && n != gs[0].first && forall k | 0 <= k < |gs[0].more| :: gs[0].more[k].id != n
    ensures SaysId(gs[1..], n)
  {
    var i :| 0 <= i < |gs| && (n == gs[i].first || exists k :: 0 <= k < |gs[i].more| && gs[i].more[k].id == n);
    assert gs[1..][i - 1] == gs[i];
  }

  // ---------------------------------------------------------------------
  // Capitals.

  lemma {:induction false} SameNumbers(gs: seq<Group>, lead: string)
    ensures |CellsOf(LowerGroups(gs), lead)| == |CellsOf(gs, lead)|
    ensures forall i | 0 <= i < |CellsOf(gs, lead)| :: CellsOf(LowerGroups(gs), lead)[i].n == CellsOf(gs, lead)[i].n
    decreases |gs|
  {
    if gs != [] {
      SameNumbers(gs[1..], ". ");
      assert LowerGroups(gs)[1..] == LowerGroups(gs[1..]);
    }
  }

  lemma {:induction false} LowerRemark(gs: seq<Group>)
    ensures Lower(Remark(gs)) == Remark(LowerGroups(gs)) && |LowerGroups(gs)| == |gs|
    decreases |gs|
  {
    if gs != [] {
      var g, end := gs[0], if |gs| == 1 then "" else ". " + Remark(gs[1..]);
      LowerRemark(gs[1..]);
      LowerPhrase(g.words);
      LowerJoins(g.more);
      LowerConcat(Lead(g) + Joins(g.more), end);
      LowerConcat(Lead(g), Joins(g.more));
      LowerConcat(". ", Remark(gs[1..]));
      assert Lower(". ") == ". ";
      assert LowerGroups(gs)[1..] == LowerGroups(gs[1..]);
    }
  }

  lemma {:induction false} LowerJoins(more: seq<Later>)
    ensures Lower(Joins(more)) == Joins(more)
  {
    if more != [] {
      LowerJoins(more[1..]);
      LowerConcat(Join(more[0].sep), Joins(more[1..]));
      assert Lower(Join(more[0].sep)) == Join(more[0].sep);
    }
  }

  lemma NumberReported(gs: seq<Group>, i: nat)
    requires AllWritten(gs) && i < |CellsOf(LowerGroups(gs), "")|
    ensures var n := CellsOf(LowerGroups(gs), "")[i].n; n <= I64_MAX && n in IdsOf(ParseRefs(Render(gs)))
  {
    var lower := LowerGroups(gs);
    var n := CellsOf(lower, "")[i].n;
    LowerRender(gs);
    DocumentedFormIsRead(gs);
    GroupNumbers(lower, "", i);
    ReportTells(lower, WordKinds(lower), [], n);
    IdsAre(ParseRefs(Render(gs)), n);
  }

  /** A documented entry counts as its text with every mark and id blanked out,
      unless one of its numbers begins another. */
  lemma DocumentedFormCounts(gs: seq<Group>)
    requires AllWritten(gs) && NoneBegins(CellsOf(gs, ""))
    ensures SaidChars(Render(gs)) == |Collapsed(Remark(gs))|
  {
    var lower := LowerGroups(gs);
    var cells := CellsOf(lower, "");
    LowerRender(gs);
    LowerRemark(gs);
    CountIs(Remark(gs));
    CountIs(Remark(lower));
    CountLower(Remark(gs), Start);
    if gs == [] {
      CountsAll("");
    } else {
      RenderFlat(lower, "");
      GroupsShaped(lower, "", true);
      GroupsBesides(lower, "");
      SameNumbers(gs, "");
      assert "" + Render(lower) == Render(lower) && "" + Remark(lower) == Remark(lower);
      forall i | 0 <= i < |cells| ensures cells[i].n <= I64_MAX && cells[i].n in IdsOf(ParseRefs(Render(gs))) {
        NumberReported(gs, i);
      }
      ReferencesCountNothing(Render(gs), cells, "");
    }
  }

  // ---------------------------------------------------------------------
  // A verb and references, and nothing else.

  /** What the separators come to; `glued` to a separator that leaves no blank. */
  function Cost(more: seq<Later>, glued: bool): nat {
    if more == [] then 0
    else match more[0].sep
      case Slash => (if glued then 1 else 2) + Cost(more[1..], true)
      case Comma => (if glued then 1 else 2) + Cost(more[1..], false)
      case AndThen => 4 + Cost(more[1..], false)
  }

  lemma {:induction false} CountJoins(more: seq<Later>, glued: bool)
    ensures Count(Joins(more), if glued then Inside else Behind) == Cost(more, glued)
    decreases |more|
  {
    if more != [] {
      var w, sep := if glued then Inside else Behind, Join(more[0].sep);
      CountConcat(sep, Joins(more[1..]), w);
      CountJoins(more[1..], more[0].sep.Slash?);
      CountJoin(more[0].sep, w);
    }
  }

  lemma CountJoin(sep: Separator, w: Where)
    requires !w.Start?
    ensures Count(Join(sep), w) == match sep case Slash => (if w.Inside? then 1 else 2)
                                             case Comma => (if w.Inside? then 1 else 2) case AndThen => 4
    ensures End(Join(sep), w) == if sep.Slash? then Inside else Behind
  {
    match sep
    case Slash => assert "/"[1..] == "";
    case Comma => assert ", "[1..] == " " && " "[1..] == "";
    case AndThen =>
      assert " and "[1..] == "and " && "and "[1..] == "nd " && "nd "[1..] == "d " && "d "[1..] == " " && " "[1..] == "";
  }

  /** The group of a verb and its references. */
  function Verbal(verb: string, first: nat, more: seq<Later>): Group { Group([verb], first, more) }

  lemma VerbalIs(verb: string, first: nat, more: seq<Later>)
    requires PlainWord(verb) && first <= I64_MAX && Fitting(more)
    ensures AllWritten([Verbal(verb, first, more)])
    ensures Remark([Verbal(verb, first, more)]) == verb + " " + Joins(more)
  {
    var g := Verbal(verb, first, more);
    assert PlainWords([verb][1..]) && AllWritten([g][1..]);
    assert Phrase([verb][1..]) == "" && verb + " " + "" == verb + " ";
    assert verb + " " + Joins(more) + "" == verb + " " + Joins(more);
  }

  lemma VerbCounts(verb: string, t: string)
    requires PlainWord(verb)
    ensures Count(verb + " " + t, Start) == |verb| + Count(t, Behind)
  {
    assert NoBlank(verb) by { forall i | 0 <= i < |verb| ensures !IsSpace(verb[i]) { assert WordChar(verb[i]); } }
    CountConcat(verb + " ", t, Start);
    CountConcat(verb, " ", Start);
    CountNoBlank(verb, Start);
    assert " "[1..] == "";
  }

  /** A verb and references count the verb and the separators, the "and"s among
      them. */
  lemma VerbAndReferences(verb: string, first: nat, more: seq<Later>)
    requires PlainWord(verb) && first <= I64_MAX && Fitting(more)
    requires NoneBegins(CellsOf([Verbal(verb, first, more)], ""))
    ensures SaidChars(Render([Verbal(verb, first, more)])) == |verb| + Cost(more, false)
  {
    VerbalIs(verb, first, more);
    DocumentedFormCounts([Verbal(verb, first, more)]);
    CountIs(verb + " " + Joins(more));
    VerbCounts(verb, Joins(more));
    CountJoins(more, false);
  }

  lemma {:induction false} CostBound(more: seq<Later>, glued: bool)
    ensures Cost(more, glued) <= 4 * |more|
    ensures (forall i | 0 <= i < |more| :: more[i].sep.AndThen?) ==> Cost(more, glued) == 4 * |more|
    decreases |more|
  {
    if more != [] {
      CostBound(more[1..], more[0].sep.Slash?);
      CostBound(more[1..], false);
    }
  }
}
