/** What `evidence_gap` counts: the text besides its references, said without
    the replacing that computes it. */
module Evidence {
  import opened Base
  import opened Text
  import opened Branch
  import opened Refs
  import opened RefGrammar

  // ---------------------------------------------------------------------
  // Counting with blanks collapsed.

  /** The words with one blank between them. */
  function Spaced(ws: seq<string>): string {
    if ws == [] then "" else if |ws| == 1 then ws[0] else ws[0] + " " + Spaced(ws[1..])
  }

  function Collapsed(text: string): string { Spaced(Words(text)) }

  /** Before the first word, inside a word, or behind one. */
  datatype Where = Start | Inside | Behind

  function Next(c: char, w: Where): Where { if !IsSpace(c) then Inside else if w.Start? then Start else Behind }

  function End(t: string, w: Where): Where { if t == "" then w else End(t[1..], Next(t[0], w)) }

  /** Characters and the single blanks between words, from a place on. */
  function Count(t: string, w: Where): nat {
    if t == "" then 0
    else (if IsSpace(t[0]) then 0 else if w.Behind? then 2 else 1) + Count(t[1..], Next(t[0], w))
  }

  lemma {:induction false} SpacedLength(ws: seq<string>)
    ensures |Spaced(ws)| == JoinedLen(ws)
  {
    if |ws| > 1 { SpacedLength(ws[1..]); }
  }

  /** What a word being read and the text behind it come to. */
  lemma {:induction false} CountWords(t: string, word: string)
    ensures JoinedLen(WordsFrom(t, word)) == |word| + Count(t, if word == "" then Start else Inside)
    ensures word == "" ==> JoinedLen(WordsFrom(t, "")) + (if WordsFrom(t, "") == [] then 0 else 1) == Count(t, Behind)
    decreases |t|
  {
    if t == "" {
      if word != "" { assert [word][1..] == []; }
    } else if IsSpace(t[0]) {
      CountWords(t[1..], "");
      var rest := WordsFrom(t[1..], "");
      if word == "" {
        assert [] + rest == rest;
      } else {
        assert ([word] + rest)[1..] == rest;
      }
    } else {
      CountWords(t[1..], word + [t[0]]);
      if word == "" { WordNotEmpty(t[1..], [t[0]]); }
    }
  }

  lemma {:induction false} WordNotEmpty(t: string, word: string)
    requires word != ""
    ensures WordsFrom(t, word) != []
    decreases |t|
  {
    if t != "" && !IsSpace(t[0]) { WordNotEmpty(t[1..], word + [t[0]]); }
  }

  lemma CountIs(t: string)
    ensures |Collapsed(t)| == JoinedLen(Words(t)) == Count(t, Start)
  {
    SpacedLength(Words(t));
    CountWords(t, "");
  }

  lemma {:induction false} CountConcat(a: string, b: string, w: Where)
    ensures Count(a + b, w) == Count(a, w) + Count(b, End(a, w)) && End(a + b, w) == End(b, End(a, w))
    decreases |a|
  {
    if a == "" {
      assert a + b == b;
    } else {
      assert (a + b)[0] == a[0] && (a + b)[1..] == a[1..] + b;
      CountConcat(a[1..], b, Next(a[0], w));
    }
  }

  lemma {:induction false} CountLower(t: string, w: Where)
    ensures Count(Lower(t), w) == Count(t, w)
    decreases |t|
  {
    if t != "" {
      assert Lower(t)[1..] == Lower(t[1..]) && IsSpace(LowerChar(t[0])) == IsSpace(t[0]);
      CountLower(t[1..], Next(t[0], w));
    }
  }

  // ---------------------------------------------------------------------
  // Texts with references in them.

  /** Some text and a reference behind it: `journal#n`, or `#n` alone. */
  datatype Cell = Cell(pre: string, marked: bool, n: nat)

  function Sign(marked: bool): string { if marked then MARK else "#" }

  function Spelt(c: Cell): string { Sign(c.marked) + Digits(c.n) }

  function Flat(cells: seq<Cell>, tail: string): string {
    if cells == [] then tail else cells[0].pre + Spelt(cells[0]) + Flat(cells[1..], tail)
  }

  predicate Hashless(t: string) { forall i | 0 <= i < |t| :: t[i] != '#' }

  predicate NoDigitFirst(t: string) { t == "" || !IsDigit(t[0]) }

  /** Every hash belongs to a reference, no digit follows one, and a bare `#n`
      does not follow an `l`. `first`: nothing stands before. */
  predicate Shaped(cells: seq<Cell>, tail: string, first: bool) {
    if cells == [] then Hashless(tail) && (!first ==> NoDigitFirst(tail))
    else
      var c := cells[0];
      && Hashless(c.pre) && (!first ==> c.pre != "" && NoDigitFirst(c.pre))
      && (!c.marked ==> c.pre != "" && c.pre[|c.pre| - 1] != 'l')
      && Shaped(cells[1..], tail, false)
  }

  /** `a` is how the number `n` begins. */
  predicate Begins(a: nat, n: nat) { Digits(a) <= Digits(n) }

  datatype Parts = Parts(cells: seq<Cell>, tail: string)

  function Onto(u: string, p: Parts): Parts {
    if p.cells == [] then Parts([], u + p.tail)
    else Parts([p.cells[0].(pre := u + p.cells[0].pre)] + p.cells[1..], p.tail)
  }

  /** The references of one form that begin with `a`, taken out as far as `a` goes. */
  function Cut(cells: seq<Cell>, tail: string, marked: bool, a: nat): Parts {
    if cells == [] then Parts([], tail)
    else
      var c, r := cells[0], Cut(cells[1..], tail, marked, a);
      if c.marked == marked && Begins(a, c.n) then Onto(c.pre + Digits(c.n)[|Digits(a)|..], r)
      else Parts([c] + r.cells, r.tail)
  }

  lemma OntoFlat(u: string, p: Parts)
    ensures Flat(Onto(u, p).cells, Onto(u, p).tail) == u + Flat(p.cells, p.tail)
  {
    if p.cells != [] {
      var c, q := p.cells[0], Onto(u, p);
      assert q.cells[1..] == p.cells[1..] && Spelt(q.cells[0]) == Spelt(c);
      assert u + c.pre + Spelt(c) + Flat(p.cells[1..], p.tail) == u + (c.pre + Spelt(c) + Flat(p.cells[1..], p.tail));
    }
  }

  lemma OntoShaped(u: string, p: Parts, first: bool)
    requires Shaped(p.cells, p.tail, false) && Hashless(u) && (!first ==> u != "" && NoDigitFirst(u))
    ensures Shaped(Onto(u, p).cells, Onto(u, p).tail, first)
  {
    if p.cells != [] {
      assert Onto(u, p).cells[1..] == p.cells[1..];
    }
  }

  lemma {:induction false} CutShaped(cells: seq<Cell>, tail: string, marked: bool, a: nat, first: bool)
    requires Shaped(cells, tail, first)
    ensures var p := Cut(cells, tail, marked, a); Shaped(p.cells, p.tail, first)
  {
    if cells != [] {
      var c, r := cells[0], Cut(cells[1..], tail, marked, a);
      CutShaped(cells[1..], tail, marked, a, false);
      if c.marked == marked && Begins(a, c.n) {
        DigitsAre(c.n);
        OntoShaped(c.pre + Digits(c.n)[|Digits(a)|..], r, first);
      } else {
        assert ([c] + r.cells)[1..] == r.cells;
      }
    }
  }

  // ---------------------------------------------------------------------
  // Taking out is what `replace` does.

  /** The pattern stands at `k`. */
  predicate Found(s: string, k: nat, pat: string) { k + |pat| <= |s| && s[k..k + |pat|] == pat }

  lemma {:induction false} RemoveOver(u: string, rest: string, pat: string)
    requires pat != "" && forall k | 0 <= k < |u| :: !Found(u + rest, k, pat)
    ensures Remove(u + rest, pat) == u + Remove(rest, pat)
    decreases |u|
  {
    var s := u + rest;
    if u == "" {
      assert s == rest;
    } else {
      var v := u[1..];
      assert s[1..] == v + rest && s[0] == u[0];
      assert !Found(s, 0, pat);
      if |pat| <= |s| { assert s[0..0 + |pat|] == s[..|pat|]; }
      forall k | 0 <= k < |v| ensures !Found(v + rest, k, pat) {
        if k + |pat| <= |v + rest| { assert (v + rest)[k..k + |pat|] == s[k + 1..k + 1 + |pat|]; }
        assert !Found(s, k + 1, pat);
      }
      RemoveOver(v, rest, pat);
      assert [u[0]] + (v + Remove(rest, pat)) == u + Remove(rest, pat);
    }
  }

  /** A cell and what follows it, character by character. */
  lemma CellChars(c: Cell, rest: string)
    ensures var s, at := c.pre + Spelt(c) + rest, |c.pre|;
            && |s| == at + |Sign(c.marked)| + |Digits(c.n)| + |rest|
            && (forall k | 0 <= k < at :: s[k] == c.pre[k])
            && (forall k | 0 <= k < |Sign(c.marked)| :: s[at + k] == Sign(c.marked)[k])
            && (forall k | 0 <= k < |Digits(c.n)| :: s[at + |Sign(c.marked)| + k] == Digits(c.n)[k])
            && (forall k | 0 <= k < |rest| :: s[at + |Sign(c.marked)| + |Digits(c.n)| + k] == rest[k])
  {
  }

  lemma FoundChars(s: string, k: nat, marked: bool, a: nat)
    requires Found(s, k, Sign(marked) + Digits(a))
    ensures forall j | 0 <= j < |Sign(marked)| :: s[k + j] == Sign(marked)[j]
    ensures forall j | 0 <= j < |Digits(a)| :: s[k + |Sign(marked)| + j] == Digits(a)[j]
    ensures k + |Sign(marked)| + |Digits(a)| <= |s|
  {
    var sign, digits, t := Sign(marked), Digits(a), s[k..k + |Sign(marked) + Digits(a)|];
    assert t == sign + digits;
    forall j | 0 <= j < |sign| ensures s[k + j] == sign[j] { assert t[j] == sign[j]; }
    forall j | 0 <= j < |digits| ensures s[k + |sign| + j] == digits[j] { assert t[|sign| + j] == digits[j]; }
  }

  /** Digits that stand where a number stands begin it. */
  lemma DigitsBegin(a: nat, n: nat, rest: string)
    requires Digits(a) <= Digits(n) + rest && NoDigitFirst(rest)
    ensures Begins(a, n)
  {
    DigitsAre(a);
    DigitsAre(n);
    var t := Digits(n) + rest;
    assert forall k | 0 <= k < |Digits(a)| :: t[k] == Digits(a)[k] && IsDigit(t[k]);
    assert |Digits(n)| < |t| ==> !IsDigit(t[|Digits(n)|]);
    assert Digits(n)[..|Digits(a)|] == Digits(a);
  }

  predicate CellOk(c: Cell, first: bool) {
    && Hashless(c.pre) && (!first ==> c.pre != "" && NoDigitFirst(c.pre))
    && (!c.marked ==> c.pre != "" && c.pre[|c.pre| - 1] != 'l')
  }

  function HashOf(c: Cell): nat { |c.pre| + |Sign(c.marked)| - 1 }

  /** A cell has one hash, and digits behind it. */
  lemma CellHash(c: Cell, rest: string, j: nat)
    requires Hashless(c.pre) && j < |c.pre + Spelt(c)|
    ensures var s := c.pre + Spelt(c) + rest; (s[j] == '#' <==> j == HashOf(c)) && (j > HashOf(c) ==> IsDigit(s[j]))
  {
    var at, sign := |c.pre|, Sign(c.marked);
    CellChars(c, rest);
    DigitsAre(c.n);
    var s := c.pre + Spelt(c) + rest;
    if j < at {
      assert s[j] == c.pre[j];
    } else if j < at + |sign| {
      assert s[at + (j - at)] == sign[j - at];
    } else {
      assert s[at + |sign| + (j - at - |sign|)] == Digits(c.n)[j - at - |sign|];
    }
  }

  /** So does a pattern. */
  lemma SignHash(s: string, k: nat, marked: bool, j: nat)
    requires k <= j < k + |Sign(marked)| <= |s| && forall i | 0 <= i < |Sign(marked)| :: s[k + i] == Sign(marked)[i]
    ensures !IsDigit(s[j]) && (s[j] == '#' <==> j == k + |Sign(marked)| - 1)
  {
    assert s[k + (j - k)] == Sign(marked)[j - k];
  }

  /** The hash of a pattern met in a cell is the hash of the cell. */
  lemma HashesMeet(c: Cell, rest: string, marked: bool, k: nat)
    requires Hashless(c.pre) && k < |c.pre + Spelt(c)|
    requires var s := c.pre + Spelt(c) + rest;
             k + |Sign(marked)| <= |s| && forall j | 0 <= j < |Sign(marked)| :: s[k + j] == Sign(marked)[j]
    ensures k + |Sign(marked)| == HashOf(c) + 1
  {
    var s, met := c.pre + Spelt(c) + rest, k + |Sign(marked)| - 1;
    DigitsAre(c.n);
    CellHash(c, rest, HashOf(c));
    CellHash(c, rest, k);
    SignHash(s, k, marked, k);
    SignHash(s, k, marked, met);
    if met < HashOf(c) { CellHash(c, rest, met); }
    if k <= HashOf(c) <= met { SignHash(s, k, marked, HashOf(c)); }
  }

  /** The sign of a pattern met in a cell is that of the cell, or its end. */
  lemma SignsMeet(c: Cell, rest: string, marked: bool, k: nat)
    requires CellOk(c, true) && k < |c.pre + Spelt(c)|
    requires var s := c.pre + Spelt(c) + rest;
             k + |Sign(marked)| <= |s| && forall j | 0 <= j < |Sign(marked)| :: s[k + j] == Sign(marked)[j]
    ensures k + |Sign(marked)| == HashOf(c) + 1 && (marked ==> c.marked)
  {
    var s := c.pre + Spelt(c) + rest;
    HashesMeet(c, rest, marked, k);
    if marked { assert s[k + 6] == MARK[6]; }
    if !c.marked { assert s[|c.pre| - 1] == c.pre[|c.pre| - 1]; }
  }

  /** The pattern is met in a cell only where its reference stands, and only if
      the number goes on from the pattern's. */
  lemma OnlyThere(c: Cell, rest: string, first: bool, marked: bool, a: nat, k: nat)
    requires CellOk(c, first) && NoDigitFirst(rest) && k < |c.pre + Spelt(c)|
    requires Found(c.pre + Spelt(c) + rest, k, Sign(marked) + Digits(a))
    ensures Begins(a, c.n) && (marked ==> c.marked)
    ensures c.marked == marked ==> k == |c.pre|
  {
    var s, at := c.pre + Spelt(c) + rest, k + |Sign(marked)|;
    assert forall j | 0 <= j < |Sign(marked)| :: s[k + j] == Sign(marked)[j] by { FoundChars(s, k, marked, a); }
    SignsMeet(c, rest, marked, k);
    FoundDigits(s, k, marked, a);
    assert s[at..] == Digits(c.n) + rest by { BehindSign(c.pre, Sign(c.marked), Digits(c.n), rest); }
    DigitsBegin(a, c.n, rest);
  }

  lemma BehindSign(pre: string, sign: string, digits: string, rest: string)
    ensures (pre + (sign + digits) + rest)[|pre| + |sign|..] == digits + rest
  {
  }

  lemma FoundDigits(s: string, k: nat, marked: bool, a: nat)
    requires Found(s, k, Sign(marked) + Digits(a))
    ensures k + |Sign(marked)| <= |s| && Digits(a) <= s[k + |Sign(marked)|..]
  {
    FoundChars(s, k, marked, a);
    var t := s[k + |Sign(marked)|..];
    forall j | 0 <= j < |Digits(a)| ensures t[j] == Digits(a)[j] { assert t[j] == s[k + |Sign(marked)| + j]; }
    assert t[..|Digits(a)|] == Digits(a);
  }

  lemma FlatStart(cells: seq<Cell>, tail: string)
    requires Shaped(cells, tail, false)
    ensures NoDigitFirst(Flat(cells, tail))
  {
  }

  predicate NoneMarked(cells: seq<Cell>, a: nat) {
    forall i | 0 <= i < |cells| :: cells[i].marked ==> !Begins(a, cells[i].n)
  }

  lemma FoundSign(s: string, k: nat, marked: bool, a: nat)
    requires Found(s, k, Sign(marked) + Digits(a))
    ensures k + |Sign(marked)| <= |s| && !IsDigit(s[k]) && s[k + |Sign(marked)| - 1] == '#'
  {
    FoundChars(s, k, marked, a);
    SignHash(s, k, marked, k);
    SignHash(s, k, marked, k + |Sign(marked)| - 1);
  }

  lemma NotInPlain(t: string, k: nat, marked: bool, a: nat)
    requires Hashless(t)
    ensures !Found(t, k, Sign(marked) + Digits(a))
  {
    if Found(t, k, Sign(marked) + Digits(a)) { FoundSign(t, k, marked, a); }
  }

  lemma NotInDigits(n: nat, i: nat, rest: string, k: nat, marked: bool, a: nat)
    requires i <= |Digits(n)| && k < |Digits(n)| - i
    ensures !Found(Digits(n)[i..] + rest, k, Sign(marked) + Digits(a))
  {
    var v := Digits(n)[i..] + rest;
    DigitsAre(n);
    assert IsDigit(v[k]) by { assert v[k] == Digits(n)[i + k]; }
    if Found(v, k, Sign(marked) + Digits(a)) { FoundSign(v, k, marked, a); }
  }

  /** A reference that begins with the pattern loses it. */
  lemma RemoveThere(c: Cell, rest: string, first: bool, a: nat)
    requires CellOk(c, first) && NoDigitFirst(rest) && Begins(a, c.n)
    ensures var pat := Sign(c.marked) + Digits(a);
            Remove(c.pre + Spelt(c) + rest, pat) == c.pre + Digits(c.n)[|Digits(a)|..] + Remove(rest, pat)
  {
    var pat, over := Sign(c.marked) + Digits(a), Digits(c.n)[|Digits(a)|..];
    var v := over + rest;
    assert c.pre + Spelt(c) + rest == c.pre + (pat + v) by { SpeltParts(c, rest, a); }
    forall k | 0 <= k < |c.pre| ensures !Found(c.pre + (pat + v), k, pat) { NotBefore(c, rest, first, a, k); }
    RemoveOver(c.pre, pat + v, pat);
    RemoveFirst(pat, v);
    RemoveDigits(c.n, |Digits(a)|, rest, c.marked, a);
    Regroup3(c.pre, over, Remove(rest, pat));
  }

  lemma Regroup3(a: string, b: string, c: string)
    ensures a + (b + c) == a + b + c
  {
  }

  lemma NotBefore(c: Cell, rest: string, first: bool, a: nat, k: nat)
    requires CellOk(c, first) && NoDigitFirst(rest) && k < |c.pre|
    ensures !Found(c.pre + Spelt(c) + rest, k, Sign(c.marked) + Digits(a))
  {
    if Found(c.pre + Spelt(c) + rest, k, Sign(c.marked) + Digits(a)) { OnlyThere(c, rest, first, c.marked, a, k); }
  }

  lemma SpeltParts(c: Cell, rest: string, a: nat)
    requires Begins(a, c.n)
    ensures c.pre + Spelt(c) + rest == c.pre + (Sign(c.marked) + Digits(a) + (Digits(c.n)[|Digits(a)|..] + rest))
  {
    assert Digits(c.n) == Digits(a) + Digits(c.n)[|Digits(a)|..];
    Regroup(c.pre, Sign(c.marked), Digits(a), Digits(c.n)[|Digits(a)|..], rest);
  }

  lemma Regroup(p: string, s: string, a: string, o: string, r: string)
    ensures p + (s + (a + o)) + r == p + (s + a + (o + r))
  {
  }

  lemma RemoveFirst(pat: string, v: string)
    requires pat != ""
    ensures Remove(pat + v, pat) == Remove(v, pat)
  {
    assert (pat + v)[..|pat|] == pat && (pat + v)[|pat|..] == v;
  }

  lemma RemoveDigits(n: nat, i: nat, rest: string, marked: bool, a: nat)
    requires i <= |Digits(n)|
    ensures var pat := Sign(marked) + Digits(a);
            Remove(Digits(n)[i..] + rest, pat) == Digits(n)[i..] + Remove(rest, pat)
  {
    var pat, over := Sign(marked) + Digits(a), Digits(n)[i..];
    forall k | 0 <= k < |over| ensures !Found(over + rest, k, pat) { NotInDigits(n, i, rest, k, marked, a); }
    RemoveOver(over, rest, pat);
  }

  /** Any other reference stays. */
  lemma RemovePast(c: Cell, rest: string, first: bool, marked: bool, a: nat)
    requires CellOk(c, first) && NoDigitFirst(rest)
    requires Begins(a, c.n) ==> marked && !c.marked
    ensures var pat := Sign(marked) + Digits(a);
            Remove(c.pre + Spelt(c) + rest, pat) == c.pre + Spelt(c) + Remove(rest, pat)
  {
    var pat, u := Sign(marked) + Digits(a), c.pre + Spelt(c);
    forall k | 0 <= k < |u| ensures !Found(u + rest, k, pat) {
      if Found(u + rest, k, pat) { OnlyThere(c, rest, first, marked, a, k); }
    }
    RemoveOver(u, rest, pat);
  }

  /** `replace(sign + a, "")` takes out just those references. */
  lemma {:induction false} RemoveIs(cells: seq<Cell>, tail: string, marked: bool, a: nat, first: bool)
    requires Shaped(cells, tail, first) && (!marked ==> NoneMarked(cells, a))
    ensures var p := Cut(cells, tail, marked, a);
            Remove(Flat(cells, tail), Sign(marked) + Digits(a)) == Flat(p.cells, p.tail)
  {
    var pat := Sign(marked) + Digits(a);
    if cells == [] {
      assert tail + "" == tail;
      forall k | 0 <= k < |tail| ensures !Found(tail + "", k, pat) { NotInPlain(tail, k, marked, a); }
      RemoveOver(tail, "", pat);
    } else {
      var c, rest, r := cells[0], cells[1..], Cut(cells[1..], tail, marked, a);
      assert !marked ==> NoneMarked(rest, a);
      RemoveIs(rest, tail, marked, a, false);
      FlatStart(rest, tail);
      if c.marked == marked && Begins(a, c.n) {
        RemoveThere(c, Flat(rest, tail), first, a);
        OntoFlat(c.pre + Digits(c.n)[|Digits(a)|..], r);
      } else {
        RemovePast(c, Flat(rest, tail), first, marked, a);
        assert ([c] + r.cells)[1..] == r.cells;
      }
    }
  }

  // ---------------------------------------------------------------------
  // What is left of a text.

  /** What is left of a reference after the ids of a list are taken out: nothing
      of one in the list, the last digits where an earlier one begins it. */
  function Rest(c: Cell, ids: seq<nat>): string {
    if ids == [] then Spelt(c)
    else if Begins(ids[0], c.n) then Digits(c.n)[|Digits(ids[0])|..]
    else Rest(c, ids[1..])
  }

  function Left(cells: seq<Cell>, tail: string, ids: seq<nat>): string {
    if cells == [] then tail else cells[0].pre + Rest(cells[0], ids) + Left(cells[1..], tail, ids)
  }

  lemma OntoLeft(u: string, p: Parts, ids: seq<nat>)
    ensures Left(Onto(u, p).cells, Onto(u, p).tail, ids) == u + Left(p.cells, p.tail, ids)
  {
    if p.cells != [] {
      var c, q := p.cells[0], Onto(u, p);
      SameRest(c, q.cells[0], ids);
      assert q.cells[1..] == p.cells[1..];
      assert u + c.pre + Rest(c, ids) + Left(p.cells[1..], p.tail, ids)
          == u + (c.pre + Rest(c, ids) + Left(p.cells[1..], p.tail, ids));
    }
  }

  lemma {:induction false} SameRest(c: Cell, d: Cell, ids: seq<nat>)
    requires c.marked == d.marked && c.n == d.n
    ensures Rest(c, ids) == Rest(d, ids)
  {
    if ids != [] { SameRest(c, d, ids[1..]); }
  }

  /** Taking out the marked and then the bare references of an id. */
  function CutBoth(cells: seq<Cell>, tail: string, a: nat): Parts {
    var p := Cut(cells, tail, true, a);
    Cut(p.cells, p.tail, false, a)
  }

  lemma OntoCut(u: string, p: Parts, marked: bool, a: nat)
    ensures Cut(Onto(u, p).cells, Onto(u, p).tail, marked, a) == Onto(u, Cut(p.cells, p.tail, marked, a))
  {
    if p.cells != [] {
      var c, q, r := p.cells[0], Onto(u, p), Cut(p.cells[1..], p.tail, marked, a);
      assert q.cells[1..] == p.cells[1..];
      if c.marked == marked && Begins(a, c.n) {
        var over := Digits(c.n)[|Digits(a)|..];
        assert u + c.pre + over == u + (c.pre + over);
        if r.cells == [] { assert u + (c.pre + over) + r.tail == u + (c.pre + over + r.tail); }
        else { assert u + (c.pre + over) + r.cells[0].pre == u + (c.pre + over + r.cells[0].pre); }
      }
    }
  }

  lemma {:induction false} CutBothLeft(cells: seq<Cell>, tail: string, a: nat, ids: seq<nat>)
    ensures var p := CutBoth(cells, tail, a); Left(p.cells, p.tail, ids) == Left(cells, tail, [a] + ids)
  {
    assert ([a] + ids)[1..] == ids;
    if cells != [] {
      var c, over := cells[0], Digits(cells[0].n);
      var q := Cut(cells[1..], tail, true, a);
      var r := Cut(q.cells, q.tail, false, a);
      CutBothLeft(cells[1..], tail, a, ids);
      if Begins(a, c.n) {
        var u := c.pre + over[|Digits(a)|..];
        if c.marked {
          OntoCut(u, q, false, a);
        } else {
          assert ([c] + q.cells)[1..] == q.cells;
        }
        OntoLeft(u, r, ids);
      } else {
        assert ([c] + q.cells)[1..] == q.cells && ([c] + r.cells)[1..] == r.cells;
      }
    }
  }

  lemma {:induction false} MarkedGone(cells: seq<Cell>, tail: string, a: nat)
    ensures NoneMarked(Cut(cells, tail, true, a).cells, a)
  {
    if cells != [] {
      var c, r := cells[0], Cut(cells[1..], tail, true, a);
      MarkedGone(cells[1..], tail, a);
      if r.cells != [] { assert r.cells == [r.cells[0]] + r.cells[1..]; }
    }
  }

  function IdsOf(refs: seq<Ref>): seq<nat> { if refs == [] then [] else [refs[0].id] + IdsOf(refs[1..]) }

  /** Without its references a text is what is left of it. */
  lemma {:induction false} WithoutIs(cells: seq<Cell>, tail: string, refs: seq<Ref>)
    requires Shaped(cells, tail, true)
    ensures WithoutRefs(Flat(cells, tail), refs) == Left(cells, tail, IdsOf(refs))
    decreases |refs|
  {
    if refs == [] {
      NothingTaken(cells, tail);
    } else {
      var a := refs[0].id;
      var p := Cut(cells, tail, true, a);
      var q := Cut(p.cells, p.tail, false, a);
      RemoveIs(cells, tail, true, a, true);
      CutShaped(cells, tail, true, a, true);
      MarkedGone(cells, tail, a);
      RemoveIs(p.cells, p.tail, false, a, true);
      CutShaped(p.cells, p.tail, false, a, true);
      WithoutIs(q.cells, q.tail, refs[1..]);
      CutBothLeft(cells, tail, a, IdsOf(refs[1..]));
    }
  }

  lemma {:induction false} NothingTaken(cells: seq<Cell>, tail: string)
    ensures Left(cells, tail, []) == Flat(cells, tail)
  {
    if cells != [] { NothingTaken(cells[1..], tail); }
  }

  /** The count of an entry whose every hash belongs to a reference: what is
      left of its text, blanks collapsed. */
  lemma CountsWhatIsLeft(body: string, cells: seq<Cell>, tail: string)
    requires Lower(body) == Flat(cells, tail) && Shaped(cells, tail, true)
    ensures SaidChars(body) == |Collapsed(Left(cells, tail, IdsOf(ParseRefs(body))))|
  {
    WithoutIs(cells, tail, ParseRefs(body));
    CountIs(Left(cells, tail, IdsOf(ParseRefs(body))));
  }

  /** A text with no hash counts whole: its words, one blank between them. */
  lemma CountsAll(body: string)
    requires Hashless(body)
    ensures SaidChars(body) == |Collapsed(body)|
  {
    assert Hashless(Lower(body));
    CountsWhatIsLeft(body, [], Lower(body));
    CountIs(body);
    CountIs(Lower(body));
    CountLower(body, Start);
  }

  // ---------------------------------------------------------------------
  // What a text says besides its references.

  function Besides(cells: seq<Cell>, tail: string): string {
    if cells == [] then tail else cells[0].pre + Besides(cells[1..], tail)
  }

  /** The list takes a number out whole: it is in it, and nothing before it begins it. */
  ghost predicate TakenWhole(n: nat, ids: seq<nat>) {
    exists k :: 0 <= k < |ids| && ids[k] == n && forall j | 0 <= j < k :: !Begins(ids[j], n)
  }

  ghost predicate AllTaken(cells: seq<Cell>, ids: seq<nat>) {
    forall i | 0 <= i < |cells| :: TakenWhole(cells[i].n, ids)
  }

  lemma {:induction false} DigitsDiffer(a: nat, n: nat)
    requires Digits(a) == Digits(n)
    ensures a == n
  {
    DigitsAre(a);
    DigitsAre(n);
  }

  lemma {:induction false} RestGone(c: Cell, ids: seq<nat>)
    ensures Rest(c, ids) == "" <==> TakenWhole(c.n, ids)
  {
    if ids != [] {
      RestGone(c, ids[1..]);
      if Begins(ids[0], c.n) {
        if Rest(c, ids) == "" { DigitsDiffer(ids[0], c.n); assert ids[0] == c.n; }
      } else {
        TakenLater(c.n, ids);
      }
    }
  }

  lemma TakenLater(n: nat, ids: seq<nat>)
    requires ids != [] && !Begins(ids[0], n)
    ensures TakenWhole(n, ids) <==> TakenWhole(n, ids[1..])
  {
    if TakenWhole(n, ids) {
      var k :| 0 <= k < |ids| && ids[k] == n && forall j | 0 <= j < k :: !Begins(ids[j], n);
      assert ids[1..][k - 1] == n && forall j | 0 <= j < k - 1 :: ids[1..][j] == ids[j + 1];
    }
    if TakenWhole(n, ids[1..]) {
      var k :| 0 <= k < |ids| - 1 && ids[1..][k] == n && forall j | 0 <= j < k :: !Begins(ids[1..][j], n);
      forall j | 0 <= j < k + 1 ensures !Begins(ids[j], n) { if j > 0 { assert ids[1..][j - 1] == ids[j]; } }
      assert ids[k + 1] == n;
    }
  }

  predicate NoBlank(t: string) { forall i | 0 <= i < |t| :: !IsSpace(t[i]) }

  lemma {:induction false} RestNoBlank(c: Cell, ids: seq<nat>)
    ensures NoBlank(Rest(c, ids))
  {
    DigitsAre(c.n);
    if ids != [] && !Begins(ids[0], c.n) { RestNoBlank(c, ids[1..]); }
  }

  lemma {:induction false} CountNoBlank(t: string, w: Where)
    requires NoBlank(t) && t != ""
    ensures Count(t, w) == |t| + (if w.Behind? then 1 else 0) && End(t, w) == Inside
    decreases |t|
  {
    if |t| > 1 { CountNoBlank(t[1..], Inside); }
  }

  /** From inside a word a text comes to at least as much as from its start, and
      to at most one less than from behind one. */
  lemma {:induction false} CountWhere(t: string)
    ensures Count(t, Start) <= Count(t, Inside) <= Count(t, Behind) <= Count(t, Inside) + 1
    decreases |t|
  {
    if t != "" && IsSpace(t[0]) { CountWhere(t[1..]); }
  }

  /** What is left counts no less than the text besides the references, and the
      same exactly when all of them are taken whole. */
  lemma {:induction false} CountLeft(cells: seq<Cell>, tail: string, ids: seq<nat>, w: Where)
    ensures Count(Left(cells, tail, ids), w) >= Count(Besides(cells, tail), w)
    ensures Count(Left(cells, tail, ids), w) == Count(Besides(cells, tail), w) <==> AllTaken(cells, ids)
    decreases |cells|
  {
    if cells != [] {
      var c, rest, later := cells[0], Rest(cells[0], ids), Left(cells[1..], tail, ids);
      var b, v := Besides(cells[1..], tail), End(cells[0].pre, w);
      CountConcat(c.pre, b, w);
      CountConcat(c.pre + rest, later, w);
      CountConcat(c.pre, rest, w);
      RestGone(c, ids);
      TakenHead(cells, ids);
      if rest == "" {
        CountLeft(cells[1..], tail, ids, v);
      } else {
        RestNoBlank(c, ids);
        CountNoBlank(rest, v);
        CountLeft(cells[1..], tail, ids, Inside);
        CountWhere(b);
      }
    }
  }

  lemma TakenHead(cells: seq<Cell>, ids: seq<nat>)
    requires cells != []
    ensures AllTaken(cells, ids) <==> TakenWhole(cells[0].n, ids) && AllTaken(cells[1..], ids)
  {
    if TakenWhole(cells[0].n, ids) && AllTaken(cells[1..], ids) {
      forall i | 0 <= i < |cells| ensures TakenWhole(cells[i].n, ids) {
        if i > 0 { assert cells[1..][i - 1] == cells[i]; }
      }
    }
    if AllTaken(cells, ids) {
      forall i | 0 <= i < |cells| - 1 ensures TakenWhole(cells[1..][i].n, ids) { assert cells[i + 1] == cells[1..][i]; }
    }
  }

  /** The count is that of the text besides its references exactly when each of
      them is reported before any id that begins it; else it is larger. */
  lemma CountsBesides(body: string, cells: seq<Cell>, tail: string)
    requires Lower(body) == Flat(cells, tail) && Shaped(cells, tail, true)
    ensures SaidChars(body) >= |Collapsed(Besides(cells, tail))|
    ensures SaidChars(body) == |Collapsed(Besides(cells, tail))| <==> AllTaken(cells, IdsOf(ParseRefs(body)))
  {
    CountsWhatIsLeft(body, cells, tail);
    CountIs(Left(cells, tail, IdsOf(ParseRefs(body))));
    CountIs(Besides(cells, tail));
    CountLeft(cells, tail, IdsOf(ParseRefs(body)), Start);
  }

  // ---------------------------------------------------------------------
  // Which references are reported.

  lemma {:induction false} IdsAre(refs: seq<Ref>, n: nat)
    ensures n in IdsOf(refs) <==> exists r :: r in refs && r.id == n
  {
    if refs != [] { IdsAre(refs[1..], n); }
  }

  /** `t` stands at `at`, and no digit follows. */
  ghost predicate Closes(s: string, at: nat, t: string) {
    Stands(s, at, t) && (at + |t| < |s| ==> !IsDigit(s[at + |t|]))
  }

  lemma ClosesBehind(u: string, rest: string, j: nat, t: string)
    requires Closes(rest, j, t)
    ensures Closes(u + rest, |u| + j, t)
  {
    var s := u + rest;
    forall k | 0 <= k < |t| ensures s[|u| + j + k] == t[k] { assert s[|u| + (j + k)] == rest[j + k]; }
    if j + |t| < |rest| { assert s[|u| + (j + |t|)] == rest[j + |t|]; }
  }

  lemma SpeltCloses(c: Cell, rest: string)
    requires NoDigitFirst(rest)
    ensures Closes(c.pre + Spelt(c) + rest, |c.pre|, Spelt(c))
  {
    assert c.pre + Spelt(c) + rest == c.pre + (Spelt(c) + rest);
    ClosesBehind(c.pre, Spelt(c) + rest, 0, Spelt(c));
  }

  /** Where a reference stands in its text. */
  lemma {:induction false} StandsThere(cells: seq<Cell>, tail: string, first: bool, i: nat) returns (at: nat)
    requires Shaped(cells, tail, first) && i < |cells|
    ensures Closes(Flat(cells, tail), at, Spelt(cells[i]))
    decreases i
  {
    FlatHead(cells, tail, first);
    if i == 0 {
      at := |cells[0].pre|;
      SpeltCloses(cells[0], Flat(cells[1..], tail));
    } else {
      var u := cells[0].pre + Spelt(cells[0]);
      var j := StandsThere(cells[1..], tail, false, i - 1);
      at := |u| + j;
      ClosesBehind(u, Flat(cells[1..], tail), j, Spelt(cells[1..][i - 1]));
    }
  }

  lemma FlatHead(cells: seq<Cell>, tail: string, first: bool)
    requires cells != [] && Shaped(cells, tail, first)
    ensures Flat(cells, tail) == cells[0].pre + Spelt(cells[0]) + Flat(cells[1..], tail)
    ensures CellOk(cells[0], first) && Shaped(cells[1..], tail, false) && NoDigitFirst(Flat(cells[1..], tail))
  {
    FlatStart(cells[1..], tail);
  }

  lemma HashHere(c: Cell, rest: string, h: nat)
    requires Hashless(c.pre) && h < |c.pre + Spelt(c)| && (c.pre + Spelt(c) + rest)[h] == '#'
    ensures (c.pre + Spelt(c) + rest)[h + 1..] == Digits(c.n) + rest
  {
    CellHash(c, rest, h);
    assert c.pre + Spelt(c) + rest == (c.pre + Spelt(c))[..h + 1] + (Digits(c.n) + rest);
  }

  /** A hash is that of a reference, and its number stands behind it. */
  lemma {:induction false} HashIsCell(cells: seq<Cell>, tail: string, first: bool, h: nat) returns (i: nat)
    requires Shaped(cells, tail, first) && h < |Flat(cells, tail)| && Flat(cells, tail)[h] == '#'
    ensures i < |cells| && Shaped(cells[i + 1..], tail, false)
    ensures Flat(cells, tail)[h + 1..] == Digits(cells[i].n) + Flat(cells[i + 1..], tail)
    decreases |cells|
  {
    HashNeedsCell(cells, tail, first, h);
    FlatHead(cells, tail, first);
    var u, rest := cells[0].pre + Spelt(cells[0]), Flat(cells[1..], tail);
    if h < |u| {
      i := 0;
      HashHere(cells[0], rest, h);
    } else {
      Past(u, rest, h);
      var j := HashIsCell(cells[1..], tail, false, h - |u|);
      i := j + 1;
      assert cells[1..][j + 1..] == cells[i + 1..];
    }
  }

  lemma Past(u: string, rest: string, h: nat)
    requires |u| <= h < |u + rest|
    ensures (u + rest)[h] == rest[h - |u|] && (u + rest)[h + 1..] == rest[h - |u| + 1..]
  {
  }

  lemma BehindHash(s: string, k: nat, n: nat, rest: string)
    requires k <= |s| && s[k..] == Digits(n) + rest && NoDigitFirst(rest)
    ensures Closes(s, k, Digits(n))
  {
    assert s == s[..k] + (Digits(n) + rest);
    ClosesBehind(s[..k], Digits(n) + rest, 0, Digits(n));
  }

  lemma HashNeedsCell(cells: seq<Cell>, tail: string, first: bool, h: nat)
    requires Shaped(cells, tail, first) && h < |Flat(cells, tail)| && Flat(cells, tail)[h] == '#'
    ensures cells != []
  {
  }

  lemma {:induction false} RunHash(s: string, first: nat, i: nat)
    requires 0 < first <= |s| && s[first - 1] == '#' && InRun(s, first, i)
    ensures 0 < i <= |s| && s[i - 1] == '#'
    decreases |s| - first
  {
    if i != first { RunHash(s, NextInRun(s, DigitsEnd(s, first)).value, i); }
  }

  /** A reported number is read behind a hash. */
  lemma ReportedHash(body: string, n: nat) returns (k: nat)
    requires n in IdsOf(ParseRefs(body))
    ensures 0 < k <= |Lower(body)| && Lower(body)[k - 1] == '#' && IdAt(Lower(body), k) == Some(n)
  {
    var s := Lower(body);
    IdsAre(ParseRefs(body), n);
    var r :| r in ParseRefs(body) && r.id == n;
    ParseRefsExact(body);
    var at: nat, i: nat :| SpelledAt(s, r, at, i);
    MarkHasHash(s, at);
    RunHash(s, at + MARK_LEN, i);
    k := i;
  }

  /** So it is a number of the text. */
  lemma ReportedIsThere(body: string, cells: seq<Cell>, tail: string, n: nat) returns (i: nat)
    requires Lower(body) == Flat(cells, tail) && Shaped(cells, tail, true)
    requires (forall j | 0 <= j < |cells| :: cells[j].n <= I64_MAX) && n in IdsOf(ParseRefs(body))
    ensures i < |cells| && cells[i].n == n
  {
    var k := ReportedHash(body, n);
    i := HashIsCell(cells, tail, true, k - 1);
    FlatStart(cells[i + 1..], tail);
    BehindHash(Lower(body), k, cells[i].n, Flat(cells[i + 1..], tail));
    ReadAs(Lower(body), k, cells[i].n);
  }

  lemma ReadAs(s: string, k: nat, n: nat)
    requires Closes(s, k, Digits(n)) && n <= I64_MAX
    ensures IdAt(s, k) == Some(n)
  {
    DigitsRead(s, k, n);
  }

  /** A reference with its mark is reported. */
  lemma MarkedIsReported(body: string, cells: seq<Cell>, tail: string, i: nat)
    requires Lower(body) == Flat(cells, tail) && Shaped(cells, tail, true)
    requires i < |cells| && cells[i].marked && cells[i].n <= I64_MAX
    ensures cells[i].n in IdsOf(ParseRefs(body))
  {
    var at := StandsThere(cells, tail, true, i);
    MarkIsReported(body, at, cells[i]);
  }

  lemma MarkIsReported(body: string, at: nat, c: Cell)
    requires Closes(Lower(body), at, Spelt(c)) && c.marked && c.n <= I64_MAX
    ensures c.n in IdsOf(ParseRefs(body))
  {
    MarkSpells(Lower(body), at, c.n);
    SpelledIsReported(body, Ref(c.n, KindBefore(Lower(body), at)), at, at + MARK_LEN);
  }

  lemma MarkSpells(s: string, at: nat, n: nat)
    requires Closes(s, at, MARK + Digits(n)) && n <= I64_MAX
    ensures SpelledAt(s, Ref(n, KindBefore(s, at)), at, at + MARK_LEN)
  {
    StandsParts(s, at, MARK, Digits(n));
    DigitsRead(s, at + MARK_LEN, n);
  }

  lemma SpelledIsReported(body: string, r: Ref, at: nat, i: nat)
    requires SpelledAt(Lower(body), r, at, i)
    ensures r.id in IdsOf(ParseRefs(body))
  {
    ParseRefsExact(body);
    assert r in ParseRefs(body);
    IdsAre(ParseRefs(body), r.id);
  }

  /** No number of the text begins another. */
  ghost predicate NoneBegins(cells: seq<Cell>) {
    forall i, j | 0 <= i < |cells| && 0 <= j < |cells| && Begins(cells[i].n, cells[j].n) :: cells[i].n == cells[j].n
  }

  lemma {:induction false} FirstBeginning(ids: seq<nat>, n: nat) returns (k: nat)
    requires n in ids
    ensures k < |ids| && Begins(ids[k], n) && forall j | 0 <= j < k :: !Begins(ids[j], n)
    decreases |ids|
  {
    if Begins(ids[0], n) {
      k := 0;
    } else {
      k := FirstBeginning(ids[1..], n);
      forall j | 0 <= j < k + 1 ensures !Begins(ids[j], n) { if j > 0 { assert ids[1..][j - 1] == ids[j]; } }
      k := k + 1;
    }
  }

  /** References that are all reported, and of which none begins another, count
      for nothing. */
  lemma ReferencesCountNothing(body: string, cells: seq<Cell>, tail: string)
    requires Lower(body) == Flat(cells, tail) && Shaped(cells, tail, true) && NoneBegins(cells)
    requires forall i | 0 <= i < |cells| :: cells[i].n <= I64_MAX && cells[i].n in IdsOf(ParseRefs(body))
    ensures SaidChars(body) == |Collapsed(Besides(cells, tail))|
  {
    var ids := IdsOf(ParseRefs(body));
    forall i | 0 <= i < |cells| ensures TakenWhole(cells[i].n, ids) {
      var k := FirstBeginning(ids, cells[i].n);
      var j := ReportedIsThere(body, cells, tail, ids[k]);
      assert ids[k] == cells[i].n;
    }
    CountsBesides(body, cells, tail);
  }
}
