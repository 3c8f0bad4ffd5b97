/** Blanks and trimming, as every text the store accepts is trimmed first. */
module Text {
  import opened Base

  predicate IsSpace(c: char) { c == ' ' || c == '\n' || c == '\t' || c == '\r' }

  predicate IsDigit(c: char) { '0' <= c <= '9' }

  function LowerChar(c: char): char {
    if 'A' <= c <= 'Z' then (c as int + 32) as char else c
  }

  function Lower(s: string): string {
    seq(|s|, i requires 0 <= i < |s| => LowerChar(s[i]))
  }

  /** The same text up to capitals. */
  ghost predicate CapitalsAside(a: string, b: string) {
    |a| == |b| && forall i | 0 <= i < |a| ::
      a[i] == b[i] || ('A' <= a[i] <= 'Z' && a[i] as int + 32 == b[i] as int)
      || ('A' <= b[i] <= 'Z' && b[i] as int + 32 == a[i] as int)
  }

  lemma SameLower(a: string, b: string)
    requires CapitalsAside(a, b)
    ensures Lower(a) == Lower(b)
  {
    forall i | 0 <= i < |a| ensures LowerChar(a[i]) == LowerChar(b[i]) {}
  }

  function TrimLeft(s: string): string { if s == [] || !IsSpace(s[0]) then s else TrimLeft(s[1..]) }

  function TrimRight(s: string): string { if s == [] || !IsSpace(s[|s| - 1]) then s else TrimRight(s[..|s| - 1]) }

  function Trim(s: string): string { TrimRight(TrimLeft(s)) }

  /** An optional note, trimmed; blank counts as none. */
  function Clean(o: Option<string>): Option<string> {
    match o
    case None => None
    case Some(s) => if Trim(s) == "" then None else Some(Trim(s))
  }

  lemma {:induction false} TrimLeftNoSpace(s: string)
    ensures TrimLeft(s) == "" || !IsSpace(TrimLeft(s)[0])
  {
    if s != [] && IsSpace(s[0]) { TrimLeftNoSpace(s[1..]); }
  }

  lemma {:induction false} TrimRightKeeps(s: string)
    ensures TrimRight(s) == "" || !IsSpace(TrimRight(s)[|TrimRight(s)| - 1])
    ensures TrimRight(s) <= s
    decreases |s|
  {
    if s != [] && IsSpace(s[|s| - 1]) { TrimRightKeeps(s[..|s| - 1]); }
  }

  predicate Blank(s: string) { forall i | 0 <= i < |s| :: IsSpace(s[i]) }

  lemma {:induction false} TrimLeftIs(s: string)
    ensures exists a :: Blank(a) && s == a + TrimLeft(s)
  {
    if s != "" && IsSpace(s[0]) {
      TrimLeftIs(s[1..]);
      var a :| Blank(a) && s[1..] == a + TrimLeft(s[1..]);
      assert Blank([s[0]] + a) && s == [s[0]] + a + TrimLeft(s);
    } else {
      assert Blank("") && s == "" + TrimLeft(s);
    }
  }

  lemma {:induction false} TrimRightIs(s: string)
    ensures exists b :: Blank(b) && s == TrimRight(s) + b
    decreases |s|
  {
    if s != "" && IsSpace(s[|s| - 1]) {
      var n := |s| - 1;
      TrimRightIs(s[..n]);
      var b :| Blank(b) && s[..n] == TrimRight(s[..n]) + b;
      assert Blank(b + [s[n]]) && s == TrimRight(s) + (b + [s[n]]);
    } else {
      assert Blank("") && s == TrimRight(s) + "";
    }
  }

  /** Trimming takes the blanks off both ends and nothing else. */
  lemma TrimIs(s: string)
    ensures exists a, b :: Blank(a) && Blank(b) && s == a + Trim(s) + b
    ensures Trim(s) == "" || (!IsSpace(Trim(s)[0]) && !IsSpace(Trim(s)[|Trim(s)| - 1]))
  {
    TrimLeftIs(s);
    TrimRightIs(TrimLeft(s));
    TrimLeftNoSpace(s);
    TrimRightKeeps(TrimLeft(s));
    var a :| Blank(a) && s == a + TrimLeft(s);
    var b :| Blank(b) && TrimLeft(s) == Trim(s) + b;
    assert a + (Trim(s) + b) == a + Trim(s) + b;
  }

  lemma TrimTwice(s: string)
    ensures Trim(Trim(s)) == Trim(s)
  {
    TrimLeftNoSpace(s);
    TrimRightKeeps(TrimLeft(s));
    var r := Trim(s);
    if r != "" { assert r[0] == TrimLeft(s)[0]; }
  }

  /** A word with no blank at either end is its own trimmed form. */
  lemma BareWordTrimmed(w: string)
    requires w != "" && !IsSpace(w[0]) && !IsSpace(w[|w| - 1])
    ensures Trim(w) == w
  {
  }

  /** `t` stands in `s` at `i`. */
  predicate Matches(s: string, i: nat, t: string) {
    forall k | 0 <= k < |t| :: i + k < |s| && s[i + k] == t[k]
  }

  lemma MatchesSlice(s: string, i: nat, t: string)
    requires i + |t| <= |s|
    ensures Matches(s, i, t) <==> s[i..i + |t|] == t
  {
    var u := s[i..i + |t|];
    assert forall k | 0 <= k < |u| :: u[k] == s[i + k];
  }

  /** `split_whitespace`: the runs between blanks; `word` is the run being read. */
  function WordsFrom(text: string, word: string): seq<string> {
    if text == "" then if word == "" then [] else [word]
    else if IsSpace(text[0]) then (if word == "" then [] else [word]) + WordsFrom(text[1..], "")
    else WordsFrom(text[1..], word + [text[0]])
  }

  function Words(text: string): seq<string> { WordsFrom(text, "") }
}
