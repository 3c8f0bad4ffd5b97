/** The word wrap of `src/mindmap_svg.rs`: greedy lines, words cut when they are
    wider than a line, an ellipsis when text is left over. Widths add up glyph
    by glyph. */
module Wrap {
  import opened Text

  const MAX_LINES := 6
  const ELLIPSIS := '\U{2026}'

  /** The width of a glyph at the size in use. */
  type Metrics = char -> real

  function Width(s: string, m: Metrics): real {
    if s == "" then 0.0 else m(s[0]) + Width(s[1..], m)
  }

  // ---------------------------------------------------------------------
  // Words.

  /** The text without its blanks. */
  function Dense(s: string): string {
    if s == "" then "" else (if IsSpace(s[0]) then "" else [s[0]]) + Dense(s[1..])
  }

  function Joined(lines: seq<string>): string {
    if lines == [] then "" else lines[0] + Joined(lines[1..])
  }

  ghost predicate Solid(word: string) {
    word != "" && forall i | 0 <= i < |word| :: !IsSpace(word[i])
  }

  ghost predicate AllSolid(words: seq<string>) { forall i | 0 <= i < |words| :: Solid(words[i]) }

  lemma {:induction false} DenseConcat(a: string, b: string)
    ensures Dense(a + b) == Dense(a) + Dense(b)
  {
    if a == "" {
      assert a + b == b;
    } else {
      assert (a + b)[1..] == a[1..] + b;
      DenseConcat(a[1..], b);
    }
  }

  lemma {:induction false} JoinedConcat(a: seq<string>, b: seq<string>)
    ensures Joined(a + b) == Joined(a) + Joined(b)
  {
    if a == [] {
      assert a + b == b;
    } else {
      assert (a + b)[1..] == a[1..] + b;
      JoinedConcat(a[1..], b);
    }
  }

  lemma {:induction false} DenseSolid(word: string)
    requires forall i | 0 <= i < |word| :: !IsSpace(word[i])
    ensures Dense(word) == word
  {
    if word != "" {
      DenseSolid(word[1..]);
      assert [word[0]] + word[1..] == word;
    }
  }

  lemma {:induction false} WidthConcat(a: string, b: string, m: Metrics)
    ensures Width(a + b, m) == Width(a, m) + Width(b, m)
  {
    if a == "" {
      assert a + b == b;
    } else {
      assert (a + b)[1..] == a[1..] + b;
      WidthConcat(a[1..], b, m);
    }
  }

  /** The words are solid, and together they are the text without its blanks. */
  lemma {:induction false} WordsAre(text: string, word: string)
    requires forall i | 0 <= i < |word| :: !IsSpace(word[i])
    ensures AllSolid(WordsFrom(text, word)) && Joined(WordsFrom(text, word)) == word + Dense(text)
    decreases |text|
  {
    if text == "" {
      assert word != "" ==> Joined([word]) == word + Joined([word][1..]);
    } else if IsSpace(text[0]) {
      WordsAre(text[1..], "");
      var rest := WordsFrom(text[1..], "");
      assert "" + Dense(text[1..]) == Dense(text);
      if word != "" {
        assert ([word] + rest)[1..] == rest;
      } else {
        assert [] + rest == rest && word + Dense(text) == Dense(text);
      }
    } else {
      WordsAre(text[1..], word + [text[0]]);
      assert word + [text[0]] + Dense(text[1..]) == word + Dense(text);
    }
  }

  // ---------------------------------------------------------------------
  // The wrap.

  /** Lines so far, the line being filled, and whether text was left over. */
  datatype State = State(lines: seq<string>, cur: string, cut: bool)

  /** How many characters of a word go on a line of its own: at least one. */
  function HeadLen(word: string, n: nat, m: Metrics, max: real): nat
    requires n <= |word|
    decreases |word| - n
  {
    if n == |word| || (Width(word[..n], m) + m(word[n]) > max && n > 0) then n else HeadLen(word, n + 1, m, max)
  }

  lemma {:induction false} HeadLenIs(word: string, n: nat, m: Metrics, max: real)
    requires n <= |word|
    ensures var k := HeadLen(word, n, m, max);
            && n <= k <= |word| && (word != "" ==> k > 0)
            && (k == |word| || Width(word[..k], m) + m(word[k]) > max)
            && (k > n ==> k == 1 || Width(word[..k], m) <= max)
    decreases |word| - n
  {
    if n < |word| && !(Width(word[..n], m) + m(word[n]) > max && n > 0) {
      HeadLenIs(word, n + 1, m, max);
      assert word[..n + 1] == word[..n] + [word[n]];
      WidthConcat(word[..n], [word[n]], m);
      assert [word[n]][1..] == "";
    }
  }

  function PutWord(s: State, word: string, m: Metrics, max: real): State
    requires word != ""
    decreases |word|, |s.cur|
  {
    var add := if s.cur == "" then Width(word, m) else m(' ') + Width(word, m);
    if Width(s.cur, m) + add <= max then s.(cur := if s.cur == "" then word else s.cur + " " + word)
    else if s.cur != "" then
      var t := State(s.lines + [s.cur], "", |s.lines| + 1 >= MAX_LINES);
      if t.cut then t else PutWord(t, word, m, max)
    else
      HeadLenIs(word, 0, m, max);
      var k := HeadLen(word, 0, m, max);
      var t := s.(lines := s.lines + [word[..k]]);
      if k == |word| then t
      else if |t.lines| >= MAX_LINES then t.(cut := true)
      else PutWord(t, word[k..], m, max)
  }

  function PutWords(s: State, words: seq<string>, m: Metrics, max: real): State
    requires AllSolid(words)
    decreases |words|
  {
    if words == [] || s.cut then s else PutWords(PutWord(s, words[0], m, max), words[1..], m, max)
  }

  /** Characters go from the end until the ellipsis fits. */
  function Shorten(last: string, m: Metrics, max: real): string {
    if last == "" || Width(last, m) + m(ELLIPSIS) <= max then last else Shorten(last[..|last| - 1], m, max)
  }

  function Finish(s: State, m: Metrics, max: real): seq<string> {
    var full := s.cur != "" && |s.lines| >= MAX_LINES;
    var all := if s.cur != "" && !full then s.lines + [s.cur] else s.lines;
    var kept := if |all| > MAX_LINES then all[..MAX_LINES] else all;
    var n := |kept|;
    if n == 0 then [""]
    else if s.cut || full then kept[..n - 1] + [Shorten(kept[n - 1], m, max) + [ELLIPSIS]]
    else kept
  }

  function Lines(text: string, m: Metrics, max: real): seq<string> {
    WordsAre(text, "");
    Finish(PutWords(State([], "", false), Words(text), m, max), m, max)
  }

  // ---------------------------------------------------------------------
  // What is kept.

  /** What a state holds, without blanks. */
  function Held(s: State): string { Dense(Joined(s.lines) + s.cur) }

  ghost predicate Prefix(a: string, b: string) { |a| <= |b| && b[..|a|] == a }

  /** A state has taken exactly `done`, or was cut having taken the start of it. */
  ghost predicate Took(s: State, done: string) {
    if s.cut then s.cur == "" && Prefix(Held(s), done) else Held(s) == done
  }

  lemma JoinedPush(lines: seq<string>, line: string)
    ensures Joined(lines + [line]) == Joined(lines) + line
  {
    JoinedConcat(lines, [line]);
    assert [line][1..] == [] && Joined([line]) == line + "";
  }

  lemma HeldPush(lines: seq<string>, line: string, cut: bool)
    ensures Held(State(lines + [line], "", cut)) == Dense(Joined(lines)) + Dense(line)
  {
    JoinedPush(lines, line);
    assert Joined(lines + [line]) + "" == Joined(lines) + line;
    DenseConcat(Joined(lines), line);
  }

  lemma DenseSpaced(a: string, word: string)
    requires Solid(word)
    ensures Dense(a + " " + word) == Dense(a) + word
  {
    assert Dense(a + " ") == Dense(a) by { BlankDense(a); }
    assert Dense(a + " " + word) == Dense(a + " ") + Dense(word) by { DenseConcat(a + " ", word); }
    assert Dense(word) == word by { DenseSolid(word); }
  }

  lemma BlankDense(a: string)
    ensures Dense(a + " ") == Dense(a)
  {
    DenseConcat(a, " ");
    assert " "[1..] == "";
    assert Dense(" ") == "";
    assert Dense(a) + "" == Dense(a);
  }

  lemma FillHeld(s: State, word: string)
    requires Solid(word)
    ensures Held(s.(cur := if s.cur == "" then word else s.cur + " " + word)) == Held(s) + word
  {
    var all := Joined(s.lines);
    if s.cur == "" {
      DenseConcat(all, word);
      DenseSolid(word);
      assert all + "" == all;
    } else {
      DenseSpaced(all + s.cur, word);
      assert all + s.cur + " " + word == all + (s.cur + " " + word);
    }
  }

  lemma BreakHeld(s: State, cut: bool)
    ensures Held(State(s.lines + [s.cur], "", cut)) == Held(s)
  {
    HeldPush(s.lines, s.cur, cut);
    DenseConcat(Joined(s.lines), s.cur);
  }

  lemma HeadHeld(s: State, head: string, cut: bool)
    requires s.cur == "" && Solid(head)
    ensures Held(State(s.lines + [head], "", cut)) == Held(s) + head
  {
    HeldPush(s.lines, head, cut);
    DenseSolid(head);
    assert Joined(s.lines) + "" == Joined(s.lines);
  }

  lemma {:induction false} PutWordTakes(s: State, word: string, m: Metrics, max: real)
    requires !s.cut && Solid(word)
    ensures Took(PutWord(s, word, m, max), Held(s) + word)
    decreases |word|, |s.cur|
  {
    var add := if s.cur == "" then Width(word, m) else m(' ') + Width(word, m);
    if Width(s.cur, m) + add <= max {
      FillHeld(s, word);
    } else if s.cur != "" {
      var t := State(s.lines + [s.cur], "", |s.lines| + 1 >= MAX_LINES);
      BreakHeld(s, t.cut);
      if !t.cut { PutWordTakes(t, word, m, max); }
    } else {
      PutHeadTakes(s, word, m, max);
      var k := HeadLen(word, 0, m, max);
      HeadLenIs(word, 0, m, max);
      var t := s.(lines := s.lines + [word[..k]]);
      if k < |word| && |t.lines| < MAX_LINES { PutWordTakes(t, word[k..], m, max); }
    }
  }

  /** Cutting a head off a word: what the line and the rest of the word make. */
  lemma PutHeadTakes(s: State, word: string, m: Metrics, max: real)
    requires !s.cut && Solid(word) && s.cur == ""
    ensures var k := HeadLen(word, 0, m, max);
            && 0 < k <= |word| && Solid(word[..k]) && (k < |word| ==> Solid(word[k..]))
            && Held(s) + word[..k] + word[k..] == Held(s) + word
            && Held(State(s.lines + [word[..k]], "", false)) == Held(s) + word[..k]
            && Held(State(s.lines + [word[..k]], "", true)) == Held(s) + word[..k]
  {
    HeadLenIs(word, 0, m, max);
    var k := HeadLen(word, 0, m, max);
    assert word == word[..k] + word[k..];
    HeadHeld(s, word[..k], false);
    HeadHeld(s, word[..k], true);
  }

  lemma {:induction false} PutWordsTake(s: State, words: seq<string>, m: Metrics, max: real, done: string)
    requires AllSolid(words) && Took(s, done)
    ensures Took(PutWords(s, words, m, max), done + Joined(words))
    decreases |words|
  {
    if words != [] && !s.cut {
      PutWordTakes(s, words[0], m, max);
      var t, more := PutWord(s, words[0], m, max), words[1..];
      PutWordsTake(t, more, m, max, done + words[0]);
      JoinOn(done, words[0], Joined(more));
    } else if words == [] {
      assert done + Joined(words) == done;
    }
  }

  lemma JoinOn(a: string, b: string, c: string)
    ensures a + b + c == a + (b + c)
  {
  }

  // ---------------------------------------------------------------------
  // Widths and the number of lines, when every glyph fits.

  ghost predicate Fits(text: string, m: Metrics, max: real) {
    forall i | 0 <= i < |text| :: 0.0 <= m(text[i]) <= max
  }

  ghost predicate AllFit(words: seq<string>, m: Metrics, max: real) { forall i | 0 <= i < |words| ::
                         Fits(words[i], m, max) }

  lemma {:induction false} WordsFit(text: string, word: string, m: Metrics, max: real)
    requires Fits(text, m, max) && Fits(word, m, max)
    ensures AllFit(WordsFrom(text, word), m, max)
    decreases |text|
  {
    if text != "" {
      var rest := text[1..];
      forall i | 0 <= i < |rest| ensures 0.0 <= m(rest[i]) <= max { assert rest[i] == text[i + 1]; }
      if IsSpace(text[0]) { WordsFit(rest, "", m, max); } else { WordsFit(rest, word + [text[0]], m, max); }
    }
  }

  ghost predicate Narrow(lines: seq<string>, m: Metrics, max: real) {
    forall i | 0 <= i < |lines| :: Width(lines[i], m) <= max
  }

  /** Narrow lines, and room for more unless text was left over. */
  ghost predicate Roomy(s: State, m: Metrics, max: real) {
    && Narrow(s.lines, m, max) && Width(s.cur, m) <= max
    && if s.cut then |s.lines| == MAX_LINES && s.cur == "" else |s.lines| < MAX_LINES
  }

  lemma {:induction false} PutWordRoomy(s: State, word: string, m: Metrics, max: real)
    requires Fits(word, m, max) && 0.0 <= max && Roomy(s, m, max) && !s.cut && word != ""
    ensures Roomy(PutWord(s, word, m, max), m, max)
    decreases |word|, |s.cur|
  {
    var add := if s.cur == "" then Width(word, m) else m(' ') + Width(word, m);
    if Width(s.cur, m) + add <= max {
      WidthConcat(s.cur + " ", word, m);
      WidthConcat(s.cur, " ", m);
      assert " "[1..] == "";
    } else if s.cur != "" {
      var t := State(s.lines + [s.cur], "", |s.lines| + 1 >= MAX_LINES);
      if !t.cut { PutWordRoomy(t, word, m, max); }
    } else {
      HeadLenIs(word, 0, m, max);
      var k := HeadLen(word, 0, m, max);
      HeadNarrow(word, m, max);
      var t := s.(lines := s.lines + [word[..k]]);
      if |t.lines| < MAX_LINES {
        forall i | 0 <= i < |word[k..]| ensures 0.0 <= m(word[k..][i]) <= max { assert word[k..][i] == word[k + i]; }
        PutWordRoomy(t, word[k..], m, max);
      }
    }
  }

  /** A word wider than the line is really cut, and its head fits. */
  lemma HeadNarrow(word: string, m: Metrics, max: real)
    requires Fits(word, m, max) && word != "" && Width(word, m) > max
    ensures var k := HeadLen(word, 0, m, max); 0 < k < |word| && Width(word[..k], m) <= max
  {
    HeadLenIs(word, 0, m, max);
    var k := HeadLen(word, 0, m, max);
    assert word[..|word|] == word;
    if k == 1 { assert word[..1][1..] == "" && Width(word[..1], m) == m(word[0]) + 0.0; }
  }

  lemma {:induction false} PutWordsRoomy(s: State, words: seq<string>, m: Metrics, max: real)
    requires AllSolid(words) && AllFit(words, m, max) && 0.0 <= max && Roomy(s, m, max)
    ensures Roomy(PutWords(s, words, m, max), m, max)
    decreases |words|
  {
    if words != [] && !s.cut {
      PutWordRoomy(s, words[0], m, max);
      PutWordsRoomy(PutWord(s, words[0], m, max), words[1..], m, max);
    }
  }

  lemma {:induction false} ShortenFits(last: string, m: Metrics, max: real)
    requires m(ELLIPSIS) <= max
    ensures Width(Shorten(last, m, max) + [ELLIPSIS], m) <= max && Shorten(last, m, max) <= last
    decreases |last|
  {
    if last == "" || Width(last, m) + m(ELLIPSIS) <= max {
      WidthConcat(last, [ELLIPSIS], m);
      assert [ELLIPSIS][1..] == "";
    } else {
      ShortenFits(last[..|last| - 1], m, max);
    }
  }

  lemma {:induction false} ShortenPrefix(last: string, m: Metrics, max: real)
    ensures Shorten(last, m, max) <= last
    decreases |last|
  {
    if last != "" && Width(last, m) + m(ELLIPSIS) > max { ShortenPrefix(last[..|last| - 1], m, max); }
  }

  /** One to MAX_LINES lines, whatever the text and the glyphs. */
  lemma AtMostMaxLines(text: string, m: Metrics, max: real)
    ensures 1 <= |Lines(text, m, max)| <= MAX_LINES
  {
    WordsAre(text, "");
  }

  /** The state the text leaves, when its glyphs fit. */
  lemma TextRoomy(text: string, m: Metrics, max: real)
    requires Fits(text, m, max) && 0.0 <= max
    ensures AllSolid(Words(text)) && Roomy(PutWords(State([], "", false), Words(text), m, max), m, max)
  {
    WordsAre(text, "");
    WordsFit(text, "", m, max);
    PutWordsRoomy(State([], "", false), Words(text), m, max);
  }

  /** No line is wider than the limit, when every glyph and the ellipsis fit. */
  lemma LinesFit(text: string, m: Metrics, max: real)
    requires Fits(text, m, max) && m(ELLIPSIS) <= max && 0.0 <= max
    ensures Narrow(Lines(text, m, max), m, max)
  {
    TextRoomy(text, m, max);
    var s := PutWords(State([], "", false), Words(text), m, max);
    if s.cut { ShortenFits(s.lines[MAX_LINES - 1], m, max); }
  }

  /** All of the text, or the start of it and an ellipsis. */
  ghost predicate KeptOrCut(lines: seq<string>, text: string)
    requires lines != []
  {
    var last := lines[|lines| - 1];
    || Dense(Joined(lines)) == Dense(text)
    || (last != "" && last[|last| - 1] == ELLIPSIS
        && Prefix(Dense(Joined(lines[..|lines| - 1] + [last[..|last| - 1]])), Dense(text)))
  }

  // ---------------------------------------------------------------------
  // When text is lost without an ellipsis.

  /** A word of one glyph that is wider than the line. */
  predicate WideGlyph(word: string, m: Metrics, max: real) { |word| == 1 && m(word[0]) > max }

  ghost predicate AllWide(words: seq<string>, m: Metrics, max: real) {
    forall i | 0 <= i < |words| :: WideGlyph(words[i], m, max)
  }

  /** All lines are used, and no text waits for one. */
  predicate Full(s: State) { !s.cut && s.cur == "" && |s.lines| >= MAX_LINES }

  /** A word that meets full lines: it waits, is a line too many, or is cut. */
  lemma WordOnFull(s: State, word: string, m: Metrics, max: real)
    requires Full(s) && word != ""
    ensures var r := PutWord(s, word, m, max);
            if Width(word, m) <= max then r == s.(cur := word)
            else if |word| == 1 then r == State(s.lines + [word], "", false)
            else r.cut
    ensures |word| == 1 ==> (WideGlyph(word, m, max) <==> Width(word, m) > max)
  {
    HeadLenIs(word, 0, m, max);
    assert word[..|word|] == word;
    if |word| == 1 { assert word[1..] == ""; }
  }

  /** Text that waits behind full lines never gets one. */
  lemma WordOnWaiting(s: State, word: string, m: Metrics, max: real)
    requires !s.cut && s.cur != "" && |s.lines| >= MAX_LINES && word != ""
    ensures var r := PutWord(s, word, m, max); r.cut || (r.lines == s.lines && r.cur != "")
  {
  }

  /** The lines are only ever filled by a word that ends with its line. */
  lemma {:induction false} WordFills(s: State, word: string, m: Metrics, max: real)
    requires !s.cut && |s.lines| < MAX_LINES && word != ""
    ensures var r := PutWord(s, word, m, max);
            r.cut || |r.lines| < MAX_LINES || (|r.lines| == MAX_LINES && r.cur == "")
    decreases |word|, |s.cur|
  {
    var add := if s.cur == "" then Width(word, m) else m(' ') + Width(word, m);
    if Width(s.cur, m) + add > max {
      if s.cur != "" {
        var t := State(s.lines + [s.cur], "", |s.lines| + 1 >= MAX_LINES);
        if !t.cut { WordFills(t, word, m, max); }
      } else {
        HeadLenIs(word, 0, m, max);
        var k := HeadLen(word, 0, m, max);
        var t := s.(lines := s.lines + [word[..k]]);
        if k < |word| && |t.lines| < MAX_LINES { WordFills(t, word[k..], m, max); }
      }
    }
  }

  lemma {:induction false} WaitingStays(s: State, words: seq<string>, m: Metrics, max: real)
    requires AllSolid(words) && (s.cut || (s.cur != "" && |s.lines| >= MAX_LINES))
    ensures !Full(PutWords(s, words, m, max))
    decreases |words|
  {
    if words != [] && !s.cut {
      WordOnWaiting(s, words[0], m, max);
      WaitingStays(PutWord(s, words[0], m, max), words[1..], m, max);
    }
  }

  /** Full lines stay full exactly under wide glyphs, each a line too many. */
  lemma {:induction false} FullStays(s: State, words: seq<string>, m: Metrics, max: real)
    requires AllSolid(words) && Full(s)
    ensures Full(PutWords(s, words, m, max)) <==> AllWide(words, m, max)
    ensures AllWide(words, m, max) ==> PutWords(s, words, m, max).lines == s.lines + words
    decreases |words|
  {
    if words != [] {
      var r, rest := PutWord(s, words[0], m, max), words[1..];
      WordOnFull(s, words[0], m, max);
      WideHead(words, m, max);
      if WideGlyph(words[0], m, max) {
        FullStays(r, rest, m, max);
        assert s.lines + words == r.lines + rest;
      } else {
        WaitingStays(r, rest, m, max);
      }
    } else {
      assert s.lines + words == s.lines;
    }
  }

  lemma WideHead(words: seq<string>, m: Metrics, max: real)
    requires words != []
    ensures AllWide(words, m, max) <==> WideGlyph(words[0], m, max) && AllWide(words[1..], m, max)
  {
    if AllWide(words, m, max) { assert forall i | 0 <= i < |words[1..]| :: words[1..][i] == words[i + 1]; }
    if WideGlyph(words[0], m, max) && AllWide(words[1..], m, max) {
      assert forall i | 0 < i < |words| :: words[i] == words[1..][i - 1];
    }
  }

  /** The first `n` words fill the lines exactly, and all the others are wide
      glyphs. */
  ghost predicate FillsAt(s: State, words: seq<string>, m: Metrics, max: real, n: nat)
    requires AllSolid(words)
  {
    && n < |words| && AllWide(words[n..], m, max)
    && var r := PutWords(s, words[..n], m, max); Full(r) && |r.lines| == MAX_LINES
  }

  lemma FillsLater(s: State, words: seq<string>, m: Metrics, max: real, n: nat)
    requires AllSolid(words) && words != [] && !s.cut && n < |words|
    ensures FillsAt(s, words, m, max, n) <==>
            if n == 0 then Full(s) && |s.lines| == MAX_LINES && AllWide(words, m, max)
            else FillsAt(PutWord(s, words[0], m, max), words[1..], m, max, n - 1)
  {
    assert words[0..] == words && words[..0] == [];
    if n > 0 {
      assert words[..n][0] == words[0] && words[..n][1..] == words[1..][..n - 1];
      assert words[1..][n - 1..] == words[n..];
    }
  }

  /** Lines too many, and nothing that says so, come about in just that way. */
  lemma {:induction false} TooManyIff(s: State, words: seq<string>, m: Metrics, max: real)
    requires AllSolid(words) && !s.cut && |s.lines| < MAX_LINES
    ensures var r := PutWords(s, words, m, max);
            (Full(r) && |r.lines| > MAX_LINES) <==> exists n: nat :: FillsAt(s, words, m, max, n)
    decreases |words|
  {
    if words != [] {
      var r, rest := PutWord(s, words[0], m, max), words[1..];
      WordFills(s, words[0], m, max);
      if r.cut {
        forall n: nat ensures !FillsAt(s, words, m, max, n) {
          if n < |words| { FillsLater(s, words, m, max, n); }
          if 0 < n < |words| { WaitingStays(r, rest[..n - 1], m, max); }
        }
      } else if |r.lines| < MAX_LINES {
        TooManyIff(r, rest, m, max);
        FillsShift(s, words, m, max);
      } else {
        FullIsTooMany(s, words, m, max);
      }
    }
  }

  lemma FillsShift(s: State, words: seq<string>, m: Metrics, max: real)
    requires AllSolid(words) && words != [] && !s.cut && |s.lines| < MAX_LINES
    ensures (exists n: nat :: FillsAt(s, words, m, max, n)) <==>
            exists n: nat :: FillsAt(PutWord(s, words[0], m, max), words[1..], m, max, n)
  {
    if n: nat :| FillsAt(s, words, m, max, n) {
      FillsLater(s, words, m, max, n);
      assert FillsAt(PutWord(s, words[0], m, max), words[1..], m, max, n - 1);
    }
    if n: nat :| FillsAt(PutWord(s, words[0], m, max), words[1..], m, max, n) {
      FillsLater(s, words, m, max, n + 1);
    }
  }

  /** The word that fills the last line: from there on only wide glyphs will do. */
  lemma FullIsTooMany(s: State, words: seq<string>, m: Metrics, max: real)
    requires AllSolid(words) && words != [] && !s.cut && |s.lines| < MAX_LINES
    requires var r := PutWord(s, words[0], m, max); Full(r) && |r.lines| == MAX_LINES
    ensures var r := PutWords(s, words, m, max);
            (Full(r) && |r.lines| > MAX_LINES) <==> exists n: nat :: FillsAt(s, words, m, max, n)
  {
    var r, rest := PutWord(s, words[0], m, max), words[1..];
    FullStays(r, rest, m, max);
    if Full(PutWords(r, rest, m, max)) && rest != [] {
      FillsLater(r, rest, m, max, 0);
      assert FillsAt(r, rest, m, max, 0);
      FillsShift(s, words, m, max);
    }
    if n: nat :| FillsAt(s, words, m, max, n) {
      FillsLater(s, words, m, max, n);
      assert FillsAt(r, rest, m, max, n - 1);
      FullStays(r, rest[..n - 1], m, max);
      assert rest[..n - 1] + rest[n - 1..] == rest;
    }
  }

  /** The words fill the lines exactly, and what is left are wide glyphs. */
  ghost predicate Overfull(text: string, m: Metrics, max: real) {
    WordsAre(text, "");
    exists n: nat :: FillsAt(State([], "", false), Words(text), m, max, n)
  }

  predicate EndsInEllipsis(line: string) { line != "" && line[|line| - 1] == ELLIPSIS }

  lemma {:induction false} PutWordsSplit(s: State, words: seq<string>, m: Metrics, max: real, n: nat)
    requires AllSolid(words) && n <= |words| && !PutWords(s, words[..n], m, max).cut
    ensures PutWords(s, words, m, max) == PutWords(PutWords(s, words[..n], m, max), words[n..], m, max)
    decreases n
  {
    if n == 0 {
      assert words[..0] == [] && words[0..] == words;
    } else {
      var rest := words[1..];
      assert words[..n][0] == words[0] && words[..n][1..] == rest[..n - 1] && rest[n - 1..] == words[n..];
      PutWordsSplit(PutWord(s, words[0], m, max), rest, m, max, n - 1);
    }
  }

  /** What the lines show is then less than what the state holds. */
  lemma OverfullLoses(words: seq<string>, m: Metrics, max: real, n: nat)
    requires AllSolid(words) && FillsAt(State([], "", false), words, m, max, n)
    ensures var r := PutWords(State([], "", false), words, m, max);
            |r.lines| > MAX_LINES && |Dense(Joined(r.lines[..MAX_LINES]))| < |Held(r)|
  {
    var start := State([], "", false);
    var r, more := PutWords(start, words[..n], m, max), words[n..];
    PutWordsSplit(start, words, m, max, n);
    FullStays(r, more, m, max);
    var all := r.lines + more;
    assert all[..MAX_LINES] == r.lines;
    JoinedConcat(r.lines, more);
    assert Joined(all) + "" == Joined(all);
    DenseConcat(Joined(r.lines), Joined(more));
    assert Solid(more[0]) && Joined(more) == more[0] + Joined(more[1..]);
    DenseConcat(more[0], Joined(more[1..]));
    DenseSolid(more[0]);
  }

  lemma {:induction false} CutIsFull(s: State, word: string, m: Metrics, max: real)
    requires word != "" && (s.cut ==> |s.lines| >= MAX_LINES)
    ensures PutWord(s, word, m, max).cut ==> |PutWord(s, word, m, max).lines| >= MAX_LINES
    decreases |word|, |s.cur|
  {
    var add := if s.cur == "" then Width(word, m) else m(' ') + Width(word, m);
    if Width(s.cur, m) + add > max {
      if s.cur != "" {
        var t := State(s.lines + [s.cur], "", |s.lines| + 1 >= MAX_LINES);
        if !t.cut { CutIsFull(t, word, m, max); }
      } else {
        HeadLenIs(word, 0, m, max);
        var k := HeadLen(word, 0, m, max);
        var t := s.(lines := s.lines + [word[..k]]);
        if k < |word| && |t.lines| < MAX_LINES { CutIsFull(t, word[k..], m, max); }
      }
    }
  }

  lemma {:induction false} CutAreFull(s: State, words: seq<string>, m: Metrics, max: real)
    requires AllSolid(words) && (s.cut ==> |s.lines| >= MAX_LINES)
    ensures PutWords(s, words, m, max).cut ==> |PutWords(s, words, m, max).lines| >= MAX_LINES
    decreases |words|
  {
    if words != [] && !s.cut {
      CutIsFull(s, words[0], m, max);
      CutAreFull(PutWord(s, words[0], m, max), words[1..], m, max);
    }
  }

  /** The first lines hold the start of the text. */
  lemma FirstLines(s: State, text: string)
    requires Took(s, Dense(text)) && |s.lines| >= MAX_LINES
    ensures Prefix(Dense(Joined(s.lines[..MAX_LINES])), Dense(text))
  {
    var first, more := s.lines[..MAX_LINES], s.lines[MAX_LINES..];
    assert s.lines == first + more;
    JoinedConcat(first, more);
    assert Joined(s.lines) + s.cur == Joined(first) + (Joined(more) + s.cur);
    DenseConcat(Joined(first), Joined(more) + s.cur);
    PrefixOfPrefix(Dense(Joined(first)), Held(s), Dense(text));
  }

  /** The last line cut shorter still leaves the start of the text. */
  lemma ShorterLast(lines: seq<string>, short: string, text: string)
    requires lines != [] && short <= lines[|lines| - 1] && Prefix(Dense(Joined(lines)), Dense(text))
    ensures Prefix(Dense(Joined(lines[..|lines| - 1] + [short])), Dense(text))
  {
    var front, last := lines[..|lines| - 1], lines[|lines| - 1];
    assert lines == front + [last];
    CutKeepsStart(front, last, short);
    PrefixOfPrefix(Dense(Joined(front + [short])), Dense(Joined(lines)), Dense(text));
  }

  lemma CutIsMarked(s: State, text: string, m: Metrics, max: real)
    requires Took(s, Dense(text)) && |s.lines| >= MAX_LINES && (s.cut || s.cur != "")
    ensures KeptOrCut(Finish(s, m, max), text)
  {
    var first := s.lines[..MAX_LINES];
    var front, short := first[..MAX_LINES - 1], Shorten(first[MAX_LINES - 1], m, max);
    ShortenPrefix(first[MAX_LINES - 1], m, max);
    FirstLines(s, text);
    ShorterLast(first, short, text);
    var lines := Finish(s, m, max);
    assert lines == front + [short + [ELLIPSIS]];
    assert (short + [ELLIPSIS])[..|short|] == short && lines[..|lines| - 1] == front;
  }

  /** Text is lost without an ellipsis exactly when the words fill the lines and
      those left are wide glyphs — a text with an ellipsis of its own where the
      last line ends aside. */
  lemma LostIff(text: string, m: Metrics, max: real)
    ensures Lines(text, m, max) != []
    ensures !KeptOrCut(Lines(text, m, max), text) <==>
            Overfull(text, m, max) && !EndsInEllipsis(Lines(text, m, max)[|Lines(text, m, max)| - 1])
  {
    AtMostMaxLines(text, m, max);
    WordsAre(text, "");
    var start, words := State([], "", false), Words(text);
    var s := PutWords(start, words, m, max);
    assert Held(start) == "";
    PutWordsTake(start, words, m, max, "");
    assert "" + Joined(words) == Dense(text);
    CutAreFull(start, words, m, max);
    TooManyIff(start, words, m, max);
    if Overfull(text, m, max) {
      var n: nat :| FillsAt(start, words, m, max, n);
      OverfullLoses(words, m, max, n);
      TooManyLines(s, text, m, max);
    } else {
      NotTooMany(s, text, m, max);
    }
  }

  lemma TooManyLines(s: State, text: string, m: Metrics, max: real)
    requires Took(s, Dense(text)) && Full(s) && |s.lines| > MAX_LINES
    requires |Dense(Joined(s.lines[..MAX_LINES]))| < |Held(s)|
    ensures Finish(s, m, max) == s.lines[..MAX_LINES]
    ensures KeptOrCut(s.lines[..MAX_LINES], text) <==> EndsInEllipsis(s.lines[MAX_LINES - 1])
  {
    var lines := s.lines[..MAX_LINES];
    var last := lines[MAX_LINES - 1];
    if EndsInEllipsis(last) {
      FirstLines(s, text);
      ShorterLast(lines, last[..|last| - 1], text);
    }
  }

  lemma NotTooMany(s: State, text: string, m: Metrics, max: real)
    requires Took(s, Dense(text)) && (s.cut ==> |s.lines| >= MAX_LINES) && !(Full(s) && |s.lines| > MAX_LINES)
    ensures Finish(s, m, max) != [] && KeptOrCut(Finish(s, m, max), text)
  {
    var lines := Finish(s, m, max);
    if s.cut || (s.cur != "" && |s.lines| >= MAX_LINES) {
      CutIsMarked(s, text, m, max);
    } else if s.cur != "" {
      assert lines == s.lines + [s.cur];
      JoinedPush(s.lines, s.cur);
    } else {
      assert Joined(s.lines) + "" == Joined(s.lines);
      assert lines == if s.lines == [] then [""] else s.lines;
      assert Joined([""]) == "" + Joined([""][1..]);
    }
  }

  /** When every glyph fits the line, nothing is lost without an ellipsis. */
  lemma NothingLost(text: string, m: Metrics, max: real)
    requires Fits(text, m, max)
    ensures Lines(text, m, max) != [] && KeptOrCut(Lines(text, m, max), text)
  {
    LostIff(text, m, max);
    WordsAre(text, "");
    WordsFit(text, "", m, max);
    var words := Words(text);
    forall n: nat ensures !FillsAt(State([], "", false), words, m, max, n) {
      if n < |words| {
        assert Fits(words[n], m, max) && words[n..][0] == words[n];
        assert !WideGlyph(words[n..][0], m, max);
      }
    }
  }

  lemma PrefixOfPrefix(a: string, b: string, c: string)
    requires Prefix(a, b) && Prefix(b, c)
    ensures Prefix(a, c)
  {
    assert c[..|a|] == b[..|a|];
  }

  lemma CutKeepsStart(front: seq<string>, last: string, short: string)
    requires short <= last
    ensures Prefix(Dense(Joined(front + [short])), Dense(Joined(front + [last])))
  {
    var gone := last[|short|..];
    assert last == short + gone;
    JoinedPush(front, short);
    JoinedPush(front, last);
    assert Joined(front) + last == Joined(front) + short + gone;
    DenseConcat(Joined(front) + short, gone);
    assert Dense(Joined(front + [last])) == Dense(Joined(front + [short])) + Dense(gone);
  }

  /** `n` words of one letter. */
  function Row(n: nat): string { if n == 0 then "" else "w " + Row(n - 1) }

  lemma {:induction false} RowOfWide(n: nat, s: State, m: Metrics, max: real)
    requires m('w') > max && Width("", m) <= max && s.cur == "" && !s.cut
    ensures AllSolid(WordsFrom(Row(n), "")) && |Dense(Row(n))| == n
    ensures PutWords(s, WordsFrom(Row(n), ""), m, max) == State(s.lines + seq(n, i => "w"), "", false)
  {
    WordsAre(Row(n), "");
    if n == 0 {
      assert s.lines + seq(0, i => "w") == s.lines;
    } else {
      var rest := Row(n - 1);
      RowWords(n);
      var t := State(s.lines + ["w"], "", false);
      WidePut(s, m, max);
      RowOfWide(n - 1, t, m, max);
      assert (["w"] + WordsFrom(rest, ""))[1..] == WordsFrom(rest, "");
      assert s.lines + ["w"] + seq(n - 1, i => "w") == s.lines + seq(n, i => "w");
    }
  }

  lemma RowWords(n: nat)
    requires n > 0
    ensures WordsFrom(Row(n), "") == ["w"] + WordsFrom(Row(n - 1), "") && |Dense(Row(n))| == 1 + |Dense(Row(n - 1))|
  {
    var rest := Row(n - 1);
    assert Row(n)[0] == 'w' && Row(n)[1..] == " " + rest && (" " + rest)[1..] == rest;
    var tail := " " + rest;
    assert tail != "" && IsSpace(tail[0]) && !IsSpace(Row(n)[0]) && "" + ['w'] == "w";
    assert WordsFrom(tail, "w") == ["w"] + WordsFrom(tail[1..], "");
    assert WordsFrom(Row(n), "") == WordsFrom(tail, "w");
    assert Dense(" " + rest) == "" + Dense(rest);
  }

  lemma WidePut(s: State, m: Metrics, max: real)
    requires m('w') > max && s.cur == "" && !s.cut
    ensures PutWord(s, "w", m, max) == State(s.lines + ["w"], "", false)
  {
    assert Width("w", m) == m('w') + Width("w"[1..], m) && "w"[1..] == "";
    HeadLenIs("w", 0, m, max);
    assert "w"[..1] == "w" && HeadLen("w", 0, m, max) == 1;
    assert Width(s.cur, m) + Width("w", m) > max;
  }

  /** A glyph wider than the line can be lost in silence: seven such words of
      one letter leave six lines and no ellipsis. */
  lemma WideGlyphsAreLost(n: nat, m: Metrics, max: real)
    requires n > MAX_LINES && 0.0 <= max < m('w')
    ensures Lines(Row(n), m, max) == seq(MAX_LINES, i => "w")
    ensures !KeptOrCut(Lines(Row(n), m, max), Row(n))
  {
    RowOfWide(n, State([], "", false), m, max);
    var six := seq(MAX_LINES, i => "w");
    assert ([] + seq(n, i => "w"))[..MAX_LINES] == six;
    JoinedRow(MAX_LINES);
  }

  lemma {:induction false} JoinedRow(n: nat)
    ensures |Dense(Joined(seq(n, i => "w")))| <= n
  {
    if n > 0 {
      var all, front := seq(n, i => "w"), seq(n - 1, i => "w");
      assert all[1..] == front && all[0] == "w";
      JoinedRow(n - 1);
      DenseConcat("w", Joined(front));
      assert "w"[1..] == "" && Dense("w") == "w" + "";
    }
  }

  // ---------------------------------------------------------------------
  // `wrap` as it runs.

  method SplitWords(text: string) returns (words: seq<string>)
    ensures words == Words(text)
  {
    words := [];
    var word := "";
    assert text[0..] == text;
    for i := 0 to |text|
      invariant words + WordsFrom(text[i..], word) == Words(text)
    {
      assert text[i..][0] == text[i] && text[i..][1..] == text[i + 1..];
      if IsSpace(text[i]) {
        if word != "" { words := words + [word]; }
        word := "";
      } else {
        word := word + [text[i]];
      }
    }
    if word != "" { words := words + [word]; }
  }

  /** The part of a word that goes on a line of its own, with its width. */
  method CutHead(word: string, m: Metrics, max: real) returns (k: nat, width: real)
    requires word != ""
    ensures k == HeadLen(word, 0, m, max) && k <= |word| && width == Width(word[..k], m)
  {
    k, width := 0, 0.0;
    while k < |word|
      invariant k <= |word| && HeadLen(word, k, m, max) == HeadLen(word, 0, m, max) && width == Width(word[..k], m)
    {
      if width + m(word[k]) > max && k > 0 { break; }
      assert word[..k + 1] == word[..k] + [word[k]];
      WidthConcat(word[..k], [word[k]], m);
      assert [word[k]][1..] == "";
      width := width + m(word[k]);
      k := k + 1;
    }
  }

  /** One word onto the lines; widths are kept up, not measured again. */
  method AddWord(s: State, curW: real, whole: string, m: Metrics, max: real) returns (t: State, width: real)
    requires !s.cut && Solid(whole) && curW == Width(s.cur, m)
    ensures t == PutWord(s, whole, m, max) && width == Width(t.cur, m)
  {
    t, width := s, curW;
    var word, wordW := whole, Width(whole, m);
    while true
      invariant word != "" && !t.cut && width == Width(t.cur, m) && wordW == Width(word, m)
      invariant PutWord(t, word, m, max) == PutWord(s, whole, m, max)
      decreases |word|, |t.cur|
    {
      var add := if t.cur == "" then wordW else m(' ') + wordW;
      if width + add <= max {
        WidthSpaced(t.cur, word, m);
        t := t.(cur := if t.cur == "" then word else t.cur + " " + word);
        width := width + add;
        return;
      }
      if t.cur != "" {
        t, width := State(t.lines + [t.cur], "", false), 0.0;
      } else {
        var k, headW := CutHead(word, m, max);
        HeadLenIs(word, 0, m, max);
        assert word == word[..k] + word[k..];
        WidthConcat(word[..k], word[k..], m);
        t := t.(lines := t.lines + [word[..k]]);
        word, wordW := word[k..], wordW - headW;
        if word == "" { return; }
      }
      if |t.lines| >= MAX_LINES {
        t := t.(cut := true);
        return;
      }
    }
  }

  lemma WidthSpaced(cur: string, word: string, m: Metrics)
    ensures Width(cur + " " + word, m) == Width(cur, m) + m(' ') + Width(word, m)
  {
    WidthConcat(cur + " ", word, m);
    WidthConcat(cur, " ", m);
    assert " "[1..] == "";
  }

  method Trimmed(line: string, m: Metrics, max: real) returns (short: string)
    ensures short == Shorten(line, m, max)
  {
    short := line;
    var width := Width(line, m);
    while short != "" && width + m(ELLIPSIS) > max
      invariant width == Width(short, m) && Shorten(short, m, max) == Shorten(line, m, max)
      decreases |short|
    {
      var n := |short| - 1;
      assert short == short[..n] + [short[n]];
      WidthConcat(short[..n], [short[n]], m);
      assert [short[n]][1..] == "";
      width := width - m(short[n]);
      short := short[..n];
    }
  }

  method WrapText(text: string, m: Metrics, max: real) returns (lines: seq<string>)
    ensures lines == Lines(text, m, max)
  {
    WordsAre(text, "");
    var words := SplitWords(text);
    var s, width := State([], "", false), 0.0;
    var i := 0;
    assert words[0..] == words;
    while i < |words| && !s.cut
      invariant 0 <= i <= |words| && width == Width(s.cur, m)
      invariant AllSolid(words[i..]) && PutWords(s, words[i..], m, max) == PutWords(State([], "", false), words, m, max)
      decreases |words| - i
    {
      assert words[i..][0] == words[i] && words[i..][1..] == words[i + 1..];
      s, width := AddWord(s, width, words[i], m, max);
      i := i + 1;
    }
    lines := s.lines;
    var truncated := s.cut;
    if s.cur != "" {
      if |lines| >= MAX_LINES { truncated := true; } else { lines := lines + [s.cur]; }
    }
    if |lines| > MAX_LINES { lines := lines[..MAX_LINES]; }
    if truncated && lines != [] {
      var n := |lines| - 1;
      var short := Trimmed(lines[n], m, max);
      lines := lines[..n] + [short + [ELLIPSIS]];
    }
    if lines == [] { lines := [""]; }
  }
}
