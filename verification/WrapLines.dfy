/** What stands on the lines of a wrapped text: words with one blank between
    them, as many as fit, and no fewer. */
module WrapLines {
  import opened Text
  import opened Wrap

  /** No glyph has a negative width. */
  ghost predicate Advances(m: Metrics) { forall c: char :: m(c) >= 0.0 }

  /** A word, or a part of one; `whole` is what was left of the word there.
      `alone`: that was wider than a line, so the part has a line of its own. */
  datatype Piece = Piece(text: string, whole: string, alone: bool)

  /** A word is cut only when it is wider than a line: then as much as fits, at
      least one glyph, and the rest in the same way. */
  function Cut(word: string, m: Metrics, max: real): seq<Piece>
    requires word != ""
    decreases |word|
  {
    if Width(word, m) <= max then [Piece(word, word, false)]
    else
      HeadLenIs(word, 0, m, max);
      var k := HeadLen(word, 0, m, max);
      [Piece(word[..k], word, true)] + if k == |word| then [] else Cut(word[k..], m, max)
  }

  function CutAll(words: seq<string>, m: Metrics, max: real): seq<Piece>
    requires AllSolid(words)
  {
    if words == [] then [] else Cut(words[0], m, max) + CutAll(words[1..], m, max)
  }

  /** The pieces with one blank between them. */
  function Line(g: seq<Piece>): string {
    if g == [] then "" else if |g| == 1 then g[0].text else Line(g[..|g| - 1]) + " " + g[|g| - 1].text
  }

  /** On a line of its own, or each after the one before it with room for the blank. */
  ghost predicate Filled(g: seq<Piece>, m: Metrics, max: real) {
    && g != [] && (forall i | 0 <= i < |g| :: g[i].text != "" && (|g| > 1 ==> !g[i].alone))
    && (!g[0].alone ==> Width(g[0].text, m) <= max)
    && forall i | 0 < i < |g| :: Joins(g, i, m, max)
  }

  ghost predicate Joins(g: seq<Piece>, i: nat, m: Metrics, max: real)
    requires 0 < i < |g|
  {
    Width(Line(g[..i]), m) + (m(' ') + Width(g[i].text, m)) <= max
  }

  /** The next word had no room left on the line. */
  ghost predicate NoRoom(g: seq<Piece>, next: string, m: Metrics, max: real) {
    g != [] && (g[|g| - 1].alone || Width(Line(g), m) + (m(' ') + Width(next, m)) > max)
  }

  /** Lines filled one after the other, each as far as it goes. */
  ghost predicate Greedy(gs: seq<seq<Piece>>, m: Metrics, max: real) {
    && (forall i | 0 <= i < |gs| :: Filled(gs[i], m, max))
    && forall i | 0 <= i < |gs| - 1 :: Broken(gs, i, m, max)
  }

  ghost predicate Broken(gs: seq<seq<Piece>>, i: nat, m: Metrics, max: real)
    requires i + 1 < |gs|
  {
    gs[i + 1] != [] && NoRoom(gs[i], gs[i + 1][0].whole, m, max)
  }

  function Flat(gs: seq<seq<Piece>>): seq<Piece> { if gs == [] then [] else Flat(gs[..|gs| - 1]) + gs[|gs| - 1] }

  // ---------------------------------------------------------------------
  // Filling without a limit of lines.

  datatype Page = Page(done: seq<seq<Piece>>, open: seq<Piece>) {
    function Groups(): seq<seq<Piece>> { if open == [] then done else done + [open] }
  }

  function Place(p: Page, word: string, m: Metrics, max: real): Page
    requires word != ""
    decreases |word|, |p.open|
  {
    var add := if p.open == [] then Width(word, m) else m(' ') + Width(word, m);
    if Width(Line(p.open), m) + add <= max then p.(open := p.open + [Piece(word, word, false)])
    else if p.open != [] then Place(Page(p.done + [p.open], []), word, m, max)
    else
      HeadLenIs(word, 0, m, max);
      var k := HeadLen(word, 0, m, max);
      var t := Page(p.done + [[Piece(word[..k], word, true)]], []);
      if k == |word| then t else Place(t, word[k..], m, max)
  }

  function PlaceAll(p: Page, words: seq<string>, m: Metrics, max: real): Page
    requires AllSolid(words)
    decreases |words|
  {
    if words == [] then p else PlaceAll(Place(p, words[0], m, max), words[1..], m, max)
  }

  /** What comes next may begin a line. */
  ghost predicate MayStart(p: Page, next: string, m: Metrics, max: real) {
    p.open != [] || p.done == [] || NoRoom(p.done[|p.done| - 1], next, m, max)
  }

  /** Any word may come next. */
  ghost predicate Rested(p: Page) {
    p.open != [] || p.done == [] ||
    (var last := p.done[|p.done| - 1]; last != [] && last[|last| - 1].alone)
  }

  lemma GreedyPush(gs: seq<seq<Piece>>, g: seq<Piece>, m: Metrics, max: real)
    requires Greedy(gs, m, max) && Filled(g, m, max)
    requires gs != [] ==> NoRoom(gs[|gs| - 1], g[0].whole, m, max)
    ensures Greedy(gs + [g], m, max)
  {
    var all := gs + [g];
    forall i | 0 <= i < |all| - 1 ensures Broken(all, i, m, max) {
      if i < |gs| - 1 { assert Broken(gs, i, m, max); }
    }
  }

  lemma FlatPush(gs: seq<seq<Piece>>, g: seq<Piece>)
    ensures Flat(gs + [g]) == Flat(gs) + g
  {
    assert (gs + [g])[..|gs|] == gs;
  }

  /** Greedy lines, the last of them open for more words. */
  ghost predicate Laid(p: Page, m: Metrics, max: real) {
    Greedy(p.Groups(), m, max) && forall i | 0 <= i < |p.open| :: !p.open[i].alone
  }

  lemma {:induction false} WidthPositive(s: string, m: Metrics)
    requires Advances(m)
    ensures Width(s, m) >= 0.0
  {
    if s != "" { WidthPositive(s[1..], m); }
  }

  /** A word that fits begins a line, or joins the open one. */
  lemma BeginLays(p: Page, word: string, m: Metrics, max: real)
    requires Laid(p, m, max) && MayStart(p, word, m, max) && word != "" && p.open == [] && Width(word, m) <= max
    ensures Laid(p.(open := [Piece(word, word, false)]), m, max)
    ensures Flat(p.(open := [Piece(word, word, false)]).Groups()) == Flat(p.Groups()) + Cut(word, m, max)
  {
    GreedyPush(p.done, [Piece(word, word, false)], m, max);
    FlatPush(p.done, [Piece(word, word, false)]);
  }

  lemma FilledPush(g: seq<Piece>, word: string, m: Metrics, max: real)
    requires Filled(g, m, max) && (forall i | 0 <= i < |g| :: !g[i].alone) && word != ""
    requires Width(Line(g), m) + (m(' ') + Width(word, m)) <= max
    ensures Filled(g + [Piece(word, word, false)], m, max)
  {
    var h := g + [Piece(word, word, false)];
    forall i | 0 < i < |h| ensures Joins(h, i, m, max) {
      if i < |g| { assert Joins(g, i, m, max) && h[..i] == g[..i]; } else { assert h[..i] == g; }
    }
  }

  lemma JoinLays(p: Page, word: string, m: Metrics, max: real)
    requires Laid(p, m, max) && Advances(m) && word != "" && p.open != []
    requires Width(Line(p.open), m) + (m(' ') + Width(word, m)) <= max
    ensures Laid(p.(open := p.open + [Piece(word, word, false)]), m, max)
    ensures Flat(p.(open := p.open + [Piece(word, word, false)]).Groups()) == Flat(p.Groups()) + Cut(word, m, max)
  {
    var g, piece := p.open, [Piece(word, word, false)];
    var all, more := p.done + [g], p.done + [g + piece];
    assert all[|p.done|] == g && Filled(g, m, max);
    FilledPush(g, word, m, max);
    forall i | 0 <= i < |more| - 1 ensures Broken(more, i, m, max) { assert Broken(all, i, m, max); }
    assert Greedy(more, m, max) by {
      forall i | 0 <= i < |more| ensures Filled(more[i], m, max) { if i < |p.done| { assert Filled(all[i], m, max); } }
    }
    WidthPositive(Line(g), m);
    FlatPush(p.done, g);
    FlatPush(p.done, g + piece);
    assert Flat(p.done) + (g + piece) == Flat(p.done) + g + piece;
  }

  lemma HeadLays(p: Page, word: string, m: Metrics, max: real)
    requires Laid(p, m, max) && MayStart(p, word, m, max) && word != "" && p.open == [] && Width(word, m) > max
    ensures var k := HeadLen(word, 0, m, max);
            && 0 < k <= |word|
            && var t := Page(p.done + [[Piece(word[..k], word, true)]], []);
               Laid(t, m, max) && Flat(t.Groups()) == Flat(p.Groups()) + [Piece(word[..k], word, true)] && Rested(t)
  {
    HeadLenIs(word, 0, m, max);
    var k := HeadLen(word, 0, m, max);
    GreedyPush(p.done, [Piece(word[..k], word, true)], m, max);
    FlatPush(p.done, [Piece(word[..k], word, true)]);
  }

  lemma FlushLays(p: Page, word: string, m: Metrics, max: real)
    requires Laid(p, m, max) && p.open != [] && Width(Line(p.open), m) + (m(' ') + Width(word, m)) > max
    ensures var t := Page(p.done + [p.open], []);
            Laid(t, m, max) && MayStart(t, word, m, max) && t.Groups() == p.Groups()
  {
  }

  /** Both ways of going on after a part that did not fit. */
  lemma CutOn(p: Page, word: string, m: Metrics, max: real, k: nat)
    requires word != "" && p.open == [] && Width(word, m) > max && k == HeadLen(word, 0, m, max)
    ensures 0 < k <= |word|
    ensures var piece := Piece(word[..k], word, true);
            var t := Page(p.done + [[piece]], []);
            && Place(p, word, m, max) == (if k == |word| then t else Place(t, word[k..], m, max))
            && Cut(word, m, max) == [piece] + if k == |word| then [] else Cut(word[k..], m, max)
  {
    HeadLenIs(word, 0, m, max);
  }

  lemma PlaceFits(p: Page, word: string, m: Metrics, max: real)
    requires word != ""
    ensures p.open == [] && Width(word, m) <= max ==>
              Place(p, word, m, max) == p.(open := [Piece(word, word, false)])
    ensures p.open != [] ==>
              if Width(Line(p.open), m) + (m(' ') + Width(word, m)) <= max then
                Place(p, word, m, max) == p.(open := p.open + [Piece(word, word, false)])
              else Place(p, word, m, max) == Place(Page(p.done + [p.open], []), word, m, max)
  {
    assert Width(Line([]), m) == 0.0;
    assert [] + [Piece(word, word, false)] == [Piece(word, word, false)];
  }

  lemma PieceThen(a: seq<Piece>, p: Piece, b: seq<Piece>)
    ensures a + [p] + b == a + ([p] + b)
  {
  }

  /** One word more. */
  lemma {:induction false} PlaceLays(p: Page, word: string, m: Metrics, max: real)
    requires Advances(m) && word != "" && Laid(p, m, max) && MayStart(p, word, m, max)
    ensures var q := Place(p, word, m, max);
            Laid(q, m, max) && Rested(q) && Flat(q.Groups()) == Flat(p.Groups()) + Cut(word, m, max)
    decreases |word|, 1 + |p.open|
  {
    PlaceFits(p, word, m, max);
    if p.open == [] {
      if Width(word, m) <= max {
        BeginLays(p, word, m, max);
      } else {
        CutLays(p, word, m, max);
      }
    } else if Width(Line(p.open), m) + (m(' ') + Width(word, m)) <= max {
      JoinLays(p, word, m, max);
    } else {
      FlushLays(p, word, m, max);
      PlaceLays(Page(p.done + [p.open], []), word, m, max);
    }
  }

  lemma {:induction false} CutLays(p: Page, word: string, m: Metrics, max: real)
    requires Advances(m) && word != "" && Laid(p, m, max) && MayStart(p, word, m, max)
    requires p.open == [] && Width(word, m) > max
    ensures var q := Place(p, word, m, max);
            Laid(q, m, max) && Rested(q) && Flat(q.Groups()) == Flat(p.Groups()) + Cut(word, m, max)
    decreases |word|, 0
  {
    var k := HeadLen(word, 0, m, max);
    CutOn(p, word, m, max, k);
    HeadLays(p, word, m, max);
    var piece := Piece(word[..k], word, true);
    if k < |word| {
      PlaceLays(Page(p.done + [[piece]], []), word[k..], m, max);
      PieceThen(Flat(p.Groups()), piece, Cut(word[k..], m, max));
    } else {
      PieceThen(Flat(p.Groups()), piece, []);
    }
  }

  /** All words: lines filled greedily, holding their pieces in order. */
  lemma {:induction false} PlaceAllLays(p: Page, words: seq<string>, m: Metrics, max: real)
    requires Advances(m) && AllSolid(words) && Laid(p, m, max) && Rested(p)
    ensures var q := PlaceAll(p, words, m, max);
            Laid(q, m, max) && Flat(q.Groups()) == Flat(p.Groups()) + CutAll(words, m, max)
    decreases |words|
  {
    if words != [] {
      var q := Place(p, words[0], m, max);
      assert MayStart(p, words[0], m, max);
      PlaceLays(p, words[0], m, max);
      PlaceAllLays(q, words[1..], m, max);
      Regroup(Flat(p.Groups()), Cut(words[0], m, max), CutAll(words[1..], m, max));
    } else {
      Regroup(Flat(p.Groups()), [], []);
    }
  }

  lemma Regroup(a: seq<Piece>, b: seq<Piece>, c: seq<Piece>)
    ensures a + b + c == a + (b + c) && a + [] == a
  {
  }

  // ---------------------------------------------------------------------
  // The lines of the wrap are these, as far as they go.

  function LinesOf(gs: seq<seq<Piece>>): (r: seq<string>)
    ensures |r| == |gs|
  {
    seq(|gs|, i requires 0 <= i < |gs| => Line(gs[i]))
  }

  /** The state holds the page; or it was cut, with more lines to come than it holds. */
  ghost predicate Tracks(s: State, p: Page) {
    if s.cut then
      && s.cur == "" && MAX_LINES <= |s.lines| <= |p.done| && |p.Groups()| > MAX_LINES
      && s.lines == LinesOf(p.done)[..|s.lines|]
    else s.lines == LinesOf(p.done) && s.cur == Line(p.open) && (s.cur == "" <==> p.open == [])
  }

  lemma LinesPush(gs: seq<seq<Piece>>, g: seq<Piece>)
    ensures LinesOf(gs + [g]) == LinesOf(gs) + [Line(g)]
  {
  }

  lemma LinePush(g: seq<Piece>, piece: Piece)
    ensures Line(g + [piece]) == if g == [] then piece.text else Line(g) + " " + piece.text
  {
    assert (g + [piece])[..|g|] == g;
  }

  /** Pages only grow. */
  lemma {:induction false} PlaceGrows(p: Page, word: string, m: Metrics, max: real)
    requires word != ""
    ensures var q := Place(p, word, m, max);
            && p.done <= q.done && |q.Groups()| >= |p.Groups()| && (p.open == [] ==> |q.Groups()| > |p.done|)
    decreases |word|, |p.open|
  {
    var add := if p.open == [] then Width(word, m) else m(' ') + Width(word, m);
    if Width(Line(p.open), m) + add > max {
      if p.open != [] {
        PlaceGrows(Page(p.done + [p.open], []), word, m, max);
      } else {
        HeadLenIs(word, 0, m, max);
        var k := HeadLen(word, 0, m, max);
        if k < |word| { PlaceGrows(Page(p.done + [[Piece(word[..k], word, true)]], []), word[k..], m, max); }
      }
    }
  }

  lemma {:induction false} PutTracks(s: State, p: Page, word: string, m: Metrics, max: real)
    requires word != "" && !s.cut && Tracks(s, p)
    ensures Tracks(PutWord(s, word, m, max), Place(p, word, m, max))
    decreases |word|, |s.cur|
  {
    var add := if s.cur == "" then Width(word, m) else m(' ') + Width(word, m);
    if Width(s.cur, m) + add <= max {
      LinePush(p.open, Piece(word, word, false));
    } else if s.cur != "" {
      var t := State(s.lines + [s.cur], "", |s.lines| + 1 >= MAX_LINES);
      var q := Page(p.done + [p.open], []);
      LinesPush(p.done, p.open);
      if t.cut {
        PlaceGrows(q, word, m, max);
        StillTracks(t, q, Place(q, word, m, max));
      } else {
        PutTracks(t, q, word, m, max);
      }
    } else {
      HeadLenIs(word, 0, m, max);
      var k := HeadLen(word, 0, m, max);
      var t := s.(lines := s.lines + [word[..k]]);
      var head := [Piece(word[..k], word, true)];
      var q := Page(p.done + [head], []);
      LinesPush(p.done, head);
      if k < |word| {
        if |t.lines| >= MAX_LINES {
          PlaceGrows(q, word[k..], m, max);
          StillTracks(t.(cut := true), q, Place(q, word[k..], m, max));
        } else {
          PutTracks(t, q, word[k..], m, max);
        }
      }
    }
  }

  lemma StillTracks(s: State, p: Page, q: Page)
    requires s.cut && s.cur == "" && MAX_LINES <= |s.lines| <= |p.done| && s.lines == LinesOf(p.done)[..|s.lines|]
    requires p.done <= q.done && |q.Groups()| > MAX_LINES
    ensures Tracks(s, q)
  {
    assert LinesOf(q.done)[..|p.done|] == LinesOf(p.done);
    assert LinesOf(q.done)[..|s.lines|] == LinesOf(p.done)[..|s.lines|];
  }

  lemma {:induction false} AllTracks(s: State, p: Page, words: seq<string>, m: Metrics, max: real)
    requires AllSolid(words) && Tracks(s, p)
    ensures Tracks(PutWords(s, words, m, max), PlaceAll(p, words, m, max))
    decreases |words|
  {
    if words != [] {
      var q := Place(p, words[0], m, max);
      if s.cut {
        PlaceGrows(p, words[0], m, max);
        StillTracks(s, p, q);
        AllTracks(s, q, words[1..], m, max);
      } else {
        PutTracks(s, p, words[0], m, max);
        AllTracks(PutWord(s, words[0], m, max), q, words[1..], m, max);
      }
    }
  }

  /** The first lines as they are; the last of them with an ellipsis only when
      there are more. */
  ghost predicate Shown(lines: seq<string>, gs: seq<seq<Piece>>, m: Metrics, max: real) {
    var n := if |gs| > MAX_LINES then MAX_LINES else |gs|;
    if n == 0 then lines == [""]
    else
      && |lines| == n && (forall i | 0 <= i < n - 1 :: lines[i] == Line(gs[i]))
      && (lines[n - 1] == Line(gs[n - 1])
          || (|gs| > MAX_LINES && lines[n - 1] == Shorten(Line(gs[n - 1]), m, max) + [ELLIPSIS]))
  }

  lemma TracksShown(s: State, p: Page, m: Metrics, max: real)
    requires Tracks(s, p)
    ensures Shown(Finish(s, m, max), p.Groups(), m, max)
  {
    var lines, gs := Finish(s, m, max), p.Groups();
    assert forall i | 0 <= i < |p.done| :: gs[i] == p.done[i];
    forall i | 0 <= i < |s.lines| ensures s.lines[i] == Line(gs[i]) { assert s.lines[i] == LinesOf(p.done)[i]; }
  }

  /** The wrap of any text: its words, cut only where one is wider than a line,
      fill the lines greedily, with one blank between two; the first MAX_LINES
      lines are shown. */
  lemma WrapIsGreedy(text: string, m: Metrics, max: real)
    requires Advances(m)
    ensures AllSolid(Words(text))
    ensures exists gs :: Greedy(gs, m, max) && Flat(gs) == CutAll(Words(text), m, max)
                         && Shown(Lines(text, m, max), gs, m, max)
  {
    WordsAre(text, "");
    var words, p := Words(text), Page([], []);
    PlaceAllLays(p, words, m, max);
    AllTracks(State([], "", false), p, words, m, max);
    var q := PlaceAll(p, words, m, max);
    TracksShown(PutWords(State([], "", false), words, m, max), q, m, max);
    assert Flat(q.Groups()) == CutAll(words, m, max);
  }

  /** Characters go from the end only as far as the ellipsis needs. */
  lemma {:induction false} ShortenIs(last: string, m: Metrics, max: real)
    ensures var short := Shorten(last, m, max);
            && short <= last && (short != "" ==> Width(short, m) + m(ELLIPSIS) <= max)
            && forall k | |short| < k <= |last| :: Width(last[..k], m) + m(ELLIPSIS) > max
    decreases |last|
  {
    if last != "" && Width(last, m) + m(ELLIPSIS) > max {
      var n := |last| - 1;
      ShortenIs(last[..n], m, max);
      forall k | |Shorten(last, m, max)| < k <= |last| ensures Width(last[..k], m) + m(ELLIPSIS) > max {
        if k <= n { assert last[..n][..k] == last[..k]; } else { assert last[..k] == last; }
      }
    }
  }

  // ---------------------------------------------------------------------
  // When every word fits a line.

  /** The words with one blank between them. */
  function Phrase(ws: seq<string>): string {
    if ws == [] then "" else if |ws| == 1 then ws[0] else Phrase(ws[..|ws| - 1]) + " " + ws[|ws| - 1]
  }

  function Texts(g: seq<Piece>): (r: seq<string>)
    ensures |r| == |g|
  {
    seq(|g|, i requires 0 <= i < |g| => g[i].text)
  }

  lemma {:induction false} LineIsPhrase(g: seq<Piece>)
    ensures Line(g) == Phrase(Texts(g))
  {
    if |g| > 1 {
      LineIsPhrase(g[..|g| - 1]);
      assert Texts(g)[..|g| - 1] == Texts(g[..|g| - 1]);
    }
  }

  lemma {:induction false} SolidWord(word: string, w: string)
    requires (forall i | 0 <= i < |word| :: !IsSpace(word[i])) && w + word != ""
    ensures WordsFrom(word, w) == [w + word]
    decreases |word|
  {
    if word == "" {
      assert w + "" == w;
    } else {
      SolidWord(word[1..], w + [word[0]]);
      assert w + [word[0]] + word[1..] == w + word;
    }
  }

  lemma {:induction false} WordsSpaced(a: string, w: string, word: string)
    requires Solid(w)
    ensures WordsFrom(a + " " + w, word) == WordsFrom(a, word) + [w]
    decreases |a|
  {
    var t := a + " " + w;
    if a == "" {
      assert t == " " + w && t[1..] == w && t[0] == ' ';
      SolidWord(w, "");
      assert "" + w == w;
    } else {
      assert t[0] == a[0] && t[1..] == a[1..] + " " + w;
      if IsSpace(a[0]) {
        WordsSpaced(a[1..], w, "");
        var first := if word == "" then [] else [word];
        assert first + (WordsFrom(a[1..], "") + [w]) == first + WordsFrom(a[1..], "") + [w];
      } else {
        WordsSpaced(a[1..], w, word + [a[0]]);
      }
    }
  }

  /** A phrase is read back as its words. */
  lemma {:induction false} PhraseWords(ws: seq<string>)
    requires AllSolid(ws)
    ensures Words(Phrase(ws)) == ws
    decreases |ws|
  {
    if |ws| == 1 {
      SolidWord(ws[0], "");
      assert "" + ws[0] == ws[0];
    } else if |ws| > 1 {
      var n := |ws| - 1;
      PhraseWords(ws[..n]);
      WordsSpaced(Phrase(ws[..n]), ws[n], "");
      assert ws[..n] + [ws[n]] == ws;
    }
  }

  function Concat(ws: seq<seq<string>>): seq<string> {
    if ws == [] then [] else Concat(ws[..|ws| - 1]) + ws[|ws| - 1]
  }

  /** Lines of words that fit, each with no room for the first word of the next. */
  ghost predicate GreedyWords(ws: seq<seq<string>>, m: Metrics, max: real) {
    && (forall i | 0 <= i < |ws| :: ws[i] != [] && Width(Phrase(ws[i]), m) <= max)
    && forall i | 0 <= i < |ws| - 1 :: NoRoomFor(ws, i, m, max)
  }

  ghost predicate NoRoomFor(ws: seq<seq<string>>, i: nat, m: Metrics, max: real)
    requires i + 1 < |ws|
  {
    ws[i + 1] != [] && Width(Phrase(ws[i]), m) + (m(' ') + Width(ws[i + 1][0], m)) > max
  }

  function TextsOf(gs: seq<seq<Piece>>): (r: seq<seq<string>>)
    ensures |r| == |gs|
  {
    seq(|gs|, i requires 0 <= i < |gs| => Texts(gs[i]))
  }

  lemma TextsConcat(a: seq<Piece>, b: seq<Piece>)
    ensures Texts(a + b) == Texts(a) + Texts(b)
  {
  }

  lemma {:induction false} FlatTexts(gs: seq<seq<Piece>>)
    ensures Concat(TextsOf(gs)) == Texts(Flat(gs))
    ensures forall i, j | 0 <= i < |gs| && 0 <= j < |gs[i]| :: gs[i][j] in Flat(gs)
    decreases |gs|
  {
    if gs != [] {
      var n := |gs| - 1;
      FlatTexts(gs[..n]);
      assert TextsOf(gs)[..n] == TextsOf(gs[..n]);
      TextsConcat(Flat(gs[..n]), gs[n]);
      forall i, j | 0 <= i < |gs| && 0 <= j < |gs[i]| ensures gs[i][j] in Flat(gs) {
        if i < n { assert gs[..n][i][j] in Flat(gs[..n]); }
      }
    }
  }

  lemma {:induction false} WholePieces(words: seq<string>, m: Metrics, max: real)
    requires AllSolid(words) && forall i | 0 <= i < |words| :: Width(words[i], m) <= max
    ensures Texts(CutAll(words, m, max)) == words
    ensures forall x | x in CutAll(words, m, max) :: x.text == x.whole && !x.alone
    decreases |words|
  {
    if words != [] {
      WholePieces(words[1..], m, max);
      TextsConcat(Cut(words[0], m, max), CutAll(words[1..], m, max));
      assert Texts(Cut(words[0], m, max)) == [words[0]];
    }
  }

  lemma FilledFits(g: seq<Piece>, m: Metrics, max: real)
    requires Filled(g, m, max) && !g[0].alone
    ensures Width(Line(g), m) <= max
  {
    var n := |g| - 1;
    if n > 0 {
      assert Joins(g, n, m, max);
      WidthSpaced(Line(g[..n]), g[n].text, m);
    }
  }

  /** No piece is part of a cut word. */
  ghost predicate AllWhole(gs: seq<seq<Piece>>) {
    forall i, j | 0 <= i < |gs| && 0 <= j < |gs[i]| :: gs[i][j].text == gs[i][j].whole && !gs[i][j].alone
  }

  lemma WholeLines(gs: seq<seq<Piece>>)
    requires forall x | x in Flat(gs) :: x.text == x.whole && !x.alone
    ensures AllWhole(gs)
  {
    FlatTexts(gs);
  }

  lemma LineGreedy(gs: seq<seq<Piece>>, i: nat, m: Metrics, max: real)
    requires Greedy(gs, m, max) && AllWhole(gs) && i < |gs|
    ensures var ws := TextsOf(gs);
            && ws[i] != [] && Width(Phrase(ws[i]), m) <= max && (i + 1 < |ws| ==> NoRoomFor(ws, i, m, max))
  {
    LineIsPhrase(gs[i]);
    assert Filled(gs[i], m, max);
    FilledFits(gs[i], m, max);
    if i + 1 < |gs| { assert Broken(gs, i, m, max); }
  }

  lemma WordsGreedy(gs: seq<seq<Piece>>, m: Metrics, max: real)
    requires Greedy(gs, m, max) && AllWhole(gs)
    ensures GreedyWords(TextsOf(gs), m, max)
  {
    forall i | 0 <= i < |gs|
      ensures TextsOf(gs)[i] != [] && Width(Phrase(TextsOf(gs)[i]), m) <= max
      ensures i + 1 < |gs| ==> NoRoomFor(TextsOf(gs), i, m, max)
    {
      LineGreedy(gs, i, m, max);
    }
  }

  /** What is shown of lines of words. */
  ghost predicate ShownWords(lines: seq<string>, ws: seq<seq<string>>, m: Metrics, max: real) {
    var n := if |ws| > MAX_LINES then MAX_LINES else |ws|;
    if n == 0 then lines == [""]
    else
      && |lines| == n && (forall i | 0 <= i < n - 1 :: lines[i] == Phrase(ws[i]))
      && (lines[n - 1] == Phrase(ws[n - 1])
          || (|ws| > MAX_LINES && lines[n - 1] == Shorten(Phrase(ws[n - 1]), m, max) + [ELLIPSIS]))
  }

  function AllWords(lines: seq<string>): seq<string> {
    if lines == [] then [] else AllWords(lines[..|lines| - 1]) + Words(lines[|lines| - 1])
  }

  /** When every word fits a line none is cut: the lines are the words of the text,
      one blank between two, each line as full as it goes; and when they are no
      more than MAX_LINES, their words are those of the text. */
  lemma FittingWords(text: string, m: Metrics, max: real)
    requires Advances(m) && forall i | 0 <= i < |Words(text)| :: Width(Words(text)[i], m) <= max
    ensures exists ws :: Concat(ws) == Words(text) && GreedyWords(ws, m, max)
              && ShownWords(Lines(text, m, max), ws, m, max)
              && (|ws| <= MAX_LINES ==> AllWords(Lines(text, m, max)) == Words(text))
  {
    WrapIsGreedy(text, m, max);
    var gs :| Greedy(gs, m, max) && Flat(gs) == CutAll(Words(text), m, max) && Shown(Lines(text, m, max), gs, m, max);
    var ws := TextsOf(gs);
    WholePieces(Words(text), m, max);
    FlatTexts(gs);
    WholeLines(gs);
    assert GreedyWords(ws, m, max) by { WordsGreedy(gs, m, max); }
    ShownTexts(Lines(text, m, max), gs, m, max);
    if |ws| <= MAX_LINES { GivenWords(Lines(text, m, max), ws, Words(text), m, max); }
  }

  lemma ShownTexts(lines: seq<string>, gs: seq<seq<Piece>>, m: Metrics, max: real)
    requires Shown(lines, gs, m, max)
    ensures ShownWords(lines, TextsOf(gs), m, max)
  {
    forall i | 0 <= i < |gs| ensures Line(gs[i]) == Phrase(TextsOf(gs)[i]) { LineIsPhrase(gs[i]); }
  }

  lemma GivenWords(lines: seq<string>, ws: seq<seq<string>>, words: seq<string>, m: Metrics, max: real)
    requires ShownWords(lines, ws, m, max) && |ws| <= MAX_LINES && Concat(ws) == words && AllSolid(words)
    ensures AllWords(lines) == words
  {
    ShownAll(lines, ws, m, max);
    ConcatSolid(ws, words);
    PhrasesWords(ws);
  }

  lemma ShownAll(lines: seq<string>, ws: seq<seq<string>>, m: Metrics, max: real)
    requires ShownWords(lines, ws, m, max) && |ws| <= MAX_LINES
    ensures AllWords(lines) == AllWords(Phrases(ws))
  {
    if ws == [] {
      assert [""][..0] == [];
    } else {
      assert lines == Phrases(ws);
    }
  }

  function Phrases(ws: seq<seq<string>>): (r: seq<string>)
    ensures |r| == |ws|
  {
    seq(|ws|, i requires 0 <= i < |ws| => Phrase(ws[i]))
  }

  lemma {:induction false} ConcatSolid(ws: seq<seq<string>>, words: seq<string>)
    requires Concat(ws) == words && AllSolid(words)
    ensures forall i | 0 <= i < |ws| :: AllSolid(ws[i])
    decreases |ws|
  {
    if ws != [] {
      var n := |ws| - 1;
      var front, last := Concat(ws[..n]), ws[n];
      forall i | 0 <= i < |last| ensures Solid(last[i]) { assert words[|front| + i] == last[i]; }
      forall i | 0 <= i < |front| ensures Solid(front[i]) { assert words[i] == front[i]; }
      ConcatSolid(ws[..n], front);
      forall i | 0 <= i < |ws| ensures AllSolid(ws[i]) { if i < n { assert ws[..n][i] == ws[i]; } }
    }
  }

  lemma {:induction false} PhrasesWords(ws: seq<seq<string>>)
    requires forall i | 0 <= i < |ws| :: AllSolid(ws[i])
    ensures AllWords(Phrases(ws)) == Concat(ws)
    decreases |ws|
  {
    if ws != [] {
      var n := |ws| - 1;
      PhrasesWords(ws[..n]);
      PhraseWords(ws[n]);
      assert Phrases(ws)[..n] == Phrases(ws[..n]);
    }
  }
}
