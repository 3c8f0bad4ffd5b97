/** Cutting texts into chunks: the sliding windows of `src/ingest.rs`, the
    heading-aware cut of `src/chunker.rs`, and the stitching in
    `src/journal.rs` that undoes the windows. */
module Chunks {
  import opened Base
  import opened Text

  const CHUNK_WINDOW := 500
  const CHUNK_OVERLAP := 100
  const STRUCTURAL_CAP := 1500
  const STRUCTURAL_OVERLAP := 200

  datatype Chunk = Chunk(ord: nat, text: string, page: Option<nat>)

  // ---------------------------------------------------------------------
  // Windows and stitching.

  /** Windows of `w` characters from `start` on, each `o` into the one before. */
  function Windows(s: string, w: nat, o: nat, start: nat): (r: seq<string>)
    requires o < w && start < |s|
    ensures r != []
    decreases |s| - start
  {
    if start + w >= |s| then [s[start..]] else [s[start..start + w]] + Windows(s, w, o, start + w - o)
  }

  function Skip(s: string, n: nat): string { if |s| <= n then "" else s[n..] }

  function Tails(chunks: seq<string>, o: nat): string {
    if chunks == [] then "" else Skip(chunks[0], o) + Tails(chunks[1..], o)
  }

  /** `stitch_chunks`: every chunk after the first without the part it repeats. */
  function Stitch(chunks: seq<string>, o: nat): string {
    if chunks == [] then "" else chunks[0] + Tails(chunks[1..], o)
  }

  /** Stitching undoes the windows. */
  lemma {:induction false} StitchWindows(s: string, w: nat, o: nat, start: nat)
    requires o < w && start < |s|
    ensures Stitch(Windows(s, w, o, start), o) == s[start..]
    decreases |s| - start
  {
    var cs := Windows(s, w, o, start);
    if start + w >= |s| {
      assert cs[1..] == [];
    } else {
      var next := start + w - o;
      var rest := Windows(s, w, o, next);
      assert cs[1..] == rest && cs[0] == s[start..start + w];
      StitchWindows(s, w, o, next);
      assert |rest[0]| > o;
      assert Tails(rest, o) == Stitch(rest, o)[o..];
      assert s[next..][o..] == s[start + w..];
      assert s[start..] == s[start..start + w] + s[start + w..];
    }
  }

  /** Each window starts with the last `o` characters of the one before, and
      only the last is shorter than `w`. */
  lemma {:induction false} WindowsOverlap(s: string, w: nat, o: nat, start: nat, i: nat)
    requires o < w && start < |s| && i < |Windows(s, w, o, start)|
    ensures var cs := Windows(s, w, o, start);
            && 0 < |cs[i]| <= w
            && (i + 1 < |cs| ==> |cs[i]| == w && o < |cs[i + 1]| && cs[i][w - o..] == cs[i + 1][..o])
    decreases |s| - start
  {
    if start + w < |s| {
      var cs, rest := Windows(s, w, o, start), Windows(s, w, o, start + w - o);
      assert cs == [s[start..start + w]] + rest;
      if i > 0 {
        WindowsOverlap(s, w, o, start + w - o, i - 1);
      } else {
        assert |rest[0]| > o;
        assert cs[0][w - o..] == s[start + w - o..start + w] == rest[0][..o];
      }
    }
  }

  method StitchChunks(chunks: seq<string>) returns (out: string)
    ensures out == Stitch(chunks, CHUNK_OVERLAP)
  {
    out := "";
    for i := 0 to |chunks|
      invariant i == 0 ==> out == ""
      invariant i > 0 ==> out + Tails(chunks[i..], CHUNK_OVERLAP) == Stitch(chunks, CHUNK_OVERLAP)
    {
      assert i > 0 ==> chunks[i..][0] == chunks[i] && chunks[i..][1..] == chunks[i + 1..];
      if i == 0 { out := chunks[0]; } else { out := out + Skip(chunks[i], CHUNK_OVERLAP); }
    }
  }

  // ---------------------------------------------------------------------
  // `chunk` and `chunk_pages`.

  function Texts(chunks: seq<Chunk>): seq<string> {
    if chunks == [] then [] else Texts(chunks[..|chunks| - 1]) + [chunks[|chunks| - 1].text]
  }

  lemma {:induction false} TextsAt(chunks: seq<Chunk>)
    ensures |Texts(chunks)| == |chunks| && forall i | 0 <= i < |chunks| :: Texts(chunks)[i] == chunks[i].text
  {
    if chunks != [] { TextsAt(chunks[..|chunks| - 1]); }
  }

  lemma {:induction false} TextsConcat(a: seq<Chunk>, b: seq<Chunk>)
    ensures Texts(a + b) == Texts(a) + Texts(b)
  {
    if b == [] {
      assert a + b == a;
    } else {
      var front := b[..|b| - 1];
      assert (a + b)[..|a + b| - 1] == a + front;
      TextsConcat(a, front);
    }
  }

  /** Ordinals count from `from`; every chunk is from this page. */
  ghost predicate Counted(chunks: seq<Chunk>, from: nat, page: Option<nat>) {
    forall i | 0 <= i < |chunks| :: chunks[i].ord == from + i && chunks[i].page == page
  }

  lemma TextsPush(out: seq<Chunk>, c: Chunk)
    ensures Texts(out + [c]) == Texts(out) + [c.text]
  {
    assert (out + [c])[..|out|] == out;
  }

  /** One window taken off the front. */
  lemma WindowStep(s: string, w: nat, o: nat, start: nat, end: nat, done: seq<string>)
    requires o < w && start < |s| && end == if start + w < |s| then start + w else |s|
    ensures done + Windows(s, w, o, start) == done + [s[start..end]] + if end == |s| then []
            else Windows(s, w, o, start + w - o)
  {
    if end == |s| { assert s[start..end] == s[start..]; }
  }

  /** The windows of one text as chunks, numbered from `from`. */
  method Slide(text: string, w: nat, o: nat, from: nat, page: Option<nat>) returns (out: seq<Chunk>)
    requires o < w && text != ""
    ensures Texts(out) == Windows(text, w, o, 0) && Counted(out, from, page)
  {
    out := [];
    var start := 0;
    while true
      invariant start < |text| && Counted(out, from, page)
      invariant Texts(out) + Windows(text, w, o, start) == Windows(text, w, o, 0)
      decreases |text| - start
    {
      var end := if start + w < |text| then start + w else |text|;
      var c := Chunk(from + |out|, text[start..end], page);
      WindowStep(text, w, o, start, end, Texts(out));
      TextsPush(out, c);
      out := out + [c];
      if end == |text| { return; }
      start := start + (w - o);
    }
  }

  /** `chunk`: what it cuts, `stitch_chunks` puts together again. */
  method ChunkText(text: string) returns (out: seq<Chunk>)
    ensures Stitch(Texts(out), CHUNK_OVERLAP) == text
    ensures Texts(out) == if text == "" then [] else Windows(text, CHUNK_WINDOW, CHUNK_OVERLAP, 0)
    ensures Counted(out, 0, None) && forall i | 0 <= i < |out| :: 0 < |out[i].text| <= CHUNK_WINDOW
  {
    if text == "" { return []; }
    out := Slide(text, CHUNK_WINDOW, CHUNK_OVERLAP, 0, None);
    StitchWindows(text, CHUNK_WINDOW, CHUNK_OVERLAP, 0);
    assert text[0..] == text;
    forall i | 0 <= i < |out| ensures 0 < |out[i].text| <= CHUNK_WINDOW {
      TextsAt(out);
      WindowsOverlap(text, CHUNK_WINDOW, CHUNK_OVERLAP, 0, i);
    }
  }

  /** The chunks that came from page `p`. */
  function OfPage(chunks: seq<Chunk>, p: nat): seq<string> {
    if chunks == [] then []
    else
      var last := chunks[|chunks| - 1];
      OfPage(chunks[..|chunks| - 1], p) + if last.page == Some(p) then [last.text] else []
  }

  /** Another page's chunks behind: they count for that page only. */
  lemma {:induction false} OfPageMore(a: seq<Chunk>, b: seq<Chunk>, from: nat, page: nat, p: nat)
    requires Counted(b, from, Some(page))
    ensures OfPage(a + b, p) == OfPage(a, p) + if p == page then Texts(b) else []
    decreases |b|
  {
    if b == [] {
      assert a + b == a;
    } else {
      var front := b[..|b| - 1];
      assert (a + b)[..|a + b| - 1] == a + front;
      OfPageMore(a, front, from, page, p);
    }
  }

  /** The first `n` pages can each be stitched from their own chunks. */
  ghost predicate PagesCut(pages: seq<string>, out: seq<Chunk>, n: nat) {
    && n <= |pages|
    && (forall p | 1 <= p <= n :: Stitch(OfPage(out, p), CHUNK_OVERLAP) == pages[p - 1])
    && (forall p: nat | p == 0 || p > n :: OfPage(out, p) == [])
  }

  lemma PageCut(pages: seq<string>, out: seq<Chunk>, more: seq<Chunk>, n: nat)
    requires PagesCut(pages, out, n) && n < |pages| && Counted(more, |out|, Some(n + 1))
             && Stitch(Texts(more), CHUNK_OVERLAP) == pages[n]
    ensures PagesCut(pages, out + more, n + 1)
  {
    forall p: nat ensures OfPage(out + more, p) == if p == n + 1 then Texts(more) else OfPage(out, p) {
      OfPageMore(out, more, |out|, n + 1, p);
      assert OfPage(out, p) + [] == OfPage(out, p) && [] + Texts(more) == Texts(more);
    }
  }

  /** `chunk_pages`: every page can be stitched from its own chunks. */
  method ChunkPages(pages: seq<string>) returns (out: seq<Chunk>)
    ensures forall i | 0 <= i < |out| :: out[i].ord == i
    ensures PagesCut(pages, out, |pages|)
  {
    out := [];
    for i := 0 to |pages|
      invariant (forall j | 0 <= j < |out| :: out[j].ord == j) && PagesCut(pages, out, i)
    {
      if pages[i] == "" {
        assert out + [] == out;
        PageCut(pages, out, [], i);
        continue;
      }
      var more := Slide(pages[i], CHUNK_WINDOW, CHUNK_OVERLAP, |out|, Some(i + 1));
      StitchWindows(pages[i], CHUNK_WINDOW, CHUNK_OVERLAP, 0);
      assert pages[i][0..] == pages[i];
      PageCut(pages, out, more, i);
      out := out + more;
    }
  }

  // ---------------------------------------------------------------------
  // Headings.

  function Hashes(text: string, i: nat, n: nat): nat
    requires i <= |text|
    decreases |text| - i
  {
    if i < |text| && text[i] == '#' && n < 6 then Hashes(text, i + 1, n + 1) else n
  }

  /** One to six `#`, then a blank that does not end the line. */
  predicate MarkdownHeading(text: string, i: nat)
    requires i <= |text|
  {
    var j := i + Hashes(text, i, 0);
    j > i && j < |text| && text[j] != '\n' && IsSpace(text[j])
  }

  predicate ProseHeading(text: string, i: nat) { Numbered("Chapter ", text, i) || Numbered("Section ", text, i) }

  /** The words stand here with a digit right after. */
  predicate Numbered(words: string, text: string, i: nat) {
    i + |words| < |text| && text[i..i + |words|] == words && IsDigit(text[i + |words|])
  }

  predicate Heading(text: string, i: nat) {
    i < |text| && (i == 0 || text[i - 1] == '\n') && (MarkdownHeading(text, i) || ProseHeading(text, i))
  }

  /** Rising positions. */
  ghost predicate Rising(cuts: seq<nat>) { forall i, j | 0 <= i < j < |cuts| :: cuts[i] < cuts[j] }

  /** `detect_heading_boundaries`: all the headings, in order. */
  method Headings(text: string) returns (out: seq<nat>)
    ensures Rising(out) && forall i: nat :: i in out <==> Heading(text, i)
  {
    out := [];
    var i := 0;
    while i < |text|
      invariant 0 <= i <= |text| && Rising(out) && (forall k | 0 <= k < |out| :: out[k] < i)
      invariant forall k: nat :: k in out <==> k < i && Heading(text, k)
    {
      if (i == 0 || text[i - 1] == '\n') && (MarkdownHeading(text, i) || ProseHeading(text, i)) { out := out + [i]; }
      i := i + 1;
    }
  }

  // ---------------------------------------------------------------------
  // Sections.

  /** Where the section of the w-th cut ends. */
  function EndOf(text: string, cuts: seq<nat>, w: nat): nat { if w + 1 < |cuts| then cuts[w + 1] else |text| }

  function Section(text: string, cuts: seq<nat>, w: nat): string
    requires Cuts(text, cuts) && w < |cuts|
  {
    text[cuts[w]..EndOf(text, cuts, w)]
  }

  /** The cuts begin at 0 and rise inside the text. */
  ghost predicate Cuts(text: string, cuts: seq<nat>) {
    cuts != [] && cuts[0] == 0 && Rising(cuts) && forall i | 0 <= i < |cuts| :: cuts[i] < |text|
  }

  /** A section that fits is one chunk, a longer one is slid over. */
  function Pieces(section: string): seq<string>
    requires section != ""
  {
    if |section| <= STRUCTURAL_CAP then [section] else Windows(section, STRUCTURAL_CAP, STRUCTURAL_OVERLAP, 0)
  }

  /** The pieces of the first `n` sections. */
  function AllPieces(text: string, cuts: seq<nat>, n: nat): seq<string>
    requires Cuts(text, cuts) && n <= |cuts|
  {
    if n == 0 then [] else AllPieces(text, cuts, n - 1) + Pieces(Section(text, cuts, n - 1))
  }

  function Sections(text: string, cuts: seq<nat>, n: nat): string
    requires Cuts(text, cuts) && n <= |cuts|
  {
    if n == 0 then "" else Sections(text, cuts, n - 1) + Section(text, cuts, n - 1)
  }

  /** The sections are the text, cut: nothing is lost and nothing repeats. */
  lemma {:induction false} SectionsAreTheText(text: string, cuts: seq<nat>, n: nat)
    requires Cuts(text, cuts) && n <= |cuts|
    ensures Sections(text, cuts, n) == text[..if n < |cuts| then cuts[n] else |text|]
  {
    if n > 0 {
      SectionsAreTheText(text, cuts, n - 1);
      var from, to := cuts[n - 1], EndOf(text, cuts, n - 1);
      assert text[..from] + text[from..to] == text[..to];
    }
  }

  /** Each section can be stitched from its pieces, each within the cap. */
  lemma PiecesAreTheSection(section: string)
    requires section != ""
    ensures Stitch(Pieces(section), STRUCTURAL_OVERLAP) == section
    ensures forall i | 0 <= i < |Pieces(section)| :: 0 < |Pieces(section)[i]| <= STRUCTURAL_CAP
  {
    if |section| > STRUCTURAL_CAP {
      StitchWindows(section, STRUCTURAL_CAP, STRUCTURAL_OVERLAP, 0);
      assert section[0..] == section;
      forall i | 0 <= i < |Pieces(section)| ensures 0 < |Pieces(section)[i]| <= STRUCTURAL_CAP {
        WindowsOverlap(section, STRUCTURAL_CAP, STRUCTURAL_OVERLAP, 0, i);
      }
    } else {
      assert Pieces(section)[1..] == [];
    }
  }

  lemma {:induction false} AllWithinCap(text: string, cuts: seq<nat>, n: nat)
    requires Cuts(text, cuts) && n <= |cuts|
    ensures forall i | 0 <= i < |AllPieces(text, cuts, n)| :: 0 < |AllPieces(text, cuts, n)[i]| <= STRUCTURAL_CAP
  {
    if n > 0 {
      AllWithinCap(text, cuts, n - 1);
      PiecesAreTheSection(Section(text, cuts, n - 1));
    }
  }

  /** The cuts of a text: its headings, and its beginning. */
  ghost predicate CutsOf(text: string, cuts: seq<nat>) {
    Cuts(text, cuts) && forall i: nat :: i in cuts <==> i == 0 || Heading(text, i)
  }

  /** No heading stands inside a section but at its start. */
  lemma SectionsHoldNoHeading(text: string, cuts: seq<nat>, w: nat, i: nat)
    requires CutsOf(text, cuts) && w < |cuts| && cuts[w] < i < EndOf(text, cuts, w)
    ensures !Heading(text, i)
  {
    forall k | 0 <= k < |cuts| ensures cuts[k] != i {
      if k < w { assert cuts[k] < cuts[w]; }
      if w + 1 < k { assert cuts[w + 1] < cuts[k]; }
    }
    assert i !in cuts;
  }

  /** The beginning joins the headings. */
  function Effective(headings: seq<nat>): seq<nat>
    requires headings != []
  {
    if headings[0] != 0 then [0] + headings else headings
  }

  lemma EffectiveCuts(text: string, headings: seq<nat>)
    requires headings != [] && Rising(headings) && forall i: nat :: i in headings <==> Heading(text, i)
    ensures CutsOf(text, Effective(headings))
  {
    var cuts := Effective(headings);
    forall i | 0 <= i < |headings|
      ensures headings[i] < |text| && (i > 0 ==> headings[0] < headings[i])
    {
      assert headings[i] in headings;
    }
    forall i: nat ensures i in cuts <==> i == 0 || Heading(text, i) {
      assert i in cuts <==> i in headings || i == 0;
    }
  }

  method SplitAt(text: string, headings: seq<nat>) returns (out: seq<Chunk>, ghost cuts: seq<nat>)
    requires headings != [] && Rising(headings) && forall i: nat :: i in headings <==> Heading(text, i)
    ensures CutsOf(text, cuts) && Texts(out) == AllPieces(text, cuts, |cuts|) && Counted(out, 0, None)
  {
    var effective := Effective(headings);
    EffectiveCuts(text, headings);
    cuts := effective;
    out := [];
    for w := 0 to |effective|
      invariant Texts(out) == AllPieces(text, cuts, w) && Counted(out, 0, None)
    {
      var section := Section(text, effective, w);
      if |section| <= STRUCTURAL_CAP {
        TextsPush(out, Chunk(|out|, section, None));
        out := out + [Chunk(|out|, section, None)];
      } else {
        var more := Slide(section, STRUCTURAL_CAP, STRUCTURAL_OVERLAP, |out|, None);
        TextsConcat(out, more);
        out := out + more;
      }
    }
  }

  /** `structural_chunk`: at headings when there are any, else as `chunk`. */
  method StructuralChunk(text: string) returns (out: seq<Chunk>, ghost cuts: seq<nat>)
    ensures Counted(out, 0, None)
    ensures (forall i: nat :: !Heading(text, i)) ==>
              Texts(out) == if text == "" then [] else Windows(text, CHUNK_WINDOW, CHUNK_OVERLAP, 0)
    ensures (exists i: nat :: Heading(text, i)) ==> CutsOf(text, cuts) && Texts(out) == AllPieces(text, cuts, |cuts|)
    ensures forall i | 0 <= i < |out| ::
              0 < |out[i].text| <= if exists k: nat :: Heading(text, k) then STRUCTURAL_CAP else CHUNK_WINDOW
  {
    cuts := [];
    if text == "" { return [], []; }
    var headings := Headings(text);
    if headings == [] {
      out := Slide(text, CHUNK_WINDOW, CHUNK_OVERLAP, 0, None);
      TextsAt(out);
      forall i | 0 <= i < |out|
        ensures 0 < |out[i].text| <= CHUNK_WINDOW { WindowsOverlap(text, CHUNK_WINDOW, CHUNK_OVERLAP, 0, i); }
    } else {
      assert headings[0] in headings;
      out, cuts := SplitAt(text, headings);
      TextsAt(out);
      AllWithinCap(text, cuts, |cuts|);
      forall i | 0 <= i < |out| ensures 0 < |out[i].text| <= STRUCTURAL_CAP { assert out[i].text == Texts(out)[i]; }
    }
  }
}
