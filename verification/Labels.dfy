/** The normal form of a category or a tag: `normalize_label` of
    `src/journal.rs`. */
module Labels {
  import opened Base
  import opened Text

  /** One leading mark goes. */
  function Unhashed(s: string): string { if s != "" && s[0] == '#' then s[1..] else s }

  /** `join("-")`. */
  function Joined(ws: seq<string>): string {
    if ws == [] then "" else if |ws| == 1 then ws[0] else ws[0] + "-" + Joined(ws[1..])
  }

  /** `normalize_label`; the empty text where it gives nothing. */
  function Label(raw: string): string { Joined(Words(Lower(Trim(Unhashed(Trim(raw)))))) }

  predicate IsUpper(c: char) { 'A' <= c <= 'Z' }

  /** No blank and no capital. */
  ghost predicate Plain(l: string) { forall i | 0 <= i < |l| :: !IsSpace(l[i]) && !IsUpper(l[i]) }

  ghost predicate IsLabel(l: string) { l != "" && Plain(l) }

  lemma {:induction false} WordsArePlain(text: string, word: string)
    requires Plain(word) && forall i | 0 <= i < |text| :: !IsUpper(text[i])
    ensures forall w | w in WordsFrom(text, word) :: IsLabel(w)
    decreases |text|
  {
    if text != "" {
      if IsSpace(text[0]) {
        WordsArePlain(text[1..], "");
      } else {
        WordsArePlain(text[1..], word + [text[0]]);
      }
    }
  }

  lemma {:induction false} JoinedIsPlain(ws: seq<string>)
    requires forall w | w in ws :: IsLabel(w)
    ensures Plain(Joined(ws))
  {
    if |ws| == 1 {
      assert ws[0] in ws;
    } else if ws != [] {
      assert ws[0] in ws && forall w | w in ws[1..] :: w in ws;
      JoinedIsPlain(ws[1..]);
      assert Plain("-");
      PlainConcat(ws[0] + "-", Joined(ws[1..]));
    }
  }

  lemma PlainConcat(a: string, b: string)
    requires Plain(a) && Plain(b)
    ensures Plain(a + b)
  {
  }

  /** What comes out of `normalize_label` is a label, or nothing. */
  lemma LabelIsPlain(raw: string)
    ensures Label(raw) == "" || IsLabel(Label(raw))
  {
    var text := Lower(Trim(Unhashed(Trim(raw))));
    WordsArePlain(text, "");
    JoinedIsPlain(Words(text));
  }

  lemma {:induction false} OneWord(text: string, word: string)
    requires Plain(text) && word + text != ""
    ensures WordsFrom(text, word) == [word + text]
    decreases |text|
  {
    if text == "" {
      assert word + text == word;
    } else {
      OneWord(text[1..], word + [text[0]]);
      assert (word + [text[0]]) + text[1..] == word + text;
    }
  }

  lemma PlainIsTrimmed(l: string)
    requires Plain(l)
    ensures Trim(l) == l && Lower(l) == l
  {
    if l != "" { BareWordTrimmed(l); }
    assert forall i | 0 <= i < |l| :: Lower(l)[i] == l[i];
  }

  /** A label read again loses its leading mark and nothing else. */
  lemma LabelAgain(l: string)
    requires Plain(l)
    ensures Label(l) == Unhashed(l)
  {
    var u := Unhashed(l);
    PlainIsTrimmed(l);
    assert Plain(u);
    PlainIsTrimmed(u);
    if u != "" {
      OneWord(u, "");
      assert "" + u == u;
    }
  }

  /** So normalising twice is normalising once exactly when the first pass left
      no leading mark. */
  lemma SettlesUnlessMarked(raw: string)
    ensures Label(Label(raw)) == Label(raw) <==> !(Label(raw) != "" && Label(raw)[0] == '#')
  {
    LabelIsPlain(raw);
    LabelAgain(Label(raw));
  }

  /** It does leave one: two marks typed, one stored, none after a second pass. */
  lemma TwoMarks()
    ensures Label("##a") == "#a" && Label("#a") == "a"
  {
    LabelAgain("##a");
    LabelAgain("#a");
  }

  lemma {:induction false} WordThen(a: string, b: string, word: string)
    requires Plain(a) && IsLabel(b) && word + a != ""
    ensures WordsFrom(a + " " + b, word) == [word + a, b]
    decreases |a|
  {
    var t := a + " " + b;
    if a == "" {
      assert t == " " + b && t[0] == ' ' && t[1..] == b && word + a == word;
      OneWord(b, "");
      assert "" + b == b;
    } else {
      assert t[0] == a[0] && t[1..] == a[1..] + " " + b;
      WordThen(a[1..], b, word + [a[0]]);
      assert word + [a[0]] + a[1..] == word + a;
    }
  }

  /** Blanks between words become a dash. */
  lemma WordsAreJoined(a: string, b: string)
    requires IsLabel(a) && a[0] != '#' && IsLabel(b)
    ensures Label(a + " " + b) == a + "-" + b
  {
    var t := a + " " + b;
    assert t[|t| - 1] == b[|b| - 1];
    BareWordTrimmed(t);
    assert t[0] == a[0] && Unhashed(t) == t;
    assert Lower(t) == t by { assert forall i | 0 <= i < |t| :: Lower(t)[i] == t[i]; }
    WordThen(a, b, "");
    assert "" + a == a && [a, b][1..] == [b] && Joined([b]) == b;
  }

  lemma {:induction false} TrimLower(s: string)
    ensures TrimLeft(Lower(s)) == Lower(TrimLeft(s)) && TrimRight(Lower(s)) == Lower(TrimRight(s))
    decreases |s|
  {
    if s != "" {
      var n := |s| - 1;
      assert Lower(s)[1..] == Lower(s[1..]) && Lower(s)[..n] == Lower(s[..n]);
      assert IsSpace(LowerChar(s[0])) == IsSpace(s[0]) && IsSpace(LowerChar(s[n])) == IsSpace(s[n]);
      TrimLower(s[1..]);
      TrimLower(s[..n]);
    }
  }

  lemma LabelLower(s: string)
    ensures Label(Lower(s)) == Label(s)
  {
    TrimLower(s);
    TrimLower(TrimLeft(s));
    var t := Trim(s);
    assert Trim(Lower(s)) == Lower(t);
    assert Unhashed(Lower(t)) == Lower(Unhashed(t));
    TrimLower(Unhashed(t));
    TrimLower(TrimLeft(Unhashed(t)));
    var u := Trim(Unhashed(t));
    assert Trim(Unhashed(Lower(t))) == Lower(u);
    assert Lower(Lower(u)) == Lower(u);
  }

  /** Capitals make no difference to a label. */
  lemma LabelsIgnoreCase(a: string, b: string)
    requires CapitalsAside(a, b)
    ensures Label(a) == Label(b)
  {
    SameLower(a, b);
    LabelLower(a);
    LabelLower(b);
  }
}
