/** The two cleaning passes of the improved parser: `clean_title`, which removes a
    "Слайд N:" numbering prefix, surrounding asterisks and extra whitespace from a title, and
    `clean_text`, which removes "(Промт для AI: …)" notes and extra whitespace from a text. Each
    regular-expression substitution is a function of its own. */
module Cleaning {
  import opened Wrappers
  import opened Text

  /** The word that numbers a slide. */
  const SlideWord: string := "Слайд"

  /** Drops the maximal run of leading ASCII digits. */
  function LStripDigits(s: string): (r: string)
    ensures |r| <= |s| && r == s[|s| - |r|..]
    ensures forall i :: 0 <= i < |s| - |r| ==> IsDigit(s[i])
    ensures r == [] || !IsDigit(r[0])
    decreases |s|
  {
    if s != [] && IsDigit(s[0]) then LStripDigits(s[1..]) else s
  }

  /** `re.sub(r'^' + lead + r'Слайд\s+\d+:\s*', '', s)`: the substitution is anchored at the
      start, so it removes at most one match. Whitespace and digits are disjoint classes, so the
      greedy `\s+` and `\d+` take maximal runs and never backtrack. */
  function RemoveSlidePrefix(s: string, lead: string): (r: string)
    ensures |r| <= |s|
    ensures !StartsWith(s, lead + SlideWord) ==> r == s
  {
    var w := lead + SlideWord;
    if !StartsWith(s, w) then s
    else
      var a := s[|w|..];
      var b := LStrip(a);
      if |b| == |a| then s
      else
        var c := LStripDigits(b);
        if |c| == |b| || c == [] || c[0] != ':' then s
        else LStrip(c[1..])
  }

  /** `re.match(r'^' + lead + r'Слайд\s+\d+:', s)`: the same prefix as above without the final
      `\s*`, so it matches exactly when the substitution finds its match, which is never empty,
      that is, exactly when the substitution shortens `s`. */
  predicate HasSlidePrefix(s: string, lead: string)
  {
    |RemoveSlidePrefix(s, lead)| < |s|
  }

  /** `re.sub(r'^\*+\s*', '', s)`. */
  function StripLeadingStars(s: string): (r: string)
    ensures |r| <= |s| && r == s[|s| - |r|..]
    ensures |r| < |s| <==> s != [] && s[0] == '*'
  {
    if s != [] && s[0] == '*' then LStrip(LStripChar(s, '*')) else s
  }

  /** `re.sub(r'\s*\*+$', '', s)`. Without the multiline flag, `$` matches at the end of the
      string and also just before a final newline, which the substitution keeps. */
  function StripTrailingStars(s: string): (r: string)
    ensures |r| <= |s|
  {
    var nl := s != [] && s[|s| - 1] == '\n';
    var core := if nl then s[..|s| - 1] else s;
    if core != [] && core[|core| - 1] == '*' then
      RStrip(RStripChar(core, '*')) + (if nl then "\n" else "")
    else s
  }

  /** `clean_title`: the empty title unchanged, any other in whitespace normal form. */
  function CleanTitle(title: string): (r: string)
    ensures title == "" ==> r == ""
    ensures Normalized(r)
  {
    if title == "" then title
    else
      var t1 := RemoveSlidePrefix(title, "**");
      var t2 := RemoveSlidePrefix(t1, "");
      var t3 := StripLeadingStars(t2);
      var t4 := StripTrailingStars(t3);
      NormalizeSpaces(t4)
  }

  /** The opening of an AI prompt note. */
  const PromptMarker: string := "(Промт для AI:"

  /** `re.sub(r'\(Промт для AI:.*?\)', '', s, flags=re.DOTALL)`: scanning left to right, a
      marker that some later `)` closes is removed together with everything up to the first
      such `)`; scanning resumes after it. */
  function RemovePrompts(s: string): (r: string)
    ensures |r| <= |s|
    decreases |s|
  {
    if s == [] then []
    else if StartsWith(s, PromptMarker) && ')' in s[|PromptMarker|..] then
      var k := FirstIndex(s[|PromptMarker|..], ')');
      RemovePrompts(s[|PromptMarker| + k + 1..])
    else [s[0]] + RemovePrompts(s[1..])
  }

  /** `clean_text`: the empty text unchanged, any other in whitespace normal form. */
  function CleanText(text: string): (r: string)
    ensures text == "" ==> r == ""
    ensures Normalized(r)
  {
    if text == "" then text else NormalizeSpaces(RemovePrompts(text))
  }

  // ---------------------------------------------------------------------------------------
  // clean_title

  /** The substitution once unfolded, on a text cut into the parts of a match. */
  lemma RemoveSlidePrefixMatch(lead: string, s: string, a: string, b: string, c: string, rest: string)
    requires StartsWith(s, lead + SlideWord) && s[|lead + SlideWord|..] == a && LStrip(a) == b
    requires |b| < |a| && LStripDigits(b) == c && |c| < |b| && c != [] && c[0] == ':'
    requires LStrip(c[1..]) == rest
    ensures RemoveSlidePrefix(s, lead) == rest
  {
    var w := lead + SlideWord;
    assert !(|c| == |b| || c == [] || c[0] != ':');
  }

  /** The substitution removes a numbering prefix written with one space on either side of the
      number, whatever non-blank text follows it. */
  lemma RemovesSlidePrefix(lead: string, n: nat, rest: string)
    requires rest == [] || !IsSpace(rest[0])
    ensures RemoveSlidePrefix(lead + SlideWord + " " + NatToString(n) + ": " + rest, lead) == rest
  {
    var w := lead + SlideWord;
    var d := NatToString(n);
    var spaced := " " + rest;
    var colon := ":" + spaced;
    var b := d + colon;
    var a := " " + b;
    SlidePrefixShape(w, d, rest);
    ConcatParts(w, a);
    LStripSpaceHead(b);
    LStripUnspaced(b);
    LStripDigitsOver(d, colon);
    ConcatParts(":", spaced);
    LStripSpaceHead(rest);
    LStripUnspaced(rest);
    RemoveSlidePrefixMatch(lead, w + a, a, b, colon, rest);
  }

  /** The substitution in general: a non-empty whitespace run, a non-empty digit run, the
      colon and any whitespace run after it all go, whatever non-blank text follows. */
  lemma RemovesSlidePrefixRuns(lead: string, sp: string, d: string, sp2: string, rest: string)
    requires sp != [] && forall i :: 0 <= i < |sp| ==> IsSpace(sp[i])
    requires d != [] && forall i :: 0 <= i < |d| ==> IsDigit(d[i])
    requires forall i :: 0 <= i < |sp2| ==> IsSpace(sp2[i])
    requires rest == [] || !IsSpace(rest[0])
    ensures RemoveSlidePrefix(lead + SlideWord + sp + d + ":" + sp2 + rest, lead) == rest
  {
    var w := lead + SlideWord;
    var colon := ":" + (sp2 + rest);
    var b := d + colon;
    var a := sp + b;
    RunsShape(w, sp, d, sp2, rest);
    ConcatParts(w, a);
    RunsStripped(sp, d, sp2, rest);
    RemoveSlidePrefixMatch(lead, w + a, a, b, colon, rest);
  }

  lemma RunsStripped(sp: string, d: string, sp2: string, rest: string)
    requires sp != [] && forall i :: 0 <= i < |sp| ==> IsSpace(sp[i])
    requires d != [] && forall i :: 0 <= i < |d| ==> IsDigit(d[i])
    requires forall i :: 0 <= i < |sp2| ==> IsSpace(sp2[i])
    requires rest == [] || !IsSpace(rest[0])
    ensures var colon := ":" + (sp2 + rest);
            var b := d + colon;
            var a := sp + b;
            LStrip(a) == b && |b| < |a| && LStripDigits(b) == colon && |colon| < |b|
            && colon != [] && colon[0] == ':' && LStrip(colon[1..]) == rest
  {
    var colon := ":" + (sp2 + rest);
    var b := d + colon;
    LStripOver(sp, b);
    LStripDigitsOver(d, colon);
    ConcatParts(":", sp2 + rest);
    LStripOver(sp2, rest);
  }

  lemma RunsShape(w: string, sp: string, d: string, sp2: string, rest: string)
    ensures w + sp + d + ":" + sp2 + rest == w + (sp + (d + (":" + (sp2 + rest))))
  {
    AppendAssoc(w + sp + d + ":", sp2, rest);
    AppendAssoc(w + sp + d, ":", sp2 + rest);
    AppendAssoc(w + sp, d, ":" + (sp2 + rest));
    AppendAssoc(w, sp, d + (":" + (sp2 + rest)));
  }

  lemma SlidePrefixShape(w: string, d: string, rest: string)
    ensures w + " " + d + ": " + rest == w + (" " + (d + (":" + (" " + rest))))
  {
    assert ": " + rest == ":" + (" " + rest);
  }

  lemma {:induction false} LStripDigitsOver(d: string, t: string)
    requires forall i :: 0 <= i < |d| ==> IsDigit(d[i])
    requires t == [] || !IsDigit(t[0])
    ensures LStripDigits(d + t) == t
    decreases |d|
  {
    if d == [] {
      assert d + t == t;
    } else {
      assert (d + t)[1..] == d[1..] + t;
      LStripDigitsOver(d[1..], t);
    }
  }

  /** Two titles that agree once both substitutions of a numbering prefix are done clean alike,
      when the second is left alone by them. */
  lemma CleanTitleFromPrefixStage(s: string, rest: string)
    requires s != []
    requires RemoveSlidePrefix(RemoveSlidePrefix(s, "**"), "") == rest
    requires RemoveSlidePrefix(rest, "**") == rest && RemoveSlidePrefix(rest, "") == rest
    ensures CleanTitle(s) == CleanTitle(rest)
  {
  }

  /** A numbering prefix goes, in either of its two forms, whatever follows it (unless that is
      itself a numbering prefix, which the next substitution would also see). */
  lemma CleanTitleDropsSlidePrefix(lead: string, n: nat, rest: string)
    requires lead == "**" || lead == ""
    requires rest == [] || !IsSpace(rest[0])
    requires !StartsWith(rest, "**" + SlideWord) && !StartsWith(rest, SlideWord)
    ensures CleanTitle(lead + SlideWord + " " + NatToString(n) + ": " + rest) == CleanTitle(rest)
  {
    var s := lead + SlideWord + " " + NatToString(n) + ": " + rest;
    PrefixStages(lead, s, n, rest);
    CleanTitleFromPrefixStage(s, rest);
  }

  lemma PrefixStages(lead: string, s: string, n: nat, rest: string)
    requires lead == "**" || lead == ""
    requires s == lead + SlideWord + " " + NatToString(n) + ": " + rest
    requires rest == [] || !IsSpace(rest[0])
    requires !StartsWith(rest, "**" + SlideWord) && !StartsWith(rest, SlideWord)
    ensures s != []
    ensures RemoveSlidePrefix(RemoveSlidePrefix(s, "**"), "") == rest
    ensures RemoveSlidePrefix(rest, "**") == rest && RemoveSlidePrefix(rest, "") == rest
  {
    RemovesSlidePrefix(lead, n, rest);
    PlainWord();
    if lead == "" {
      UnboldedPrefix(s);
    }
  }

  lemma PlainWord()
    ensures "" + SlideWord == SlideWord
  {
  }

  lemma UnboldedPrefix(s: string)
    requires StartsWith(s, SlideWord)
    ensures RemoveSlidePrefix(s, "**") == s
  {
    assert s[0] == SlideWord[0];
    assert !StartsWith(s, "**" + SlideWord);
  }

  /** A title that is already clean is left as it is: in whitespace normal form, with no
      asterisk at either end and no numbering prefix. */
  lemma CleanTitleFixpoint(t: string)
    requires Normalized(t)
    requires t == [] || (t[0] != '*' && t[|t| - 1] != '*')
    requires !StartsWith(t, SlideWord)
    ensures CleanTitle(t) == t
  {
    if t != [] {
      assert !StartsWith(t, "**" + SlideWord);
      assert !StartsWith(t, "" + SlideWord) by { assert "" + SlideWord == SlideWord; }
      NormalizeFixpoint(t);
    }
  }

  /** A title with neither a numbering prefix nor asterisks at its ends, once its trailing
      asterisks are removed, cleans to its whitespace normal form. */
  lemma CleanTitleUnprefixed(t: string, u: string)
    requires t != [] && t[0] != '*'
    requires !StartsWith(t, "**" + SlideWord) && !StartsWith(t, SlideWord)
    requires StripTrailingStars(t) == u && Normalized(u)
    ensures CleanTitle(t) == u
  {
    assert "" + SlideWord == SlideWord;
    NormalizeFixpoint(u);
  }

  /** No text begins with the numbering word because of asterisks that follow it. */
  lemma StarsDoNotSpellSlideWord(w: string)
    requires !StartsWith(w, SlideWord)
    ensures !StartsWith(w + "**", SlideWord)
  {
    var t := w + "**";
    assert |w| >= |SlideWord| ==> t[..|SlideWord|] == w[..|SlideWord|];
    assert |w| < |SlideWord| ==> t[|w|] == '*' && SlideWord[|w|] != '*';
  }

  /** A bold numbered title cleans to the title alone: `**Слайд N: Title**` gives `Title`. */
  lemma CleanTitleBoldNumbered(n: nat, w: string)
    requires w != [] && Normalized(w) && w[0] != '*' && w[|w| - 1] != '*'
    requires !StartsWith(w, SlideWord)
    ensures CleanTitle("**" + SlideWord + " " + NatToString(n) + ": " + w + "**") == w
  {
    var rest := w + "**";
    assert "**" + SlideWord + " " + NatToString(n) + ": " + w + "**"
        == "**" + SlideWord + " " + NatToString(n) + ": " + rest;
    StarsDoNotSpellSlideWord(w);
    TrailingStarsGo(w);
    CleanTitleDropsSlidePrefix("**", n, rest);
    CleanTitleUnprefixed(rest, w);
  }

  lemma TrailingStarsGo(w: string)
    requires w != [] && Trimmed(w) && w[0] != '*' && w[|w| - 1] != '*'
    ensures var rest := w + "**";
            rest[0] == w[0] && !StartsWith(rest, "**" + SlideWord) && StripTrailingStars(rest) == w
  {
    var rest := w + "**";
    assert rest[0] == w[0];
    RStripCharOver(w, "**", '*');
    assert RStrip(w) == w;
  }

  /** The substitution in general: a run of asterisks at the end goes together with the
      whitespace before it, and a final newline stays. */
  lemma StripTrailingStarsRuns(x: string, ws: string, k: nat)
    requires x == [] || (!IsSpace(x[|x| - 1]) && x[|x| - 1] != '*')
    requires forall i :: 0 <= i < |ws| ==> IsSpace(ws[i])
    ensures StripTrailingStars(x + ws + seq(k + 1, _ => '*')) == x
    ensures StripTrailingStars(x + ws + seq(k + 1, _ => '*') + "\n") == x + "\n"
  {
    var stars := seq(k + 1, _ => '*');
    var core := x + ws + stars;
    StarsCore(x, ws, stars);
    assert (core + "\n")[..|core + "\n"| - 1] == core;
  }

  lemma StarsCore(x: string, ws: string, stars: string)
    requires x == [] || (!IsSpace(x[|x| - 1]) && x[|x| - 1] != '*')
    requires forall i :: 0 <= i < |ws| ==> IsSpace(ws[i])
    requires stars != [] && forall i :: 0 <= i < |stars| ==> stars[i] == '*'
    ensures var core := x + ws + stars;
            core[|core| - 1] == '*' && RStrip(RStripChar(core, '*')) == x
  {
    RStripCharOver(x + ws, stars, '*');
    if x == [] {
      assert x + ws == ws;
    } else {
      RStripConcat(x, ws);
    }
  }

  /** The numbering and the asterisks of `**Слайд 3: Wrap-up**` go. */
  lemma CleanTitleExample()
    ensures CleanTitle("**Слайд 3: Wrap-up**") == "Wrap-up"
  {
    var w := "Wrap-up";
    assert NatToString(3) == "3";
    assert "**Слайд 3: Wrap-up**" == "**" + SlideWord + " " + NatToString(3) + ": " + w + "**";
    NoSpaceNormalized(w);
    assert !StartsWith(w, SlideWord);
    CleanTitleBoldNumbered(3, w);
  }

  // ---------------------------------------------------------------------------------------
  // clean_text

  /** Text with no `(` has no note to remove. */
  lemma {:induction false} RemovePromptsPlain(a: string, t: string)
    requires '(' !in a
    ensures RemovePrompts(a + t) == a + RemovePrompts(t)
    decreases |a|
  {
    if a == [] {
      assert a + t == t;
    } else {
      assert (a + t)[0] == a[0] && (a + t)[1..] == a[1..] + t;
      assert !StartsWith(a + t, PromptMarker);
      RemovePromptsPlain(a[1..], t);
    }
  }

  /** The removal once unfolded, on a text that opens with a closed note. */
  lemma RemovePromptsMatch(m: string, tail: string, k: nat, b: string)
    requires StartsWith(m, PromptMarker) && m[|PromptMarker|..] == tail
    requires ')' in tail && FirstIndex(tail, ')') == k && m[|PromptMarker| + k + 1..] == b
    ensures RemovePrompts(m) == RemovePrompts(b)
  {
  }

  /** Text before a marker that does not hold the marker itself is kept as it is: no match can
      start inside it, since the marker's only `(` is its first character. */
  lemma {:induction false} RemovePromptsBefore(a: string, t: string)
    requires !Contains(a, PromptMarker) && StartsWith(t, PromptMarker)
    ensures RemovePrompts(a + t) == a + RemovePrompts(t)
    decreases |a|
  {
    if a == [] {
      assert a + t == t;
    } else {
      var s := a + t;
      MarkerNotAcross(a, t);
      assert s[0] == a[0] && s[1..] == a[1..] + t;
      RemovePromptsBefore(a[1..], t);
      AppendAssoc([a[0]], a[1..], RemovePrompts(t));
      assert [a[0]] + a[1..] == a;
    }
  }

  lemma MarkerNotAcross(a: string, t: string)
    requires a != [] && !StartsWith(a, PromptMarker) && StartsWith(t, PromptMarker)
    ensures !StartsWith(a + t, PromptMarker)
  {
    var M := PromptMarker;
    forall m | 1 <= m < |M| - 1
      ensures M[m] != M[0] || M[m + 1] != M[1]
    {
      assert '(' !in M[1..];
      assert M[m] == M[1..][m - 1];
    }
    NotAcross(M, a, t);
  }

  /** Text without `(` does not hold the marker. */
  lemma {:induction false} NoOpeningNoMarker(a: string)
    requires '(' !in a
    ensures !Contains(a, PromptMarker)
    decreases |a|
  {
    if a != [] {
      assert a[0] != PromptMarker[0];
      assert '(' !in a[1..] by {
        forall i | 0 <= i < |a[1..]|
          ensures a[1..][i] != '('
        {
          assert a[1..][i] == a[i + 1];
        }
      }
      NoOpeningNoMarker(a[1..]);
    }
  }

  /** A note closed by the first `)` after its marker is removed, and nothing before it is. */
  lemma RemovesPrompt(a: string, x: string, b: string)
    requires !Contains(a, PromptMarker) && ')' !in x
    ensures RemovePrompts(a + PromptMarker + x + ")" + b) == a + RemovePrompts(b)
  {
    var tail := x + (")" + b);
    var m := PromptMarker + tail;
    assert a + PromptMarker + x + ")" + b == a + m;
    ConcatParts(PromptMarker, tail);
    RemovePromptsBefore(a, m);
    ConcatParts(x, ")" + b);
    FirstIndexAfter(x, ")" + b, ')');
    var k := FirstIndex(tail, ')');
    assert m[|PromptMarker| + k + 1..] == b by {
      assert m[|PromptMarker| + k + 1..] == tail[k + 1..];
      assert tail[k + 1..] == b;
    }
    RemovePromptsMatch(m, tail, k, b);
  }

  /** Text without the marker is left as it is. */
  lemma {:induction false} RemovePromptsUnmarked(s: string)
    requires !Contains(s, PromptMarker)
    ensures RemovePrompts(s) == s
    decreases |s|
  {
    if s != [] {
      RemovePromptsUnmarked(s[1..]);
      assert [s[0]] + s[1..] == s;
    }
  }

  /** A marker that no later `)` closes is kept, as the non-greedy match then fails: text
      without `)` is left as it is, markers included. */
  lemma {:induction false} RemovePromptsUnclosed(s: string)
    requires ')' !in s
    ensures RemovePrompts(s) == s
    decreases |s|
  {
    if s != [] {
      if StartsWith(s, PromptMarker) {
        NotInSuffix(s, |PromptMarker|, ')');
      }
      NotInSuffix(s, 1, ')');
      RemovePromptsUnclosed(s[1..]);
      assert [s[0]] + s[1..] == s;
    }
  }

  lemma NotInSuffix(s: string, j: nat, c: char)
    requires c !in s && j <= |s|
    ensures c !in s[j..]
  {
    assert forall i :: 0 <= i < |s| - j ==> s[j..][i] == s[j + i];
  }

  /** Text that is already clean is left as it is. */
  lemma CleanTextFixpoint(t: string)
    requires Normalized(t) && !Contains(t, PromptMarker)
    ensures CleanText(t) == t
  {
    if t != [] {
      RemovePromptsUnmarked(t);
      NormalizeFixpoint(t);
    }
  }

  /** A closed note goes from a text, and the whitespace around it is collapsed with the rest:
      `"Text (Промт для AI: ignore this)  more"` cleans as `"Text   more"` would. */
  lemma CleanTextRemovesNote(a: string, x: string, b: string)
    requires !Contains(a, PromptMarker) && ')' !in x
    ensures CleanText(a + PromptMarker + x + ")" + b) == NormalizeSpaces(a + RemovePrompts(b))
  {
    RemovesPrompt(a, x, b);
  }

  /** The note of `"Text (Промт для AI: ignore this)  more"` goes, and the three spaces left
      around it collapse into one: the text is given in its three parts around the marker and
      the closing `)`. */
  lemma CleanTextExample(a: string, x: string, b: string)
    requires a == "Text " && x == " ignore this" && b == "  more"
    ensures CleanText(a + PromptMarker + x + ")" + b) == "Text more"
  {
    ExampleNoteRemoved(a, x, b);
    ExampleSpacesCollapsed(a, b);
  }

  lemma ExampleNoteRemoved(a: string, x: string, b: string)
    requires a == "Text " && x == " ignore this" && b == "  more"
    ensures RemovePrompts(a + PromptMarker + x + ")" + b) == a + b
  {
    NoOpeningNoMarker(a);
    RemovesPrompt(a, x, b);
    NoOpeningNoMarker(b);
    RemovePromptsUnmarked(b);
  }

  lemma ExampleSpacesCollapsed(a: string, b: string)
    requires a == "Text " && b == "  more"
    ensures NormalizeSpaces(a + b) == "Text more"
  {
    var w1, sp, w2 := "Text", "   ", "more";
    ExampleParts(a, b, w1, sp, w2);
    SpaceRunBetweenWords(w1, sp, w2);
  }

  lemma ExampleParts(a: string, b: string, w1: string, sp: string, w2: string)
    requires a == "Text " && b == "  more" && w1 == "Text" && sp == "   " && w2 == "more"
    ensures a + b == w1 + sp + w2 && w1 + " " + w2 == "Text more"
    ensures w1 != [] && forall i :: 0 <= i < |w1| ==> !IsSpace(w1[i])
    ensures sp != [] && forall i :: 0 <= i < |sp| ==> IsSpace(sp[i])
    ensures w2 != [] && forall i :: 0 <= i < |w2| ==> !IsSpace(w2[i])
  {
  }
}
