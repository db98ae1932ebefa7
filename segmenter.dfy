/** Slide segmentation, shared by both parsers: `SEPARATOR = re.compile(r"^---$", re.MULTILINE)`,
    then `[p.strip() for p in SEPARATOR.split(text) if p.strip()]`.

    In multiline mode `^` matches at the start of the text and after every newline, and `$` at
    the end of the text and before every newline, so a match is a line that is exactly `---`;
    the newlines around it stay in the neighbouring pieces. */
module Segmenter {
  import opened Wrappers
  import opened Text

  const Separator: string := "---"

  /** A match of the separator at the head of `s`, when `s` starts at a line start. */
  predicate SeparatorAtHead(s: string)
  {
    StartsWith(s, Separator) && (|s| == 3 || s[3] == '\n')
  }

  /** `SEPARATOR.split(s)` on a text that starts at a line start exactly when `atLineStart`:
      a left-to-right scan that cuts at every match. */
  function SplitOnSeparator(s: string, atLineStart: bool): (r: seq<string>)
    ensures |r| >= 1
    decreases |s|
  {
    if atLineStart && SeparatorAtHead(s) then [""] + SplitOnSeparator(s[3..], false)
    else if s == [] then [""]
    else
      var rest := SplitOnSeparator(s[1..], s[0] == '\n');
      [[s[0]] + rest[0]] + rest[1..]
  }

  /** Whether some line of `s` is exactly `---`. */
  predicate HasSeparatorLine(s: string, atLineStart: bool)
    decreases |s|
  {
    (atLineStart && SeparatorAtHead(s)) || (s != [] && HasSeparatorLine(s[1..], s[0] == '\n'))
  }

  /** The pieces that survive stripping, stripped, in order. */
  function StrippedPieces(parts: seq<string>): seq<string>
    decreases |parts|
  {
    if parts == [] then []
    else Kept(parts[0]) + StrippedPieces(parts[1..])
  }

  /** A piece as the list comprehension keeps it: stripped, or dropped when that leaves nothing. */
  function Kept(p: string): seq<string>
  {
    if Strip(p) != [] then [Strip(p)] else []
  }

  /** A segment: non-empty, without whitespace at either end. */
  predicate IsSegment(s: string)
  {
    s != [] && Trimmed(s)
  }

  lemma {:induction false} StrippedPiecesAreSegments(parts: seq<string>)
    ensures var r := StrippedPieces(parts);
            |r| <= |parts| && forall k :: 0 <= k < |r| ==> IsSegment(r[k])
    decreases |parts|
  {
    if parts != [] {
      StrippedPiecesAreSegments(parts[1..]);
      var head := if Strip(parts[0]) != [] then [Strip(parts[0])] else [];
      AllAppend(head, StrippedPieces(parts[1..]), IsSegment);
    }
  }

  /** The slide segments of a document, one per non-empty stripped piece: none is empty and none
      has whitespace at either end. */
  function Segments(text: string): (r: seq<string>)
    ensures forall k :: 0 <= k < |r| ==> r[k] != [] && Trimmed(r[k])
  {
    var parts := SplitOnSeparator(text, true);
    StrippedPiecesAreSegments(parts);
    StrippedPieces(parts)
  }

  /** Splitting loses nothing: the pieces joined with `---` are the original text. */
  lemma {:induction false} SplitJoinsBack(s: string, atLineStart: bool)
    ensures Join(SplitOnSeparator(s, atLineStart), Separator) == s
    decreases |s|
  {
    if atLineStart && SeparatorAtHead(s) {
      SplitJoinsBack(s[3..], false);
      JoinCons("", SplitOnSeparator(s[3..], false), Separator);
      assert s == s[..3] + s[3..];
    } else if s != [] {
      SplitJoinsBack(s[1..], s[0] == '\n');
      JoinPrepend(s[0], SplitOnSeparator(s[1..], s[0] == '\n'), Separator);
      assert s == [s[0]] + s[1..];
    }
  }

  /** A text without a `---` line is a single piece. */
  lemma {:induction false} NoSeparatorSinglePiece(s: string, atLineStart: bool)
    requires !HasSeparatorLine(s, atLineStart)
    ensures SplitOnSeparator(s, atLineStart) == [s]
    decreases |s|
  {
    if s != [] {
      NoSeparatorSinglePiece(s[1..], s[0] == '\n');
      assert [s[0]] + s[1..] == s;
    }
  }

  /** A text without a dash has no separator line. */
  lemma {:induction false} NoDashNoSeparator(s: string, atLineStart: bool)
    requires '-' !in s
    ensures !HasSeparatorLine(s, atLineStart)
    decreases |s|
  {
    if s != [] {
      assert s[0] != '-';
      NoDashNoSeparator(s[1..], s[0] == '\n');
    }
  }

  /** With no separator line the whole stripped text is the only segment (none if it is blank). */
  lemma NoSeparatorOneSegment(text: string)
    requires !HasSeparatorLine(text, true)
    ensures Segments(text) == if Strip(text) == [] then [] else [Strip(text)]
  {
    NoSeparatorSinglePiece(text, true);
    StrippedPiecesOne(text);
  }

  lemma {:induction false} StrippedPiecesAppend(a: seq<string>, b: seq<string>)
    ensures StrippedPieces(a + b) == StrippedPieces(a) + StrippedPieces(b)
    decreases |a|
  {
    if a != [] {
      var ab := a + b;
      assert ab[0] == a[0] && ab[1..] == a[1..] + b;
      StrippedPiecesAppend(a[1..], b);
      AppendAssoc(Kept(a[0]), StrippedPieces(a[1..]), StrippedPieces(b));
    } else {
      assert a + b == b;
    }
  }

  /** A text that begins with a newline splits the same way whatever came before it. */
  lemma NewlineHeadIgnoresFlag(u: string, atLineStart: bool)
    requires u != [] && u[0] == '\n'
    ensures SplitOnSeparator(u, atLineStart) == SplitOnSeparator(u, false)
  {
  }

  /** The pieces of `a + u` from the pieces `A` of `a` and `U` of `u`: the last piece of `a` is
      continued by the first piece of `u`. */
  function Glue(A: seq<string>, U: seq<string>): (r: seq<string>)
    requires |A| >= 1 && |U| >= 1
    ensures |r| == |A| + |U| - 1
  {
    A[..|A| - 1] + [A[|A| - 1] + U[0]] + U[1..]
  }

  lemma GlueEmpty(U: seq<string>)
    requires |U| >= 1
    ensures Glue([""], U) == U
  {
    assert [""][..0] == [] && "" + U[0] == U[0];
    assert [U[0]] + U[1..] == U;
  }

  lemma GlueAfterSeparator(A: seq<string>, U: seq<string>)
    requires |A| >= 1 && |U| >= 1
    ensures Glue([""] + A, U) == [""] + Glue(A, U)
  {
    var A2 := [""] + A;
    assert A2[..|A2| - 1] == [""] + A[..|A| - 1];
    assert A2[|A2| - 1] == A[|A| - 1];
  }

  lemma GlueAfterChar(c: char, A: seq<string>, U: seq<string>)
    requires |A| >= 1 && |U| >= 1
    ensures var G := Glue(A, U);
            Glue([[c] + A[0]] + A[1..], U) == [[c] + G[0]] + G[1..]
  {
    var A2 := [[c] + A[0]] + A[1..];
    var G := Glue(A, U);
    if |A| == 1 {
      assert A2 == [[c] + A[0]];
      assert G[0] == A[0] + U[0] && G[1..] == U[1..];
      assert [c] + (A[0] + U[0]) == ([c] + A[0]) + U[0];
    } else {
      assert G[0] == A[0];
      assert G[1..] == A[1..|A| - 1] + [A[|A| - 1] + U[0]] + U[1..];
      assert A2[..|A2| - 1] == [[c] + A[0]] + A[1..|A| - 1];
    }
  }

  /** A strict prefix of `a + u`, for `u` starting with a newline, never creates a separator. */
  lemma SeparatorAtHeadAppend(a: string, u: string)
    requires u != [] && u[0] == '\n'
    ensures SeparatorAtHead(a + u) == SeparatorAtHead(a)
  {
    if |a| >= 3 {
      assert (a + u)[..3] == a[..3];
      if |a| > 3 { assert (a + u)[3] == a[3]; } else { assert (a + u)[3] == u[0]; }
    } else {
      assert (a + u)[|a|] == '\n';
    }
  }

  /** Splitting `a + u`, where `u` begins with a newline: the pieces of `a`, with the last one
      continued by the first piece of `u`, then the remaining pieces of `u`. */
  lemma {:induction false} SplitAppendAtNewline(a: string, u: string, atLineStart: bool)
    requires u != [] && u[0] == '\n'
    ensures SplitOnSeparator(a + u, atLineStart)
         == Glue(SplitOnSeparator(a, atLineStart), SplitOnSeparator(u, false))
    decreases |a|
  {
    var U := SplitOnSeparator(u, false);
    SeparatorAtHeadAppend(a, u);
    if a == [] {
      assert a + u == u;
      NewlineHeadIgnoresFlag(u, atLineStart);
      GlueEmpty(U);
    } else if atLineStart && SeparatorAtHead(a) {
      assert (a + u)[3..] == a[3..] + u;
      SplitAppendAtNewline(a[3..], u, false);
      GlueAfterSeparator(SplitOnSeparator(a[3..], false), U);
    } else {
      assert (a + u)[0] == a[0] && (a + u)[1..] == a[1..] + u;
      SplitAppendAtNewline(a[1..], u, a[0] == '\n');
      GlueAfterChar(a[0], SplitOnSeparator(a[1..], a[0] == '\n'), U);
    }
  }

  /** The pieces of a separator line and what follows it. */
  lemma SplitSeparatorLine(b: string)
    ensures var B := SplitOnSeparator(b, true);
            SplitOnSeparator("\n---\n" + b, false) == ["\n", "\n" + B[0]] + B[1..]
  {
    var B := SplitOnSeparator(b, true);
    var nb := "\n" + b;
    assert nb[1..] == b;
    var N := SplitOnSeparator(nb, false);
    assert N == [['\n'] + B[0]] + B[1..];
    var snb := "---" + nb;
    assert SeparatorAtHead(snb) && snb[3..] == nb;
    var S := SplitOnSeparator(snb, true);
    assert S == [""] + N;
    var u := "\n" + snb;
    assert u == "\n---\n" + b;
    assert u[1..] == snb;
    assert SplitOnSeparator(u, false) == [['\n'] + S[0]] + S[1..];
    assert S[0] == "" && S[1..] == N;
    assert ['\n'] + "" == "\n";
    assert [['\n'] + B[0]] + B[1..] == ["\n" + B[0]] + B[1..];
    assert ["\n"] + (["\n" + B[0]] + B[1..]) == ["\n", "\n" + B[0]] + B[1..];
  }

  lemma StrippedPiecesOne(x: string)
    ensures StrippedPieces([x]) == if Strip(x) != [] then [Strip(x)] else []
  {
    var p := [x];
    var q := if Strip(x) != [] then [Strip(x)] else [];
    assert p[0] == x && p[1..] == [];
    assert StrippedPieces(p) == q + StrippedPieces([]);
    assert q + [] == q;
  }

  lemma StrippedPiecesOuterNewline(x: string)
    ensures StrippedPieces([x + "\n"]) == StrippedPieces([x])
    ensures StrippedPieces(["\n" + x]) == StrippedPieces([x])
  {
    StripIgnoresOuterSpace(x, '\n');
    StrippedPiecesOne(x);
    StrippedPiecesOne(x + "\n");
    StrippedPiecesOne("\n" + x);
  }

  lemma StrippedPiecesFour(a: seq<string>, b: seq<string>, c: seq<string>, d: seq<string>)
    ensures StrippedPieces(a + b + c + d)
         == StrippedPieces(a) + StrippedPieces(b) + StrippedPieces(c) + StrippedPieces(d)
  {
    StrippedPiecesAppend(a + b + c, d);
    StrippedPiecesAppend(a + b, c);
    StrippedPiecesAppend(a, b);
  }

  /** The stripped pieces of a glued split around a separator line are those of both sides. */
  lemma StrippedPiecesAroundSeparator(A: seq<string>, B: seq<string>)
    requires |A| >= 1 && |B| >= 1
    ensures StrippedPieces(A[..|A| - 1] + [A[|A| - 1] + "\n"] + ["\n" + B[0]] + B[1..])
         == StrippedPieces(A) + StrippedPieces(B)
  {
    var init, last, b0, rest := A[..|A| - 1], A[|A| - 1], B[0], B[1..];
    StrippedPiecesFour(init, [last + "\n"], ["\n" + b0], rest);
    StrippedPiecesOuterNewline(last);
    StrippedPiecesOuterNewline(b0);
    LastSplit(A);
    HeadSplit(B);
    StrippedPiecesAppend(init, [last]);
    StrippedPiecesAppend([b0], rest);
    AppendAssoc(StrippedPieces(init) + StrippedPieces([last]), StrippedPieces([b0]), StrippedPieces(rest));
  }

  /** Putting a separator line between two texts puts their segments one after the other. */
  lemma SegmentsOfSeparatedTexts(a: string, b: string)
    ensures Segments(a + "\n---\n" + b) == Segments(a) + Segments(b)
  {
    SplitSeparatedTexts(a, b);
    StrippedPiecesAroundSeparator(SplitOnSeparator(a, true), SplitOnSeparator(b, true));
  }

  /** A separator on the first line opens an empty piece, and the newline after it starts the
      next one. */
  lemma SplitLeading(b: string)
    ensures var B := SplitOnSeparator(b, true);
            SplitOnSeparator("---\n" + b, true) == [""] + (["\n" + B[0]] + B[1..])
  {
    var B := SplitOnSeparator(b, true);
    var nb := "\n" + b;
    assert nb[1..] == b;
    assert SplitOnSeparator(nb, false) == [['\n'] + B[0]] + B[1..];
    assert ['\n'] + B[0] == "\n" + B[0];
    var s := "---\n" + b;
    assert s == "---" + nb;
    assert SeparatorAtHead(s) && s[3..] == nb;
  }

  /** A separator line that opens the document adds no segment. */
  lemma SegmentsAfterLeadingSeparator(b: string)
    ensures Segments("---\n" + b) == Segments(b)
  {
    var B := SplitOnSeparator(b, true);
    SplitLeading(b);
    StrippedPiecesAppend([""], ["\n" + B[0]] + B[1..]);
    StrippedPiecesOne("");
    StrippedPiecesAppend(["\n" + B[0]], B[1..]);
    StrippedPiecesOuterNewline(B[0]);
    StrippedPiecesAppend([B[0]], B[1..]);
    HeadSplit(B);
    assert StrippedPieces([""]) == [];
  }

  /** A separator on the last line closes the last piece with its newline and opens an empty
      piece. */
  lemma SplitTrailingSeparatorLine()
    ensures SplitOnSeparator("\n---", false) == ["\n", ""]
  {
    var t := "---";
    assert SeparatorAtHead(t) && t[3..] == [];
    assert SplitOnSeparator([], false) == [""];
    var T := SplitOnSeparator(t, true);
    assert T == ["", ""];
    var u := "\n---";
    assert u[0] == '\n' && u[1..] == t;
    assert SplitOnSeparator(u, false) == [['\n'] + T[0]] + T[1..];
    assert ['\n'] + T[0] == "\n" && T[1..] == [""];
  }

  /** A separator line that closes the document adds no segment. */
  lemma SegmentsBeforeTrailingSeparator(a: string)
    ensures Segments(a + "\n---") == Segments(a)
  {
    var A := SplitOnSeparator(a, true);
    SplitAppendAtNewline(a, "\n---", true);
    SplitTrailingSeparatorLine();
    GlueTrailingPieces(A);
    StrippedPiecesBeforeEmpty(A);
  }

  lemma GlueTrailingPieces(A: seq<string>)
    requires |A| >= 1
    ensures Glue(A, ["\n", ""]) == A[..|A| - 1] + [A[|A| - 1] + "\n"] + [""]
  {
  }

  /** A newline closing the last piece and an empty piece after it change no stripped piece. */
  lemma StrippedPiecesBeforeEmpty(A: seq<string>)
    requires |A| >= 1
    ensures StrippedPieces(A[..|A| - 1] + [A[|A| - 1] + "\n"] + [""]) == StrippedPieces(A)
  {
    var init, last := A[..|A| - 1], A[|A| - 1];
    StrippedPiecesAppend(init + [last + "\n"], [""]);
    StrippedPiecesAppend(init, [last + "\n"]);
    StrippedPiecesOne("");
    StrippedPiecesOuterNewline(last);
    StrippedPiecesAppend(init, [last]);
    LastSplit(A);
    assert StrippedPieces([""]) == [];
  }

  /** The pieces of two texts with a separator line between them: those of the first, then
      those of the second, with the newlines around the separator kept at the seam. */
  lemma SplitSeparatedTexts(a: string, b: string)
    ensures var A, B := SplitOnSeparator(a, true), SplitOnSeparator(b, true);
            SplitOnSeparator(a + "\n---\n" + b, true) == A[..|A| - 1] + [A[|A| - 1] + "\n"] + ["\n" + B[0]] + B[1..]
  {
    var u := "\n---\n" + b;
    AppendAssoc(a, "\n---\n", b);
    assert u[0] == '\n';
    SplitSeparatorLine(b);
    GlueAtSeparatorLine(a, u, SplitOnSeparator(b, true));
  }

  /** The pieces of `a + u` for a `u` that opens with a separator line. */
  lemma GlueAtSeparatorLine(a: string, u: string, B: seq<string>)
    requires u != [] && u[0] == '\n' && |B| >= 1
    requires SplitOnSeparator(u, false) == ["\n", "\n" + B[0]] + B[1..]
    ensures var A := SplitOnSeparator(a, true);
            SplitOnSeparator(a + u, true) == A[..|A| - 1] + [A[|A| - 1] + "\n"] + ["\n" + B[0]] + B[1..]
  {
    SplitAppendAtNewline(a, u, true);
    GlueSeparatorPieces(SplitOnSeparator(a, true), B);
  }

  lemma GlueSeparatorPieces(A: seq<string>, B: seq<string>)
    requires |A| >= 1 && |B| >= 1
    ensures Glue(A, ["\n", "\n" + B[0]] + B[1..])
         == A[..|A| - 1] + [A[|A| - 1] + "\n"] + ["\n" + B[0]] + B[1..]
  {
    var U := ["\n", "\n" + B[0]] + B[1..];
    assert U[0] == "\n" && U[1..] == ["\n" + B[0]] + B[1..];
  }
}
