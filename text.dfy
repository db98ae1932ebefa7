/** String primitives the converter relies on, stated as Python's `str` methods behave on
    them: `strip`, `lstrip`/`rstrip` with and without a character argument,
    `startswith`/`endswith`, `in`, `split` and `join` on one separator, `re.sub(r'\s+', ' ', ·)`,
    and `str(n)` for a natural number. */
module Text {
  import opened Wrappers

  /** Whitespace as this model fixes it: six of the ten ASCII characters that `str.strip()` and
      the regular-expression class `\s` treat as whitespace. The separators `\x1c` to `\x1f`
      are left out. */
  predicate IsSpace(c: char)
  {
    c == ' ' || c == '\t' || c == '\n' || c == '\r' || c == '\U{B}' || c == '\U{C}'
  }

  /** The regular-expression class `\d`, restricted to ASCII digits. */
  predicate IsDigit(c: char)
  {
    '0' <= c <= '9'
  }

  predicate StartsWith(s: string, prefix: string)
  {
    |prefix| <= |s| && s[..|prefix|] == prefix
  }

  /** A concatenation starts with its left part and continues with its right part. */
  lemma ConcatParts(p: string, q: string)
    ensures StartsWith(p + q, p) && (p + q)[|p|..] == q
  {
    assert (p + q)[..|p|] == p;
  }

  predicate EndsWith(s: string, suffix: string)
  {
    |suffix| <= |s| && s[|s| - |suffix|..] == suffix
  }

  /** `sub in s`. */
  predicate Contains(s: string, sub: string)
    decreases |s|
  {
    StartsWith(s, sub) || (s != [] && Contains(s[1..], sub))
  }

  /** `s.lstrip()`: drops the maximal run of leading whitespace. */
  function LStrip(s: string): (r: string)
    ensures |r| <= |s| && r == s[|s| - |r|..]
    ensures forall i :: 0 <= i < |s| - |r| ==> IsSpace(s[i])
    ensures r == [] || !IsSpace(r[0])
    decreases |s|
  {
    if s != [] && IsSpace(s[0]) then LStrip(s[1..]) else s
  }

  /** `s.rstrip()`: drops the maximal run of trailing whitespace. */
  function RStrip(s: string): (r: string)
    ensures |r| <= |s| && r == s[..|r|]
    ensures forall i :: |r| <= i < |s| ==> IsSpace(s[i])
    ensures r == [] || !IsSpace(r[|r| - 1])
    decreases |s|
  {
    if s != [] && IsSpace(s[|s| - 1]) then RStrip(s[..|s| - 1]) else s
  }

  /** `s.strip()`. */
  function Strip(s: string): (r: string)
    ensures Trimmed(r)
    ensures |r| <= |s|
  {
    RStrip(LStrip(s))
  }

  /** `s.lstrip(c)` for a single character `c`. */
  function LStripChar(s: string, c: char): (r: string)
    ensures |r| <= |s| && r == s[|s| - |r|..]
    ensures forall i :: 0 <= i < |s| - |r| ==> s[i] == c
    ensures r == [] || r[0] != c
    decreases |s|
  {
    if s != [] && s[0] == c then LStripChar(s[1..], c) else s
  }

  /** `s.rstrip(c)` for a single character `c`. */
  function RStripChar(s: string, c: char): (r: string)
    ensures |r| <= |s| && r == s[..|r|]
    ensures forall i :: |r| <= i < |s| ==> s[i] == c
    ensures r == [] || r[|r| - 1] != c
    decreases |s|
  {
    if s != [] && s[|s| - 1] == c then RStripChar(s[..|s| - 1], c) else s
  }

  /** `s.strip(c)` for a single character `c`. */
  function StripChar(s: string, c: char): (r: string)
    ensures r == [] || (r[0] != c && r[|r| - 1] != c)
  {
    RStripChar(LStripChar(s, c), c)
  }

  /** `s.rfind(c)`: the position of the last occurrence of `c`, if any. */
  function LastIndex(s: string, c: char): (r: Option<nat>)
    ensures r.Some? ==> r.value < |s| && s[r.value] == c && c !in s[r.value + 1..]
    ensures r.None? ==> c !in s
    decreases |s|
  {
    if s == [] then None
    else if s[|s| - 1] == c then Some(|s| - 1)
    else
      var r := LastIndex(s[..|s| - 1], c);
      assert s == s[..|s| - 1] + [s[|s| - 1]];
      r
  }

  /** `s.index(c)`: the position of the first occurrence of `c`. */
  function FirstIndex(s: string, c: char): (r: nat)
    requires c in s
    ensures r < |s| && s[r] == c && c !in s[..r]
    decreases |s|
  {
    if s[0] == c then 0
    else
      assert c in s[1..];
      var k := FirstIndex(s[1..], c);
      assert s[..k + 1] == [s[0]] + s[1..][..k];
      k + 1
  }

  /** The first `c` of `x + t` is the head of `t` when `x` has none. */
  lemma {:induction false} FirstIndexAfter(x: string, t: string, c: char)
    requires c !in x && t != [] && t[0] == c
    ensures c in x + t && FirstIndex(x + t, c) == |x|
    decreases |x|
  {
    var s := x + t;
    if x == [] {
      assert s == t;
    } else {
      assert s[0] == x[0] && s[1..] == x[1..] + t;
      FirstIndexAfter(x[1..], t, c);
    }
  }

  /** No whitespace at either end. */
  predicate Trimmed(s: string)
  {
    s == [] || (!IsSpace(s[0]) && !IsSpace(s[|s| - 1]))
  }

  /** Every whitespace character is a plain space and no two whitespace characters are
      adjacent (stated one position at a time, so that proofs unfold it by induction). */
  ghost predicate SingleSpaced(s: string)
    decreases |s|
  {
    s == [] || ((IsSpace(s[0]) ==> s[0] == ' ' && (|s| == 1 || !IsSpace(s[1]))) && SingleSpaced(s[1..]))
  }

  /** The whitespace normal form that the cleaning passes produce. */
  ghost predicate Normalized(s: string)
  {
    SingleSpaced(s) && Trimmed(s)
  }

  /** `re.sub(r'\s+', ' ', s)`: every maximal run of whitespace becomes one space. */
  function CollapseSpaces(s: string): (r: string)
    ensures SingleSpaced(r)
    ensures r == [] <==> s == []
    ensures s != [] ==> (IsSpace(r[0]) <==> IsSpace(s[0]))
    decreases |s|
  {
    if s == [] then []
    else if IsSpace(s[0]) then [' '] + CollapseSpaces(LStrip(s))
    else [s[0]] + CollapseSpaces(s[1..])
  }

  /** `re.sub(r'\s+', ' ', s).strip()`, the tail shared by both cleaning passes. */
  function NormalizeSpaces(s: string): (r: string)
    ensures Normalized(r)
  {
    var c := CollapseSpaces(s);
    var l := LStrip(c);
    SingleSpacedSlice(c, |c| - |l|, |c|);
    SingleSpacedSlice(l, 0, |RStrip(l)|);
    RStrip(l)
  }

  lemma {:induction false} SingleSpacedSuffix(s: string, a: nat)
    requires a <= |s| && SingleSpaced(s)
    ensures SingleSpaced(s[a..])
    decreases a
  {
    if a > 0 {
      assert s[1..][a - 1..] == s[a..];
      SingleSpacedSuffix(s[1..], a - 1);
    }
  }

  lemma {:induction false} SingleSpacedPrefix(s: string, b: nat)
    requires b <= |s| && SingleSpaced(s)
    ensures SingleSpaced(s[..b])
    decreases b
  {
    if b > 0 {
      assert s[..b][1..] == s[1..][..b - 1];
      SingleSpacedPrefix(s[1..], b - 1);
    }
  }

  lemma SingleSpacedSlice(s: string, a: nat, b: nat)
    requires a <= b <= |s| && SingleSpaced(s)
    ensures SingleSpaced(s[a..b])
  {
    SingleSpacedSuffix(s, a);
    SingleSpacedPrefix(s[a..], b - a);
    assert s[a..][..b - a] == s[a..b];
  }

  /** Collapsing changes nothing in a string that is already single-spaced. */
  lemma {:induction false} CollapseSingleSpaced(s: string)
    requires SingleSpaced(s)
    ensures CollapseSpaces(s) == s
    decreases |s|
  {
    if s != [] {
      CollapseSingleSpaced(s[1..]);
      if IsSpace(s[0]) {
        assert |s| == 1 || !IsSpace(s[1]);
        assert LStrip(s) == LStrip(s[1..]) == s[1..];
      }
    }
  }

  /** The normal form is a fixpoint: normalizing a normalized string changes nothing, so
      `NormalizeSpaces` is idempotent. */
  lemma NormalizeFixpoint(s: string)
    requires Normalized(s)
    ensures NormalizeSpaces(s) == s
    ensures NormalizeSpaces(NormalizeSpaces(s)) == NormalizeSpaces(s)
  {
    CollapseSingleSpaced(s);
    assert LStrip(s) == s;
    assert RStrip(s) == s;
  }

  /** Stripping ignores one more whitespace character at either end. */
  lemma StripIgnoresOuterSpace(s: string, c: char)
    requires IsSpace(c)
    ensures Strip([c] + s) == Strip(s)
    ensures Strip(s + [c]) == Strip(s)
  {
    StripSpaceBefore(s, c);
    StripSpaceAfter(s, c);
  }

  lemma StripSpaceBefore(s: string, c: char)
    requires IsSpace(c)
    ensures Strip([c] + s) == Strip(s)
  {
    var t := [c] + s;
    assert t[0] == c && t[1..] == s;
    LStripSpaceFirst(t);
  }

  lemma LStripSpaceFirst(t: string)
    requires t != [] && IsSpace(t[0])
    ensures LStrip(t) == LStrip(t[1..])
  {
  }

  lemma StripSpaceAfter(s: string, c: char)
    requires IsSpace(c)
    ensures Strip(s + [c]) == Strip(s)
  {
    LStripAppendSpace(s, c);
    var l := LStrip(s);
    if l != [] {
      RStripAppendSpace(l, c);
    }
  }

  lemma LStripSpaceHead(t: string)
    ensures LStrip(" " + t) == LStrip(t)
  {
    assert (" " + t)[1..] == t;
  }

  lemma LStripUnspaced(t: string)
    requires t == [] || !IsSpace(t[0])
    ensures LStrip(t) == t
  {
  }

  lemma StripTrimmed(s: string)
    requires Trimmed(s)
    ensures Strip(s) == s
  {
  }

  /** `lstrip(c)` removes exactly a leading run of `c`. */
  lemma {:induction false} LStripCharOver(t: string, x: string, c: char)
    requires forall i :: 0 <= i < |t| ==> t[i] == c
    requires x == [] || x[0] != c
    ensures LStripChar(t + x, c) == x
    decreases |t|
  {
    if t == [] {
      assert t + x == x;
    } else {
      assert (t + x)[1..] == t[1..] + x;
      LStripCharOver(t[1..], x, c);
    }
  }

  /** Text in whitespace normal form is on one line. */
  lemma {:induction false} NormalizedHasNoNewline(s: string)
    requires SingleSpaced(s)
    ensures '\n' !in s
    decreases |s|
  {
    if s != [] {
      NormalizedHasNoNewline(s[1..]);
      assert s == [s[0]] + s[1..];
    }
  }

  /** Right-stripping a text whose left part ends in a non-space only strips the right part. */
  lemma {:induction false} RStripConcat(x: string, y: string)
    requires x != [] && !IsSpace(x[|x| - 1])
    ensures RStrip(x + y) == if RStrip(y) == [] then x else x + RStrip(y)
    decreases |y|
  {
    var s := x + y;
    if y == [] {
      assert s == x;
    } else {
      assert s[|s| - 1] == y[|y| - 1];
      if IsSpace(y[|y| - 1]) {
        assert s[..|s| - 1] == x + y[..|y| - 1];
        RStripConcat(x, y[..|y| - 1]);
      }
    }
  }

  lemma RStripAppendSpace(l: string, c: char)
    requires IsSpace(c)
    ensures RStrip(l + [c]) == RStrip(l)
  {
    assert (l + [c])[..|l + [c]| - 1] == l;
  }

  lemma {:induction false} LStripAppendSpace(s: string, c: char)
    requires IsSpace(c)
    ensures LStrip(s + [c]) == if LStrip(s) == [] then [] else LStrip(s) + [c]
    decreases |s|
  {
    if s == [] {
      assert LStrip([c]) == LStrip([c][1..]);
    } else if IsSpace(s[0]) {
      assert (s + [c])[1..] == s[1..] + [c];
      LStripAppendSpace(s[1..], c);
    }
  }

  /** Text without whitespace is in whitespace normal form. */
  lemma {:induction false} NoSpaceNormalized(s: string)
    requires forall i :: 0 <= i < |s| ==> !IsSpace(s[i])
    ensures Normalized(s)
    decreases |s|
  {
    if s != [] {
      NoSpaceNormalized(s[1..]);
    }
  }

  /** Between two words without whitespace, a run of whitespace normalizes to one space. */
  lemma SpaceRunBetweenWords(x: string, sp: string, y: string)
    requires x != [] && forall i :: 0 <= i < |x| ==> !IsSpace(x[i])
    requires sp != [] && forall i :: 0 <= i < |sp| ==> IsSpace(sp[i])
    requires y != [] && forall i :: 0 <= i < |y| ==> !IsSpace(y[i])
    ensures NormalizeSpaces(x + sp + y) == x + " " + y
  {
    AppendAssoc(x, sp, y);
    CollapsePlain(x, sp + y);
    CollapseRun(sp, y);
    CollapsePlain(y, []);
    assert y + [] == y;
    AppendAssoc(x, " ", y);
    NormalizeCollapsed(x + sp + y, x + " " + y);
  }

  /** Two words without whitespace joined by one space are in whitespace normal form. */
  lemma TwoWordsNormalized(x: string, y: string)
    requires x != [] && forall i :: 0 <= i < |x| ==> !IsSpace(x[i])
    requires y != [] && forall i :: 0 <= i < |y| ==> !IsSpace(y[i])
    ensures Normalized(x + " " + y)
  {
    TwoWordsSingleSpaced(x, y);
  }

  lemma {:induction false} TwoWordsSingleSpaced(x: string, y: string)
    requires forall i :: 0 <= i < |x| ==> !IsSpace(x[i])
    requires y != [] && forall i :: 0 <= i < |y| ==> !IsSpace(y[i])
    ensures SingleSpaced(x + " " + y)
    decreases |x|
  {
    var s := x + " " + y;
    if x == [] {
      assert s == " " + y && s[1..] == y && s[1] == y[0];
      NoSpaceNormalized(y);
    } else {
      assert s[0] == x[0] && s[1..] == x[1..] + " " + y;
      TwoWordsSingleSpaced(x[1..], y);
    }
  }

  /** `rstrip(c)` removes exactly a trailing run of `c`. */
  lemma {:induction false} RStripCharOver(x: string, t: string, c: char)
    requires x == [] || x[|x| - 1] != c
    requires forall i :: 0 <= i < |t| ==> t[i] == c
    ensures RStripChar(x + t, c) == x
    decreases |t|
  {
    if t == [] {
      assert x + t == x;
    } else {
      assert (x + t)[..|x + t| - 1] == x + t[..|t| - 1];
      RStripCharOver(x, t[..|t| - 1], c);
    }
  }

  /** Collapsing a text that starts with a non-space keeps that character. */
  lemma CollapseHead(x: string, t: string)
    requires x != [] && !IsSpace(x[0])
    ensures CollapseSpaces(x + t) == [x[0]] + CollapseSpaces(x[1..] + t)
  {
    var s := x + t;
    assert s[0] == x[0] && s[1..] == x[1..] + t;
  }

  /** Collapsing leaves text without whitespace as it is. */
  lemma {:induction false} CollapsePlain(x: string, t: string)
    requires forall i :: 0 <= i < |x| ==> !IsSpace(x[i])
    ensures CollapseSpaces(x + t) == x + CollapseSpaces(t)
    decreases |x|
  {
    if x == [] {
      assert x + t == t;
    } else {
      CollapseHead(x, t);
      CollapsePlain(x[1..], t);
      AppendAssoc([x[0]], x[1..], CollapseSpaces(t));
      assert [x[0]] + x[1..] == x;
    }
  }

  lemma {:induction false} LStripOver(sp: string, t: string)
    requires forall i :: 0 <= i < |sp| ==> IsSpace(sp[i])
    requires t == [] || !IsSpace(t[0])
    ensures LStrip(sp + t) == t
    decreases |sp|
  {
    if sp == [] {
      assert sp + t == t;
    } else {
      assert (sp + t)[1..] == sp[1..] + t;
      LStripOver(sp[1..], t);
    }
  }

  /** Collapsing turns a whole run of whitespace into one space. */
  lemma CollapseRun(sp: string, t: string)
    requires sp != [] && forall i :: 0 <= i < |sp| ==> IsSpace(sp[i])
    requires t == [] || !IsSpace(t[0])
    ensures CollapseSpaces(sp + t) == " " + CollapseSpaces(t)
  {
    assert (sp + t)[0] == sp[0];
    LStripOver(sp, t);
  }

  /** Normalizing a text whose collapsed form has no whitespace at either end gives that form. */
  lemma NormalizeCollapsed(u: string, c: string)
    requires CollapseSpaces(u) == c && Trimmed(c)
    ensures NormalizeSpaces(u) == c
  {
  }

  /** A pattern whose first two characters recur nowhere inside it, one after the other, and
      whose last character differs from its first, cannot match across the border of `pre`. */
  lemma NotAcross(p: string, pre: string, t: string)
    requires |p| >= 2 && p[|p| - 1] != p[0]
    requires forall m :: 1 <= m < |p| - 1 ==> p[m] != p[0] || p[m + 1] != p[1]
    requires pre != [] && !StartsWith(pre, p) && StartsWith(t, p)
    ensures !StartsWith(pre + t, p)
  {
    if |pre| < |p| && StartsWith(pre + t, p) {
      AcrossChars(p, pre, t);
    }
  }

  /** Where a match would run from `pre` into `t`, the characters of `t` it meets. */
  lemma AcrossChars(p: string, pre: string, t: string)
    requires |pre| < |p| && StartsWith(pre + t, p) && StartsWith(t, p) && |p| >= 2
    ensures p[|pre|] == p[0] && (|pre| + 1 < |p| ==> p[|pre| + 1] == p[1])
  {
    var s := pre + t;
    var m := |pre|;
    assert s[..|p|][m] == s[m] == t[0];
    if m + 1 < |p| {
      assert s[..|p|][m + 1] == s[m + 1] == t[1];
    }
  }

  /** `str.split(sep)` for a one-character separator: always at least one piece. */
  function Split(s: string, sep: char): (r: seq<string>)
    ensures |r| >= 1
    ensures forall k :: 0 <= k < |r| ==> sep !in r[k]
    decreases |s|
  {
    if s == [] then [[]]
    else
      var rest := Split(s[1..], sep);
      if s[0] == sep then [[]] + rest else [[s[0]] + rest[0]] + rest[1..]
  }

  /** `sep.join(parts)`. */
  function Join(parts: seq<string>, sep: string): string
    decreases |parts|
  {
    if |parts| == 0 then []
    else if |parts| == 1 then parts[0]
    else parts[0] + sep + Join(parts[1..], sep)
  }

  lemma JoinCons(x: string, parts: seq<string>, sep: string)
    requires |parts| >= 1
    ensures Join([x] + parts, sep) == x + sep + Join(parts, sep)
  {
    assert ([x] + parts)[1..] == parts;
  }

  lemma JoinPrepend(c: char, parts: seq<string>, sep: string)
    requires |parts| >= 1
    ensures Join([[c] + parts[0]] + parts[1..], sep) == [c] + Join(parts, sep)
  {
    if |parts| > 1 {
      assert ([[c] + parts[0]] + parts[1..])[1..] == parts[1..];
    }
  }

  /** A join cut between two pieces. */
  lemma {:induction false} JoinAt(parts: seq<string>, k: nat, sep: string)
    requires 0 < k < |parts|
    ensures Join(parts, sep) == Join(parts[..k], sep) + sep + Join(parts[k..], sep)
    decreases k
  {
    if k > 1 {
      var tail := parts[1..];
      JoinAt(tail, k - 1, sep);
      assert tail[..k - 1] == parts[1..k] && tail[k - 1..] == parts[k..];
      assert parts[..k][1..] == parts[1..k];
      JoinCons(parts[0], parts[1..k], sep);
      assert [parts[0]] + parts[1..k] == parts[..k];
    } else {
      assert parts[..1] == [parts[0]];
    }
  }

  /** Joining the pieces of a split with the separator gives back the original string. */
  lemma {:induction false} JoinSplit(s: string, sep: char)
    ensures Join(Split(s, sep), [sep]) == s
    decreases |s|
  {
    if s != [] {
      var rest := Split(s[1..], sep);
      JoinSplit(s[1..], sep);
      if s[0] == sep {
        JoinCons([], rest, [sep]);
      } else {
        JoinPrepend(s[0], rest, [sep]);
      }
    }
  }

  /** A string is the parts before its `k`-th separator and the parts after it, joined. */
  lemma SplitAround(s: string, sep: char, k: nat)
    requires 0 < k < |Split(s, sep)|
    ensures s == Join(Split(s, sep)[..k], [sep]) + [sep] + Join(Split(s, sep)[k..], [sep])
  {
    JoinSplit(s, sep);
    JoinAt(Split(s, sep), k, [sep]);
  }

  lemma {:induction false} SplitNoSep(x: string, y: string, sep: char)
    requires sep !in x
    ensures Split(x + y, sep) == [x + Split(y, sep)[0]] + Split(y, sep)[1..]
    decreases |x|
  {
    if x != [] {
      var t := Split(y, sep);
      assert (x + y)[0] == x[0] != sep;
      assert (x + y)[1..] == x[1..] + y;
      assert sep !in x[1..];
      SplitNoSep(x[1..], y, sep);
      var r := Split(x[1..] + y, sep);
      assert Split(x + y, sep) == [[x[0]] + r[0]] + r[1..];
      assert r[0] == x[1..] + t[0] && r[1..] == t[1..];
      assert [x[0]] + (x[1..] + t[0]) == x + t[0];
    } else {
      var t := Split(y, sep);
      assert x + y == y && x + t[0] == t[0];
      assert [t[0]] + t[1..] == t;
    }
  }

  /** The last piece of a split is what follows the last separator. */
  lemma {:induction false} SplitLastPiece(s: string, sep: char, y: string)
    requires sep !in y
    ensures var r := Split(s + [sep] + y, sep);
            |r| >= 2 && r[|r| - 1] == y
    decreases |s|
  {
    var t := s + [sep] + y;
    if s == [] {
      assert t == [sep] + y && t[1..] == y + [];
      SplitNoSep(y, [], sep);
      assert y + [] == y;
    } else {
      assert t[0] == s[0] && t[1..] == s[1..] + [sep] + y;
      SplitLastPiece(s[1..], sep, y);
    }
  }

  /** Splitting a join of separator-free pieces gives back the pieces. */
  lemma {:induction false} SplitJoin(parts: seq<string>, sep: char)
    requires |parts| >= 1
    requires forall k :: 0 <= k < |parts| ==> sep !in parts[k]
    ensures Split(Join(parts, [sep]), sep) == parts
    decreases |parts|
  {
    if |parts| == 1 {
      SplitNoSep(parts[0], [], sep);
      assert parts[0] + [] == parts[0];
      assert Split([], sep) == [[]];
    } else {
      var tail := Join(parts[1..], [sep]);
      SplitJoin(parts[1..], sep);
      assert Join(parts, [sep]) == parts[0] + ([sep] + tail);
      SplitNoSep(parts[0], [sep] + tail, sep);
      assert ([sep] + tail)[1..] == tail;
      assert Split([sep] + tail, sep) == [[]] + parts[1..];
      assert parts[0] + [] == parts[0];
      assert [parts[0]] + parts[1..] == parts;
    }
  }

  function DigitChar(d: nat): (c: char)
    requires d < 10
    ensures IsDigit(c)
  {
    ('0' as int + d) as char
  }

  /** `str(n)` for a natural number: its decimal digits, without leading zeros. */
  function NatToString(n: nat): (r: string)
    ensures |r| >= 1
    ensures forall i :: 0 <= i < |r| ==> IsDigit(r[i])
    ensures r[0] == '0' ==> n == 0 && |r| == 1
    decreases n
  {
    if n < 10 then [DigitChar(n)] else NatToString(n / 10) + [DigitChar(n % 10)]
  }

  /** The value of a string of decimal digits (what `int(s)` computes on such a string). */
  function DecimalValue(s: string): nat
    requires forall i :: 0 <= i < |s| ==> IsDigit(s[i])
    decreases |s|
  {
    if s == [] then 0
    else
      var d := s[|s| - 1] as int - '0' as int;
      assert IsDigit(s[|s| - 1]);
      DecimalValue(s[..|s| - 1]) * 10 + d
  }

  /** Reading back the decimal digits of `n` gives `n`; in particular `NatToString` is injective. */
  lemma {:induction false} DecimalRoundTrip(n: nat)
    ensures DecimalValue(NatToString(n)) == n
    decreases n
  {
    if n >= 10 {
      DecimalRoundTrip(n / 10);
      var r := NatToString(n);
      assert r[..|r| - 1] == NatToString(n / 10);
    }
  }

  lemma NatToStringInjective(m: nat, n: nat)
    requires m != n
    ensures NatToString(m) != NatToString(n)
  {
    DecimalRoundTrip(m);
    DecimalRoundTrip(n);
  }
}
