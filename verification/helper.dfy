/**
 * The two string helpers of the bundle: `camelize`, which produces every
 * default method name (`filterBy…`, `orderBy…`, `get…`), and
 * `fixTwigTemplatePath`, which turns a Symfony template name into a Twig one.
 *
 * Case mapping is ASCII-only, as PHP's `ucwords`/`lcfirst` are in the C
 * locale. The separator of `camelize` is a single character.
 */
module Helper {

  predicate IsAsciiUpper(c: char) {
    'A' <= c <= 'Z'
  }

  predicate IsAsciiLower(c: char) {
    'a' <= c <= 'z'
  }

  function ToUpper(c: char): char {
    if IsAsciiLower(c) then (c as int - 32) as char else c
  }

  function ToLower(c: char): char {
    if IsAsciiUpper(c) then (c as int + 32) as char else c
  }

  /** PHP `lcfirst`. */
  function LcFirst(s: string): string {
    if |s| == 0 then s else [ToLower(s[0])] + s[1..]
  }

  /** PHP `str_replace` of one character by another. */
  function ReplaceChar(s: string, a: char, b: char): string {
    if |s| == 0 then [] else [if s[0] == a then b else s[0]] + ReplaceChar(s[1..], a, b)
  }

  /** PHP `str_replace` of one character by the empty string. */
  function RemoveChar(s: string, c: char): string {
    if |s| == 0 then [] else if s[0] == c then RemoveChar(s[1..], c) else [s[0]] + RemoveChar(s[1..], c)
  }

  /** PHP `ucwords($s, $sep)` from the current position: `cap` says whether
      the character at hand starts a word. A character starts a word when
      the character emitted just before it is the delimiter. */
  function UcWordsFrom(s: string, sep: char, cap: bool): string {
    if |s| == 0 then []
    else
      var e := if cap then ToUpper(s[0]) else s[0];
      [e] + UcWordsFrom(s[1..], sep, e == sep)
  }

  /** `Helper::camelize($input, $sep)`: spaces become the separator, every
      word is capitalised, separators are dropped and the first letter is
      lower-cased. */
  function Camelize(s: string, sep: char): (r: string)
    ensures |r| > 0 ==> !IsAsciiUpper(r[0])
  {
    LcFirst(RemoveChar(UcWordsFrom(ReplaceChar(s, ' ', sep), sep, true), sep))
  }

  /** One-pass reading of the same transformation, used as its reference:
      word breaks (the separator or a space) are skipped and the character
      after one is upper-cased. */
  function CamelPass(s: string, sep: char, cap: bool): string {
    if |s| == 0 then []
    else if s[0] == sep || s[0] == ' ' then CamelPass(s[1..], sep, true)
    else [if cap then ToUpper(s[0]) else s[0]] + CamelPass(s[1..], sep, false)
  }

  lemma {:induction false} PipelineIsCamelPass(s: string, sep: char, cap: bool)
    requires !IsAsciiUpper(sep) && !IsAsciiLower(sep)
    ensures RemoveChar(UcWordsFrom(ReplaceChar(s, ' ', sep), sep, cap), sep) == CamelPass(s, sep, cap)
    decreases |s|
  {
    if |s| > 0 {
      PipelineIsCamelPass(s[1..], sep, s[0] == sep || s[0] == ' ' || false);
      PipelineIsCamelPass(s[1..], sep, false);
      PipelineIsCamelPass(s[1..], sep, true);
    }
  }

  /** For a separator that is not an ASCII letter, `camelize` is the
      one-pass reading followed by `lcfirst`. */
  lemma CamelizeIsCamelPass(s: string, sep: char)
    requires !IsAsciiUpper(sep) && !IsAsciiLower(sep)
    ensures Camelize(s, sep) == LcFirst(CamelPass(s, sep, true))
  {
    PipelineIsCamelPass(s, sep, true);
  }

  lemma {:induction false} CamelPassDropsBreaks(s: string, sep: char, cap: bool)
    requires !IsAsciiUpper(sep) && !IsAsciiLower(sep)
    ensures sep !in CamelPass(s, sep, cap) && ' ' !in CamelPass(s, sep, cap)
    decreases |s|
  {
    if |s| > 0 {
      CamelPassDropsBreaks(s[1..], sep, true);
      CamelPassDropsBreaks(s[1..], sep, false);
    }
  }

  /** The output of `camelize` holds neither the separator nor a space. */
  lemma CamelizeHasNoBreaks(s: string, sep: char)
    requires !IsAsciiUpper(sep) && !IsAsciiLower(sep)
    ensures sep !in Camelize(s, sep) && ' ' !in Camelize(s, sep)
  {
    CamelizeIsCamelPass(s, sep);
    var p := CamelPass(s, sep, true);
    CamelPassDropsBreaks(s, sep, true);
    if |p| > 0 {
      assert LcFirst(p) == [ToLower(p[0])] + p[1..];
      assert p[0] in p;
    }
  }

  /** With a letter as separator `lcfirst` can bring the separator back. */
  lemma CamelizeLetterSeparatorExample()
    ensures Camelize("A", 'a') == "a"
  {
  }

  lemma {:induction false} CamelPassAfterBreak(a: string, x: char, t: string, sep: char, cap: bool)
    requires x == sep || x == ' '
    ensures CamelPass(a + [x] + t, sep, cap) == CamelPass(a, sep, cap) + CamelPass(t, sep, true)
    decreases |a|
  {
    if |a| == 0 {
      assert a + [x] + t == [x] + t;
      assert ([x] + t)[1..] == t;
    } else {
      assert (a + [x] + t)[1..] == a[1..] + [x] + t;
      CamelPassAfterBreak(a[1..], x, t, sep, true);
      CamelPassAfterBreak(a[1..], x, t, sep, false);
    }
  }

  lemma CamelPassUppercasesAfterBreak(a: string, x: char, c: char, b: string, sep: char)
    requires x == sep || x == ' '
    requires c != sep && c != ' '
    ensures CamelPass(a + [x, c] + b, sep, true) == CamelPass(a, sep, true) + [ToUpper(c)] + CamelPass(b, sep, false)
  {
    assert a + [x, c] + b == a + [x] + ([c] + b);
    CamelPassAfterBreak(a, x, [c] + b, sep, true);
    assert ([c] + b)[1..] == b;
  }

  lemma CamelizeSplitsAfterBreak(a: string, x: char, c: char, b: string, sep: char)
    requires !IsAsciiUpper(sep) && !IsAsciiLower(sep)
    requires x == sep || x == ' '
    requires c != sep && c != ' '
    ensures Camelize(a + [x, c] + b, sep) == LcFirst(CamelPass(a, sep, true) + ([ToUpper(c)] + CamelPass(b, sep, false)))
  {
    CamelizeIsCamelPass(a + [x, c] + b, sep);
    CamelPassUppercasesAfterBreak(a, x, c, b, sep);
  }

  /** Every character that follows a separator or a space is upper-cased in
      the output of `camelize`, unless nothing precedes it in the output, in
      which case `lcfirst` lower-cases it. */
  lemma CamelizeUppercasesAfterBreak(a: string, x: char, c: char, b: string, sep: char)
    requires !IsAsciiUpper(sep) && !IsAsciiLower(sep)
    requires x == sep || x == ' '
    requires c != sep && c != ' '
    ensures var p := CamelPass(a, sep, true);
      |p| > 0 ==> Camelize(a + [x, c] + b, sep) == LcFirst(p) + [ToUpper(c)] + CamelPass(b, sep, false)
    ensures CamelPass(a, sep, true) == [] ==>
      Camelize(a + [x, c] + b, sep) == [ToLower(ToUpper(c))] + CamelPass(b, sep, false)
  {
    CamelizeSplitsAfterBreak(a, x, c, b, sep);
    var p := CamelPass(a, sep, true);
    var rest := [ToUpper(c)] + CamelPass(b, sep, false);
    if |p| > 0 {
      LcFirstConcat(p, rest);
    } else {
      assert p + rest == rest;
    }
  }

  lemma LcFirstConcat(p: string, rest: string)
    requires |p| > 0
    ensures LcFirst(p + rest) == LcFirst(p) + rest
  {
    assert (p + rest)[1..] == p[1..] + rest;
  }

  lemma {:induction false} CamelPassWithoutBreaks(s: string, sep: char)
    requires sep !in s && ' ' !in s
    ensures |s| > 0 ==> CamelPass(s, sep, true) == [ToUpper(s[0])] + s[1..]
    ensures CamelPass(s, sep, false) == s
    decreases |s|
  {
    if |s| > 0 {
      CamelPassWithoutBreaks(s[1..], sep);
      assert s == [s[0]] + s[1..];
    }
  }

  /** `camelize` leaves a string unchanged exactly when it holds no
      separator, no space and does not start with an upper-case letter. */
  lemma CamelizeFixpoint(s: string, sep: char)
    requires !IsAsciiUpper(sep) && !IsAsciiLower(sep)
    ensures Camelize(s, sep) == s <==> sep !in s && ' ' !in s && (|s| > 0 ==> !IsAsciiUpper(s[0]))
  {
    CamelizeHasNoBreaks(s, sep);
    if sep !in s && ' ' !in s && (|s| > 0 ==> !IsAsciiUpper(s[0])) {
      CamelizeIsCamelPass(s, sep);
      CamelPassWithoutBreaks(s, sep);
      if |s| > 0 {
        assert s == [s[0]] + s[1..];
      }
    }
  }

  /** str_replace of one search string by a replacement: occurrences are
      found left to right and do not overlap. */
  function ReplaceAll(s: string, pat: string, rep: string): string
    requires |pat| > 0
    decreases |s|
  {
    if |s| < |pat| then s
    else if s[..|pat|] == pat then rep + ReplaceAll(s[|pat|..], pat, rep)
    else [s[0]] + ReplaceAll(s[1..], pat, rep)
  }

  /** `pat` occurs somewhere in `s`. */
  predicate ContainsSub(s: string, pat: string)
    requires |pat| > 0
    decreases |s|
  {
    |s| >= |pat| && (s[..|pat|] == pat || ContainsSub(s[1..], pat))
  }

  /** `Helper::fixTwigTemplatePath`: every ':' becomes '/', then every
      "Bundle" is deleted from the result. */
  function FixTwigTemplatePath(path: string): string {
    ReplaceAll(ReplaceAll(path, ":", "/"), "Bundle", "")
  }

  lemma {:induction false} ReplaceColonRemovesColons(s: string)
    ensures ':' !in ReplaceAll(s, ":", "/")
    decreases |s|
  {
    if |s| >= 1 {
      ReplaceColonRemovesColons(s[1..]);
      assert s[..1] == [s[0]];
    }
  }

  lemma {:induction false} DeletionKeepsAbsentChar(s: string, pat: string, c: char)
    requires |pat| > 0 && c !in s
    ensures c !in ReplaceAll(s, pat, "")
    decreases |s|
  {
    if |s| >= |pat| {
      if s[..|pat|] == pat {
        DeletionKeepsAbsentChar(s[|pat|..], pat, c);
      } else {
        DeletionKeepsAbsentChar(s[1..], pat, c);
      }
    }
  }

  /** The output of `fixTwigTemplatePath` holds no ':'. */
  lemma FixTwigHasNoColon(path: string)
    ensures ':' !in FixTwigTemplatePath(path)
  {
    ReplaceColonRemovesColons(path);
    DeletionKeepsAbsentChar(ReplaceAll(path, ":", "/"), "Bundle", ':');
  }

  lemma {:induction false} ReplaceAllWithoutOccurrence(s: string, pat: string, rep: string)
    requires |pat| > 0 && !ContainsSub(s, pat)
    ensures ReplaceAll(s, pat, rep) == s
    decreases |s|
  {
    if |s| >= |pat| {
      ReplaceAllWithoutOccurrence(s[1..], pat, rep);
      assert s == [s[0]] + s[1..];
    }
  }

  lemma {:induction false} DeletionShortens(s: string, pat: string)
    requires |pat| > 0
    ensures |ReplaceAll(s, pat, "")| <= |s|
    ensures ContainsSub(s, pat) ==> |ReplaceAll(s, pat, "")| < |s|
    decreases |s|
  {
    if |s| >= |pat| {
      DeletionShortens(s[|pat|..], pat);
      DeletionShortens(s[1..], pat);
    }
  }

  /** `fixTwigTemplatePath` leaves a path unchanged exactly when the path
      holds no ':' and no "Bundle". */
  lemma FixTwigFixpoint(path: string)
    ensures FixTwigTemplatePath(path) == path <==> ':' !in path && !ContainsSub(path, "Bundle")
  {
    FixTwigHasNoColon(path);
    if ':' !in path {
      if ContainsSub(path, ":") {
        ContainsColonIn(path);
      }
      ReplaceAllWithoutOccurrence(path, ":", "/");
      if ContainsSub(path, "Bundle") {
        DeletionShortens(path, "Bundle");
      } else {
        ReplaceAllWithoutOccurrence(path, "Bundle", "");
      }
    }
  }

  lemma {:induction false} ContainsColonIn(s: string)
    requires ContainsSub(s, ":")
    ensures ':' in s
    decreases |s|
  {
    if s[..1] == ":" {
      assert s[0] == ':';
    } else {
      ContainsColonIn(s[1..]);
      assert ':' in s[1..];
    }
  }

  lemma {:induction false} ReplaceAllSkips(a: string, t: string, pat: string, rep: string)
    requires |pat| > 0 && pat[0] !in a
    ensures ReplaceAll(a + t, pat, rep) == a + ReplaceAll(t, pat, rep)
    decreases |a|
  {
    if |a| > 0 {
      var s := a + t;
      assert s[0] == a[0];
      assert |s| >= |pat| ==> s[..|pat|] != pat by {
        if |s| >= |pat| {
          assert s[..|pat|][0] == a[0];
        }
      }
      assert s[1..] == a[1..] + t;
      assert pat[0] !in a[1..];
      ReplaceAllSkips(a[1..], t, pat, rep);
      assert a == [a[0]] + a[1..];
    } else {
      assert a + t == t;
    }
  }

  lemma ReplaceAllAtMatch(t: string, pat: string, rep: string)
    requires |pat| > 0
    ensures ReplaceAll(pat + t, pat, rep) == rep + ReplaceAll(t, pat, rep)
  {
    assert (pat + t)[..|pat|] == pat;
    assert (pat + t)[|pat|..] == t;
  }

  lemma ReplaceAllAtMismatch(s: string, pat: string, rep: string)
    requires |pat| > 0 && |s| >= |pat| && s[..|pat|] != pat
    ensures ReplaceAll(s, pat, rep) == [s[0]] + ReplaceAll(s[1..], pat, rep)
  {
  }

  /** Camelizing a prefix that starts a word, a break and the rest: the
      rest is camelized on its own with its first word capitalised. */
  lemma CamelizePrefix(p: string, x: char, n: string, sep: char)
    requires !IsAsciiUpper(sep) && !IsAsciiLower(sep)
    requires x == sep || x == ' '
    requires |p| > 0 && p[0] != sep && p[0] != ' '
    ensures Camelize(p + [x] + n, sep) == Camelize(p, sep) + CamelPass(n, sep, true)
  {
    CamelizeIsCamelPass(p + [x] + n, sep);
    CamelizeIsCamelPass(p, sep);
    CamelPassAfterBreak(p, x, n, sep, true);
    LcFirstConcat(CamelPass(p, sep, true), CamelPass(n, sep, true));
  }

  /** PHP `ucfirst`, used to state what `camelize` does to a word. */
  function UcFirst(w: string): string {
    if |w| == 0 then w else [ToUpper(w[0])] + w[1..]
  }

  /** Camelizing two words joined by the separator. */
  lemma CamelizeTwoWords(b: string, u: string, sep: char)
    requires !IsAsciiUpper(sep) && !IsAsciiLower(sep)
    requires |b| > 0 && sep !in b && ' ' !in b
    requires sep !in u && ' ' !in u
    ensures Camelize(b + [sep] + u, sep) == LcFirst(UcFirst(b)) + UcFirst(u)
  {
    CamelPassWithoutBreaks(b, sep);
    CamelizeIsCamelPass(b, sep);
    CamelPassWithoutBreaks(u, sep);
    CamelizePrefix(b, sep, u, sep);
  }

  /** Camelizing three words joined by the separator. */
  lemma CamelizeThreeWords(b: string, u: string, t: string, sep: char)
    requires !IsAsciiUpper(sep) && !IsAsciiLower(sep)
    requires |b| > 0 && sep !in b && ' ' !in b
    requires sep !in u && ' ' !in u
    requires sep !in t && ' ' !in t
    ensures Camelize(b + [sep] + u + [sep] + t, sep) == LcFirst(UcFirst(b)) + UcFirst(u) + UcFirst(t)
  {
    CamelizeTwoWords(b, u, sep);
    CamelPassWithoutBreaks(t, sep);
    CamelizePrefix(b + [sep] + u, sep, t, sep);
  }

  /** Camelizing a word, the separator and a name: the word is kept (first
      letter lowered), the name follows with its words capitalised. */
  lemma CamelizeOneWordPrefix(a: string, n: string, sep: char)
    requires !IsAsciiUpper(sep) && !IsAsciiLower(sep)
    requires |a| > 0 && sep !in a && ' ' !in a
    ensures Camelize(a + [sep] + n, sep) == LcFirst(a) + CamelPass(n, sep, true)
  {
    CamelPassWithoutBreaks(a, sep);
    CamelizeIsCamelPass(a, sep);
    CamelizePrefix(a, sep, n, sep);
    assert LcFirst(UcFirst(a)) == LcFirst(a);
  }

  /** Camelizing two words, the separator and a name. */
  lemma CamelizeTwoWordPrefix(a: string, b: string, n: string, sep: char)
    requires !IsAsciiUpper(sep) && !IsAsciiLower(sep)
    requires |a| > 0 && sep !in a && ' ' !in a
    requires sep !in b && ' ' !in b
    ensures Camelize(a + [sep] + b + [sep] + n, sep) == LcFirst(a) + UcFirst(b) + CamelPass(n, sep, true)
  {
    CamelizeTwoWords(a, b, sep);
    CamelizePrefix(a + [sep] + b, sep, n, sep);
    assert LcFirst(UcFirst(a)) == LcFirst(a);
  }

  /* The concrete cases below take their strings as parameters so that the
     verifier follows the proof steps instead of evaluating the strings. */

  lemma CamelizeTestUnderscore(b: string, u: string, t: string)
    requires b == "some" && u == "underscore" && t == "string"
    ensures Camelize(b + "_" + u + "_" + t, '_') == "some" + "Underscore" + "String"
  {
    UnderscoreWords(b, u, t);
    CamelizeThreeWords(b, u, t, '_');
    assert b + "_" + u + "_" + t == b + ['_'] + u + ['_'] + t;
  }

  lemma UnderscoreWords(b: string, u: string, t: string)
    requires b == "some" && u == "underscore" && t == "string"
    ensures |b| > 0 && '_' !in b && ' ' !in b && '_' !in u && ' ' !in u && '_' !in t && ' ' !in t
    ensures LcFirst(UcFirst(b)) == "some" && UcFirst(u) == "Underscore" && UcFirst(t) == "String"
  {
    WordWithoutBreaks(b, '_');
    WordWithoutBreaks(u, '_');
    WordWithoutBreaks(t, '_');
    assert UcFirst(u) == ['U'] + u[1..];
    assert UcFirst(t) == ['S'] + t[1..];
  }

  lemma CamelizeTestUnchanged(s: string)
    requires s == "thisShouldNotBeChanged"
    ensures Camelize(s, '_') == s
  {
    UnchangedWord(s);
    CamelizeFixpoint(s, '_');
  }

  lemma UnchangedWord(s: string)
    requires s == "thisShouldNotBeChanged"
    ensures '_' !in s && ' ' !in s && |s| > 0 && !IsAsciiUpper(s[0])
  {
    WordWithoutBreaks(s, '_');
  }

  /** "This-is_malformedString" camelized with '-' as separator. */
  lemma CamelizeTestDash(w: string, rest: string)
    requires w == "This" && rest == "is_malformedString"
    ensures Camelize(w + "-" + rest, '-') == "this" + "Is_malformedString"
  {
    DashWords(w, rest);
    CamelizeTwoWords(w, rest, '-');
    assert w + "-" + rest == w + ['-'] + rest;
  }

  lemma DashWords(w: string, rest: string)
    requires w == "This" && rest == "is_malformedString"
    ensures |w| > 0 && '-' !in w && ' ' !in w && '-' !in rest && ' ' !in rest
    ensures LcFirst(UcFirst(w)) == "this" && UcFirst(rest) == "Is_malformedString"
  {
    WordWithoutBreaks(w, '-');
    WordWithoutBreaks(rest, '-');
    assert UcFirst(rest) == ['I'] + rest[1..];
  }

  /** A word none of whose characters is a break. */
  lemma WordWithoutBreaks(s: string, sep: char)
    requires forall i :: 0 <= i < |s| ==> s[i] != sep && s[i] != ' '
    ensures sep !in s && ' ' !in s
  {
  }

  /** "This-is_malformedString" camelized with the default '_'. */
  lemma CamelizeTestUnderscoreOnDashed(w: string, rest: string)
    requires w == "This-is" && rest == "malformedString"
    ensures Camelize(w + "_" + rest, '_') == "this-is" + "MalformedString"
  {
    DashedWords(w, rest);
    CamelizeTwoWords(w, rest, '_');
    assert w + "_" + rest == w + ['_'] + rest;
  }

  lemma DashedWords(w: string, rest: string)
    requires w == "This-is" && rest == "malformedString"
    ensures |w| > 0 && '_' !in w && ' ' !in w && '_' !in rest && ' ' !in rest
    ensures LcFirst(UcFirst(w)) == "this-is" && UcFirst(rest) == "MalformedString"
  {
    WordWithoutBreaks(w, '_');
    WordWithoutBreaks(rest, '_');
    assert UcFirst(rest) == ['M'] + rest[1..];
  }

  /** A deletion or replacement never spans a character that the pattern
      does not contain. */
  lemma {:induction false} ReplaceAllSplit(x: string, c: char, y: string, pat: string, rep: string)
    requires |pat| > 0 && c !in pat
    ensures ReplaceAll(x + [c] + y, pat, rep) == ReplaceAll(x, pat, rep) + [c] + ReplaceAll(y, pat, rep)
    decreases |x|
  {
    var s := x + [c] + y;
    if |x| < |pat| <= |s| {
      PatternNotAcross(x, c, y, pat);
    }
    if |s| < |pat| {
      ReplaceAllShort(x, pat, rep);
      ReplaceAllShort(y, pat, rep);
    } else if s[..|pat|] == pat {
      assert x[..|pat|] == pat;
      assert s[|pat|..] == x[|pat|..] + [c] + y;
      ReplaceAllSplit(x[|pat|..], c, y, pat, rep);
    } else if |x| == 0 {
      assert s == [c] + y;
      assert s[1..] == y;
    } else {
      assert s[1..] == x[1..] + [c] + y;
      ReplaceAllSplit(x[1..], c, y, pat, rep);
      if |x| < |pat| {
        ReplaceAllShort(x, pat, rep);
        ReplaceAllShort(x[1..], pat, rep);
        assert x == [x[0]] + x[1..];
      } else {
        assert x[..|pat|] == s[..|pat|];
      }
    }
  }

  /** A pattern without `c` cannot start before a `c` and reach past it. */
  lemma PatternNotAcross(x: string, c: char, y: string, pat: string)
    requires c !in pat && |x| < |pat| <= |x + [c] + y|
    ensures (x + [c] + y)[..|pat|] != pat
  {
    assert (x + [c] + y)[..|pat|][|x|] == c;
  }

  lemma ReplaceAllShort(s: string, pat: string, rep: string)
    requires |pat| > 0 && |s| < |pat|
    ensures ReplaceAll(s, pat, rep) == s
  {
  }

  /** A one-character pattern splits the subject at each of its
      occurrences. */
  lemma {:induction false} ReplaceAllSplitAtPattern(x: string, pat: string, y: string, rep: string)
    requires |pat| == 1
    ensures ReplaceAll(x + pat + y, pat, rep) == ReplaceAll(x, pat, rep) + rep + ReplaceAll(y, pat, rep)
    decreases |x|
  {
    var s := x + pat + y;
    if |x| == 0 {
      assert s == pat + y;
      ReplaceAllAtMatch(y, pat, rep);
    } else {
      assert s[..1] == [x[0]] == x[..1];
      assert s[1..] == x[1..] + pat + y;
      ReplaceAllSplitAtPattern(x[1..], pat, y, rep);
    }
  }

  lemma NoColonIn(s: string)
    requires ':' !in s
    ensures ReplaceAll(s, ":", "/") == s
  {
    ReplaceAllSkips(s, [], ":", "/");
    assert s + [] == s;
  }

  lemma ReplaceColons(x: string, y: string, z: string)
    requires ':' !in x && ':' !in y && ':' !in z
    ensures ReplaceAll(x + ":" + y + ":" + z, ":", "/") == x + "/" + y + "/" + z
  {
    ReplaceAllSplitAtPattern(x + ":" + y, ":", z, "/");
    ReplaceAllSplitAtPattern(x, ":", y, "/");
    NoColonIn(x);
    NoColonIn(y);
    NoColonIn(z);
  }

  /** The three-segment case of `FixTwigSegments`, in closed form. */
  lemma FixTwigThreeSegments(x: string, y: string, z: string)
    requires ':' !in x && ':' !in y && ':' !in z
    ensures FixTwigTemplatePath(x + ":" + y + ":" + z)
         == ReplaceAll(x, "Bundle", "") + "/" + ReplaceAll(y, "Bundle", "") + "/" + ReplaceAll(z, "Bundle", "")
  {
    ReplaceColons(x, y, z);
    BundleSegments(x, y, z);
  }

  lemma BundleSegments(x: string, y: string, z: string)
    ensures ReplaceAll(x + "/" + y + "/" + z, "Bundle", "")
         == ReplaceAll(x, "Bundle", "") + "/" + ReplaceAll(y, "Bundle", "") + "/" + ReplaceAll(z, "Bundle", "")
  {
    ReplaceAllSplit(x + "/" + y, '/', z, "Bundle", "");
    ReplaceAllSplit(x, '/', y, "Bundle", "");
  }

  /** The segments joined by `sep`. */
  function Join(segs: seq<string>, sep: string): string {
    if |segs| == 0 then ""
    else if |segs| == 1 then segs[0]
    else segs[0] + sep + Join(segs[1..], sep)
  }

  /** PHP `explode($c, $s)`: the pieces between the occurrences of `c`. */
  function Split(s: string, c: char): (r: seq<string>)
    ensures |r| >= 1
    ensures forall i :: 0 <= i < |r| ==> c !in r[i]
    ensures Join(r, [c]) == s
    decreases |s|
  {
    if |s| == 0 then [""]
    else
      var rest := Split(s[1..], c);
      if s[0] == c then
        assert Join([""] + rest, [c]) == [c] + Join(rest, [c]) by {
          assert ([""] + rest)[1..] == rest;
        }
        assert s == [c] + s[1..];
        [""] + rest
      else
        var r := [[s[0]] + rest[0]] + rest[1..];
        assert Join(r, [c]) == [s[0]] + Join(rest, [c]) by {
          assert r[1..] == rest[1..];
        }
        assert s == [s[0]] + s[1..];
        r
  }

  /** Every segment with its "Bundle"s deleted. */
  function DeleteBundles(segs: seq<string>): seq<string> {
    seq(|segs|, i requires 0 <= i < |segs| => ReplaceAll(segs[i], "Bundle", ""))
  }

  /** Turning ':' into '/' in the ':'-join of colon-free segments gives
      their '/'-join. */
  lemma {:induction false} ColonsToSlashes(segs: seq<string>)
    requires forall i :: 0 <= i < |segs| ==> ':' !in segs[i]
    ensures ReplaceAll(Join(segs, ":"), ":", "/") == Join(segs, "/")
    decreases |segs|
  {
    if |segs| == 1 {
      NoColonIn(segs[0]);
    } else if |segs| > 1 {
      ColonsToSlashes(segs[1..]);
      ReplaceAllSplitAtPattern(segs[0], ":", Join(segs[1..], ":"), "/");
      NoColonIn(segs[0]);
    }
  }

  /** Deleting "Bundle" from a '/'-join deletes it from each segment. */
  lemma {:induction false} DeleteBundlesJoin(segs: seq<string>)
    ensures ReplaceAll(Join(segs, "/"), "Bundle", "") == Join(DeleteBundles(segs), "/")
    decreases |segs|
  {
    var d := DeleteBundles(segs);
    if |segs| == 1 {
      assert d == [ReplaceAll(segs[0], "Bundle", "")];
    } else if |segs| > 1 {
      DeleteBundlesJoin(segs[1..]);
      ReplaceAllSplit(segs[0], '/', Join(segs[1..], "/"), "Bundle", "");
      assert d[1..] == DeleteBundles(segs[1..]);
    }
  }

  /** `fixTwigTemplatePath` works on the ':'-separated segments of a path
      one by one: the segments, each without its "Bundle"s, joined by '/'. */
  lemma FixTwigSegments(segs: seq<string>)
    requires forall i :: 0 <= i < |segs| ==> ':' !in segs[i]
    ensures FixTwigTemplatePath(Join(segs, ":")) == Join(DeleteBundles(segs), "/")
  {
    ColonsToSlashes(segs);
    DeleteBundlesJoin(segs);
  }

  /** The same for any path, through its ':'-separated segments. */
  lemma FixTwigPathSegments(path: string)
    ensures FixTwigTemplatePath(path) == Join(DeleteBundles(Split(path, ':')), "/")
  {
    FixTwigSegments(Split(path, ':'));
  }

  lemma DeleteBundleAfterFooBar(f: string, r: string, b: string)
    requires f == "Foo" && r == "Bar" && b == "Bundle"
    ensures ReplaceAll(f + r + b, "Bundle", "") == f + r
  {
    FooBarBundle(f, r, b);
    DeleteTrailingBundle(f, r, b);
  }

  lemma FooBarBundle(f: string, r: string, b: string)
    requires f == "Foo" && r == "Bar" && b == "Bundle"
    ensures 'B' !in f && |r| > 0 && 'B' !in r[1..] && |r + b| >= 6 && (r + b)[..6] != "Bundle"
  {
    assert (r + b)[..6][1] == 'a';
  }

  /** "Bundle" at the end of `f + r` is deleted when no other match starts
      in `f + r`. */
  lemma DeleteTrailingBundle(f: string, r: string, b: string)
    requires b == "Bundle"
    requires 'B' !in f && |r| > 0 && 'B' !in r[1..] && |r + b| >= 6 && (r + b)[..6] != "Bundle"
    ensures ReplaceAll(f + r + b, "Bundle", "") == f + r
  {
    assert ReplaceAll(f + r + b, "Bundle", "") == f + ReplaceAll(r + b, "Bundle", "") by {
      assert f + r + b == f + (r + b);
      ReplaceAllSkips(f, r + b, "Bundle", "");
    }
    assert ReplaceAll(r + b, "Bundle", "") == r + ReplaceAll(b, "Bundle", "") by {
      ReplaceAllPastMismatch(r, b, "Bundle", "");
    }
    assert ReplaceAll(b, "Bundle", "") == [] by {
      assert b == "Bundle" + [];
      ReplaceAllAtMatch([], "Bundle", "");
    }
    assert r + [] == r;
  }

  lemma NoColonInFooBarBundle(f: string, r: string, b: string)
    requires f == "Foo" && r == "Bar" && b == "Bundle"
    ensures ':' !in f + r + b
  {
    assert f + r + b == "FooBarBundle";
  }

  lemma NoBundleIn(s: string)
    requires 'B' !in s
    ensures ReplaceAll(s, "Bundle", "") == s
  {
    ReplaceAllSkips(s, [], "Bundle", "");
    assert s + [] == s;
  }

  lemma PlainSegments(y: string, z: string)
    requires y == "Static" && z == "twigTemplate.html.twig"
    ensures ':' !in y && ':' !in z
    ensures ReplaceAll(y, "Bundle", "") == y && ReplaceAll(z, "Bundle", "") == z
  {
    PlainSegment(y);
    PlainSegment(z);
  }

  /** A segment with neither a colon nor a capital B is left as it is. */
  lemma PlainSegment(s: string)
    requires forall i :: 0 <= i < |s| ==> s[i] != ':' && s[i] != 'B'
    ensures ':' !in s && ReplaceAll(s, "Bundle", "") == s
  {
    NoBundleIn(s);
  }

  /** The helper's test case: "FooBarBundle:Static:twigTemplate.html.twig"
      becomes "FooBar/Static/twigTemplate.html.twig". */
  lemma FixTwigTest(f: string, r: string, b: string, y: string, z: string)
    requires f == "Foo" && r == "Bar" && b == "Bundle" && y == "Static" && z == "twigTemplate.html.twig"
    ensures FixTwigTemplatePath(f + r + b + ":" + y + ":" + z) == f + r + "/" + y + "/" + z
  {
    DeleteBundleAfterFooBar(f, r, b);
    NoColonInFooBarBundle(f, r, b);
    PlainSegments(y, z);
    FixTwigColonPath(f + r + b, y, z, f + r);
  }

  /** A ':'-separated path whose segments lose their "Bundle"s as given. */
  lemma FixTwigColonPath(x: string, y: string, z: string, x2: string)
    requires ':' !in x && ':' !in y && ':' !in z
    requires ReplaceAll(x, "Bundle", "") == x2
    requires ReplaceAll(y, "Bundle", "") == y && ReplaceAll(z, "Bundle", "") == z
    ensures FixTwigTemplatePath(x + ":" + y + ":" + z) == x2 + "/" + y + "/" + z
  {
    FixTwigThreeSegments(x, y, z);
  }

  /** A '/'-separated path none of whose segments holds "Bundle". */
  lemma FixTwigSlashPath(x: string, y: string, z: string)
    requires ':' !in x && ':' !in y && ':' !in z
    requires ReplaceAll(x, "Bundle", "") == x
    requires ReplaceAll(y, "Bundle", "") == y && ReplaceAll(z, "Bundle", "") == z
    ensures FixTwigTemplatePath(x + "/" + y + "/" + z) == x + "/" + y + "/" + z
  {
    FixTwigSlashSegments(x, y, z);
  }

  lemma FixTwigSlashSegments(x: string, y: string, z: string)
    requires ':' !in x && ':' !in y && ':' !in z
    ensures FixTwigTemplatePath(x + "/" + y + "/" + z)
         == ReplaceAll(x, "Bundle", "") + "/" + ReplaceAll(y, "Bundle", "") + "/" + ReplaceAll(z, "Bundle", "")
  {
    NoColonIn(x + "/" + y + "/" + z);
    BundleSegments(x, y, z);
  }

  lemma NothingToDeleteInFooBar(f: string, r: string)
    requires f == "Foo" && r == "Bar"
    ensures ':' !in f + r && ReplaceAll(f + r, "Bundle", "") == f + r
  {
    assert f + r == "FooBar";
    ReplaceAllSkips(f, r, "Bundle", "");
    ReplaceAllShort(r, "Bundle", "");
  }

  /** Applying `fixTwigTemplatePath` to the fixed path leaves it unchanged. */
  lemma FixTwigTestAgain(f: string, r: string, y: string, z: string)
    requires f == "Foo" && r == "Bar" && y == "Static" && z == "twigTemplate.html.twig"
    ensures FixTwigTemplatePath(f + r + "/" + y + "/" + z) == f + r + "/" + y + "/" + z
  {
    NothingToDeleteInFooBar(f, r);
    PlainSegments(y, z);
    FixTwigSlashPath(f + r, y, z);
  }

  /** `fixTwigTemplatePath` is not idempotent: deleting "Bundle" can join
      the pieces of a new one, which a second call deletes. */
  lemma FixTwigNotIdempotent(a: string, b: string, c: string)
    requires a == "Bun" && b == "Bundle" && c == "dle"
    ensures FixTwigTemplatePath(a + b + c) == a + c
    ensures FixTwigTemplatePath(a + c) == ""
  {
    FixTwigOfBunBundleDle(a, b, c);
    FixTwigOfBundle(a + c);
  }

  lemma FixTwigOfBunBundleDle(a: string, b: string, c: string)
    requires a == "Bun" && b == "Bundle" && c == "dle"
    ensures FixTwigTemplatePath(a + b + c) == a + c
  {
    BunBundleDle(a, b, c);
    DeleteMiddleBundle(a, b, c);
  }

  /** "Bundle" between `a` and `c` is deleted when no other match starts in
      `a` or in `c`. */
  lemma DeleteMiddleBundle(a: string, b: string, c: string)
    requires b == "Bundle"
    requires ':' !in a + b + c && 'B' !in c
    requires |a| > 0 && 'B' !in a[1..] && |a + (b + c)| >= 6 && (a + (b + c))[..6] != "Bundle"
    ensures FixTwigTemplatePath(a + b + c) == a + c
  {
    var s := a + b + c;
    assert ReplaceAll(s, ":", "/") == s by {
      NoColonIn(s);
    }
    assert ReplaceAll(s, "Bundle", "") == a + ReplaceAll(b + c, "Bundle", "") by {
      assert s == a + (b + c);
      ReplaceAllPastMismatch(a, b + c, "Bundle", "");
    }
    assert ReplaceAll(b + c, "Bundle", "") == c by {
      ReplaceAllAtMatch(c, "Bundle", "");
      NoBundleIn(c);
    }
  }

  lemma BunBundleDle(a: string, b: string, c: string)
    requires a == "Bun" && b == "Bundle" && c == "dle"
    ensures ':' !in a + b + c && b == "Bundle" && 'B' !in c
    ensures |a| > 0 && 'B' !in a[1..] && |a + (b + c)| >= 6 && (a + (b + c))[..6] != "Bundle"
  {
    assert (a + (b + c))[..6][3] == 'B';
  }

  /** When the pattern does not start at the first character and its first
      character does not occur in the rest of `x`, `x` is copied as is. */
  lemma ReplaceAllPastMismatch(x: string, t: string, pat: string, rep: string)
    requires |pat| > 0 && |x| > 0 && pat[0] !in x[1..]
    requires |x + t| >= |pat| && (x + t)[..|pat|] != pat
    ensures ReplaceAll(x + t, pat, rep) == x + ReplaceAll(t, pat, rep)
  {
    ReplaceAllAtMismatch(x + t, pat, rep);
    assert (x + t)[1..] == x[1..] + t;
    ReplaceAllSkips(x[1..], t, pat, rep);
    assert [x[0]] + x[1..] == x;
  }

  lemma FixTwigOfBundle(b: string)
    requires b == "Bundle"
    ensures FixTwigTemplatePath(b) == ""
  {
    NoColonIn(b);
    ReplaceAllAtMatch([], "Bundle", "");
    assert b + [] == b;
  }

  /** Removing a character shortens the string exactly when it occurs. */
  lemma {:induction false} RemoveCharLength(s: string, c: char)
    ensures |RemoveChar(s, c)| <= |s|
    ensures |RemoveChar(s, c)| == |s| <==> c !in s
    ensures c !in s ==> RemoveChar(s, c) == s
    decreases |s|
  {
    if |s| > 0 {
      RemoveCharLength(s[1..], c);
      assert c in s <==> s[0] == c || c in s[1..];
    }
  }

  /** Removal works piecewise. */
  lemma {:induction false} RemoveCharConcat(a: string, b: string, c: char)
    ensures RemoveChar(a + b, c) == RemoveChar(a, c) + RemoveChar(b, c)
    decreases |a|
  {
    if |a| > 0 {
      RemoveCharConcat(a[1..], b, c);
      assert (a + b)[1..] == a[1..] + b;
    } else {
      assert a + b == b;
    }
  }

  /** Replacing `x` by `y` and then `y` by `x` replaces every `y` by `x`. */
  lemma {:induction false} ReplaceCharBack(s: string, x: char, y: char)
    ensures ReplaceChar(ReplaceChar(s, x, y), y, x) == ReplaceChar(s, y, x)
    decreases |s|
  {
    if |s| > 0 {
      ReplaceCharBack(s[1..], x, y);
    }
  }

  /** A replacement changes the string exactly when the replaced character
      occurs and differs from its replacement. */
  lemma {:induction false} ReplaceCharIdentity(s: string, a: char, b: char)
    ensures ReplaceChar(s, a, b) == s <==> a !in s || a == b
    ensures |ReplaceChar(s, a, b)| == |s|
    ensures a != b ==> a !in ReplaceChar(s, a, b)
    decreases |s|
  {
    if |s| > 0 {
      ReplaceCharIdentity(s[1..], a, b);
      var r := ReplaceChar(s, a, b);
      assert r[1..] == ReplaceChar(s[1..], a, b);
      assert a in s <==> s[0] == a || a in s[1..];
      assert a in r <==> r[0] == a || a in r[1..];
    }
  }
}
