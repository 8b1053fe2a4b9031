/** `generateSlug` of src/components/ProfileEditor.tsx: the public link name a
    profile owner types is normalised in four passes,
      1. lower-case and decompose to Normalization Form D,
      2. drop the combining diacritical marks U+0300..U+036F,
      3. replace every run of characters outside [a-z0-9] by one '-',
      4. drop the hyphens at both ends.
    Pass 1 needs the Unicode case and decomposition tables; it is a
    per-character mapping parameter here (`fold`), with `LatinFold` as a
    concrete instance covering ASCII and the accented Latin-1 letters. */
module Slug {
  import opened Wrappers
  import opened Text

  /** The characters the collapse pass keeps: [a-z0-9]. */
  predicate IsSlugAlnum(c: char) {
    'a' <= c <= 'z' || '0' <= c <= '9'
  }

  predicate IsSlugChar(c: char) {
    IsSlugAlnum(c) || c == '-'
  }

  /** The Combining Diacritical Marks block, U+0300..U+036F. */
  predicate IsCombiningMark(c: char) {
    '\U{300}' <= c <= '\U{36F}'
  }

  predicate AllSlugChars(s: string) {
    forall i :: 0 <= i < |s| ==> IsSlugChar(s[i])
  }

  /** No two adjacent hyphens. The pair trigger keeps instantiation to
      positions already in view. */
  ghost predicate NoDoubleHyphen(s: string) {
    forall i, j {:trigger s[i], s[j]} :: 0 <= i < j < |s| && j == i + 1 ==> !(s[i] == '-' && s[j] == '-')
  }

  /** A well-formed slug: [a-z0-9-] only, no hyphen at either end, no two
      hyphens in a row. */
  ghost predicate IsSlug(s: string) {
    && AllSlugChars(s)
    && NoDoubleHyphen(s)
    && (|s| > 0 ==> s[0] != '-' && s[|s| - 1] != '-')
  }

  /** A per-character stand-in for `toLowerCase().normalize('NFD')` that leaves
      the characters of a slug alone (both Unicode operations do). */
  ghost predicate KeepsSlugChars(fold: char -> string) {
    forall c :: IsSlugChar(c) ==> fold(c) == [c]
  }

  /** Pass 1: lower-case and decompose, character by character. */
  function LowerDecompose(s: string, fold: char -> string): string {
    if |s| == 0 then "" else fold(s[0]) + LowerDecompose(s[1..], fold)
  }

  /** Pass 2: `.replace(/[\u0300-\u036f]/g, '')`. */
  function StripMarks(s: string): string {
    if |s| == 0 then ""
    else if IsCombiningMark(s[0]) then StripMarks(s[1..])
    else [s[0]] + StripMarks(s[1..])
  }

  /** The rest of a run of non-[a-z0-9] characters, skipped. */
  function SkipRun(s: string): (r: string)
    ensures |r| <= |s| && r == s[|s| - |r|..]
    ensures |r| > 0 ==> IsSlugAlnum(r[0])
    ensures |s| > 0 && IsSlugAlnum(s[0]) ==> r == s
  {
    if |s| > 0 && !IsSlugAlnum(s[0]) then SkipRun(s[1..]) else s
  }

  /** Pass 3: `.replace(/[^a-z0-9]+/g, '-')`, each maximal run becoming one '-'. */
  function CollapseRuns(s: string): (r: string)
    ensures AllSlugChars(r) && NoDoubleHyphen(r)
    ensures |s| == 0 <==> |r| == 0
    ensures |s| > 0 && IsSlugAlnum(s[0]) ==> r[0] == s[0]
    decreases |s|
  {
    if |s| == 0 then ""
    else if IsSlugAlnum(s[0]) then [s[0]] + CollapseRuns(s[1..])
    else "-" + CollapseRuns(SkipRun(s[1..]))
  }

  function TrimStart(s: string): (r: string)
    ensures |r| <= |s| && r == s[|s| - |r|..]
    ensures |r| > 0 ==> r[0] != '-'
  {
    if |s| > 0 && s[0] == '-' then TrimStart(s[1..]) else s
  }

  function TrimEnd(s: string): (r: string)
    ensures |r| <= |s| && r == s[..|r|]
    ensures |r| > 0 ==> r[|r| - 1] != '-'
  {
    if |s| > 0 && s[|s| - 1] == '-' then TrimEnd(s[..|s| - 1]) else s
  }

  /** Pass 4: `.replace(/^-+|-+$/g, '')`. */
  function TrimHyphens(s: string): string {
    TrimEnd(TrimStart(s))
  }

  /** `generateSlug(text)` with the case/decomposition tables given by `fold`. */
  function GenerateSlug(text: string, fold: char -> string): string {
    TrimHyphens(CollapseRuns(StripMarks(LowerDecompose(text, fold))))
  }

  /** Any slice of a string of [a-z0-9-] without "--" is again one. */
  lemma SliceKeepsShape(s: string, i: nat, j: nat)
    requires i <= j <= |s|
    requires AllSlugChars(s) && NoDoubleHyphen(s)
    ensures AllSlugChars(s[i..j]) && NoDoubleHyphen(s[i..j])
  {
    var t := s[i..j];
    forall k, l | 0 <= k < l < |t| && l == k + 1
      ensures !(t[k] == '-' && t[l] == '-')
    {
      assert t[k] == s[i + k] && t[l] == s[i + l];
    }
  }

  /** Trimming keeps [a-z0-9-] and the absence of "--", and removes the
      hyphens at both ends. */
  lemma TrimHyphensMakesSlug(s: string)
    requires AllSlugChars(s) && NoDoubleHyphen(s)
    ensures IsSlug(TrimHyphens(s))
  {
    var t := TrimStart(s);
    SliceKeepsShape(s, |s| - |t|, |s|);
    var r := TrimEnd(t);
    SliceKeepsShape(t, 0, |r|);
  }

  /** Whatever the text, the output is a well-formed slug: every character is in
      [a-z0-9-], there is no hyphen at either end, and no two hyphens are adjacent. */
  lemma GenerateSlugIsSlug(text: string, fold: char -> string)
    ensures IsSlug(GenerateSlug(text, fold))
  {
    TrimHyphensMakesSlug(CollapseRuns(StripMarks(LowerDecompose(text, fold))));
  }

  lemma {:induction false} LowerDecomposeKeepsSlug(s: string, fold: char -> string)
    requires KeepsSlugChars(fold) && AllSlugChars(s)
    ensures LowerDecompose(s, fold) == s
    decreases |s|
  {
    if |s| > 0 {
      assert fold(s[0]) == [s[0]];
      LowerDecomposeKeepsSlug(s[1..], fold);
    }
  }

  lemma {:induction false} StripMarksKeepsSlug(s: string)
    requires AllSlugChars(s)
    ensures StripMarks(s) == s
    decreases |s|
  {
    if |s| > 0 {
      StripMarksKeepsSlug(s[1..]);
    }
  }

  /** A string of [a-z0-9-] without "--" has only one-character runs to collapse. */
  lemma {:induction false} CollapseRunsKeepsSlug(s: string)
    requires AllSlugChars(s) && NoDoubleHyphen(s)
    ensures CollapseRuns(s) == s
    decreases |s|
  {
    if |s| > 0 {
      if |s| > 1 && s[0] == '-' {
        assert IsSlugAlnum(s[1]);
      }
      CollapseRunsKeepsSlug(s[1..]);
    }
  }

  /** The slugs are exactly the fixed points of `GenerateSlug`. */
  lemma GenerateSlugFixpoints(s: string, fold: char -> string)
    requires KeepsSlugChars(fold)
    ensures IsSlug(s) <==> GenerateSlug(s, fold) == s
  {
    if IsSlug(s) {
      LowerDecomposeKeepsSlug(s, fold);
      StripMarksKeepsSlug(s);
      CollapseRunsKeepsSlug(s);
    } else {
      GenerateSlugIsSlug(s, fold);
    }
  }

  /** Normalising an already-normalised slug changes nothing. */
  lemma GenerateSlugIdempotent(text: string, fold: char -> string)
    requires KeepsSlugChars(fold)
    ensures GenerateSlug(GenerateSlug(text, fold), fold) == GenerateSlug(text, fold)
  {
    var s := GenerateSlug(text, fold);
    GenerateSlugIsSlug(text, fold);
    GenerateSlugFixpoints(s, fold);
  }

  /** Canonical decompositions (Unicode Normalization Form D) of the lower-case
      accented Latin-1 letters: base letter followed by one combining mark. */
  function Decomposition(c: char): Option<string> {
    match c
    case '\U{E0}' => Some("a\U{300}") case '\U{E1}' => Some("a\U{301}")
    case '\U{E2}' => Some("a\U{302}") case '\U{E3}' => Some("a\U{303}")
    case '\U{E4}' => Some("a\U{308}") case '\U{E5}' => Some("a\U{30A}")
    case '\U{E7}' => Some("c\U{327}")
    case '\U{E8}' => Some("e\U{300}") case '\U{E9}' => Some("e\U{301}")
    case '\U{EA}' => Some("e\U{302}") case '\U{EB}' => Some("e\U{308}")
    case '\U{EC}' => Some("i\U{300}") case '\U{ED}' => Some("i\U{301}")
    case '\U{EE}' => Some("i\U{302}") case '\U{EF}' => Some("i\U{308}")
    case '\U{F1}' => Some("n\U{303}")
    case '\U{F2}' => Some("o\U{300}") case '\U{F3}' => Some("o\U{301}")
    case '\U{F4}' => Some("o\U{302}") case '\U{F5}' => Some("o\U{303}")
    case '\U{F6}' => Some("o\U{308}")
    case '\U{F9}' => Some("u\U{300}") case '\U{FA}' => Some("u\U{301}")
    case '\U{FB}' => Some("u\U{302}") case '\U{FC}' => Some("u\U{308}")
    case '\U{FD}' => Some("y\U{301}") case '\U{FF}' => Some("y\U{308}")
    case _ => None
  }

  /** The upper-case accented Latin-1 letters U+00C0..U+00DE (except U+00D7,
      the multiplication sign) lower-case to the letter 0x20 above them. */
  function LatinLower(c: char): char {
    if IsUpperAscii(c) || ('\U{C0}' <= c <= '\U{DE}' && c != '\U{D7}')
    then (c as int + 32) as char
    else c
  }

  /** `toLowerCase().normalize('NFD')` on one character, for ASCII and the
      accented Latin-1 letters; other characters are kept as they are. */
  function LatinFold(c: char): string {
    var l := LatinLower(c);
    Decomposition(l).GetOr([l])
  }

  /** Every tabulated letter decomposes to an [a-z] base letter and one mark. */
  lemma DecompositionsAreBasePlusMark(c: char)
    requires Decomposition(c).Some?
    ensures |Decomposition(c).value| == 2
    ensures 'a' <= Decomposition(c).value[0] <= 'z'
    ensures IsCombiningMark(Decomposition(c).value[1])
  {
  }

  lemma LatinFoldKeepsSlugChars()
    ensures KeepsSlugChars(LatinFold)
  {
  }

  lemma AppendAssoc(a: string, b: string, c: string)
    ensures a + (b + c) == (a + b) + c
  {
  }

  /** One character of [a-z0-9] is copied by the collapse pass. */
  lemma CollapseAlnumHead(c: char, rest: string)
    requires IsSlugAlnum(c)
    ensures CollapseRuns([c] + rest) == [c] + CollapseRuns(rest)
  {
    assert ([c] + rest)[0] == c && ([c] + rest)[1..] == rest;
  }

  /** A word of [a-z0-9] passes the collapse pass unchanged. */
  lemma {:induction false} CollapseKeepsWord(word: string, rest: string)
    requires forall i :: 0 <= i < |word| ==> IsSlugAlnum(word[i])
    ensures CollapseRuns(word + rest) == word + CollapseRuns(rest)
    decreases |word|
  {
    if |word| > 0 {
      var head, tail := word[0], word[1..];
      forall i | 0 <= i < |tail| ensures IsSlugAlnum(tail[i]) {
        assert tail[i] == word[i + 1];
      }
      calc {
        CollapseRuns(word + rest);
        { assert word + rest == [head] + (tail + rest); }
        CollapseRuns([head] + (tail + rest));
        { CollapseAlnumHead(head, tail + rest); }
        [head] + CollapseRuns(tail + rest);
        { CollapseKeepsWord(tail, rest); }
        [head] + (tail + CollapseRuns(rest));
        { AppendAssoc([head], tail, CollapseRuns(rest)); assert [head] + tail == word; }
        word + CollapseRuns(rest);
      }
    } else {
      assert word + rest == rest;
    }
  }

  /** Skipping a run of separators lands on the next word. */
  lemma {:induction false} SkipRunSkipsSeparators(sep: string, rest: string)
    requires forall i :: 0 <= i < |sep| ==> !IsSlugAlnum(sep[i])
    requires |rest| == 0 || IsSlugAlnum(rest[0])
    ensures SkipRun(sep + rest) == rest
    decreases |sep|
  {
    var s := sep + rest;
    if |sep| > 0 {
      var tail := sep[1..];
      assert s[0] == sep[0] && s[1..] == tail + rest;
      forall i | 0 <= i < |tail| ensures !IsSlugAlnum(tail[i]) {
        assert tail[i] == sep[i + 1];
      }
      SkipRunSkipsSeparators(tail, rest);
    } else {
      assert s == rest;
    }
  }

  /** A whole run of separators, however long, becomes one hyphen. */
  lemma CollapseSeparatorRun(sep: string, rest: string)
    requires |sep| > 0 && forall i :: 0 <= i < |sep| ==> !IsSlugAlnum(sep[i])
    requires |rest| == 0 || IsSlugAlnum(rest[0])
    ensures CollapseRuns(sep + rest) == "-" + CollapseRuns(rest)
  {
    var s := sep + rest;
    var tail := sep[1..];
    assert s[0] == sep[0] && !IsSlugAlnum(s[0]);
    assert s[1..] == tail + rest;
    forall i | 0 <= i < |tail| ensures !IsSlugAlnum(tail[i]) {
      assert tail[i] == sep[i + 1];
    }
    SkipRunSkipsSeparators(tail, rest);
  }

  /** Two words with any run of separators between them are joined by exactly
      one hyphen. */
  lemma CollapseJoinsWords(a: string, sep: string, b: string)
    requires forall i :: 0 <= i < |a| ==> IsSlugAlnum(a[i])
    requires forall i :: 0 <= i < |b| ==> IsSlugAlnum(b[i])
    requires |sep| > 0 && forall i :: 0 <= i < |sep| ==> !IsSlugAlnum(sep[i])
    ensures CollapseRuns(a + sep + b) == a + "-" + b
  {
    AppendAssoc(a, sep, b);
    CollapseKeepsWord(a, sep + b);
    CollapseSeparatorRun(sep, b);
    CollapseKeepsWord(b, "");
    assert b + "" == b;
    AppendAssoc(a, "-", b);
  }


  /** Passes 1 and 2 turn every accented Latin-1 letter, upper- or lower-case,
      into its plain [a-z] base letter. */
  lemma LatinFoldStripsAccents(c: char)
    requires Decomposition(LatinLower(c)).Some?
    ensures StripMarks(LatinFold(c)) == Decomposition(LatinLower(c)).value[..1]
    ensures 'a' <= StripMarks(LatinFold(c))[0] <= 'z'
  {
    var d := Decomposition(LatinLower(c)).value;
    DecompositionsAreBasePlusMark(LatinLower(c));
    assert LatinFold(c) == d;
    assert StripMarks(d[1..]) == StripMarks(d[2..]);
  }

  /** Pass 1 works character by character, so it distributes over joins. */
  lemma {:induction false} LowerDecomposeAppend(a: string, b: string, fold: char -> string)
    ensures LowerDecompose(a + b, fold) == LowerDecompose(a, fold) + LowerDecompose(b, fold)
    decreases |a|
  {
    if |a| == 0 {
      assert a + b == b;
    } else {
      assert (a + b)[0] == a[0] && (a + b)[1..] == a[1..] + b;
      LowerDecomposeAppend(a[1..], b, fold);
      AppendAssoc(fold(a[0]), LowerDecompose(a[1..], fold), LowerDecompose(b, fold));
    }
  }

  /** So does pass 2. */
  lemma {:induction false} StripMarksAppend(a: string, b: string)
    ensures StripMarks(a + b) == StripMarks(a) + StripMarks(b)
    decreases |a|
  {
    if |a| == 0 {
      assert a + b == b;
    } else {
      assert (a + b)[0] == a[0] && (a + b)[1..] == a[1..] + b;
      StripMarksAppend(a[1..], b);
      if !IsCombiningMark(a[0]) {
        AppendAssoc([a[0]], StripMarks(a[1..]), StripMarks(b));
      }
    }
  }

  /** Passes 1 and 2 together. */
  function FoldAndStrip(s: string): string {
    StripMarks(LowerDecompose(s, LatinFold))
  }

  lemma FoldAndStripAppend(a: string, b: string)
    ensures FoldAndStrip(a + b) == FoldAndStrip(a) + FoldAndStrip(b)
  {
    LowerDecomposeAppend(a, b, LatinFold);
    StripMarksAppend(LowerDecompose(a, LatinFold), LowerDecompose(b, LatinFold));
  }

  /** A letter `LatinFold` turns into one of [a-z0-9]: an ASCII letter or
      digit, or an accented Latin-1 letter. */
  predicate IsLatinWordChar(c: char) {
    IsSlugAlnum(LatinLower(c)) || Decomposition(LatinLower(c)).Some?
  }

  lemma FoldAndStripChar(c: char)
    ensures FoldAndStrip([c]) == StripMarks(LatinFold(c))
  {
    assert LowerDecompose([c], LatinFold) == LatinFold(c) + LowerDecompose([], LatinFold);
    assert LatinFold(c) + [] == LatinFold(c);
  }

  /** The base letter of a word character: passes 1 and 2 leave exactly it. */
  function BaseLetter(c: char): (b: char)
    requires IsLatinWordChar(c)
    ensures IsSlugAlnum(b)
    ensures FoldAndStrip([c]) == [b]
  {
    var l := LatinLower(c);
    FoldAndStripChar(c);
    if Decomposition(l).Some? then
      LatinFoldStripsAccents(c);
      Decomposition(l).value[0]
    else
      l
  }

  /** A word with every character replaced by its base letter. */
  function BaseLetters(w: string): (r: string)
    requires forall i :: 0 <= i < |w| ==> IsLatinWordChar(w[i])
    ensures |r| == |w|
    ensures forall i :: 0 <= i < |r| ==> IsSlugAlnum(r[i])
    ensures FoldAndStrip(w) == r
  {
    if |w| == 0 then ""
    else
      FoldAndStripAppend([w[0]], w[1..]);
      assert [w[0]] + w[1..] == w;
      [BaseLetter(w[0])] + BaseLetters(w[1..])
  }

  /** An ASCII character that is not a letter or a digit: both passes keep
      it, and the collapse pass treats it as a separator. */
  predicate IsAsciiSeparator(c: char) {
    c < '\U{80}' && !IsSlugAlnum(LatinLower(c))
  }

  lemma {:induction false} SeparatorsSurviveFold(sep: string)
    requires forall i :: 0 <= i < |sep| ==> IsAsciiSeparator(sep[i])
    ensures FoldAndStrip(sep) == sep
    ensures forall i :: 0 <= i < |sep| ==> !IsSlugAlnum(sep[i])
    decreases |sep|
  {
    if |sep| > 0 {
      var c := sep[0];
      assert LatinLower(c) == c;
      FoldAndStripChar(c);
      FoldAndStripAppend([c], sep[1..]);
      assert [c] + sep[1..] == sep;
      SeparatorsSurviveFold(sep[1..]);
      assert forall i :: 1 <= i < |sep| ==> sep[i] == sep[1..][i - 1];
    }
  }

  /** A string ending in one of [a-z0-9] loses only trailing hyphens. */
  lemma TrimEndOneHyphen(x: string)
    requires |x| > 0 && IsSlugAlnum(x[|x| - 1])
    ensures TrimEnd(x + "-") == x && TrimEnd(x) == x
  {
    assert (x + "-")[..|x|] == x;
  }

  /** A word of ASCII and accented Latin-1 letters slugs to its word of base
      letters. */
  lemma WordSlug(w: string)
    requires forall i :: 0 <= i < |w| ==> IsLatinWordChar(w[i])
    ensures GenerateSlug(w, LatinFold) == BaseLetters(w)
  {
    var u := BaseLetters(w);
    CollapseKeepsWord(u, "");
    assert u + "" == u;
    if |u| > 0 {
      TrimEndOneHyphen(u);
    }
  }

  /** Passes 1 and 2 on two words and their separators. */
  lemma FoldTwoWords(w1: string, sep: string, w2: string, end: string)
    requires forall i :: 0 <= i < |w1| ==> IsLatinWordChar(w1[i])
    requires forall i :: 0 <= i < |w2| ==> IsLatinWordChar(w2[i])
    requires forall i :: 0 <= i < |sep| ==> IsAsciiSeparator(sep[i])
    requires forall i :: 0 <= i < |end| ==> IsAsciiSeparator(end[i])
    ensures FoldAndStrip(w1 + sep + w2 + end) == BaseLetters(w1) + sep + BaseLetters(w2) + end
  {
    FoldAndStripAppend(w1 + sep + w2, end);
    FoldAndStripAppend(w1 + sep, w2);
    FoldAndStripAppend(w1, sep);
    SeparatorsSurviveFold(sep);
    SeparatorsSurviveFold(end);
  }

  /** The collapse pass on two [a-z0-9] words and runs of separators. */
  lemma CollapseTwoWords(u1: string, sep: string, u2: string, end: string)
    requires forall i :: 0 <= i < |u1| ==> IsSlugAlnum(u1[i])
    requires |u2| > 0 && forall i :: 0 <= i < |u2| ==> IsSlugAlnum(u2[i])
    requires |sep| > 0 && forall i :: 0 <= i < |sep| ==> !IsSlugAlnum(sep[i])
    requires forall i :: 0 <= i < |end| ==> !IsSlugAlnum(end[i])
    ensures CollapseRuns(u1 + sep + u2 + end) == u1 + "-" + u2 + (if |end| == 0 then "" else "-")
  {
    var tail := if |end| == 0 then "" else "-";
    assert CollapseRuns(end) == tail by {
      if |end| > 0 {
        CollapseSeparatorRun(end, "");
        assert end + "" == end;
      }
    }
    calc {
      CollapseRuns(u1 + sep + u2 + end);
      { assert u1 + sep + u2 + end == u1 + (sep + (u2 + end)); }
      CollapseRuns(u1 + (sep + (u2 + end)));
      { CollapseKeepsWord(u1, sep + (u2 + end)); }
      u1 + CollapseRuns(sep + (u2 + end));
      { CollapseSeparatorRun(sep, u2 + end); }
      u1 + ("-" + CollapseRuns(u2 + end));
      { CollapseKeepsWord(u2, end); }
      u1 + ("-" + (u2 + tail));
      { AppendAssoc(u1, "-", u2 + tail); AppendAssoc(u1 + "-", u2, tail); }
      u1 + "-" + u2 + tail;
    }
  }

  /** Two such words with separators between them, and optionally after them,
      slug to their base letters joined by one hyphen. */
  lemma TwoWordSlug(w1: string, sep: string, w2: string, end: string)
    requires |w1| > 0 && forall i :: 0 <= i < |w1| ==> IsLatinWordChar(w1[i])
    requires |w2| > 0 && forall i :: 0 <= i < |w2| ==> IsLatinWordChar(w2[i])
    requires |sep| > 0 && forall i :: 0 <= i < |sep| ==> IsAsciiSeparator(sep[i])
    requires forall i :: 0 <= i < |end| ==> IsAsciiSeparator(end[i])
    ensures GenerateSlug(w1 + sep + w2 + end, LatinFold) == BaseLetters(w1) + "-" + BaseLetters(w2)
  {
    var u1, u2 := BaseLetters(w1), BaseLetters(w2);
    var joined := u1 + "-" + u2;
    var collapsed := joined + (if |end| == 0 then "" else "-");
    calc {
      GenerateSlug(w1 + sep + w2 + end, LatinFold);
      TrimHyphens(CollapseRuns(FoldAndStrip(w1 + sep + w2 + end)));
      { FoldTwoWords(w1, sep, w2, end); }
      TrimHyphens(CollapseRuns(u1 + sep + u2 + end));
      { SeparatorsSurviveFold(sep); SeparatorsSurviveFold(end); CollapseTwoWords(u1, sep, u2, end); }
      TrimHyphens(collapsed);
      { TrimTwoWords(u1, u2, |end| > 0); }
      joined;
    }
  }

  /** Trimming the collapsed two words removes only a trailing hyphen. */
  lemma TrimTwoWords(u1: string, u2: string, trailing: bool)
    requires |u1| > 0 && IsSlugAlnum(u1[0])
    requires |u2| > 0 && IsSlugAlnum(u2[|u2| - 1])
    ensures TrimHyphens(u1 + "-" + u2 + (if trailing then "-" else "")) == u1 + "-" + u2
  {
    var joined := u1 + "-" + u2;
    assert joined[0] == u1[0];
    assert joined[|joined| - 1] == u2[|u2| - 1];
    assert joined + "" == joined;
    TrimEndOneHyphen(joined);
  }

  /** The example's words and separators, and its result, as pieces. */
  lemma SaoJoaoPieces()
    ensures "S\U{E3}o Jo\U{E3}o!" == "S\U{E3}o" + " " + "Jo\U{E3}o" + "!"
    ensures "sao" + "-" + "joao" == "sao-joao"
  {
  }

  lemma SaoJoaoWords()
    ensures forall i :: 0 <= i < |"S\U{E3}o"| ==> IsLatinWordChar("S\U{E3}o"[i])
    ensures forall i :: 0 <= i < |"Jo\U{E3}o"| ==> IsLatinWordChar("Jo\U{E3}o"[i])
    ensures IsAsciiSeparator(' ') && IsAsciiSeparator('!')
  {
  }

  /** The base letters of the example's words, one character at a time. */
  lemma BaseLettersAo()
    ensures BaseLetters("\U{E3}o") == "ao"
  {
    assert BaseLetters("o") == "o";
  }

  lemma BaseLettersSao()
    ensures BaseLetters("S\U{E3}o") == "sao"
  {
    BaseLettersAo();
    assert "S\U{E3}o"[1..] == "\U{E3}o";
  }

  lemma BaseLettersOao()
    ensures BaseLetters("o\U{E3}o") == "oao"
  {
    BaseLettersAo();
    assert "o\U{E3}o"[1..] == "\U{E3}o";
  }

  lemma BaseLettersJoao()
    ensures BaseLetters("Jo\U{E3}o") == "joao"
  {
    BaseLettersOao();
    assert "Jo\U{E3}o"[1..] == "o\U{E3}o";
  }

  /** `generateSlug("São João!")` is `sao-joao`. */
  lemma SaoJoaoExample()
    ensures GenerateSlug("S\U{E3}o Jo\U{E3}o!", LatinFold) == "sao-joao"
  {
    SaoJoaoPieces();
    SaoJoaoWords();
    TwoWordSlug("S\U{E3}o", " ", "Jo\U{E3}o", "!");
    BaseLettersSao();
    BaseLettersJoao();
  }
}
