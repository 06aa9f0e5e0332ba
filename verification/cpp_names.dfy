/** The name conventions of `CppTranslator` in wrapper/cpp/genheaders.py:
    PascalCase for classes, enums and enum values, lowerCamelCase for
    methods. Words are assumed to be runs of ASCII letters
    (`AbstractApi.WellFormedName`); the functions themselves are total. */
module CppNames {
  import opened Ascii
  import opened Strings
  import opened AbstractApi

  predicate AllLetters(s: string) {
    forall i :: 0 <= i < |s| ==> IsLetter(s[i])
  }

  /** Every word title-cased, concatenated left to right. */
  function TitleCaseWords(ws: seq<string>): (r: string)
    ensures |r| == SumLengths(ws)
    ensures (forall k :: 0 <= k < |ws| ==> AllLetters(ws[k])) ==> AllLetters(r)
  {
    if |ws| == 0 then "" else Title(ws[0]) + TitleCaseWords(ws[1..])
  }

  /** `translate_class_name`: `''.join(w.title() for w in words)`. */
  function TranslateClassName(n: Name): (r: string)
    ensures |r| == SumLengths(n.words)
  {
    TitleCaseWords(n.words)
  }

  /** `translate_enum_name` uses the class-name convention: PascalCase that
      reads back to the lower-cased words. */
  function TranslateEnumName(n: Name): (r: string)
    ensures |r| == SumLengths(n.words)
    ensures WellFormedName(n) ==> |r| > 0 && IsUpper(r[0]) && AllLetters(r)
    ensures WellFormedName(n) ==> SplitPascal(r) == LowerWords(n.words)
  {
    var c := TranslateClassName(n);
    assert WellFormedName(n) ==>
      |c| > 0 && IsUpper(c[0]) && AllLetters(c) && SplitPascal(c) == LowerWords(n.words) by {
      if WellFormedName(n) {
        ClassNameShape(n);
        ClassNameRoundTrip(n);
      }
    }
    c
  }

  /** `translate_enum_value_name` uses the class-name convention too. */
  function TranslateEnumValueName(n: Name): (r: string)
    ensures |r| == SumLengths(n.words)
    ensures WellFormedName(n) ==> |r| > 0 && IsUpper(r[0]) && AllLetters(r)
    ensures WellFormedName(n) ==> SplitPascal(r) == LowerWords(n.words)
  {
    TranslateEnumName(n)
  }

  /** `translate_method_name`: the first word verbatim, the rest title-cased. */
  function TranslateMethodName(n: Name): (r: string)
    ensures |r| == SumLengths(n.words)
    ensures |n.words| > 0 ==> StartsWith(r, n.words[0])
  {
    if |n.words| == 0 then "" else n.words[0] + TitleCaseWords(n.words[1..])
  }

  /** Number of leading characters of `t` that are not upper-case letters. */
  function LowerRun(t: string): (k: nat)
    ensures k <= |t|
    ensures forall i :: 0 <= i < k ==> !IsUpper(t[i])
    ensures k < |t| ==> IsUpper(t[k])
  {
    if |t| == 0 || IsUpper(t[0]) then 0 else 1 + LowerRun(t[1..])
  }

  /** Reads a PascalCase identifier back into lower-case words: a word starts
      at the first character and at every upper-case letter. This is the
      inverse that the class-name convention is checked against. */
  function SplitPascal(s: string): (r: seq<string>)
    decreases |s|
  {
    if |s| == 0 then []
    else
      var k := 1 + LowerRun(s[1..]);
      [Lower(s[..k])] + SplitPascal(s[k..])
  }

  lemma LowerRunStopsAtUpper(a: string, b: string)
    requires forall i :: 0 <= i < |a| ==> !IsUpper(a[i])
    requires |b| == 0 || IsUpper(b[0])
    ensures LowerRun(a + b) == |a|
  {
    assert forall i :: 0 <= i < |a| ==> (a + b)[i] == a[i];
    assert |b| > 0 ==> (a + b)[|a|] == b[0];
  }

  lemma TitleCaseWordsStartsUpper(ws: seq<string>)
    requires |ws| > 0 && IsWord(ws[0])
    ensures IsUpper(TitleCaseWords(ws)[0])
  {
    TitleOfWord(ws[0]);
  }

  lemma LowerOfTitle(w: string)
    requires IsWord(w)
    ensures Lower(Title(w)) == Lower(w)
  {
    TitleOfWord(w);
    var t := Title(w);
    forall i | 0 <= i < |w|
      ensures Lower(t)[i] == Lower(w)[i]
    {
      if i > 0 {
        assert t[i] == ToLower(w[i]);
      }
    }
  }

  /** In a title-cased word followed by a capital (or nothing), the first
      word boundary after the first letter is at the end of the word. */
  lemma TitleThenUpperRun(w: string, rest: string)
    requires IsWord(w)
    requires |rest| == 0 || IsUpper(rest[0])
    ensures var s := Title(w) + rest;
      && 1 + LowerRun(s[1..]) == |w| && s[..|w|] == Title(w) && s[|w|..] == rest
  {
    var t := Title(w);
    var s := t + rest;
    TitleOfWord(w);
    assert t[1..] == Lower(w[1..]);
    assert s[1..] == t[1..] + rest;
    LowerRunStopsAtUpper(Lower(w[1..]), rest);
  }

  /** One step of `SplitPascal`: a title-cased word followed by a capital
      (or nothing) is read back as that word, lower-cased. */
  lemma SplitPascalStep(w: string, rest: string)
    requires IsWord(w)
    requires |rest| == 0 || IsUpper(rest[0])
    ensures SplitPascal(Title(w) + rest) == [Lower(w)] + SplitPascal(rest)
  {
    var s := Title(w) + rest;
    TitleThenUpperRun(w, rest);
    LowerOfTitle(w);
    assert SplitPascal(s) == [Lower(s[..|w|])] + SplitPascal(s[|w|..]);
  }

  /** Splitting the PascalCase form of well-formed words recovers the words,
      lower-cased: the class-name convention loses nothing but letter case. */
  lemma {:induction false} SplitTitleCaseWords(ws: seq<string>)
    requires forall k :: 0 <= k < |ws| ==> IsWord(ws[k])
    ensures SplitPascal(TitleCaseWords(ws)) == LowerWords(ws)
    decreases |ws|
  {
    if |ws| > 0 {
      var rest := TitleCaseWords(ws[1..]);
      assert TitleCaseWords(ws) == Title(ws[0]) + rest;
      if |ws| > 1 {
        TitleCaseWordsStartsUpper(ws[1..]);
      }
      SplitPascalStep(ws[0], rest);
      SplitTitleCaseWords(ws[1..]);
      assert LowerWords(ws) == [Lower(ws[0])] + LowerWords(ws[1..]);
    }
  }

  lemma ClassNameRoundTrip(n: Name)
    requires WellFormedName(n)
    ensures SplitPascal(TranslateClassName(n)) == LowerWords(n.words)
  {
    SplitTitleCaseWords(n.words);
  }

  /** Two lower-case names with the same class name are the same name. */
  lemma ClassNameInjective(a: Name, b: Name)
    requires LowerCaseName(a) && LowerCaseName(b)
    requires TranslateClassName(a) == TranslateClassName(b)
    ensures a == b
  {
    LowerCaseNameIsWellFormed(a);
    LowerCaseNameIsWellFormed(b);
    ClassNameRoundTrip(a);
    ClassNameRoundTrip(b);
  }

  /** A well-formed name gives a non-empty class name made of ASCII letters
      that starts with an upper-case letter. */
  lemma ClassNameShape(n: Name)
    requires WellFormedName(n)
    ensures |TranslateClassName(n)| > 0
    ensures IsUpper(TranslateClassName(n)[0])
    ensures AllLetters(TranslateClassName(n))
  {
    TitleCaseWordsStartsUpper(n.words);
  }

  /** The method name keeps the first word as written and agrees with the
      class name from the second word on; for a lower-case first word it is
      the class name with its first letter lower-cased. */
  lemma MethodNameVsClassName(n: Name)
    requires WellFormedName(n)
    ensures var m := TranslateMethodName(n); var c := TranslateClassName(n);
      |m| == |c| && m[..|n.words[0]|] == n.words[0] && m[|n.words[0]|..] == c[|n.words[0]|..]
    ensures AllLetters(TranslateMethodName(n))
  {
    var w := n.words[0];
    var m := TranslateMethodName(n);
    var c := TranslateClassName(n);
    var rest := TitleCaseWords(n.words[1..]);
    assert c == Title(w) + rest;
    assert m == w + rest;
    assert |Title(w)| == |w|;
    assert c[..|w|] == Title(w) && c[|w|..] == rest;
    assert m[..|w|] == w && m[|w|..] == rest;
  }

  /** `title()` of a lower-case word only upper-cases its first letter. */
  lemma TitleOfLowerWord(w: string)
    requires IsLowerWord(w)
    ensures Title(w) == [ToUpper(w[0])] + w[1..]
    ensures ToLower(ToUpper(w[0])) == w[0]
  {
    TitleOfWord(w);
    LowerOfLowerWord(w[1..]);
  }

  /** Title-casing a lower-case word in front of any text is undone by
      lower-casing the first character. */
  lemma LowerFirstUndoesTitle(w: string, rest: string)
    requires IsLowerWord(w)
    ensures var c := Title(w) + rest;
      w + rest == [ToLower(c[0])] + c[1..]
  {
    TitleOfLowerWord(w);
    var c := Title(w) + rest;
    assert c == [ToUpper(w[0])] + (w[1..] + rest);
    assert w + rest == [w[0]] + (w[1..] + rest);
  }

  /** For a lower-case first word, the method name is the class name with
      its first letter lower-cased. */
  lemma MethodNameOfLowerFirstWord(n: Name)
    requires WellFormedName(n) && IsLowerWord(n.words[0])
    ensures TranslateMethodName(n) == [ToLower(TranslateClassName(n)[0])] + TranslateClassName(n)[1..]
  {
    var rest := TitleCaseWords(n.words[1..]);
    assert TranslateMethodName(n) == n.words[0] + rest;
    assert TranslateClassName(n) == Title(n.words[0]) + rest;
    LowerFirstUndoesTitle(n.words[0], rest);
  }

  /** A lower-case word in front of a capital (or nothing) is read back as
      that word. */
  lemma SplitPascalLowerStep(w: string, rest: string)
    requires IsLowerWord(w)
    requires |rest| == 0 || IsUpper(rest[0])
    ensures SplitPascal(w + rest) == [w] + SplitPascal(rest)
  {
    var s := w + rest;
    assert s[1..] == w[1..] + rest;
    LowerRunStopsAtUpper(w[1..], rest);
    assert s[..|w|] == w && s[|w|..] == rest;
    LowerOfLowerWord(w);
    assert SplitPascal(s) == [Lower(s[..|w|])] + SplitPascal(s[|w|..]);
  }

  /** For a lower-case name, splitting the method name at its capitals gives
      back the words: the method convention loses nothing either. */
  lemma MethodNameRoundTrip(n: Name)
    requires LowerCaseName(n)
    ensures SplitPascal(TranslateMethodName(n)) == n.words
  {
    LowerCaseNameIsWellFormed(n);
    var ws := n.words;
    var rest := TitleCaseWords(ws[1..]);
    assert TranslateMethodName(n) == ws[0] + rest;
    if |ws| > 1 {
      TitleCaseWordsStartsUpper(ws[1..]);
    }
    SplitPascalLowerStep(ws[0], rest);
    SplitTitleCaseWords(ws[1..]);
    assert LowerWords(ws) == [Lower(ws[0])] + LowerWords(ws[1..]);
  }
}
