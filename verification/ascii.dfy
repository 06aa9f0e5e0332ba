/** ASCII character classes and the three Python string case conversions the
    translator uses: `str.upper()`, `str.lower()` and `str.title()`.
    Only ASCII letters are cased here; every other character is left as is. */
module Ascii {

  predicate IsUpper(c: char) {
    'A' <= c <= 'Z'
  }

  predicate IsLower(c: char) {
    'a' <= c <= 'z'
  }

  predicate IsLetter(c: char) {
    IsUpper(c) || IsLower(c)
  }

  /** A word of a name: a non-empty run of ASCII letters. */
  predicate IsWord(w: string) {
    |w| > 0 && forall i :: 0 <= i < |w| ==> IsLetter(w[i])
  }

  /** A word that is already entirely lower-case. */
  predicate IsLowerWord(w: string) {
    |w| > 0 && forall i :: 0 <= i < |w| ==> IsLower(w[i])
  }

  function ToUpper(c: char): (u: char)
    ensures IsLetter(c) ==> IsUpper(u)
    ensures !IsLetter(c) ==> u == c
  {
    if IsLower(c) then (c as int - 32) as char else c
  }

  function ToLower(c: char): (l: char)
    ensures IsLetter(c) ==> IsLower(l)
    ensures !IsLetter(c) ==> l == c
  {
    if IsUpper(c) then (c as int + 32) as char else c
  }

  /** `str.upper()` */
  function Upper(s: string): (r: string)
  {
    seq(|s|, i requires 0 <= i < |s| => ToUpper(s[i]))
  }

  /** `str.lower()` */
  function Lower(s: string): (r: string)
  {
    seq(|s|, i requires 0 <= i < |s| => ToLower(s[i]))
  }

  /** `str.title()`: a cased character is upper-cased when the character
      before it is not cased, and lower-cased otherwise. `prevCased` says
      whether the character just before `s` was cased. */
  function TitleFrom(s: string, prevCased: bool): (r: string)
    ensures |r| == |s|
    ensures forall i :: 0 <= i < |s| ==> (IsLetter(r[i]) <==> IsLetter(s[i]))
    decreases |s|
  {
    if |s| == 0 then ""
    else if IsUpper(s[0]) then
      [if prevCased then ToLower(s[0]) else s[0]] + TitleFrom(s[1..], true)
    else if IsLower(s[0]) then
      [if prevCased then s[0] else ToUpper(s[0])] + TitleFrom(s[1..], true)
    else
      [s[0]] + TitleFrom(s[1..], false)
  }

  function Title(s: string): (r: string)
    ensures |r| == |s|
  {
    TitleFrom(s, false)
  }

  /** After a cased character, a run of letters is simply lower-cased. */
  lemma {:induction false} TitleAfterCasedIsLower(s: string)
    requires forall i :: 0 <= i < |s| ==> IsLetter(s[i])
    ensures TitleFrom(s, true) == Lower(s)
    decreases |s|
  {
    if |s| > 0 {
      TitleAfterCasedIsLower(s[1..]);
      assert Lower(s) == [ToLower(s[0])] + Lower(s[1..]);
    }
  }

  /** On a word of ASCII letters, `title()` upper-cases the first letter and
      lower-cases all the others. */
  lemma TitleOfWord(w: string)
    requires IsWord(w)
    ensures Title(w) == [ToUpper(w[0])] + Lower(w[1..])
  {
    TitleAfterCasedIsLower(w[1..]);
  }

  lemma LowerOfLowerWord(w: string)
    requires forall i :: 0 <= i < |w| ==> IsLower(w[i])
    ensures Lower(w) == w
  {
  }
}
