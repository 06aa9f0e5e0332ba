/** Sequence-of-character helpers: prefixes, suffixes, Python's
    `sep.join(words)` and its inverse `s.split(sep)` for a one-character
    separator. */
module Strings {

  predicate StartsWith(s: string, p: string) {
    |p| <= |s| && s[..|p|] == p
  }

  predicate EndsWith(s: string, p: string) {
    |p| <= |s| && s[|s| - |p|..] == p
  }

  /** Σ |w| over the words. */
  function SumLengths(ws: seq<string>): nat
  {
    if |ws| == 0 then 0 else |ws[0]| + SumLengths(ws[1..])
  }

  /** Number of occurrences of `c` in `s`. */
  function Count(s: string, c: char): nat
  {
    if |s| == 0 then 0 else (if s[0] == c then 1 else 0) + Count(s[1..], c)
  }

  /** `sep.join(ws)` */
  function Join(ws: seq<string>, sep: string): (r: string)
  {
    if |ws| == 0 then ""
    else if |ws| == 1 then ws[0]
    else ws[0] + sep + Join(ws[1..], sep)
  }

  /** Position of the first occurrence of `c` in `s`. */
  function IndexOf(s: string, c: char): (i: nat)
    requires c in s
    ensures i < |s| && s[i] == c && c !in s[..i]
  {
    if s[0] == c then 0
    else
      assert c in s[1..] by { var k :| 0 <= k < |s| && s[k] == c; assert s[1..][k - 1] == c; }
      var j := IndexOf(s[1..], c);
      assert s[..j + 1] == [s[0]] + s[1..][..j];
      1 + j
  }

  /** Position of the last occurrence of `c` in `s`. */
  function LastIndexOf(s: string, c: char): (i: nat)
    requires c in s
    ensures i < |s| && s[i] == c && c !in s[i + 1..]
    decreases |s|
  {
    if s[|s| - 1] == c then |s| - 1
    else
      assert c in s[..|s| - 1] by { var k :| 0 <= k < |s| && s[k] == c; assert s[..|s| - 1][k] == c; }
      var j := LastIndexOf(s[..|s| - 1], c);
      assert s[j + 1..] == s[..|s| - 1][j + 1..] + [s[|s| - 1]];
      j
  }

  /** The first occurrence of `c` in `a + [c] + b` is the one between them
      when `a` does not contain `c`. */
  lemma IndexOfAfterPrefix(a: string, c: char, b: string)
    requires c !in a
    ensures IndexOf(a + [c] + b, c) == |a|
  {
    var s := a + [c] + b;
    assert s[|a|] == c;
    assert s[..|a|] == a;
  }

  /** The last occurrence of `c` in `a + [c] + b` is the one between them
      when `b` does not contain `c`. */
  lemma LastIndexOfBeforeSuffix(a: string, c: char, b: string)
    requires c !in b
    ensures LastIndexOf(a + [c] + b, c) == |a|
  {
    var s := a + [c] + b;
    assert s[|a|] == c;
    var k := LastIndexOf(s, c);
    assert s[|a| + 1..] == b;
  }

  /** `s.split(sep)`: the pieces between occurrences of `sep`; never empty. */
  function Split(s: string, sep: char): (r: seq<string>)
    ensures |r| > 0
    decreases |s|
  {
    if sep !in s then [s]
    else
      var i := IndexOf(s, sep);
      [s[..i]] + Split(s[i + 1..], sep)
  }

  lemma {:induction false} CountConcat(a: string, b: string, c: char)
    ensures Count(a + b, c) == Count(a, c) + Count(b, c)
    decreases |a|
  {
    if |a| == 0 {
      assert a + b == b;
    } else {
      assert (a + b)[1..] == a[1..] + b;
      CountConcat(a[1..], b, c);
    }
  }

  lemma {:induction false} CountAbsent(s: string, c: char)
    requires c !in s
    ensures Count(s, c) == 0
    decreases |s|
  {
    if |s| > 0 {
      CountAbsent(s[1..], c);
    }
  }

  /** Joining words that do not contain the separator puts exactly one
      separator between consecutive words. */
  lemma {:induction false} JoinCountsSeparators(ws: seq<string>, sep: char)
    requires |ws| > 0
    requires forall k :: 0 <= k < |ws| ==> sep !in ws[k]
    ensures Count(Join(ws, [sep]), sep) == |ws| - 1
    ensures |Join(ws, [sep])| == SumLengths(ws) + |ws| - 1
    decreases |ws|
  {
    CountAbsent(ws[0], sep);
    if |ws| > 1 {
      JoinCountsSeparators(ws[1..], sep);
      CountConcat(ws[0], [sep], sep);
      CountConcat(ws[0] + [sep], Join(ws[1..], [sep]), sep);
    }
  }

  /** Splitting undoes joining, as long as no word contains the separator. */
  lemma {:induction false} SplitJoin(ws: seq<string>, sep: char)
    requires |ws| > 0
    requires forall k :: 0 <= k < |ws| ==> sep !in ws[k]
    ensures Split(Join(ws, [sep]), sep) == ws
    decreases |ws|
  {
    if |ws| > 1 {
      var s := Join(ws, [sep]);
      var w := ws[0];
      var rest := Join(ws[1..], [sep]);
      assert s == w + [sep] + rest;
      assert s[|w|] == sep;
      IndexOfAfterPrefix(w, sep, rest);
      assert s[..|w|] == w;
      assert s[|w| + 1..] == rest;
      assert Split(s, sep) == [w] + Split(rest, sep);
      SplitJoin(ws[1..], sep);
    }
  }
}
