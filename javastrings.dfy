/** The java.lang.String and java.util.StringTokenizer behaviour the core relies
    on: prefix and substring search, trim(), split(" "), replaceAll of one
    character, equalsIgnoreCase on ASCII letters, and tokenizing with and
    without returned delimiters. */
module JavaStrings {

  predicate StartsWith(s: string, p: string) {
    |p| <= |s| && s[..|p|] == p
  }

  predicate EndsWith(s: string, p: string) {
    |p| <= |s| && s[|s| - |p|..] == p
  }

  /** p occurs in s at position j. */
  predicate OccursAt(s: string, p: string, j: int) {
    0 <= j && j + |p| <= |s| && s[j..j + |p|] == p
  }

  function IndexOfFrom(s: string, p: string, k: nat): (r: int)
    requires k <= |s|
    ensures r == -1 || (k <= r && OccursAt(s, p, r))
    ensures r == -1 ==> forall j :: k <= j ==> !OccursAt(s, p, j)
    ensures r != -1 ==> forall j :: k <= j < r ==> !OccursAt(s, p, j)
    decreases |s| - k
  {
    if k + |p| > |s| then -1
    else if s[k..k + |p|] == p then k
    else IndexOfFrom(s, p, k + 1)
  }

  /** String.indexOf(String): the first position of p in s, or -1. */
  function IndexOf(s: string, p: string): (r: int)
    ensures r == -1 <==> forall j :: !OccursAt(s, p, j)
    ensures r != -1 ==> OccursAt(s, p, r) && forall j :: 0 <= j < r ==> !OccursAt(s, p, j)
  {
    IndexOfFrom(s, p, 0)
  }

  /** String.contains(CharSequence). */
  predicate Contains(s: string, p: string) {
    IndexOf(s, p) != -1
  }

  /** String.indexOf(char): the first position of c in s, or -1. */
  function IndexOfChar(s: string, c: char): (r: int)
    ensures r == -1 <==> c !in s
    ensures r != -1 ==> 0 <= r < |s| && s[r] == c && c !in s[..r]
  {
    if |s| == 0 then -1
    else if s[0] == c then 0
    else
      var k := IndexOfChar(s[1..], c);
      if k == -1 then -1
      else
        assert s[..k + 1] == [s[0]] + s[1..][..k];
        k + 1
  }

  /** Leading characters at or below U+0020 removed. */
  function TrimStart(s: string): (r: string)
    ensures |r| <= |s| && r == s[|s| - |r|..]
    ensures |r| == 0 || r[0] > ' '
    ensures forall i :: 0 <= i < |s| - |r| ==> s[i] <= ' '
  {
    if |s| > 0 && s[0] <= ' ' then TrimStart(s[1..]) else s
  }

  /** Trailing characters at or below U+0020 removed. */
  function TrimEnd(s: string): (r: string)
    ensures |r| <= |s| && r == s[..|r|]
    ensures |r| == 0 || r[|r| - 1] > ' '
    ensures forall i :: |r| <= i < |s| ==> s[i] <= ' '
  {
    if |s| > 0 && s[|s| - 1] <= ' ' then TrimEnd(s[..|s| - 1]) else s
  }

  /** String.trim(): every leading and trailing character at or below U+0020
      removed. */
  function Trim(s: string): string {
    TrimEnd(TrimStart(s))
  }

  /** A string none of whose characters is at or below U+0020. */
  predicate NoControlOrSpace(s: string) {
    forall i :: 0 <= i < |s| ==> s[i] > ' '
  }

  /** trim() leaves alone a string that neither starts nor ends with a
      character at or below U+0020. */
  lemma TrimUnchanged(s: string)
    requires |s| == 0 || (s[0] > ' ' && s[|s| - 1] > ' ')
    ensures Trim(s) == s
  {
  }

  /** Trimming a string with trailing spaces removes exactly those. */
  lemma TrimTrailingSpace(s: string)
    requires |s| == 0 || (s[0] > ' ' && s[|s| - 1] > ' ')
    ensures Trim(s + " ") == s
  {
    if |s| == 0 {
      assert TrimStart(" ") == "";
    } else {
      assert TrimStart(s + " ") == s + " ";
      assert (s + " ")[..|s|] == s;
    }
  }

  /** Strings joined with a one-character separator. */
  function Join(sep: char, xs: seq<string>): string {
    if |xs| == 0 then ""
    else if |xs| == 1 then xs[0]
    else xs[0] + [sep] + Join(sep, xs[1..])
  }

  /** All pieces of s between occurrences of c, empty pieces included. */
  function SplitAll(s: string, c: char): (r: seq<string>)
    ensures |r| >= 1
    ensures forall i :: 0 <= i < |r| ==> c !in r[i]
    decreases |s|
  {
    var k := IndexOfChar(s, c);
    if k == -1 then [s] else [s[..k]] + SplitAll(s[k + 1..], c)
  }

  /** A sequence with its trailing empty strings removed. */
  function DropTrailingEmpty(xs: seq<string>): (r: seq<string>)
    ensures |r| <= |xs| && r == xs[..|r|]
    ensures |r| == 0 || r[|r| - 1] != ""
    ensures forall i :: |r| <= i < |xs| ==> xs[i] == ""
  {
    if |xs| > 0 && xs[|xs| - 1] == "" then DropTrailingEmpty(xs[..|xs| - 1]) else xs
  }

  /** String.split(" ") with a one-character literal pattern: the pieces
      between occurrences, trailing empty pieces removed; a string without an
      occurrence gives itself. */
  function Split(s: string, c: char): seq<string> {
    if c !in s then [s] else DropTrailingEmpty(SplitAll(s, c))
  }

  // ---- Sequence facts, stated generically so that no string theory gets in the way

  lemma Around<T>(a: seq<T>, x: T, b: seq<T>)
    ensures (a + [x] + b)[|a|] == x && (a + [x] + b)[..|a|] == a && (a + [x] + b)[|a| + 1..] == b
  {
  }

  lemma HeadTail<T>(xs: seq<T>)
    requires |xs| >= 1
    ensures xs == [xs[0]] + xs[1..]
  {
  }

  lemma TailAppend<T>(a: seq<T>, b: seq<T>)
    requires |a| >= 1
    ensures (a + b)[0] == a[0] && (a + b)[1..] == a[1..] + b
  {
  }

  lemma EmptyAppend<T>(a: seq<T>, b: seq<T>)
    requires |a| == 0
    ensures a + b == b
  {
  }

  /** Splitting a join gives back the pieces when no piece holds the separator. */
  lemma {:induction false} SplitAllJoin(sep: char, xs: seq<string>)
    requires |xs| >= 1
    requires forall i :: 0 <= i < |xs| ==> sep !in xs[i]
    ensures SplitAll(Join(sep, xs), sep) == xs
    decreases |xs|
  {
    if |xs| > 1 {
      var rest := Join(sep, xs[1..]);
      var s := xs[0] + [sep] + rest;
      Around(xs[0], sep, rest);
      assert IndexOfChar(s, sep) == |xs[0]|;
      SplitAllJoin(sep, xs[1..]);
      HeadTail(xs);
    }
  }

  /** A join of two or more pieces holds the separator. */
  lemma JoinHasSeparator(sep: char, xs: seq<string>)
    requires |xs| >= 2
    ensures sep in Join(sep, xs)
  {
    assert Join(sep, xs)[|xs[0]|] == sep;
  }

  /** s with every occurrence of c removed (String.replaceAll on a pattern
      matching one literal character, with "" as replacement). */
  function RemoveChar(s: string, c: char): (r: string)
    ensures c !in r
    ensures c !in s ==> r == s
  {
    if |s| == 0 then ""
    else (if s[0] == c then "" else [s[0]]) + RemoveChar(s[1..], c)
  }

  lemma {:induction false} RemoveCharAppend(a: string, b: string, c: char)
    ensures RemoveChar(a + b, c) == RemoveChar(a, c) + RemoveChar(b, c)
    decreases |a|
  {
    if |a| > 0 {
      TailAppend(a, b);
      RemoveCharAppend(a[1..], b, c);
    } else {
      EmptyAppend(a, b);
    }
  }

  /** ASCII upper-case letters mapped to lower case, every other character kept. */
  function LowerAscii(c: char): char {
    if 'A' <= c <= 'Z' then ((c as int) + 32) as char else c
  }

  /** String.equalsIgnoreCase, restricted to ASCII case folding. */
  predicate EqualsIgnoreCase(a: string, b: string) {
    |a| == |b| && forall i :: 0 <= i < |a| ==> LowerAscii(a[i]) == LowerAscii(b[i])
  }

  /** Boolean.parseBoolean: true exactly for "true" in any letter case. */
  predicate ParseBoolean(s: string) {
    EqualsIgnoreCase(s, "true")
  }

  /** The length of the longest prefix of s holding no delimiter. */
  function RunLength(s: string, delims: set<char>): (k: nat)
    ensures k <= |s|
    ensures forall i :: 0 <= i < k ==> s[i] !in delims
    ensures k == |s| || s[k] in delims
  {
    if |s| == 0 || s[0] in delims then 0 else 1 + RunLength(s[1..], delims)
  }

  /** The tokens a java.util.StringTokenizer over s hands out: the maximal
      runs of non-delimiter characters, and, when returnDelims is set, every
      delimiter character as a token of its own, in order. */
  function Tokens(s: string, delims: set<char>, returnDelims: bool): seq<string>
    decreases |s|
  {
    if |s| == 0 then []
    else if s[0] in delims then
      (if returnDelims then [[s[0]]] else []) + Tokens(s[1..], delims, returnDelims)
    else
      var k := RunLength(s, delims);
      [s[..k]] + Tokens(s[k..], delims, returnDelims)
  }

  /** No token is empty, and without returned delimiters no token holds one. */
  lemma {:induction false} TokensShape(s: string, delims: set<char>, returnDelims: bool)
    ensures forall i :: 0 <= i < |Tokens(s, delims, returnDelims)| ==> |Tokens(s, delims, returnDelims)[i]| >= 1
    ensures !returnDelims ==> forall i, j :: 0 <= i < |Tokens(s, delims, false)| && 0 <= j < |Tokens(s, delims, false)[i]| ==> Tokens(s, delims, false)[i][j] !in delims
    decreases |s|
  {
    if |s| > 0 {
      if s[0] in delims {
        TokensShape(s[1..], delims, returnDelims);
      } else {
        TokensShape(s[RunLength(s, delims)..], delims, returnDelims);
      }
    }
  }

  /** A word of non-delimiters followed by a delimiter or the end of text is one token. */
  lemma TokensWord(w: string, rest: string, delims: set<char>, returnDelims: bool)
    requires |w| >= 1
    requires forall i :: 0 <= i < |w| ==> w[i] !in delims
    requires |rest| == 0 || rest[0] in delims
    ensures Tokens(w + rest, delims, returnDelims) == [w] + Tokens(rest, delims, returnDelims)
  {
    var s := w + rest;
    RunLengthWord(w, rest, delims);
    assert s[..|w|] == w && s[|w|..] == rest;
  }

  lemma {:induction false} RunLengthWord(w: string, rest: string, delims: set<char>)
    requires forall i :: 0 <= i < |w| ==> w[i] !in delims
    requires |rest| == 0 || rest[0] in delims
    ensures RunLength(w + rest, delims) == |w|
    decreases |w|
  {
    if |w| > 0 {
      assert (w + rest)[1..] == w[1..] + rest;
      RunLengthWord(w[1..], rest, delims);
    } else {
      assert w + rest == rest;
    }
  }

  /** A delimiter character at the front of the text. */
  lemma TokensDelim(d: char, rest: string, delims: set<char>, returnDelims: bool)
    requires d in delims
    ensures Tokens([d] + rest, delims, returnDelims)
      == (if returnDelims then [[d]] else []) + Tokens(rest, delims, returnDelims)
  {
    assert ([d] + rest)[1..] == rest;
  }
}
