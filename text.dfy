/**
 * The string operations of the .NET base library that the modelled code
 * relies on, over `seq<char>`.
 */
module Text {

  predicate IsAsciiLetter(c: char) {
    ('A' <= c <= 'Z') || ('a' <= c <= 'z')
  }

  predicate IsDecimalDigit(c: char) {
    '0' <= c <= '9'
  }

  predicate IsLetterOrDigit(c: char) {
    IsAsciiLetter(c) || IsDecimalDigit(c)
  }

  /** char.ToUpper restricted to ASCII. */
  function ToUpper(c: char): (u: char)
    ensures IsAsciiLetter(c) ==> 'A' <= u <= 'Z'
    ensures !('a' <= c <= 'z') ==> u == c
  {
    if 'a' <= c <= 'z' then (c as int - 32) as char else c
  }

  /** string.ToUpper restricted to ASCII. */
  function ToUpperString(s: string): (u: string)
    ensures |u| == |s|
    ensures forall i :: 0 <= i < |s| ==> u[i] == ToUpper(s[i])
  {
    if s == [] then [] else [ToUpper(s[0])] + ToUpperString(s[1..])
  }

  /** string.Join(sep, tokens). */
  function Join(sep: string, tokens: seq<string>): string {
    if |tokens| == 0 then ""
    else if |tokens| == 1 then tokens[0]
    else tokens[0] + sep + Join(sep, tokens[1..])
  }

  /** The tokens of `s` between occurrences of the separator character `sep` (string.Split(sep)). */
  function Split(s: string, sep: char): (tokens: seq<string>)
    ensures |tokens| >= 1
    ensures forall i :: 0 <= i < |tokens| ==> sep !in tokens[i]
  {
    if sep !in s then [s]
    else
      var k := FirstIndexOf(s, sep);
      [s[..k]] + Split(s[k + 1..], sep)
  }

  function FirstIndexOf(s: string, c: char): (k: nat)
    requires c in s
    ensures k < |s| && s[k] == c && c !in s[..k]
  {
    if s[0] == c then 0 else 1 + FirstIndexOf(s[1..], c)
  }

  /** Splitting a joined sequence of tokens gives the tokens back when none of them holds the separator. */
  lemma {:induction false} SplitJoin(tokens: seq<string>, sep: char)
    requires |tokens| >= 1
    requires forall i :: 0 <= i < |tokens| ==> sep !in tokens[i]
    ensures Split(Join([sep], tokens), sep) == tokens
  {
    if |tokens| > 1 {
      var s := Join([sep], tokens);
      var rest := Join([sep], tokens[1..]);
      assert s == tokens[0] + [sep] + rest;
      assert s[|tokens[0]|] == sep;
      assert sep in s;
      var k := FirstIndexOf(s, sep);
      assert sep !in s[..k];
      assert s[..|tokens[0]|] == tokens[0];
      assert s[..k] == tokens[0];
      assert s[k + 1..] == rest;
      SplitJoin(tokens[1..], sep);
    }
  }

  /** The position of the first "\r\n" in `s`, or -1: string.IndexOf(string) searching ordinally, where .NET compares with the current culture. */
  function IndexOfCrLf(s: string): (k: int)
    ensures k == -1 || 0 <= k < |s| - 1
    ensures k >= 0 ==> s[k] == '\r' && s[k + 1] == '\n' && !HasCrLf(s[..k + 1])
    ensures k == -1 <==> !HasCrLf(s)
  {
    if |s| < 2 then -1
    else if s[0] == '\r' && s[1] == '\n' then
      assert CrLfAt(s, 0);
      0
    else
      var k := IndexOfCrLf(s[1..]);
      if k == -1 then
        NoCrLfCons(s);
        -1
      else
        assert s[..k + 2][1..] == s[1..][..k + 1];
        NoCrLfCons(s[..k + 2]);
        assert CrLfAt(s, k + 1);
        k + 1
  }

  /** The two characters IndexOfCrLf points at are "\r\n". */
  lemma CrLfSlice(s: string, k: int)
    requires 0 <= k < |s| - 1 && s[k] == '\r' && s[k + 1] == '\n'
    ensures s[k..k + 2] == "\r\n"
  {
  }

  /** A text whose first two characters are not CR LF and whose tail holds no CR LF holds none. */
  lemma NoCrLfCons(s: string)
    requires |s| >= 2 && !(s[0] == '\r' && s[1] == '\n') && !HasCrLf(s[1..])
    ensures !HasCrLf(s)
  {
    forall i | 0 <= i < |s| - 1
      ensures !CrLfAt(s, i)
    {
      if i > 0 {
        assert !CrLfAt(s[1..], i - 1);
      }
    }
  }

  lemma NoCrLfInPrefix(s: string, n: nat)
    requires n <= |s| && !HasCrLf(s)
    ensures !HasCrLf(s[..n])
  {
    forall i | 0 <= i < n - 1
      ensures !CrLfAt(s[..n], i)
    {
      assert !CrLfAt(s, i);
    }
  }

  lemma NoCrLfInSuffix(s: string, n: nat)
    requires n <= |s| && !HasCrLf(s)
    ensures !HasCrLf(s[n..])
  {
    forall i | 0 <= i < |s| - n - 1
      ensures !CrLfAt(s[n..], i)
    {
      assert !CrLfAt(s, n + i);
    }
  }

  predicate HasCrLf(s: string) {
    exists i | 0 <= i < |s| - 1 :: CrLfAt(s, i)
  }

  /** A CR at index i followed by an LF. */
  predicate CrLfAt(s: string, i: int) {
    0 <= i < |s| - 1 && s[i] == '\r' && s[i + 1] == '\n'
  }

  function Repeat(c: char, n: nat): (s: string)
    ensures |s| == n && forall i :: 0 <= i < n ==> s[i] == c
  {
    if n == 0 then [] else [c] + Repeat(c, n - 1)
  }

  /** string.PadLeft(width, c). */
  function PadLeft(s: string, width: nat, c: char): (p: string)
    ensures |p| == if |s| < width then width else |s|
    ensures p[|p| - |s|..] == s
    ensures forall i :: 0 <= i < |p| - |s| ==> p[i] == c
  {
    if |s| < width then Repeat(c, width - |s|) + s else s
  }

  /** char.IsWhiteSpace: the Unicode space separators and the line and paragraph separators, together with U+0009 to U+000D, U+0085 and U+00A0. */
  predicate IsWhiteSpace(c: char) {
    ('\U{9}' <= c <= '\U{D}') || c == ' ' || c == '\U{85}' || c == '\U{A0}' || c == '\U{1680}'
    || ('\U{2000}' <= c <= '\U{200A}') || c == '\U{2028}' || c == '\U{2029}' || c == '\U{202F}'
    || c == '\U{205F}' || c == '\U{3000}'
  }

  /** string.TrimEnd(): drops trailing white space. */
  function TrimEnd(s: string): (t: string)
    ensures |t| <= |s| && t == s[..|t|]
    ensures t == [] || !IsWhiteSpace(t[|t| - 1])
    ensures forall i :: |t| <= i < |s| ==> IsWhiteSpace(s[i])
  {
    if s == [] || !IsWhiteSpace(s[|s| - 1]) then s
    else TrimEnd(s[..|s| - 1])
  }

  /** string.EndsWith(suffix, StringComparison.InvariantCultureIgnoreCase), ASCII case folding only. */
  predicate EndsWithIgnoreCase(s: string, suffix: string)
    ensures EndsWithIgnoreCase(s, suffix) ==> |suffix| <= |s|
  {
    if suffix == [] then true
    else
      (|s| > 0 && ToUpper(s[|s| - 1]) == ToUpper(suffix[|suffix| - 1])
       && EndsWithIgnoreCase(s[..|s| - 1], suffix[..|suffix| - 1]))
  }

  lemma EndsWithOne(s: string, c: char)
    ensures EndsWithIgnoreCase(s, [c]) <==> |s| >= 1 && ToUpper(s[|s| - 1]) == ToUpper(c)
  {
    assert [c][..0] == [];
  }

  lemma EndsWithTwo(s: string, c1: char, c2: char)
    ensures EndsWithIgnoreCase(s, [c1, c2]) <==>
      |s| >= 2 && ToUpper(s[|s| - 2]) == ToUpper(c1) && ToUpper(s[|s| - 1]) == ToUpper(c2)
  {
    assert [c1, c2][..1] == [c1];
    if |s| >= 1 {
      EndsWithOne(s[..|s| - 1], c1);
    }
  }
}
