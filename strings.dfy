/** Python's `str.strip()` with no argument, on strings of code points.
    The translation engine trims every language slot with it, and the
    project store trims a new project's name with it. */
module Strings {

  /** The characters for which Python's `str.isspace()` holds: the
      Unicode white-space characters and the four ASCII separators
      U+001C..U+001F. */
  const Whitespace: set<char> := {
    '\t', '\n', '\U{0B}', '\U{0C}', '\r', '\U{1C}', '\U{1D}', '\U{1E}', '\U{1F}', ' ',
    '\U{85}', '\U{A0}', '\U{1680}',
    '\U{2000}', '\U{2001}', '\U{2002}', '\U{2003}', '\U{2004}', '\U{2005}',
    '\U{2006}', '\U{2007}', '\U{2008}', '\U{2009}', '\U{200A}',
    '\U{2028}', '\U{2029}', '\U{202F}', '\U{205F}', '\U{3000}'
  }

  predicate IsSpace(c: char) {
    c in Whitespace
  }

  /** s holds nothing but white space (the empty string included). */
  predicate IsBlank(s: string) {
    forall i :: 0 <= i < |s| ==> IsSpace(s[i])
  }

  /** Drops the leading white space (`lstrip()`). */
  function TrimStart(s: string): (r: string)
    ensures |r| <= |s|
  {
    if |s| > 0 && IsSpace(s[0]) then TrimStart(s[1..]) else s
  }

  /** Drops the trailing white space (`rstrip()`). */
  function TrimEnd(s: string): (r: string)
    ensures |r| <= |s|
  {
    if |s| > 0 && IsSpace(s[|s| - 1]) then TrimEnd(s[..|s| - 1]) else s
  }

  /** TrimStart(s) is the longest suffix of s that does not start with
      white space. */
  lemma {:induction false} TrimStartIsSuffix(s: string)
    ensures TrimStart(s) == s[|s| - |TrimStart(s)|..]
    ensures IsBlank(s[..|s| - |TrimStart(s)|])
    ensures TrimStart(s) == [] || !IsSpace(TrimStart(s)[0])
  {
    if |s| > 0 && IsSpace(s[0]) {
      var t := TrimStart(s[1..]);
      TrimStartIsSuffix(s[1..]);
      assert s[..|s| - |t|] == [s[0]] + s[1..][..|s| - 1 - |t|];
    }
  }

  /** TrimEnd(s) is the longest prefix of s that does not end with white
      space. */
  lemma {:induction false} TrimEndIsPrefix(s: string)
    ensures TrimEnd(s) == s[..|TrimEnd(s)|]
    ensures IsBlank(s[|TrimEnd(s)|..])
    ensures TrimEnd(s) == [] || !IsSpace(TrimEnd(s)[|TrimEnd(s)| - 1])
  {
    if |s| > 0 && IsSpace(s[|s| - 1]) {
      var t := TrimEnd(s[..|s| - 1]);
      TrimEndIsPrefix(s[..|s| - 1]);
      assert s[|t|..] == s[..|s| - 1][|t|..] + [s[|s| - 1]];
    }
  }

  /** `s.strip()`: it neither starts nor ends with white space, and it
      is empty exactly when s is blank; `TrimIsSlice` and
      `TrimDropsOnlySpace` say which slice of s it is. */
  function Trim(s: string): (r: string)
    ensures |r| <= |s|
    ensures r == [] || (!IsSpace(r[0]) && !IsSpace(r[|r| - 1]))
    ensures r == [] <==> IsBlank(s)
  {
    var t := TrimStart(s);
    var r := TrimEnd(t);
    TrimStartIsSuffix(s);
    TrimEndIsPrefix(t);
    assert r != [] ==> r[0] == t[0];
    var k := |s| - |t|;
    assert s[k + |r|..] == t[|r|..];
    BlankSplit(s, k, |r|);
    r
  }

  /** The number of white-space characters `strip()` drops at the front. */
  function Leading(s: string): (n: nat)
    ensures n <= |s|
  {
    |s| - |TrimStart(s)|
  }

  /** Trim(s) is the slice of s that starts where its leading white space
      ends ... */
  lemma TrimIsSlice(s: string)
    ensures Leading(s) + |Trim(s)| <= |s|
    ensures Trim(s) == s[Leading(s)..Leading(s) + |Trim(s)|]
  {
    TrimStartIsSuffix(s);
    TrimEndIsPrefix(TrimStart(s));
  }

  /** ... and everything outside that slice is white space. */
  lemma TrimDropsOnlySpace(s: string)
    ensures Leading(s) + |Trim(s)| <= |s|
    ensures IsBlank(s[..Leading(s)])
    ensures IsBlank(s[Leading(s) + |Trim(s)|..])
  {
    var t := TrimStart(s);
    var r := TrimEnd(t);
    TrimStartIsSuffix(s);
    TrimEndIsPrefix(t);
    assert s[Leading(s) + |r|..] == t[|r|..];
  }

  /** With s[..k] and s[k + n..] blank, s is blank exactly when
      s[k..k + n] is empty or blank. */
  lemma BlankSplit(s: string, k: nat, n: nat)
    requires k + n <= |s|
    requires IsBlank(s[..k]) && IsBlank(s[k + n..])
    requires n == 0 || !IsSpace(s[k])
    ensures n == 0 <==> IsBlank(s)
  {
    if n == 0 {
      forall i | 0 <= i < |s| ensures IsSpace(s[i]) {
        if i >= k { assert s[i] == s[k + n..][i - k]; } else { assert s[i] == s[..k][i]; }
      }
    }
  }

  /** Stripping twice is stripping once. */
  lemma TrimIdempotent(s: string)
    ensures Trim(Trim(s)) == Trim(s)
  {
    var r := Trim(s);
    assert TrimStart(r) == r;
    assert TrimEnd(r) == r;
  }
}
