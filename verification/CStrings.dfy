/**
  C strings as the parser reads them.  A C string is a
  sequence of characters without NUL; its terminator is the character found
  at index `|s|`, so reading past the terminator is not expressible.
*/
module CStrings {
  import opened Basics

  type CString = s: string | '\0' !in s

  /** The character a `char const*` reads at offset `i`: NUL at the end. */
  function At(s: string, i: nat): char
    requires i <= |s|
  {
    if i < |s| then s[i] else '\0'
  }

  /** The part of a long option in front of its first '=', all of it if there is none. */
  function NamePart(s: string): (n: string)
    ensures n <= s && '=' !in n
    ensures n == s || s[|n|] == '='
  {
    if s == "" || s[0] == '=' then ""
    else
      assert s == [s[0]] + s[1..];
      [s[0]] + NamePart(s[1..])
  }

  /** NamePart is the only prefix that is free of '=' and is followed by '=' or by nothing. */
  lemma NamePartUnique(s: string, n: string)
    requires n <= s && '=' !in n
    requires n == s || s[|n|] == '='
    ensures NamePart(s) == n
  {
  }

  /** What follows the first '=' of a long option, if there is one. */
  function AttachedPart(s: string): (a: Maybe<string>)
    ensures a.Just? ==> s == NamePart(s) + "=" + a.value
    ensures a.Nothing? <==> '=' !in s
  {
    var n := NamePart(s);
    if |n| == |s| then Nothing else Just(s[|n| + 1..])
  }

  /** The length of the longest common prefix of two strings. */
  function CommonPrefix(a: string, b: string): (k: nat)
    ensures k <= |a| && k <= |b| && a[..k] == b[..k]
    ensures k == |a| || k == |b| || a[k] != b[k]
  {
    if a == "" || b == "" || a[0] != b[0] then 0
    else
      var k := CommonPrefix(a[1..], b[1..]);
      assert a[..k + 1] == [a[0]] + a[1..][..k];
      assert b[..k + 1] == [b[0]] + b[1..][..k];
      k + 1
  }

  lemma CommonPrefixUnique(a: string, b: string, k: nat)
    requires k <= |a| && k <= |b| && a[..k] == b[..k]
    requires k == |a| || k == |b| || a[k] != b[k]
    ensures CommonPrefix(a, b) == k
  {
  }

  /** No common prefix is longer than the longest. */
  lemma CommonPrefixIsLongest(a: string, b: string, k: nat)
    requires k <= |a| && k <= |b| && a[..k] == b[..k]
    ensures k <= CommonPrefix(a, b)
  {
    var longest := CommonPrefix(a, b);
    if longest < k {
      assert a[..k][longest] == b[..k][longest];
    }
  }
}
