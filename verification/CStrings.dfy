/** NUL-terminated strings in memory, and the functions of sys/strings.c that the file system uses. */
module CStrings {

  const NUL: char := '\0'

  function FirstNul(s: seq<char>): (n: nat)
    ensures n <= |s| && (n < |s| ==> s[n] == NUL)
    ensures forall i :: 0 <= i < n ==> s[i] != NUL
  {
    if s == [] || s[0] == NUL then 0
    else
      var n := FirstNul(s[1..]);
      assert forall i :: 0 < i < n + 1 ==> s[i] == s[1..][i - 1];
      n + 1
  }

  /** The string that begins at the start of `s`. */
  function Text(s: seq<char>): seq<char> {
    s[..FirstNul(s)]
  }

  predicate Terminated(s: seq<char>) {
    NUL in s
  }

  predicate ProperPrefix(s: seq<char>, t: seq<char>) {
    s < t
  }

  lemma TextIs(s: seq<char>, n: nat)
    requires n < |s| && s[n] == NUL && forall i :: 0 <= i < n ==> s[i] != NUL
    ensures Terminated(s) && FirstNul(s) == n && Text(s) == s[..n]
  {
  }

  lemma TerminatedEnds(s: seq<char>)
    requires Terminated(s)
    ensures FirstNul(s) < |s|
  {
    var i :| 0 <= i < |s| && s[i] == NUL;
  }

  method Len(s: seq<char>) returns (n: nat)
    requires Terminated(s)
    ensures n == |Text(s)| == FirstNul(s) < |s|
  {
    TerminatedEnds(s);
    n := 0;
    while s[n] != NUL
      invariant n <= FirstNul(s)
      decreases FirstNul(s) - n
    {
      n := n + 1;
    }
  }

  /** 0 exactly when the first string is a proper prefix of the second. */
  method IsSubString(s1: seq<char>, s2: seq<char>) returns (r: int)
    requires Terminated(s1) && Terminated(s2)
    ensures r == if ProperPrefix(Text(s1), Text(s2)) then 0 else 1
  {
    var k := 0;
    var n1 := Len(s1);
    var n2 := Len(s2);
    if n1 >= n2 {
      return 1;
    }
    while s1[k] != NUL
      invariant k <= n1 && s1[..k] == s2[..k]
      decreases n1 - k
    {
      if s1[k] != s2[k] {
        assert Text(s1)[k] != Text(s2)[k];
        return 1;
      }
      k := k + 1;
    }
    assert Text(s2)[..n1] == s2[..n1];
    return 0;
  }

  /** 0 exactly when the strings are equal. */
  method StrCompare1(s1: seq<char>, s2: seq<char>) returns (r: int)
    requires Terminated(s1) && Terminated(s2)
    ensures r == if Text(s1) == Text(s2) then 0 else 1
  {
    var k := 0;
    var n1 := Len(s1);
    var n2 := Len(s2);
    if n1 != n2 {
      return 1;
    }
    while s1[k] != NUL
      invariant k <= n1 && s1[..k] == s2[..k]
      decreases n1 - k
    {
      if s1[k] != s2[k] {
        assert Text(s1)[k] != Text(s2)[k];
        return 1;
      }
      k := k + 1;
    }
    return 0;
  }

  /** The part of `s` before the first `c`. */
  function Before(s: seq<char>, c: char): (r: seq<char>)
    ensures r <= s && c !in r && (|r| < |s| ==> s[|r|] == c)
  {
    if s == [] || s[0] == c then [] else [s[0]] + Before(s[1..], c)
  }

  lemma BeforeIs(s: seq<char>, c: char, n: nat)
    requires n <= |s| && c !in s[..n] && (n < |s| ==> s[n] == c)
    ensures Before(s, c) == s[..n]
  {
    var r := Before(s, c);
    assert r == s[..|r|];
  }

  /** Copies what follows the prefix `sub`, up to the delimiter; the rest of the buffer is left alone. */
  method StringSub(main: seq<char>, sub: seq<char>, buffer: array<char>, delimiter: char)
    requires Terminated(main) && Terminated(sub) && |Text(sub)| <= |Text(main)| && delimiter != NUL
    requires |Text(main)| - |Text(sub)| <= buffer.Length
    modifies buffer
    ensures var part := Before(Text(main)[|Text(sub)|..], delimiter);
            |part| <= buffer.Length && buffer[..] == part + old(buffer[|part|..])
  {
    TerminatedEnds(main);
    ghost var was := buffer[..];
    ghost var tail := Text(main)[|Text(sub)|..];
    var k := Len(sub);
    var j := 0;
    while main[k] != NUL
      invariant j <= |tail| && k == |Text(sub)| + j
      invariant delimiter !in tail[..j]
      invariant buffer[..j] == tail[..j] && forall x :: j <= x < buffer.Length ==> buffer[x] == was[x]
      decreases |tail| - j
    {
      assert main[k] == tail[j];
      if main[k] == delimiter {
        BeforeIs(tail, delimiter, j);
        assert buffer[j..] == was[j..] && buffer[..] == buffer[..j] + buffer[j..];
        return;
      }
      buffer[j] := main[k];
      assert tail[..j + 1] == tail[..j] + [tail[j]] && buffer[..j + 1] == buffer[..j] + [tail[j]];
      j := j + 1;
      k := k + 1;
    }
    BeforeIs(tail, delimiter, j);
    assert buffer[j..] == was[j..] && buffer[..] == buffer[..j] + buffer[j..];
  }
}
