/**
 * The .NET string helpers the core uses, restricted to ASCII: `char.IsWhiteSpace`,
 * `string.IsNullOrWhiteSpace`, `Trim` and `ToLowerInvariant`.
 */
module Ascii {

  /** ASCII white space: space and the controls U+0009 to U+000D. */
  predicate IsWhiteSpace(c: char) {
    c == ' ' || ('\t' <= c <= '\r')
  }

  /** `string.IsNullOrWhiteSpace` of a non-null string: empty or all white space. */
  predicate IsBlank(s: string) {
    forall i :: 0 <= i < |s| ==> IsWhiteSpace(s[i])
  }

  /** No white space at either end. */
  predicate IsTrimmed(s: string) {
    |s| == 0 || (!IsWhiteSpace(s[0]) && !IsWhiteSpace(s[|s| - 1]))
  }

  predicate IsUpper(c: char) {
    'A' <= c <= 'Z'
  }

  /** No upper-case ASCII letter anywhere. */
  predicate IsLower(s: string) {
    forall i :: 0 <= i < |s| ==> !IsUpper(s[i])
  }

  /** `String.Trim()`: drops the white space at both ends. */
  function Trim(s: string): (r: string)
    ensures IsTrimmed(r)
    ensures |r| == 0 <==> IsBlank(s)
    ensures IsTrimmed(s) ==> r == s
    decreases |s|
  {
    if |s| > 0 && IsWhiteSpace(s[0]) then
      assert IsBlank(s) <==> IsBlank(s[1..]) by {
        assert forall i :: 0 < i < |s| ==> s[i] == s[1..][i - 1];
      }
      Trim(s[1..])
    else if |s| > 0 && IsWhiteSpace(s[|s| - 1]) then
      assert IsBlank(s) <==> IsBlank(s[..|s| - 1]) by {
        assert forall i :: 0 <= i < |s| - 1 ==> s[i] == s[..|s| - 1][i];
      }
      Trim(s[..|s| - 1])
    else
      s
  }

  /** Trimming keeps one contiguous slice of the input and drops only white space around it. */
  lemma TrimIsSlice(s: string)
    ensures exists i, j :: 0 <= i <= j <= |s| && Trim(s) == s[i..j] && IsBlank(s[..i]) && IsBlank(s[j..])
  {
    var i, j := TrimBounds(s);
  }

  /** The bounds of the slice `Trim` keeps. */
  lemma {:induction false} TrimBounds(s: string) returns (i: nat, j: nat)
    ensures i <= j <= |s| && Trim(s) == s[i..j] && IsBlank(s[..i]) && IsBlank(s[j..])
    decreases |s|
  {
    if |s| > 0 && IsWhiteSpace(s[0]) {
      var i', j' := TrimBounds(s[1..]);
      i, j := i' + 1, j' + 1;
      SliceAfterFirst(s, i', j');
    } else if |s| > 0 && IsWhiteSpace(s[|s| - 1]) {
      i, j := TrimBounds(s[..|s| - 1]);
      SliceBeforeLast(s, i, j);
    } else {
      i, j := 0, |s|;
      assert s[..0] == [] && s[|s|..] == [];
    }
  }

  /** A slice of `s[1..]` with blank surroundings is a slice of `s` with blank surroundings. */
  lemma SliceAfterFirst(s: string, i: nat, j: nat)
    requires |s| > 0 && IsWhiteSpace(s[0]) && i <= j <= |s| - 1
    requires IsBlank(s[1..][..i]) && IsBlank(s[1..][j..])
    ensures s[1..][i..j] == s[i + 1..j + 1] && IsBlank(s[..i + 1]) && IsBlank(s[j + 1..])
  {
    var t := s[1..];
    assert s[j + 1..] == t[j..];
    BlankConcat([s[0]], t[..i]);
    assert s[..i + 1] == [s[0]] + t[..i];
  }

  /** A slice of `s[..|s| - 1]` with blank surroundings is a slice of `s` with blank surroundings. */
  lemma SliceBeforeLast(s: string, i: nat, j: nat)
    requires |s| > 0 && IsWhiteSpace(s[|s| - 1]) && i <= j <= |s| - 1
    requires IsBlank(s[..|s| - 1][..i]) && IsBlank(s[..|s| - 1][j..])
    ensures s[..|s| - 1][i..j] == s[i..j] && IsBlank(s[..i]) && IsBlank(s[j..])
  {
    var t := s[..|s| - 1];
    assert s[..i] == t[..i];
    BlankConcat(t[j..], [s[|s| - 1]]);
    assert s[j..] == t[j..] + [s[|s| - 1]];
  }

  lemma BlankConcat(a: string, b: string)
    requires IsBlank(a) && IsBlank(b)
    ensures IsBlank(a + b)
  {
    forall k | 0 <= k < |a + b|
      ensures IsWhiteSpace((a + b)[k])
    {
      if k >= |a| {
        assert (a + b)[k] == b[k - |a|];
      }
    }
  }

  function LowerChar(c: char): (d: char)
    ensures !IsUpper(d)
    ensures IsWhiteSpace(d) == IsWhiteSpace(c)
    ensures !IsUpper(c) ==> d == c
    ensures IsUpper(c) ==> d as int == c as int + 32
  {
    if IsUpper(c) then (c as int + 32) as char else c
  }

  /** `String.ToLowerInvariant()` on ASCII: maps A-Z to a-z, keeps every other character. */
  function ToLower(s: string): (r: string)
    ensures |r| == |s| && IsLower(r)
    ensures forall i :: 0 <= i < |s| ==> IsWhiteSpace(r[i]) == IsWhiteSpace(s[i])
    ensures IsLower(s) ==> r == s
    ensures forall i :: 0 <= i < |s| ==> r[i] == LowerChar(s[i])
  {
    seq(|s|, i requires 0 <= i < |s| => LowerChar(s[i]))
  }

  lemma TrimmedStaysTrimmedWhenLowered(s: string)
    requires IsTrimmed(s)
    ensures IsTrimmed(ToLower(s))
  {
  }

  /** A trimmed, non-empty string is not blank. */
  lemma TrimmedNonEmptyIsNotBlank(s: string)
    requires IsTrimmed(s) && |s| > 0
    ensures !IsBlank(s)
  {
    assert !IsWhiteSpace(s[0]);
  }

  /** Lowering neither adds nor removes a character that is not a letter. */
  lemma LowerKeepsNonLetter(s: string, c: char)
    requires !IsUpper(c) && !('a' <= c <= 'z')
    ensures c in ToLower(s) <==> c in s
  {
    var r := ToLower(s);
    if c in s {
      var i :| 0 <= i < |s| && s[i] == c;
      assert r[i] == c;
    }
    if c in r {
      var i :| 0 <= i < |r| && r[i] == c;
      assert LowerChar(s[i]) == c;
      assert s[i] == c;
    }
  }

  /** Trimming and lower-casing a second time changes nothing. */
  lemma NormalizeIdempotent(s: string)
    ensures ToLower(Trim(ToLower(Trim(s)))) == ToLower(Trim(s))
  {
    var n := ToLower(Trim(s));
    TrimmedStaysTrimmedWhenLowered(Trim(s));
    assert Trim(n) == n;
  }

  /** Trimming only removes characters. */
  lemma {:induction false} TrimKeepsChar(s: string, c: char)
    ensures c in Trim(s) ==> c in s
    decreases |s|
  {
    if |s| > 0 && IsWhiteSpace(s[0]) {
      TrimKeepsChar(s[1..], c);
    } else if |s| > 0 && IsWhiteSpace(s[|s| - 1]) {
      TrimKeepsChar(s[..|s| - 1], c);
    }
  }
}
