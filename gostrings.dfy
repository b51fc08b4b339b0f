/**
 * The parts of Go's `strings` package that the Oracle adapter calls, on ASCII
 * text: a string is a sequence of characters, one character per byte, so the
 * byte offsets Go returns are the sequence indices used here.
 */
module GoStrings {

  predicate IsUpper(c: char) { 'A' <= c <= 'Z' }

  predicate IsDigit(c: char) { '0' <= c <= '9' }

  /** The ASCII characters `strings.TrimSpace` removes: space, \t, \n, \v, \f and \r. */
  predicate IsSpace(c: char) {
    c == ' ' || c == '\t' || c == '\n' || c == '\U{000B}' || c == '\U{000C}' || c == '\r'
  }

  /** Every character of `s` satisfies `p`. */
  predicate All(s: string, p: char -> bool) {
    forall k :: 0 <= k < |s| ==> p(s[k])
  }

  /** `s[i..]` starts with `sub`. */
  predicate OccursAt(s: string, sub: string, i: int) {
    0 <= i && i + |sub| <= |s| && s[i..i + |sub|] == sub
  }

  /** `unicode.ToLower` on one ASCII character: capitals move to the small letters, nothing else changes. */
  function LowerChar(c: char): (d: char)
    ensures IsUpper(c) ==> 'a' <= d <= 'z' && d != c
    ensures !IsUpper(c) ==> d == c
  {
    if IsUpper(c) then (c as int - 'A' as int + 'a' as int) as char else c
  }

  /** `strings.ToLower`: lower-cases every character and keeps the length. */
  function ToLower(s: string): (r: string)
    ensures |r| == |s|
    ensures forall k :: 0 <= k < |s| ==> r[k] == LowerChar(s[k])
  {
    if s == [] then [] else [LowerChar(s[0])] + ToLower(s[1..])
  }

  /** Drops the longest suffix whose characters all satisfy `drop`. */
  function TrimRightWhile(s: string, drop: char -> bool): (r: string)
    ensures |r| <= |s| && r == s[..|r|]
    ensures All(s[|r|..], drop)
    ensures r == [] || !drop(r[|r| - 1])
  {
    if |s| > 0 && drop(s[|s| - 1]) then TrimRightWhile(s[..|s| - 1], drop) else s
  }

  /**
   * `strings.TrimSpace`: `s` without its leading and trailing white space; the
   * result neither starts nor ends with white space.
   */
  function TrimSpace(s: string): (r: string)
    ensures |r| <= |s|
    ensures r == [] || (!IsSpace(r[0]) && !IsSpace(r[|r| - 1]))
    decreases |s|
  {
    if |s| > 0 && IsSpace(s[0]) then TrimSpace(s[1..])
    else if |s| > 0 && IsSpace(s[|s| - 1]) then TrimSpace(s[..|s| - 1])
    else s
  }

  /** `r` is `s[a..a + |r|]` and only white space lies outside it. */
  ghost predicate IsTrimmedInfix(s: string, r: string, a: int) {
    0 <= a <= |s| - |r| && r == s[a..a + |r|] && AllSpace(s[..a]) && AllSpace(s[a + |r|..])
  }

  ghost predicate AllSpace(u: string) {
    forall k :: 0 <= k < |u| ==> IsSpace(u[k])
  }

  /** What `TrimSpace` removes is the white space on either side of an infix of `s`. */
  lemma {:induction false} TrimSpaceIsInfix(s: string) returns (a: int)
    ensures IsTrimmedInfix(s, TrimSpace(s), a)
    decreases |s|
  {
    if |s| > 0 && IsSpace(s[0]) {
      var b := TrimSpaceIsInfix(s[1..]);
      InfixAfterLeadingSpace(s, TrimSpace(s), b);
      a := b + 1;
    } else if |s| > 0 && IsSpace(s[|s| - 1]) {
      a := TrimSpaceIsInfix(s[..|s| - 1]);
      InfixBeforeTrailingSpace(s, TrimSpace(s), a);
    } else {
      a := 0;
      assert s[..0] == [] && s[|s|..] == [];
    }
  }

  lemma InfixAfterLeadingSpace(s: string, r: string, b: int)
    requires |s| > 0 && IsSpace(s[0]) && IsTrimmedInfix(s[1..], r, b)
    ensures IsTrimmedInfix(s, r, b + 1)
  {
    var a := b + 1;
    assert s[a..a + |r|] == s[1..][b..b + |r|];
    assert s[a + |r|..] == s[1..][b + |r|..];
    var u, v := s[..a], s[1..][..b];
    forall k | 0 <= k < |u| ensures IsSpace(u[k]) {
      if k > 0 {
        assert u[k] == v[k - 1];
      }
    }
  }

  lemma InfixBeforeTrailingSpace(s: string, r: string, a: int)
    requires |s| > 0 && IsSpace(s[|s| - 1]) && IsTrimmedInfix(s[..|s| - 1], r, a)
    ensures IsTrimmedInfix(s, r, a)
  {
    var t := s[..|s| - 1];
    assert s[a..a + |r|] == t[a..a + |r|];
    assert s[..a] == t[..a];
    var u, v := s[a + |r|..], t[a + |r|..];
    forall k | 0 <= k < |u| ensures IsSpace(u[k]) {
      if k < |v| {
        assert u[k] == v[k];
      }
    }
  }

  /**
   * `strings.Index` with a one-character separator: the first position of `c`
   * in `s`, or -1 when `c` does not occur.
   */
  function IndexChar(s: string, c: char): (i: int)
    ensures i == -1 || (0 <= i < |s| && s[i] == c)
    ensures forall k :: 0 <= k < |s| && (i == -1 || k < i) ==> s[k] != c
  {
    if s == [] then -1
    else if s[0] == c then 0
    else
      var j := IndexChar(s[1..], c);
      if j == -1 then -1 else j + 1
  }

  /**
   * `strings.LastIndex`: the last position at which `sub` occurs in `s`, or -1
   * when it occurs nowhere.
   */
  function LastIndex(s: string, sub: string): (i: int)
    ensures i == -1 || OccursAt(s, sub, i)
    ensures forall k :: i < k ==> !OccursAt(s, sub, k)
  {
    if |s| < |sub| then -1
    else if s[|s| - |sub|..] == sub then |s| - |sub|
    else
      OccursInPrefix(s, sub);
      LastIndex(s[..|s| - 1], sub)
  }

  /** An occurrence that ends before the last character of `s` is an occurrence in `s` without it. */
  lemma OccursInPrefix(s: string, sub: string)
    requires |s| > 0
    ensures forall k :: k + |sub| < |s| ==> (OccursAt(s, sub, k) <==> OccursAt(s[..|s| - 1], sub, k))
  {
    forall k | k + |sub| < |s| ensures OccursAt(s, sub, k) <==> OccursAt(s[..|s| - 1], sub, k) {
      if 0 <= k {
        assert s[k..k + |sub|] == s[..|s| - 1][k..k + |sub|];
      }
    }
  }
}
