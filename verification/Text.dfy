/** The few Python string methods the models need. */
module Text {
  /** The characters `str.strip()` removes. */
  predicate IsSpace(c: char)
  {
    var n := c as int;
    || 9 <= n <= 13 || 28 <= n <= 32 || n == 0x85 || n == 0xa0 || n == 0x1680 || 0x2000 <= n <= 0x200a
    || n == 0x2028 || n == 0x2029 || n == 0x202f || n == 0x205f || n == 0x3000
  }

  /** The 29 of them, one by one. */
  lemma Blanks(c: char)
    ensures IsSpace(c)
       <==> c as int in {0x09, 0x0a, 0x0b, 0x0c, 0x0d, 0x1c, 0x1d, 0x1e, 0x1f, 0x20, 0x85, 0xa0, 0x1680,
                         0x2000, 0x2001, 0x2002, 0x2003, 0x2004, 0x2005, 0x2006, 0x2007, 0x2008, 0x2009, 0x200a,
                         0x2028, 0x2029, 0x202f, 0x205f, 0x3000}
  {}

  function Strip(s: string): string
  {
    if s == "" then ""
    else if IsSpace(s[0]) then Strip(s[1..])
    else if IsSpace(s[|s| - 1]) then Strip(s[..|s| - 1])
    else s
  }

  /** Cutting s at i and j removes blanks only. */
  predicate CutsBlanks(s: string, i: int, j: int)
  {
    0 <= i <= j <= |s| && forall k :: 0 <= k < |s| && !(i <= k < j) ==> IsSpace(s[k])
  }

  lemma SliceOfTail(s: string, i: nat, j: nat)
    requires s != "" && i <= j < |s|
    ensures s[1..][i..j] == s[i + 1..j + 1]
  {
    var a, b := s[1..][i..j], s[i + 1..j + 1];
    assert |a| == j - i && |b| == j - i;
    forall k | 0 <= k < j - i ensures a[k] == b[k] {
      assert a[k] == s[1..][i + k] == s[i + 1 + k];
    }
  }

  lemma CutOneLeft(s: string, i: int, j: int)
    requires s != "" && IsSpace(s[0]) && CutsBlanks(s[1..], i, j)
    ensures CutsBlanks(s, i + 1, j + 1) && s[i + 1..j + 1] == s[1..][i..j]
  {
    forall k | 0 <= k < |s| && !(i + 1 <= k < j + 1) ensures IsSpace(s[k]) {
      if k > 0 { assert s[k] == s[1..][k - 1]; }
    }
    SliceOfTail(s, i, j);
  }

  lemma CutOneRight(s: string, i: int, j: int)
    requires s != "" && IsSpace(s[|s| - 1]) && CutsBlanks(s[..|s| - 1], i, j)
    ensures CutsBlanks(s, i, j) && s[i..j] == s[..|s| - 1][i..j]
  {
    forall k | 0 <= k < |s| && !(i <= k < j) ensures IsSpace(s[k]) {
      if k < |s| - 1 { assert s[k] == s[..|s| - 1][k]; }
    }
  }

  /** What is removed is blank, and what is left has no blank at either end. */
  lemma {:induction false} StripMeaning(s: string) returns (i: int, j: int)
    ensures CutsBlanks(s, i, j) && Strip(s) == s[i..j]
    ensures Strip(s) != "" ==> !IsSpace(Strip(s)[0]) && !IsSpace(Strip(s)[|Strip(s)| - 1])
  {
    if s == "" {
      i, j := 0, 0;
    } else if IsSpace(s[0]) {
      i, j := StripMeaning(s[1..]);
      CutOneLeft(s, i, j);
      i, j := i + 1, j + 1;
    } else if IsSpace(s[|s| - 1]) {
      i, j := StripMeaning(s[..|s| - 1]);
      CutOneRight(s, i, j);
    } else {
      i, j := 0, |s|;
    }
  }

  function LowerChar(c: char): char
  {
    if 'A' <= c <= 'Z' then (c as int + 32) as char else c
  }

  /** A becomes a, and so on to Z and z; nothing else changes. */
  lemma LowerLetters(c: char)
    ensures LowerChar('A') == 'a' && LowerChar('M') == 'm' && LowerChar('Z') == 'z'
    ensures 'A' <= c < 'Z' ==> LowerChar((c as int + 1) as char) as int == LowerChar(c) as int + 1
    ensures c < 'A' || c > 'Z' ==> LowerChar(c) == c
  {}

  /** `str.lower()` on ASCII letters. */
  function Lower(s: string): string
  {
    if s == "" then "" else [LowerChar(s[0])] + Lower(s[1..])
  }

  lemma {:induction false} LowerMeaning(s: string)
    ensures |Lower(s)| == |s| && forall i :: 0 <= i < |s| ==> Lower(s)[i] == LowerChar(s[i])
  {
    if s != "" {
      LowerMeaning(s[1..]);
      forall i | 0 <= i < |s| ensures Lower(s)[i] == LowerChar(s[i]) {
        if i > 0 { assert Lower(s)[i] == Lower(s[1..])[i - 1] && s[i] == s[1..][i - 1]; }
      }
    }
  }

  lemma LowerTwice(s: string)
    ensures Lower(Lower(s)) == Lower(s)
  {
    LowerMeaning(s);
    LowerMeaning(Lower(s));
  }
}
