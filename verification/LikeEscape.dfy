/**
 `escape_like` and what an SQL LIKE/ILIKE pattern means.

 The matcher is the full one (both wildcards and the escape character), so the theorems say what a
 search built from user input selects, whatever characters the user typed. Characters are compared
 through `fold`: the identity for LIKE, lower-casing for ILIKE.
 */
module LikeEscape {

  const ESCAPE := '\\'

  /** Python's `value.replace(c, r)` for a one-character `c`. */
  function Replace(value: string, c: char, r: string): string
  {
    if value == "" then ""
    else (if value[0] == c then r else [value[0]]) + Replace(value[1..], c, r)
  }

  function EscapeLike(value: string): string
  {
    Replace(Replace(Replace(value, '\\', "\\\\"), '%', "\\%"), '_', "\\_")
  }

  predicate IsSpecial(c: char)
  {
    c == '\\' || c == '%' || c == '_'
  }

  /** The escape of one character, and of a string character by character. */
  function EscapeChar(c: char): string
  {
    if IsSpecial(c) then [ESCAPE, c] else [c]
  }

  function EscapeEach(value: string): string
  {
    if value == "" then "" else EscapeChar(value[0]) + EscapeEach(value[1..])
  }

  /**
   LIKE with `\` as the escape character (section 9.7.1 of the PostgreSQL manual). A pattern that ends in
   an unfinished escape is an error there; here it matches nothing, and `EscapedIsWellFormed` shows that
   escaping never produces one.
   */
  predicate Matches(pattern: string, s: string, fold: char -> char)
    decreases |pattern| + |s|
  {
    if pattern == "" then s == ""
    else if pattern[0] == '%' then
      Matches(pattern[1..], s, fold) || (s != "" && Matches(pattern, s[1..], fold))
    else if pattern[0] == '_' then
      s != "" && Matches(pattern[1..], s[1..], fold)
    else if pattern[0] == ESCAPE then
      |pattern| > 1 && s != "" && fold(pattern[1]) == fold(s[0]) && Matches(pattern[2..], s[1..], fold)
    else
      s != "" && fold(pattern[0]) == fold(s[0]) && Matches(pattern[1..], s[1..], fold)
  }

  /** The matcher, character by character: `_` takes any one character, and a plain character takes one equal to it. */
  lemma OneCharacterPatterns(c: char, rest: string, s: string, fold: char -> char)
    ensures Matches("", s, fold) <==> s == ""
    ensures Matches("_" + rest, s, fold) <==> s != "" && Matches(rest, s[1..], fold)
    ensures c != '%' && c != '_' && c != '\\' ==>
              (Matches([c] + rest, s, fold) <==> s != "" && fold(c) == fold(s[0]) && Matches(rest, s[1..], fold))
    ensures Matches(['\\', c] + rest, s, fold) <==> s != "" && fold(c) == fold(s[0]) && Matches(rest, s[1..], fold)
  {
    assert ("_" + rest)[1..] == rest && ([c] + rest)[1..] == rest && (['\\', c] + rest)[2..] == rest;
  }

  predicate WellFormed(pattern: string)
  {
    if pattern == "" then true
    else if pattern[0] == ESCAPE then |pattern| > 1 && WellFormed(pattern[2..])
    else WellFormed(pattern[1..])
  }

  /** Equality of two strings up to `fold`. */
  predicate SameText(a: string, b: string, fold: char -> char)
  {
    |a| == |b| && forall i :: 0 <= i < |a| ==> fold(a[i]) == fold(b[i])
  }

  function Identity(c: char): char { c }

  // ---------------------------------------------------------------------------------------------
  // The three ordered replaces are one per-character escape
  // ---------------------------------------------------------------------------------------------

  lemma {:induction false} ReplaceConcat(a: string, b: string, c: char, r: string)
    ensures Replace(a + b, c, r) == Replace(a, c, r) + Replace(b, c, r)
  {
    if a == "" {
      assert a + b == b;
    } else {
      assert (a + b)[1..] == a[1..] + b;
      ReplaceConcat(a[1..], b, c, r);
    }
  }

  lemma {:induction false} EscapeIsPerCharacter(value: string)
    ensures EscapeLike(value) == EscapeEach(value)
  {
    if value == "" {
    } else {
      var c, rest := value[0], value[1..];
      var c1 := if c == '\\' then "\\\\" else [c];
      var r1 := Replace(rest, '\\', "\\\\");
      ReplaceConcat(c1, r1, '%', "\\%");
      var c2 := Replace(c1, '%', "\\%");
      var r2 := Replace(r1, '%', "\\%");
      ReplaceConcat(c2, r2, '_', "\\_");
      OneCharacter(c);
      EscapeIsPerCharacter(rest);
    }
  }

  lemma OneCharacter(c: char)
    ensures Replace(Replace(if c == '\\' then "\\\\" else [c], '%', "\\%"), '_', "\\_") == EscapeChar(c)
  {
    if c == '\\' {
      assert Replace("\\\\"[1..], '%', "\\%") == "\\" + Replace("\\"[1..], '%', "\\%");
      assert Replace("\\\\", '%', "\\%") == "\\\\";
      assert Replace("\\\\"[1..], '_', "\\_") == "\\" + Replace("\\"[1..], '_', "\\_");
      assert Replace("\\\\", '_', "\\_") == "\\\\";
    } else if c == '%' {
      assert Replace([c], '%', "\\%") == "\\%";
      assert Replace("\\%"[1..], '_', "\\_") == "%" + Replace("%"[1..], '_', "\\_");
    } else {
      assert Replace([c], '%', "\\%") == [c];
    }
  }

  /**
   Escaping the backslash last instead would escape the escapes: one typed `%` would then match `\` followed by
   anything.
   */
  lemma BackslashMustGoFirst()
    ensures var wrong := Replace(Replace(Replace("%", '%', "\\%"), '_', "\\_"), '\\', "\\\\");
            wrong != EscapeLike("%") && Matches(wrong, "\\anything", Identity) && !Matches(wrong, "%", Identity)
  {
    var step := Replace("%", '%', "\\%");
    assert step == "\\%";
    assert Replace("\\%"[1..], '_', "\\_") == "%";
    assert Replace("\\%", '_', "\\_") == "\\%";
    assert Replace("\\%"[1..], '\\', "\\\\") == "%";
    var wrong := Replace("\\%", '\\', "\\\\");
    assert wrong == "\\\\%";
    EscapeIsPerCharacter("%");
    assert EscapeEach("%") == "\\%";
    assert wrong[2..] == "%";
    PercentMatchesAll("anything", Identity);
    assert "\\anything"[1..] == "anything";
    assert wrong[0] == ESCAPE && wrong[1] == '\\';
  }

  // ---------------------------------------------------------------------------------------------
  // What an escaped pattern selects
  // ---------------------------------------------------------------------------------------------

  lemma {:induction false} EscapedIsWellFormed(value: string)
    ensures WellFormed(EscapeLike(value)) && WellFormed("%" + EscapeLike(value) + "%")
  {
    EscapeIsPerCharacter(value);
    EachWellFormed(value, "");
    EachWellFormed(value, "%");
    assert EscapeEach(value) + "" == EscapeEach(value);
    var p := "%" + EscapeLike(value) + "%";
    assert p[1..] == EscapeEach(value) + "%";
  }

  lemma {:induction false} EachWellFormed(value: string, tail: string)
    requires WellFormed(tail)
    ensures WellFormed(EscapeEach(value) + tail)
  {
    if value == "" {
      assert EscapeEach(value) + tail == tail;
    } else {
      var rest := EscapeEach(value[1..]) + tail;
      EachWellFormed(value[1..], tail);
      assert EscapeEach(value) + tail == EscapeChar(value[0]) + rest;
      OneMoreCharacter(value[0], rest);
    }
  }

  lemma OneMoreCharacter(c: char, rest: string)
    requires WellFormed(rest)
    ensures WellFormed(EscapeChar(c) + rest)
  {
    var p := EscapeChar(c) + rest;
    assert p[|EscapeChar(c)|..] == rest;
  }

  /** s is value, up to `fold`, followed by something that tail matches. */
  predicate Consumes(value: string, tail: string, s: string, fold: char -> char)
  {
    |value| <= |s| && SameText(value, s[..|value|], fold) && Matches(tail, s[|value|..], fold)
  }

  lemma ConsumesOneMore(value: string, tail: string, s: string, fold: char -> char)
    requires value != "" && s != ""
    ensures Consumes(value, tail, s, fold) <==> fold(value[0]) == fold(s[0]) && Consumes(value[1..], tail, s[1..], fold)
  {
    if |value| <= |s| {
      assert s[1..][|value| - 1..] == s[|value|..];
      assert s[1..][..|value| - 1] == s[..|value|][1..];
      SameTextStep(value, s[..|value|], fold);
    }
  }

  /** An escaped text followed by any pattern consumes exactly that text. */
  lemma {:induction false} EscapedPrefix(value: string, tail: string, s: string, fold: char -> char)
    ensures Matches(EscapeEach(value) + tail, s, fold) <==> Consumes(value, tail, s, fold)
  {
    if value == "" {
      assert EscapeEach(value) + tail == tail;
      assert s[0..] == s;
    } else {
      var c, rest := value[0], EscapeEach(value[1..]) + tail;
      assert EscapeEach(value) + tail == EscapeChar(c) + rest;
      OneCharacterConsumed(c, rest, s, fold);
      if s != "" {
        EscapedPrefix(value[1..], tail, s[1..], fold);
        ConsumesOneMore(value, tail, s, fold);
      }
    }
  }

  lemma OneCharacterConsumed(c: char, rest: string, s: string, fold: char -> char)
    ensures Matches(EscapeChar(c) + rest, s, fold)
       <==> s != "" && fold(c) == fold(s[0]) && Matches(rest, s[1..], fold)
  {
    var p := EscapeChar(c) + rest;
    assert p[|EscapeChar(c)|..] == rest;
  }

  lemma SameTextStep(a: string, b: string, fold: char -> char)
    requires |a| == |b| > 0
    ensures SameText(a, b, fold) <==> fold(a[0]) == fold(b[0]) && SameText(a[1..], b[1..], fold)
  {
    if fold(a[0]) == fold(b[0]) && SameText(a[1..], b[1..], fold) {
      forall i | 0 <= i < |a| ensures fold(a[i]) == fold(b[i]) {
        if i > 0 { assert a[i] == a[1..][i - 1] && b[i] == b[1..][i - 1]; }
      }
    }
  }

  lemma {:induction false} PercentSkips(pattern: string, s: string, fold: char -> char)
    ensures Matches("%" + pattern, s, fold) <==> exists k :: 0 <= k <= |s| && Matches(pattern, s[k..], fold)
  {
    var p := "%" + pattern;
    assert p[1..] == pattern;
    if s == "" {
      assert s[0..] == s;
    } else {
      PercentSkips(pattern, s[1..], fold);
      if Matches(p, s, fold) {
        if Matches(pattern, s, fold) {
          assert s[0..] == s;
        } else {
          var k :| 0 <= k <= |s[1..]| && Matches(pattern, s[1..][k..], fold);
          assert s[1..][k..] == s[k + 1..];
        }
      }
      if exists k :: 0 <= k <= |s| && Matches(pattern, s[k..], fold) {
        var k :| 0 <= k <= |s| && Matches(pattern, s[k..], fold);
        if k > 0 {
          assert s[k..] == s[1..][k - 1..];
        } else {
          assert s[0..] == s;
        }
      }
    }
  }

  lemma {:induction false} PercentMatchesAll(s: string, fold: char -> char)
    ensures Matches("%", s, fold)
  {
    assert "%"[1..] == "";
    if s != "" {
      PercentMatchesAll(s[1..], fold);
    }
  }

  /** An escaped search term used as the whole pattern selects the rows equal to it, and no others. */
  lemma EscapedMatchesItselfOnly(value: string, s: string, fold: char -> char)
    ensures Matches(EscapeLike(value), s, fold) <==> SameText(value, s, fold)
  {
    EscapeIsPerCharacter(value);
    EscapedPrefix(value, "", s, fold);
    assert EscapeEach(value) + "" == EscapeEach(value);
    if |s| == |value| { assert s[..|value|] == s; }
  }

  predicate OccursAt(s: string, value: string, k: int, fold: char -> char)
  {
    0 <= k <= |s| - |value| && SameText(value, s[k..k + |value|], fold)
  }

  predicate Contains(s: string, value: string, fold: char -> char)
  {
    exists k :: 0 <= k <= |s| && OccursAt(s, value, k, fold)
  }

  /** The search pattern `%term%` selects exactly the rows that contain the term, wildcards included. */
  lemma SearchFindsSubstrings(value: string, s: string, fold: char -> char)
    ensures Matches("%" + EscapeLike(value) + "%", s, fold) <==> Contains(s, value, fold)
  {
    EscapeIsPerCharacter(value);
    var tail := EscapeEach(value) + "%";
    assert "%" + EscapeLike(value) + "%" == "%" + tail;
    PercentSkips(tail, s, fold);
    forall k | 0 <= k <= |s|
      ensures Matches(tail, s[k..], fold) <==> OccursAt(s, value, k, fold)
    {
      EscapedPrefix(value, "%", s[k..], fold);
      if |value| <= |s[k..]| {
        PercentMatchesAll(s[k..][|value|..], fold);
        assert s[k..][..|value|] == s[k..k + |value|];
      }
    }
  }

  /** Two different terms never escape to the same pattern. */
  lemma EscapeIsInjective(a: string, b: string)
    requires EscapeLike(a) == EscapeLike(b)
    ensures a == b
  {
    EscapedMatchesItselfOnly(a, a, Identity);
    EscapedMatchesItselfOnly(b, a, Identity);
  }
}
