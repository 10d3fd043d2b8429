/**
  Searching contacts by a piece of their email: escapeLikePattern and the LIKE filter of
  searchContacts (src/directory/directory-contacts.service.ts).

  LIKE … ESCAPE '\' is the predicate of section 8.5 of ISO/IEC 9075:1992.
 */
module LikePattern {

  const ESCAPE := '\\'

  predicate IsSpecial(c: char) {
    c == ESCAPE || c == '%' || c == '_'
  }

  function EscapeLikePattern(term: string): string {
    if term == "" then ""
    else (if IsSpecial(term[0]) then [ESCAPE, term[0]] else [term[0]]) + EscapeLikePattern(term[1..])
  }

  /** The pattern searchContacts binds. */
  function SearchPattern(term: string): string {
    "%" + EscapeLikePattern(term) + "%"
  }

  // ------------------------------------------------------------------------------------------
  // LIKE.
  // ------------------------------------------------------------------------------------------

  /** An escape character must be followed by a special one; any other pattern is an error. */
  predicate IsWellFormed(p: string) {
    if p == "" then true
    else if p[0] == ESCAPE then |p| >= 2 && IsSpecial(p[1]) && IsWellFormed(p[2..])
    else IsWellFormed(p[1..])
  }

  predicate Like(s: string, p: string)
    decreases |p|, |s|
  {
    if p == "" then s == ""
    else if p[0] == '%' then Like(s, p[1..]) || (s != "" && Like(s[1..], p))
    else if p[0] == '_' then s != "" && Like(s[1..], p[1..])
    else if p[0] == ESCAPE then |p| >= 2 && s != "" && s[0] == p[1] && Like(s[1..], p[2..])
    else s != "" && s[0] == p[0] && Like(s[1..], p[1..])
  }

  /** `%` stands for any beginning of the string. */
  lemma {:induction false} PercentSkips(s: string, p: string)
    ensures Like(s, "%" + p) <==> exists k :: 0 <= k <= |s| && Like(s[k..], p)
    decreases |s|
  {
    assert ("%" + p)[1..] == p && s[0..] == s;
    if s != "" {
      PercentSkips(s[1..], p);
      if k :| 0 <= k <= |s[1..]| && Like(s[1..][k..], p) {
        assert s[1..][k..] == s[k + 1..];
      }
      forall k | 1 <= k <= |s| && Like(s[k..], p) ensures exists j :: 0 <= j <= |s[1..]| && Like(s[1..][j..], p) {
        assert s[1..][k - 1..] == s[k..];
      }
    }
  }

  /** An escaped text matches itself and nothing else. */
  lemma {:induction false} EscapedIsLiteral(s: string, term: string, p: string)
    ensures Like(s, EscapeLikePattern(term) + p) <==> term <= s && Like(s[|term|..], p)
    decreases |term|
  {
    if term == "" {
      assert EscapeLikePattern(term) + p == p && s[0..] == s;
    } else {
      var head := if IsSpecial(term[0]) then [ESCAPE, term[0]] else [term[0]];
      var rest := EscapeLikePattern(term[1..]) + p;
      var pattern := EscapeLikePattern(term) + p;
      assert pattern == head + rest;
      assert pattern[|head|..] == rest;
      if s != "" && s[0] == term[0] {
        EscapedIsLiteral(s[1..], term[1..], p);
        assert s == [s[0]] + s[1..] && term == [term[0]] + term[1..];
        assert term[1..] <= s[1..] <==> term <= s;
        assert term <= s ==> s[1..][|term| - 1..] == s[|term|..];
      } else {
        assert !(term <= s);
      }
    }
  }

  predicate IsAt(term: string, s: string, k: nat) {
    k + |term| <= |s| && s[k..k + |term|] == term
  }

  /** The filter keeps exactly the strings that contain the term, whatever characters it is made of. */
  lemma SearchFindsSubstrings(s: string, term: string)
    ensures Like(s, SearchPattern(term)) <==> exists k :: IsAt(term, s, k)
  {
    var rest := EscapeLikePattern(term) + "%";
    assert SearchPattern(term) == "%" + rest;
    PercentSkips(s, rest);
    forall k | 0 <= k <= |s| ensures Like(s[k..], rest) <==> IsAt(term, s, k) {
      EscapedIsLiteral(s[k..], term, "%");
      if term <= s[k..] {
        AnyMatchesPercent(s[k..][|term|..]);
        assert s[k..][..|term|] == s[k..k + |term|];
      } else if k + |term| <= |s| {
        assert s[k..][..|term|] == s[k..k + |term|];
      }
    }
  }

  lemma AnyMatchesPercent(s: string)
    ensures Like(s, "%")
  {
    assert Like("", "");
    PercentSkips(s, "");
    assert "%" + "" == "%" && s[|s|..] == "";
  }

  /** Without wildcards around it, an escaped text is a test for equality. */
  lemma EscapedAloneIsEquality(s: string, term: string)
    ensures Like(s, EscapeLikePattern(term)) <==> s == term
  {
    EscapedIsLiteral(s, term, "");
    assert EscapeLikePattern(term) + "" == EscapeLikePattern(term);
    if term <= s && s[|term|..] == "" {
      assert s == s[..|term|] + s[|term|..];
    }
  }

  /** No term makes the database reject the pattern. */
  lemma {:induction false} EscapedIsWellFormed(term: string, p: string)
    requires IsWellFormed(p)
    ensures IsWellFormed(EscapeLikePattern(term) + p)
  {
    if term == "" {
      assert EscapeLikePattern(term) + p == p;
    } else {
      EscapedIsWellFormed(term[1..], p);
      var head := if IsSpecial(term[0]) then [ESCAPE, term[0]] else [term[0]];
      assert (EscapeLikePattern(term) + p)[|head|..] == EscapeLikePattern(term[1..]) + p;
    }
  }

  lemma SearchPatternIsWellFormed(term: string)
    ensures IsWellFormed(SearchPattern(term))
  {
    assert IsWellFormed("");
    assert "%"[1..] == "" && IsWellFormed("%");
    EscapedIsWellFormed(term, "%");
    assert SearchPattern(term)[1..] == EscapeLikePattern(term) + "%";
  }

  // ------------------------------------------------------------------------------------------
  // Escaping loses nothing.
  // ------------------------------------------------------------------------------------------

  function Unescape(p: string): string {
    if p == "" then ""
    else if p[0] == ESCAPE && |p| >= 2 then [p[1]] + Unescape(p[2..])
    else [p[0]] + Unescape(p[1..])
  }

  lemma {:induction false} UnescapeUndoesEscape(term: string)
    ensures Unescape(EscapeLikePattern(term)) == term
  {
    if term != "" {
      UnescapeUndoesEscape(term[1..]);
      var head := if IsSpecial(term[0]) then [ESCAPE, term[0]] else [term[0]];
      assert EscapeLikePattern(term)[|head|..] == EscapeLikePattern(term[1..]);
    }
  }

  lemma EscapeIsInjective(a: string, b: string)
    requires EscapeLikePattern(a) == EscapeLikePattern(b)
    ensures a == b
  {
    UnescapeUndoesEscape(a);
    UnescapeUndoesEscape(b);
  }

  /** Why the escape is needed: put into the pattern as it is, `a_b` would find `axb` too. */
  lemma UnescapedFindsMore()
    ensures Like("axb", "%" + "a_b" + "%") && !Like("axb", SearchPattern("a_b"))
  {
    var p := "a_b" + "%";
    assert "axb"[0..] == "axb" && p[1..] == "_b%" && "_b%"[1..] == "b%" && "b%"[1..] == "%";
    assert "axb"[1..] == "xb" && "xb"[1..] == "b" && "b"[1..] == "";
    AnyMatchesPercent("");
    assert Like("b", "b%");
    assert Like("xb", "_b%");
    assert Like("axb"[0..], p);
    PercentSkips("axb", p);
    assert "%" + p == "%" + "a_b" + "%";
    SearchFindsSubstrings("axb", "a_b");
    forall k: nat ensures !IsAt("a_b", "axb", k) {
      if k == 0 {
        assert "axb"[0..3][1] != "a_b"[1];
      }
    }
  }
}
