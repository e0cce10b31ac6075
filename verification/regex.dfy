/** The regular expressions `apply_settings` hands to `re.sub` are made of plain
    characters and escaped punctuation only.  This module defines that class of
    patterns (the literal patterns) and the one string each of them matches, so that
    `re.sub` can be modelled as a literal replace-all.  Other Python regular
    expressions, including ones such as `a{2}` or `[a]` that also match one string,
    are outside the class. */
module Regex {

  /** Characters with a special meaning in a Python regular expression. */
  predicate IsMeta(c: char) {
    || c == '.' || c == '^' || c == '$' || c == '*' || c == '+' || c == '?'
    || c == '{' || c == '}' || c == '[' || c == ']' || c == '\\' || c == '|'
    || c == '(' || c == ')'
  }

  predicate IsAsciiAlnum(c: char) {
    'a' <= c <= 'z' || 'A' <= c <= 'Z' || '0' <= c <= '9'
  }

  /** From position `i` on, `p` is a sequence of elements that each match one fixed
      character: a plain character that is not a metacharacter, or a backslash
      before a character that is neither a letter nor a digit (such an escape
      stands for the character itself). */
  predicate LiteralFrom(p: string, i: nat)
    decreases |p| - i
  {
    if i >= |p| then i == |p|
    else if p[i] == '\\' then i + 1 < |p| && !IsAsciiAlnum(p[i + 1]) && LiteralFrom(p, i + 2)
    else !IsMeta(p[i]) && LiteralFrom(p, i + 1)
  }

  /** The string matched by the elements of `p` from position `i` on. */
  function TextFrom(p: string, i: nat): (r: string)
    requires LiteralFrom(p, i)
    decreases |p| - i
  {
    if i >= |p| then []
    else if p[i] == '\\' then [p[i + 1]] + TextFrom(p, i + 2)
    else [p[i]] + TextFrom(p, i + 1)
  }

  /** `p` is a literal pattern: plain characters and escaped punctuation only. */
  predicate IsLiteralRegex(p: string) {
    LiteralFrom(p, 0)
  }

  /** The string a literal pattern matches: its escapes removed. */
  function RegexText(p: string): (r: string)
    requires IsLiteralRegex(p)
    ensures r == [] <==> p == []
  {
    TextFrom(p, 0)
  }

  lemma {:induction false} PlainTextFrom(s: string, i: nat)
    requires i <= |s|
    requires forall k :: i <= k < |s| ==> !IsMeta(s[k])
    ensures LiteralFrom(s, i) && TextFrom(s, i) == s[i..]
    decreases |s| - i
  {
    if i < |s| {
      PlainTextFrom(s, i + 1);
      assert s[i..] == [s[i]] + s[i + 1..];
    }
  }

  /** A string without metacharacters is a literal pattern matching itself. */
  lemma PlainTextIsLiteral(s: string)
    requires forall k :: 0 <= k < |s| ==> !IsMeta(s[k])
    ensures IsLiteralRegex(s) && RegexText(s) == s
  {
    PlainTextFrom(s, 0);
  }

  // ---------------------------------------------------------------------------
  // Matching, element by element, for patterns of plain and escaped characters
  // ---------------------------------------------------------------------------

  /** The elements of `p` from position `i` on are plain or escaped characters that
      match exactly the characters of `t` from position `j` on, one element per
      character.  Any other regular-expression construct makes this false. */
  predicate MatchesFrom(p: string, i: nat, t: string, j: nat)
    decreases |p| - i
  {
    if i >= |p| then i == |p| && j == |t|
    else if p[i] == '\\' then
      i + 1 < |p| && !IsAsciiAlnum(p[i + 1]) && j < |t| && t[j] == p[i + 1] && MatchesFrom(p, i + 2, t, j + 1)
    else !IsMeta(p[i]) && j < |t| && t[j] == p[i] && MatchesFrom(p, i + 1, t, j + 1)
  }

  /** `p`, read as a sequence of plain and escaped characters, matches the whole of
      `t`. */
  predicate Matches(p: string, t: string) {
    MatchesFrom(p, 0, t, 0)
  }

  /** A pattern that matches `t` element by element is literal and its text is
      that part of `t`. */
  lemma {:induction false} MatchesFromText(p: string, i: nat, t: string, j: nat)
    requires j <= |t| && MatchesFrom(p, i, t, j)
    ensures LiteralFrom(p, i) && TextFrom(p, i) == t[j..]
    decreases |p| - i
  {
    if i < |p| {
      if p[i] == '\\' { MatchesFromText(p, i + 2, t, j + 1); } else { MatchesFromText(p, i + 1, t, j + 1); }
      assert t[j..] == [t[j]] + t[j + 1..];
    }
  }

  /** A literal pattern matches its own text. */
  lemma {:induction false} TextMatchesFrom(p: string, i: nat, t: string, j: nat)
    requires LiteralFrom(p, i) && j <= |t| && t[j..] == TextFrom(p, i)
    ensures MatchesFrom(p, i, t, j)
    decreases |p| - i
  {
    if i < |p| {
      assert t[j..][1..] == t[j + 1..];
      if p[i] == '\\' { TextMatchesFrom(p, i + 2, t, j + 1); } else { TextMatchesFrom(p, i + 1, t, j + 1); }
    }
  }

  /** A pattern of plain and escaped characters matches `t` exactly when it is a
      literal pattern whose text, as `RegexText` computes it, is `t`. */
  lemma MatchesIffText(p: string, t: string)
    ensures Matches(p, t) <==> IsLiteralRegex(p) && RegexText(p) == t
  {
    if Matches(p, t) {
      MatchesFromText(p, 0, t, 0);
      assert t[0..] == t;
    }
    if IsLiteralRegex(p) && RegexText(p) == t {
      assert t[0..] == t;
      TextMatchesFrom(p, 0, t, 0);
    }
  }
}
