/** String operations the deployment script takes from Python's standard library:
    `str.strip()`, `str.lower()` on ASCII letters, and `re.sub` with a pattern that
    matches one fixed string (a literal replace-all). */
module Text {

  // ---------------------------------------------------------------------------
  // str.strip()
  // ---------------------------------------------------------------------------

  /** Python's `str.isspace()`: the characters `str.strip()` removes when called
      without arguments. */
  predicate IsSpace(c: char) {
    || c == ' '
    || '\t' <= c <= '\r'
    || '\U{1c}' <= c <= '\U{1f}'
    || c == '\U{85}' || c == '\U{a0}' || c == '\U{1680}'
    || '\U{2000}' <= c <= '\U{200a}'
    || c == '\U{2028}' || c == '\U{2029}' || c == '\U{202f}' || c == '\U{205f}'
    || c == '\U{3000}'
  }

  /** `s.lstrip()`: drops the leading whitespace. */
  function TrimStart(s: string): string {
    if s != [] && IsSpace(s[0]) then TrimStart(s[1..]) else s
  }

  /** `s.rstrip()`: drops the trailing whitespace. */
  function TrimEnd(s: string): string {
    if s != [] && IsSpace(s[|s| - 1]) then TrimEnd(s[..|s| - 1]) else s
  }

  /** `s.strip()`. */
  function Strip(s: string): string {
    TrimEnd(TrimStart(s))
  }

  /** What `lstrip` removes is a run of whitespace, and what it keeps is the rest of
      the string, which does not start with whitespace. */
  lemma {:induction false} TrimStartSpec(s: string)
    ensures var r := TrimStart(s);
      && |r| <= |s| && r == s[|s| - |r|..]
      && (forall k :: 0 <= k < |s| - |r| ==> IsSpace(s[k]))
      && (r == [] || !IsSpace(r[0]))
  {
    if s != [] && IsSpace(s[0]) {
      var t := s[1..];
      TrimStartSpec(t);
      var r := TrimStart(t);
      assert TrimStart(s) == r;
      assert t[|t| - |r|..] == s[|s| - |r|..];
      forall k | 0 <= k < |s| - |r| ensures IsSpace(s[k]) {
        if k > 0 { assert s[k] == t[k - 1]; }
      }
    }
  }

  /** What `rstrip` removes is a run of whitespace, and what it keeps is the start
      of the string, which does not end with whitespace. */
  lemma {:induction false} TrimEndSpec(s: string)
    ensures var r := TrimEnd(s);
      && |r| <= |s| && r == s[..|r|]
      && (forall k :: |r| <= k < |s| ==> IsSpace(s[k]))
      && (r == [] || !IsSpace(r[|r| - 1]))
  {
    if s != [] && IsSpace(s[|s| - 1]) {
      var t := s[..|s| - 1];
      TrimEndSpec(t);
      var r := TrimEnd(t);
      assert TrimEnd(s) == r;
      assert t[..|r|] == s[..|r|];
      forall k | |r| <= k < |s| ensures IsSpace(s[k]) {
        if k < |s| - 1 { assert s[k] == t[k]; }
      }
    }
  }

  /** The stripped string is a slice of `s` that neither starts nor ends with
      whitespace, and everything around it is whitespace. */
  lemma StripSpec(s: string)
    ensures exists i {:trigger s[i..]} ::
      && 0 <= i <= i + |Strip(s)| <= |s|
      && Strip(s) == s[i..][..|Strip(s)|]
      && (forall k :: 0 <= k < i ==> IsSpace(s[k]))
      && (forall k :: i + |Strip(s)| <= k < |s| ==> IsSpace(s[k]))
    ensures Strip(s) == [] || (!IsSpace(Strip(s)[0]) && !IsSpace(Strip(s)[|Strip(s)| - 1]))
  {
    var t := TrimStart(s);
    TrimStartSpec(s);
    TrimEndSpec(t);
    var i := |s| - |t|;
    var r := Strip(s);
    assert t == s[i..];
    assert r == s[i..][..|r|];
  }

  // ---------------------------------------------------------------------------
  // str.lower()
  // ---------------------------------------------------------------------------

  function LowerChar(c: char): char {
    if 'A' <= c <= 'Z' then (c as int + 32) as char else c
  }

  /** `s.lower()` on the ASCII letters. */
  function Lower(s: string): string {
    if s == [] then [] else [LowerChar(s[0])] + Lower(s[1..])
  }

  /** Lowering maps every character on its own and keeps the length. */
  lemma {:induction false} LowerSpec(s: string)
    ensures |Lower(s)| == |s|
    ensures forall k :: 0 <= k < |s| ==> Lower(s)[k] == LowerChar(s[k])
  {
    if s != [] {
      LowerSpec(s[1..]);
    }
  }

  // ---------------------------------------------------------------------------
  // Literal replace-all: what re.sub does with a pattern matching one fixed string
  // ---------------------------------------------------------------------------

  /** `pat` occurs somewhere in `s`. */
  predicate Contains(s: string, pat: string)
    decreases |s|
  {
    pat <= s || (s != [] && Contains(s[1..], pat))
  }

  /** A pattern longer than the string does not occur in it. */
  lemma {:induction false} ContainsShort(s: string, pat: string)
    requires |s| < |pat|
    ensures !Contains(s, pat)
    decreases |s|
  {
    if s != [] {
      ContainsShort(s[1..], pat);
    }
  }

  /** A pattern holding a character the string lacks does not occur in it. */
  lemma {:induction false} ContainsMissingChar(s: string, pat: string, c: char)
    requires c in pat && c !in s
    ensures !Contains(s, pat)
    decreases |s|
  {
    if s != [] {
      assert forall k :: 0 <= k < |s[1..]| ==> s[1..][k] == s[k + 1];
      ContainsMissingChar(s[1..], pat, c);
    }
  }

  /** Scans `s` from the left; every occurrence of `pat` found is replaced by `rep`
      and scanning resumes after it (leftmost, non-overlapping matches). */
  function ReplaceAll(s: string, pat: string, rep: string): string
    requires pat != []
    decreases |s|
  {
    if s == [] then []
    else if pat <= s then rep + ReplaceAll(s[|pat|..], pat, rep)
    else [s[0]] + ReplaceAll(s[1..], pat, rep)
  }

  /** The pieces of `s` between the occurrences of `sep`, found by the same scan. */
  function Split(s: string, sep: string): (parts: seq<string>)
    requires sep != []
    ensures |parts| >= 1
    decreases |s|
  {
    if s == [] then [[]]
    else if sep <= s then [[]] + Split(s[|sep|..], sep)
    else
      var rest := Split(s[1..], sep);
      [[s[0]] + rest[0]] + rest[1..]
  }

  /** The pieces glued back together with `sep` between neighbours. */
  function Join(parts: seq<string>, sep: string): string
    requires |parts| >= 1
  {
    if |parts| == 1 then parts[0] else parts[0] + sep + Join(parts[1..], sep)
  }

  lemma JoinConsChar(c: char, parts: seq<string>, sep: string)
    requires |parts| >= 1
    ensures Join([[c] + parts[0]] + parts[1..], sep) == [c] + Join(parts, sep)
  {
    var q := [[c] + parts[0]] + parts[1..];
    assert q[1..] == parts[1..];
  }

  /** Gluing the pieces back with the separator gives the original string. */
  lemma {:induction false} SplitJoin(s: string, sep: string)
    requires sep != []
    ensures Join(Split(s, sep), sep) == s
    decreases |s|
  {
    if s == [] {
    } else if sep <= s {
      SplitJoin(s[|sep|..], sep);
      SplitJoinAtSep(s, sep);
    } else {
      SplitJoin(s[1..], sep);
      SplitJoinAtChar(s, sep);
    }
  }

  lemma SplitJoinAtSep(s: string, sep: string)
    requires sep != [] && sep <= s
    requires Join(Split(s[|sep|..], sep), sep) == s[|sep|..]
    ensures Join(Split(s, sep), sep) == s
  {
    var tail := s[|sep|..];
    var rest := Split(tail, sep);
    var parts := [[]] + rest;
    assert Split(s, sep) == parts;
    assert parts[0] == [] && parts[1..] == rest;
    calc {
      Join(parts, sep);
      parts[0] + sep + Join(parts[1..], sep);
      [] + sep + tail;
      { assert [] + sep == sep; }
      sep + tail;
      { assert sep == s[..|sep|]; }
      s;
    }
  }

  lemma SplitJoinAtChar(s: string, sep: string)
    requires sep != [] && s != [] && !(sep <= s)
    requires Join(Split(s[1..], sep), sep) == s[1..]
    ensures Join(Split(s, sep), sep) == s
  {
    var tail := s[1..];
    JoinConsChar(s[0], Split(tail, sep), sep);
    assert s == [s[0]] + tail;
  }

  /** No piece contains the separator: the scan found every occurrence. */
  lemma {:induction false} SplitPiecesFree(s: string, sep: string)
    requires sep != []
    ensures forall k :: 0 <= k < |Split(s, sep)| ==> !Contains(Split(s, sep)[k], sep)
    decreases |s|
  {
    var parts := Split(s, sep);
    if s == [] {
      assert parts == [[]];
      assert !Contains([], sep);
    } else if sep <= s {
      SplitPiecesFree(s[|sep|..], sep);
      var rest := Split(s[|sep|..], sep);
      assert parts == [[]] + rest;
      assert !Contains([], sep);
      forall k | 0 <= k < |parts| ensures !Contains(parts[k], sep) {
        if k > 0 { assert parts[k] == rest[k - 1]; }
      }
    } else {
      SplitPiecesFree(s[1..], sep);
      var rest := Split(s[1..], sep);
      assert parts == [[s[0]] + rest[0]] + rest[1..];
      SplitJoin(s[1..], sep);
      SplitFirstIsPrefix(s[1..], sep);
      var first := [s[0]] + rest[0];
      assert first <= s by {
        assert s == [s[0]] + s[1..];
      }
      if sep <= first {
        assert false;
      }
      assert first[1..] == rest[0];
      assert !Contains(first, sep);
      forall k | 0 <= k < |parts| ensures !Contains(parts[k], sep) {
        if k > 0 { assert parts[k] == rest[k]; }
      }
    }
  }

  /** The first piece is a prefix of the string. */
  lemma {:induction false} SplitFirstIsPrefix(s: string, sep: string)
    requires sep != []
    ensures Split(s, sep)[0] <= s
    decreases |s|
  {
    if s != [] && !(sep <= s) {
      SplitFirstIsPrefix(s[1..], sep);
      assert s == [s[0]] + s[1..];
    }
  }

  /** Reference definition of replace-all: cut the string at every occurrence of
      the pattern and glue the pieces back with the replacement. */
  lemma {:induction false} ReplaceAllIsJoinOfSplit(s: string, pat: string, rep: string)
    requires pat != []
    ensures ReplaceAll(s, pat, rep) == Join(Split(s, pat), rep)
    decreases |s|
  {
    if s == [] {
    } else if pat <= s {
      var tail := s[|pat|..];
      ReplaceAllIsJoinOfSplit(tail, pat, rep);
      var rest := Split(tail, pat);
      var parts := [[]] + rest;
      assert Split(s, pat) == parts;
      assert parts[0] == [] && parts[1..] == rest;
      assert ReplaceAll(s, pat, rep) == rep + ReplaceAll(tail, pat, rep);
      assert Join(parts, rep) == [] + rep + Join(rest, rep);
      assert [] + rep == rep;
    } else {
      var tail := s[1..];
      ReplaceAllIsJoinOfSplit(tail, pat, rep);
      var rest := Split(tail, pat);
      assert Split(s, pat) == [[s[0]] + rest[0]] + rest[1..];
      assert ReplaceAll(s, pat, rep) == [s[0]] + ReplaceAll(tail, pat, rep);
      JoinConsChar(s[0], rest, rep);
    }
  }

  /** The scan cuts at the leftmost occurrence: the first piece is the prefix of
      `s` before the first occurrence of `sep` (all of `s` when there is none), and
      the other pieces are those of the text after that occurrence. */
  lemma SplitLeftmost(s: string, sep: string)
    requires sep != []
    ensures var parts := Split(s, sep);
      var n := |parts[0]|;
      && n <= |s| && parts[0] == s[..n]
      && (forall i :: 0 <= i < n ==> !(sep <= s[i..]))
      && (|parts| == 1 ==> parts[0] == s)
      && (|parts| > 1 ==>
            n + |sep| <= |s| && sep <= s[n..] && parts[1..] == Split(s[n + |sep|..], sep))
  {
    SplitFirstIsPrefix(s, sep);
    SplitFirstFree(s, sep);
    SplitJoin(s, sep);
    if |Split(s, sep)| > 1 {
      SplitRestAfter(s, sep);
    }
  }

  /** No occurrence of `sep` starts inside the first piece. */
  lemma {:induction false} SplitFirstFree(s: string, sep: string)
    requires sep != []
    ensures |Split(s, sep)[0]| <= |s|
    ensures forall i :: 0 <= i < |Split(s, sep)[0]| ==> !(sep <= s[i..])
    decreases |s|
  {
    SplitFirstIsPrefix(s, sep);
    if s != [] && !(sep <= s) {
      var rest := Split(s[1..], sep);
      SplitFirstFree(s[1..], sep);
      assert Split(s, sep)[0] == [s[0]] + rest[0];
      NoOccurrenceBefore(s, sep, |rest[0]|);
    }
  }

  /** No occurrence starts before `m + 1` when none starts at 0 and none starts in
      the tail before `m`. */
  lemma NoOccurrenceBefore(s: string, sep: string, m: nat)
    requires s != [] && !(sep <= s) && m + 1 <= |s|
    requires forall i :: 0 <= i < m ==> !(sep <= s[1..][i..])
    ensures forall i :: 0 <= i < m + 1 ==> !(sep <= s[i..])
  {
    forall i | 0 < i < m + 1 ensures !(sep <= s[i..]) {
      assert s[i..] == s[1..][i - 1..];
    }
  }

  /** When the scan finds an occurrence, it lies right after the first piece, and
      the remaining pieces are those of the text after it. */
  lemma {:induction false} SplitRestAfter(s: string, sep: string)
    requires sep != [] && |Split(s, sep)| > 1
    ensures var n := |Split(s, sep)[0]|;
      && n + |sep| <= |s| && sep <= s[n..]
      && Split(s, sep)[1..] == Split(s[n + |sep|..], sep)
    decreases |s|
  {
    var parts := Split(s, sep);
    if sep <= s {
      assert parts == [[]] + Split(s[|sep|..], sep);
      assert s[0..] == s;
    } else {
      var tail := s[1..];
      var rest := Split(tail, sep);
      assert parts == [[s[0]] + rest[0]] + rest[1..];
      SplitRestAfter(tail, sep);
      var m := |rest[0]|;
      assert tail[m..] == s[m + 1..];
      assert tail[m + |sep|..] == s[m + 1 + |sep|..];
      assert parts[1..] == rest[1..];
    }
  }

  /** Replace-all rewrites every leftmost non-overlapping occurrence and nothing
      else: `s` is its pattern-free pieces glued by `pat`, the first piece reaching
      up to the first occurrence and the others cut the same way from the text
      after it, and the result is the same pieces glued by `rep`. */
  lemma ReplaceAllSpec(s: string, pat: string, rep: string)
    requires pat != []
    ensures var parts := Split(s, pat);
      && Join(parts, pat) == s
      && (forall k :: 0 <= k < |parts| ==> !Contains(parts[k], pat))
      && ReplaceAll(s, pat, rep) == Join(parts, rep)
    ensures var parts := Split(s, pat);
      var n := |parts[0]|;
      && n <= |s| && parts[0] == s[..n]
      && (forall i :: 0 <= i < n ==> !(pat <= s[i..]))
      && (|parts| > 1 ==>
            n + |pat| <= |s| && pat <= s[n..] && parts[1..] == Split(s[n + |pat|..], pat))
  {
    SplitJoin(s, pat);
    SplitPiecesFree(s, pat);
    ReplaceAllIsJoinOfSplit(s, pat, rep);
    SplitLeftmost(s, pat);
  }

  /** Content in which the pattern does not occur is left unchanged. */
  lemma {:induction false} ReplaceAllAbsent(s: string, pat: string, rep: string)
    requires pat != []
    requires !Contains(s, pat)
    ensures ReplaceAll(s, pat, rep) == s
    decreases |s|
  {
    if s != [] {
      ReplaceAllAbsent(s[1..], pat, rep);
      assert s == [s[0]] + s[1..];
    }
  }
}
