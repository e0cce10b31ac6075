/** `get_conf_values` (deployment/deploy.py:86-99): one value per registry key,
    generated for the four secrets and read from the operator for the others, then
    confirmed; a declined round is thrown away and collection starts again.

    The operator's lines are the sequence `input`, consumed from the front; running
    out of lines is Python's EOFError, modelled as `None`.  `uuid.uuid4()` is the
    oracle `uuid`: the `n`-th identifier generated since the start is `uuid(next + n)`.
    The registry is the parameter `reg`; the script always passes `ConfValues`, and
    `RoundShape` states what that gives. */
module Collection {
  import opened Wrappers
  import opened Text
  import opened Registry
  import opened Confirm

  // ---------------------------------------------------------------------------
  // Which line each prompted key reads
  // ---------------------------------------------------------------------------

  /** How many of the first `i` registry entries are prompted: the index, within a
      round, of the line the entry `i` reads when it is prompted. */
  function PromptedBefore(reg: seq<Entry>, i: nat): (n: nat)
    requires i <= |reg|
    ensures n <= i
  {
    if i == 0 then 0 else PromptedBefore(reg, i - 1) + (if Prompted(reg[i - 1]) then 1 else 0)
  }

  /** Lines one round reads before the confirmation question. */
  function PromptCount(reg: seq<Entry>): nat {
    PromptedBefore(reg, |reg|)
  }

  /** Identifiers one round generates. */
  function GeneratedCount(reg: seq<Entry>): nat {
    |reg| - PromptCount(reg)
  }

  lemma {:induction false} PromptedBeforeMonotone(reg: seq<Entry>, i: nat, j: nat)
    requires i <= j <= |reg|
    ensures PromptedBefore(reg, i) <= PromptedBefore(reg, j)
    ensures j - PromptedBefore(reg, j) >= i - PromptedBefore(reg, i)
    decreases j
  {
    if i < j {
      PromptedBeforeMonotone(reg, i, j - 1);
    }
  }

  /** A prompted entry reads a line that no later prompted entry reads; in
      particular its line is among the `PromptCount(reg)` lines of the round. */
  lemma PromptedBeforeStrict(reg: seq<Entry>, i: nat, j: nat)
    requires i < j <= |reg| && Prompted(reg[i])
    ensures PromptedBefore(reg, i) < PromptedBefore(reg, j)
  {
    PromptedBeforeMonotone(reg, i + 1, j);
  }

  /** A generated entry uses an identifier that no later generated entry uses. */
  lemma GeneratedBeforeStrict(reg: seq<Entry>, i: nat, j: nat)
    requires i < j <= |reg| && !Prompted(reg[i])
    ensures i - PromptedBefore(reg, i) < j - PromptedBefore(reg, j)
  {
    PromptedBeforeMonotone(reg, i + 1, j);
  }

  /** The script's registry has six prompted keys, read from the first six lines
      of a round in registry order, and four generated ones. */
  lemma RoundShape()
    ensures PromptCount(ConfValues) == 6 && GeneratedCount(ConfValues) == 4
    ensures forall i :: 0 <= i < 6 ==> Prompted(ConfValues[i]) && PromptedBefore(ConfValues, i) == i
    ensures forall i :: 6 <= i < |ConfValues| ==> !Prompted(ConfValues[i])
  {
    assert PromptedBefore(ConfValues, 6) == 6;
    assert PromptedBefore(ConfValues, 10) == 6;
  }

  // ---------------------------------------------------------------------------
  // One round
  // ---------------------------------------------------------------------------

  /** The value entry `i` receives in a round reading `lines` and generating
      identifiers from `uuid(next)` on. */
  function EntryValue(reg: seq<Entry>, i: nat, lines: seq<string>, uuid: nat -> string, next: nat): string
    requires i < |reg| && PromptedBefore(reg, i + 1) <= |lines|
  {
    if Prompted(reg[i]) then Strip(lines[PromptedBefore(reg, i)])
    else uuid(next + (i - PromptedBefore(reg, i)))
  }

  /** The `result` dict after the first `n` iterations of the loop. */
  function RoundPrefix(reg: seq<Entry>, n: nat, lines: seq<string>, uuid: nat -> string, next: nat): (conf: Settings)
    requires n <= |reg| && PromptedBefore(reg, n) <= |lines|
    ensures |conf| == n
  {
    if n == 0 then []
    else RoundPrefix(reg, n - 1, lines, uuid, next) + [Setting(reg[n - 1].key, EntryValue(reg, n - 1, lines, uuid, next))]
  }

  /** The dict one full round builds. */
  function Round(reg: seq<Entry>, lines: seq<string>, uuid: nat -> string, next: nat): (conf: Settings)
    requires PromptCount(reg) <= |lines|
  {
    RoundPrefix(reg, |reg|, lines, uuid, next)
  }

  lemma {:induction false} RoundPrefixAt(reg: seq<Entry>, n: nat, lines: seq<string>, uuid: nat -> string, next: nat, k: nat)
    requires n <= |reg| && PromptedBefore(reg, n) <= |lines| && k < n
    ensures PromptedBefore(reg, k + 1) <= |lines|
    ensures RoundPrefix(reg, n, lines, uuid, next)[k] == Setting(reg[k].key, EntryValue(reg, k, lines, uuid, next))
    decreases n
  {
    PromptedBeforeMonotone(reg, k + 1, n);
    if k < n - 1 {
      RoundPrefixAt(reg, n - 1, lines, uuid, next, k);
    }
  }

  /** Entry `i` of a round: the registry key, bound to its line with the
      surrounding whitespace stripped when the key is prompted, and to a fresh
      identifier otherwise. */
  lemma RoundAt(reg: seq<Entry>, lines: seq<string>, uuid: nat -> string, next: nat, i: nat)
    requires PromptCount(reg) <= |lines| && i < |reg|
    ensures |Round(reg, lines, uuid, next)| == |reg|
    ensures Round(reg, lines, uuid, next)[i].key == reg[i].key
    ensures Prompted(reg[i]) ==>
      && PromptedBefore(reg, i) < PromptCount(reg)
      && Round(reg, lines, uuid, next)[i].value == Strip(lines[PromptedBefore(reg, i)])
    ensures !Prompted(reg[i]) ==>
      Round(reg, lines, uuid, next)[i].value == uuid(next + (i - PromptedBefore(reg, i)))
  {
    var conf := RoundPrefix(reg, |reg|, lines, uuid, next);
    assert Round(reg, lines, uuid, next) == conf;
    RoundPrefixAt(reg, |reg|, lines, uuid, next, i);
    assert conf[i] == Setting(reg[i].key, EntryValue(reg, i, lines, uuid, next));
    if Prompted(reg[i]) {
      PromptedBeforeStrict(reg, i, |reg|);
    } else {
      var id := next + (i - PromptedBefore(reg, i));
      assert EntryValue(reg, i, lines, uuid, next) == uuid(id);
    }
  }

  /** A round has one item per registry key, in registry order. */
  lemma RoundKeys(reg: seq<Entry>, lines: seq<string>, uuid: nat -> string, next: nat)
    requires PromptCount(reg) <= |lines|
    ensures |Round(reg, lines, uuid, next)| == |reg|
    ensures forall i {:trigger Round(reg, lines, uuid, next)[i]} :: 0 <= i < |reg| ==>
      Round(reg, lines, uuid, next)[i].key == reg[i].key
  {
    forall i | 0 <= i < |reg| ensures Round(reg, lines, uuid, next)[i].key == reg[i].key {
      RoundAt(reg, lines, uuid, next, i);
    }
  }

  /** Generated values read no input: two rounds over different lines give the
      generated keys the same values. */
  lemma GeneratedReadsNoInput(reg: seq<Entry>, lines1: seq<string>, lines2: seq<string>, uuid: nat -> string, next: nat, i: nat)
    requires PromptCount(reg) <= |lines1| && PromptCount(reg) <= |lines2|
    requires i < |reg| && !Prompted(reg[i])
    ensures Round(reg, lines1, uuid, next)[i] == Round(reg, lines2, uuid, next)[i]
  {
    RoundAt(reg, lines1, uuid, next, i);
    RoundAt(reg, lines2, uuid, next, i);
  }

  /** With an oracle that never repeats itself, the generated values of a round
      are pairwise different. */
  lemma GeneratedDistinct(reg: seq<Entry>, lines: seq<string>, uuid: nat -> string, next: nat, i: nat, j: nat)
    requires PromptCount(reg) <= |lines|
    requires forall m, n :: m != n ==> uuid(m) != uuid(n)
    requires i < j < |reg| && !Prompted(reg[i]) && !Prompted(reg[j])
    ensures Round(reg, lines, uuid, next)[i].value != Round(reg, lines, uuid, next)[j].value
  {
    RoundAt(reg, lines, uuid, next, i);
    RoundAt(reg, lines, uuid, next, j);
    GeneratedBeforeStrict(reg, i, j);
  }

  /** Prompted keys read the lines of the round one each, in registry order. */
  lemma PromptedLinesInOrder(reg: seq<Entry>, i: nat, j: nat)
    requires i < j < |reg| && Prompted(reg[i]) && Prompted(reg[j])
    ensures PromptedBefore(reg, i) < PromptedBefore(reg, j) < PromptCount(reg)
  {
    PromptedBeforeStrict(reg, i, j);
    PromptedBeforeStrict(reg, j, |reg|);
  }

  /** A round reads only its own lines: lines typed after them do not change it. */
  lemma {:induction false} RoundPrefixIgnoresRest(reg: seq<Entry>, n: nat, lines: seq<string>, more: seq<string>, uuid: nat -> string, next: nat)
    requires n <= |reg| && PromptedBefore(reg, n) <= |lines|
    ensures RoundPrefix(reg, n, lines + more, uuid, next) == RoundPrefix(reg, n, lines, uuid, next)
    decreases n
  {
    if n > 0 {
      PromptedBeforeMonotone(reg, n - 1, n);
      RoundPrefixIgnoresRest(reg, n - 1, lines, more, uuid, next);
      if Prompted(reg[n - 1]) {
        assert (lines + more)[PromptedBefore(reg, n - 1)] == lines[PromptedBefore(reg, n - 1)];
      }
    }
  }

  lemma RoundIgnoresRest(reg: seq<Entry>, lines: seq<string>, more: seq<string>, uuid: nat -> string, next: nat)
    requires PromptCount(reg) <= |lines|
    ensures Round(reg, lines + more, uuid, next) == Round(reg, lines, uuid, next)
  {
    RoundPrefixIgnoresRest(reg, |reg|, lines, more, uuid, next);
  }

  // ---------------------------------------------------------------------------
  // Rounds until one is confirmed
  // ---------------------------------------------------------------------------

  /** What `get_conf_values` returns when the operator's remaining lines are
      `input` and the oracle stands at `next`: a round reads `PromptCount(reg)`
      lines, then the confirmation reads its lines; the operator's yes returns the
      round's dict, a no starts again on the lines after the answer with the
      round's identifiers used up, and running out of lines is an EOFError. */
  function Collect(reg: seq<Entry>, input: seq<string>, uuid: nat -> string, next: nat): Option<Settings>
    decreases |input|
  {
    if |input| < PromptCount(reg) then None
    else match AskYesNo(input, PromptCount(reg))
      case None => None
      case Some(d) =>
        if d.yes then Some(Round(reg, input, uuid, next))
        else Collect(reg, input[PromptCount(reg) + d.consumed..], uuid, next + GeneratedCount(reg))
  }

  /** The loop of `get_conf_values`: `result` is filled key by key, reading the
      next line for each prompted key and generating an identifier for each other
      key.  Running out of lines part-way is an EOFError. */
  method ReadRound(reg: seq<Entry>, input: seq<string>, uuid: nat -> string, next: nat)
    returns (round: Option<Settings>)
    ensures round.None? <==> |input| < PromptCount(reg)
    ensures round.Some? ==> round.value == Round(reg, input, uuid, next)
  {
    var result: Settings := [];
    var line := 0;
    for i := 0 to |reg|
      invariant line == PromptedBefore(reg, i) && line <= |input|
      invariant result == RoundPrefix(reg, i, input, uuid, next)
    {
      var e := reg[i];
      if |e.values| < 2 {
        result := result + [Setting(e.key, uuid(next + (i - line)))];
      } else {
        if line == |input| {
          PromptedBeforeStrict(reg, i, |reg|);
          return None;
        }
        result := result + [Setting(e.key, Strip(input[line]))];
        line := line + 1;
      }
    }
    round := Some(result);
  }

  /** `get_conf_values` on the operator's remaining lines `input`: a round is
      read, then the confirmation is asked, and a decline recurses on the lines
      after the answer with the oracle where it now stands. */
  method GetConfValues(reg: seq<Entry>, input: seq<string>, uuid: nat -> string, next: nat)
    returns (r: Option<Settings>)
    ensures r == Collect(reg, input, uuid, next)
    decreases |input|
  {
    var round := ReadRound(reg, input, uuid, next);
    if round.None? {
      return None;
    }
    match AskYesNo(input, PromptCount(reg))
    case None =>
      r := None;
    case Some(d) =>
      if d.yes {
        r := round;
      } else {
        r := GetConfValues(reg, input[PromptCount(reg) + d.consumed..], uuid, next + GeneratedCount(reg));
      }
  }

  /** The returned dict has exactly one item per registry key, in registry order. */
  lemma {:induction false} CollectKeys(reg: seq<Entry>, input: seq<string>, uuid: nat -> string, next: nat)
    requires Collect(reg, input, uuid, next).Some?
    ensures var conf := Collect(reg, input, uuid, next).value;
      && |conf| == |reg|
      && forall i :: 0 <= i < |conf| ==> conf[i].key == reg[i].key
    decreases |input|
  {
    var d := AskYesNo(input, PromptCount(reg)).value;
    if d.yes {
      RoundKeys(reg, input, uuid, next);
    } else {
      CollectKeys(reg, input[PromptCount(reg) + d.consumed..], uuid, next + GeneratedCount(reg));
    }
  }

  /** A confirmed round is returned as it was read: its dict is built from the
      round's own lines alone. */
  lemma AcceptedRound(reg: seq<Entry>, round: seq<string>, rest: seq<string>, uuid: nat -> string, next: nat)
    requires |round| == PromptCount(reg)
    requires AskYesNo(rest, 0).Some? && AskYesNo(rest, 0).value.yes
    ensures Collect(reg, round + rest, uuid, next) == Some(Round(reg, round, uuid, next))
  {
    AskYesNoShift(round, rest, 0);
    RoundIgnoresRest(reg, round, rest, uuid, next);
  }

  /** A declined round is discarded: whatever lines it read, the result is the one
      the lines after the answer give, with the round's identifiers used up. */
  lemma DeclinedRoundDiscarded(reg: seq<Entry>, round: seq<string>, rest: seq<string>, uuid: nat -> string, next: nat)
    requires |round| == PromptCount(reg)
    requires AskYesNo(rest, 0).Some? && !AskYesNo(rest, 0).value.yes
    ensures Collect(reg, round + rest, uuid, next)
      == Collect(reg, rest[AskYesNo(rest, 0).value.consumed..], uuid, next + GeneratedCount(reg))
  {
    var n := AskYesNo(rest, 0).value.consumed;
    AskYesNoShift(round, rest, 0);
    assert (round + rest)[|round| + n..] == rest[n..];
  }
}
