/** `ask_yes_no` (deployment/deploy.py:127-138): the operator is asked until a line
    reads, after lowercasing, `y`, `yes`, `n` or `no`.  The lines the operator types
    are the sequence `input`; running out of lines is Python's EOFError. */
module Confirm {
  import opened Wrappers
  import opened Text

  /** The three outcomes of one answer. */
  datatype Reply = Yes | No | Invalid

  /** `line.lower()` is `y` or `yes`, compared character by character. */
  predicate IsYes(line: string) {
    || (|line| == 1 && LowerChar(line[0]) == 'y')
    || (|line| == 3 && LowerChar(line[0]) == 'y' && LowerChar(line[1]) == 'e' && LowerChar(line[2]) == 's')
  }

  /** `line.lower()` is `n` or `no`, compared character by character. */
  predicate IsNo(line: string) {
    || (|line| == 1 && LowerChar(line[0]) == 'n')
    || (|line| == 2 && LowerChar(line[0]) == 'n' && LowerChar(line[1]) == 'o')
  }

  /** How one line is read: lowercased (not stripped) and compared with the two
      accepted spellings of each answer. */
  function Classify(line: string): Reply {
    if IsYes(line) then Yes
    else if IsNo(line) then No
    else Invalid
  }

  /** The reading of a line is the one of `line.lower()`: yes for `y` and `yes`, no
      for `n` and `no`, invalid for everything else. */
  lemma ClassifySpec(line: string)
    ensures Classify(line) == Yes <==> Lower(line) == "y" || Lower(line) == "yes"
    ensures Classify(line) == No <==> Lower(line) == "n" || Lower(line) == "no"
  {
    LowerSpec(line);
  }

  /** The outcome of a confirmation: the answer and how many lines it read. */
  datatype Decision = Decision(yes: bool, consumed: nat)

  /** `ask_yes_no` reading the lines of `input` from position `pos` on: the
      decision and the number of lines it read, or nothing when the input runs
      out first. */
  function AskYesNo(input: seq<string>, pos: nat): (r: Option<Decision>)
    ensures r.Some? ==> 1 <= r.value.consumed && pos + r.value.consumed <= |input|
    decreases |input| - pos
  {
    if pos >= |input| then None
    else match Classify(input[pos])
      case Yes => Some(Decision(true, 1))
      case No => Some(Decision(false, 1))
      case Invalid =>
        match AskYesNo(input, pos + 1)
        case None => None
        case Some(d) => Some(Decision(d.yes, d.consumed + 1))
  }

  /** The answer is given by the first line that is not invalid: every line before
      it is skipped, and the answer is yes exactly when that line reads `y` or
      `yes`.  No valid line at all means the input runs out (EOFError). */
  lemma {:induction false} AskYesNoSpec(input: seq<string>, pos: nat)
    ensures AskYesNo(input, pos).None? <==> forall k :: pos <= k < |input| ==> Classify(input[k]) == Invalid
    ensures AskYesNo(input, pos).Some? ==>
      var last := pos + AskYesNo(input, pos).value.consumed - 1;
      && Classify(input[last]) != Invalid
      && AskYesNo(input, pos).value.yes == (Classify(input[last]) == Yes)
      && forall k :: pos <= k < last ==> Classify(input[k]) == Invalid
    decreases |input| - pos
  {
    if pos < |input| && Classify(input[pos]) == Invalid {
      AskYesNoSpec(input, pos + 1);
    }
  }

  /** Lines typed after the answer do not change it. */
  lemma {:induction false} AskYesNoIgnoresRest(input: seq<string>, more: seq<string>, pos: nat)
    requires AskYesNo(input, pos).Some?
    ensures AskYesNo(input + more, pos) == AskYesNo(input, pos)
    decreases |input| - pos
  {
    assert (input + more)[pos] == input[pos];
    if Classify(input[pos]) == Invalid {
      AskYesNoIgnoresRest(input, more, pos + 1);
    }
  }

  /** Lines before the starting position are not read. */
  lemma {:induction false} AskYesNoShift(a: seq<string>, b: seq<string>, pos: nat)
    ensures AskYesNo(a + b, |a| + pos) == AskYesNo(b, pos)
    decreases |b| - pos
  {
    if pos < |b| {
      assert (a + b)[|a| + pos] == b[pos];
      AskYesNoShift(a, b, pos + 1);
    }
  }

  /** Case is ignored and surrounding blanks are not. */
  lemma ClassifyExamples()
    ensures Classify("YES") == Yes && Classify("No") == No
    ensures Classify(" y") == Invalid && Classify("yep") == Invalid
  {
    assert Lower("YES") == "yes";
    assert Lower("No") == "no";
    assert Lower(" y") == " y";
    assert Lower("yep") == "yep";
  }

  /** Invalid lines are skipped until a valid one; without one the input runs out. */
  lemma AskYesNoExamples()
    ensures AskYesNo(["yep", " y", "No"], 0) == Some(Decision(false, 3))
    ensures AskYesNo(["yep"], 0) == None
  {
    ClassifyExamples();
  }
}
