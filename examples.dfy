/**
 Concrete inputs run through the decoder and the step function.
 */
module MachineExamples {
  import opened Text
  import opened Tapes
  import opened Machines
  import opened Encoding

  /**
   "1110": an empty program, the separator, the tape "0".  The table is empty,
   the tape holds the single cell "0", and the first step halts in "q1",
   which is not accepting.
   */
  lemma EmptyProgramHalts()
    ensures DecodeTable("1110") == map[]
    ensures Initial("1110").tape == TapeState(["0"], 0)
    ensures var c := Next(DecodeTable("1110"), Initial("1110"));
      c.finished && c.state == "q1" && !Accepting(c)
  {
    assert Index("1110", "111") == Some(0) by {
      assert "1110"[0..3] == "111";
    }
    assert SplitProgram("1110") == ("", "0");
    assert Split("", "11") == [""];
    assert DecodeRecord("") == None;
    assert DecodeRecords([""]) == [None];
    assert BuildTable([None]) == map[];
    assert Explode("0") == ["0"];
  }

  /** The fields of the one-rule programs below: short runs of zeros decode as expected. */
  lemma ShortRuns()
    ensures Zeros(1) == "0" && Zeros(2) == "00" && Zeros(3) == "000"
    ensures ParseState(Zeros(1)) == "q1" && ParseState(Zeros(2)) == "q2" && ParseState(Zeros(3)) == "q3"
    ensures ParseSymbol(Zeros(1)) == "0" && ParseSymbol(Zeros(2)) == "1"
    ensures ParseMove("00") == "R"
  {
    assert NatToString(1) == "1" && NatToString(2) == "2" && NatToString(3) == "3";
  }

  /**
   A machine whose only rule is: in "q1" reading "0", write "1", move right,
   enter `q`.  Started on the tape "0", it applies that rule once; the second
   step finds no rule for (`q`, "_") and halts in `q`.
   */
  lemma OneRuleRun(table: Table, c: Config, q: string)
    requires table == map[Key("q1", "0") := Transition(q, "1", "R")]
    requires c == Config(TapeState(["0"], 0), "q1", false)
    ensures StepN(table, c, 1) == Config(TapeState(["1", "_"], 1), q, false)
    ensures StepN(table, c, 2) == Config(TapeState(["1", "_"], 1), q, true)
  {
    var c1 := Next(table, c);
    assert ["0"][0 := "1"] == ["1"];
    assert Written(TapeState(["0"], 0), "1") == TapeState(["1"], 0);
    assert MovedRight(TapeState(["1"], 0)) == TapeState(["1", "_"], 1);
    assert c1 == Config(TapeState(["1", "_"], 1), q, false);
    assert c1.tape.Read() == "_";
    assert StepN(table, c, 2) == StepN(table, c1, 1);
  }

  /** The table of a one-rule program: ("q1", "0") -> (state number `to`, "1", "R"). */
  lemma OneRuleTable(to: nat)
    requires to >= 1
    ensures DecodeTable(Encode([Rule(1, 1, to, 2, "00")], "0")) ==
      map[Key("q1", "0") := Transition(ParseState(Zeros(to)), "1", "R")]
  {
    var rules := [Rule(1, 1, to, 2, "00")];
    ShortRuns();
    DecodeEncodeRoundTrip(rules, "0");
    assert RuleEntries(rules) == [Some((Key("q1", "0"), Transition(ParseState(Zeros(to)), "1", "R")))];
    assert BuildTable(RuleEntries(rules)) == BuildTable([])[Key("q1", "0") := Transition(ParseState(Zeros(to)), "1", "R")];
  }

  /** A program followed by the tape "0" starts in "q1" with the head on a single "0" cell. */
  lemma TapeZeroStart(rules: seq<Rule>)
    requires forall i :: 0 <= i < |rules| ==> WellFormed(rules[i])
    ensures Initial(Encode(rules, "0")) == Config(TapeState(["0"], 0), "q1", false)
  {
    DecodeEncodeRoundTrip(rules, "0");
    assert Explode("0") == ["0"];
  }

  /** The two one-rule inputs, spelled out. */
  lemma OneRuleInputs()
    ensures Encode([Rule(1, 1, 2, 2, "00")], "0") == "0101001001001110"
    ensures Encode([Rule(1, 1, 3, 2, "00")], "0") == "01010001001001110"
  {
    ShortRuns();
    assert EncodeRule(Rule(1, 1, 2, 2, "00")) == "010100100100";
    assert EncodeRule(Rule(1, 1, 3, 2, "00")) == "0101000100100";
    assert Join(EncodeRules([Rule(1, 1, 2, 2, "00")]), "11") == "010100100100";
    assert Join(EncodeRules([Rule(1, 1, 3, 2, "00")]), "11") == "0101000100100";
  }

  /**
   "0101001001001110", the rule ("q1", "0") -> ("q2", "1", "R") on the tape
   "0": after two steps the machine has halted in "q2", which accepts.
   */
  lemma OneRuleAccepts()
    ensures var table, c := DecodeTable("0101001001001110"), Initial("0101001001001110");
      && StepN(table, c, 2) == Config(TapeState(["1", "_"], 1), "q2", true)
      && Accepting(StepN(table, c, 2))
  {
    var rules := [Rule(1, 1, 2, 2, "00")];
    OneRuleInputs();
    ShortRuns();
    OneRuleTable(2);
    TapeZeroStart(rules);
    OneRuleRun(DecodeTable(Encode(rules, "0")), Initial(Encode(rules, "0")), "q2");
  }

  /**
   "01010001001001110", the same rule with "q3" as its target: after two steps
   the machine has halted in "q3", which does not accept.
   */
  lemma OneRuleRejects()
    ensures var table, c := DecodeTable("01010001001001110"), Initial("01010001001001110");
      && StepN(table, c, 2) == Config(TapeState(["1", "_"], 1), "q3", true)
      && !Accepting(StepN(table, c, 2))
  {
    var rules := [Rule(1, 1, 3, 2, "00")];
    OneRuleInputs();
    ShortRuns();
    OneRuleTable(3);
    TapeZeroStart(rules);
    OneRuleRun(DecodeTable(Encode(rules, "0")), Initial(Encode(rules, "0")), "q3");
  }
}
