/**
 The unary encoding the decoder reads, written forward: a rule is four runs
 of '0' (from state, read symbol, to state, write symbol) and a move code,
 separated by single '1's; rules are separated by "11"; the program and the
 tape are separated by "111".  Decoding an encoded program gives back its
 rules, the later of two rules with the same key winning.
 */
module Encoding {
  import opened Text
  import opened Tapes
  import opened Machines

  /** `n` zeros: a unary run of length `n`. */
  function Zeros(n: nat): (z: string)
    ensures |z| == n && forall k :: 0 <= k < n ==> z[k] == '0'
  {
    seq(n, _ => '0')
  }

  /** One rule, by the unary lengths of its four counted fields and the literal text of its move code. */
  datatype Rule = Rule(from: nat, read: nat, to: nat, write: nat, move: string)

  /**
   A rule the encoding can carry: every run is non-empty and the move code is
   a non-empty run of zeros, so no "11" appears inside an encoded rule and an
   encoded rule starts and ends with '0'.
   */
  predicate WellFormed(r: Rule)
  {
    && r.from >= 1 && r.read >= 1 && r.to >= 1 && r.write >= 1
    && |r.move| >= 1 && forall k :: 0 <= k < |r.move| ==> r.move[k] == '0'
  }

  function EncodeRule(r: Rule): string
  {
    Zeros(r.from) + "1" + Zeros(r.read) + "1" + Zeros(r.to) + "1" + Zeros(r.write) + "1" + r.move
  }

  /** The table entry a rule stands for. */
  function RuleEntry(r: Rule): Entry
  {
    Some((Key(ParseState(Zeros(r.from)), ParseSymbol(Zeros(r.read))),
          Transition(ParseState(Zeros(r.to)), ParseSymbol(Zeros(r.write)), ParseMove(r.move))))
  }

  function EncodeRules(rules: seq<Rule>): (records: seq<string>)
    ensures |records| == |rules|
    ensures forall i :: 0 <= i < |rules| ==> records[i] == EncodeRule(rules[i])
  {
    seq(|rules|, i requires 0 <= i < |rules| => EncodeRule(rules[i]))
  }

  function RuleEntries(rules: seq<Rule>): (entries: seq<Entry>)
    ensures |entries| == |rules|
    ensures forall i :: 0 <= i < |rules| ==> entries[i] == RuleEntry(rules[i])
  {
    seq(|rules|, i requires 0 <= i < |rules| => RuleEntry(rules[i]))
  }

  /** A whole input: the rules joined by "11", then "111", then the tape text. */
  function Encode(rules: seq<Rule>, tape: string): string
  {
    Join(EncodeRules(rules), "11") + "111" + tape
  }

  // ---------------------------------------------------------------------------
  // Runs of '1'
  // ---------------------------------------------------------------------------

  /** `s` never has two '1's in a row. */
  predicate NoDoubleOne(s: string)
  {
    forall j :: 0 <= j < |s| - 1 ==> !(s[j] == '1' && s[j + 1] == '1')
  }

  /** `s` never has three '1's in a row. */
  predicate NoTripleOne(s: string)
  {
    forall j :: 0 <= j < |s| - 2 ==> !(s[j] == '1' && s[j + 1] == '1' && s[j + 2] == '1')
  }

  /** An occurrence of "11" is two '1's in a row. */
  lemma OccursAtOneOne(s: string, j: int)
    requires 0 <= j && j + 2 <= |s|
    ensures OccursAt(s, "11", j) <==> s[j] == '1' && s[j + 1] == '1'
  {
    if s[j] == '1' && s[j + 1] == '1' {
      assert s[j..j + 2] == "11";
    }
  }

  /** An occurrence of "111" is three '1's in a row. */
  lemma OccursAtOneOneOne(s: string, j: int)
    requires 0 <= j && j + 3 <= |s|
    ensures OccursAt(s, "111", j) <==> s[j] == '1' && s[j + 1] == '1' && s[j + 2] == '1'
  {
    if s[j] == '1' && s[j + 1] == '1' && s[j + 2] == '1' {
      assert s[j..j + 3] == "111";
    }
  }

  /** The leftmost occurrence is the one at `i` when `sep` occurs at `i` and nowhere before. */
  lemma IndexIs(s: string, sep: string, i: nat)
    requires OccursAt(s, sep, i)
    requires forall j :: 0 <= j < i ==> !OccursAt(s, sep, j)
    ensures Index(s, sep) == Some(i)
  {
  }

  /** Joining two strings creates no "11" when a '0' stands at the seam. */
  lemma NoDoubleOneConcat(a: string, b: string)
    requires NoDoubleOne(a) && NoDoubleOne(b)
    requires (|a| >= 1 && a[|a| - 1] == '0') || (|b| >= 1 && b[0] == '0') || |a| == 0 || |b| == 0
    ensures NoDoubleOne(a + b)
  {
    var s := a + b;
    forall j | 0 <= j < |s| - 1 ensures !(s[j] == '1' && s[j + 1] == '1') {
      if j + 1 < |a| {
        assert s[j] == a[j] && s[j + 1] == a[j + 1];
      } else if j >= |a| {
        assert s[j] == b[j - |a|] && s[j + 1] == b[j + 1 - |a|];
      }
    }
  }

  /** Joining two strings creates no "111" when a '0' stands at the seam. */
  lemma NoTripleOneConcat(a: string, b: string)
    requires NoTripleOne(a) && NoTripleOne(b)
    requires (|a| >= 1 && a[|a| - 1] == '0') || (|b| >= 1 && b[0] == '0')
    ensures NoTripleOne(a + b)
  {
    var s := a + b;
    forall j | 0 <= j < |s| - 2 ensures !(s[j] == '1' && s[j + 1] == '1' && s[j + 2] == '1') {
      if j + 2 < |a| {
        assert s[j] == a[j] && s[j + 1] == a[j + 1] && s[j + 2] == a[j + 2];
      } else if j >= |a| {
        assert s[j] == b[j - |a|] && s[j + 1] == b[j + 1 - |a|] && s[j + 2] == b[j + 2 - |a|];
      }
    }
  }

  /** A well-formed encoded rule starts and ends with '0' and has no "11" inside. */
  lemma EncodeRuleShape(r: Rule)
    requires WellFormed(r)
    ensures var e := EncodeRule(r);
      |e| >= 1 && e[0] == '0' && e[|e| - 1] == '0' && NoDoubleOne(e)
  {
    var f, a, t, w := Zeros(r.from), Zeros(r.read), Zeros(r.to), Zeros(r.write);
    assert NoDoubleOne(f) && NoDoubleOne(a) && NoDoubleOne(t) && NoDoubleOne(w) && NoDoubleOne(r.move);
    assert NoDoubleOne("1");
    NoDoubleOneConcat(f, "1");
    NoDoubleOneConcat(f + "1", a);
    NoDoubleOneConcat(f + "1" + a, "1");
    NoDoubleOneConcat(f + "1" + a + "1", t);
    NoDoubleOneConcat(f + "1" + a + "1" + t, "1");
    NoDoubleOneConcat(f + "1" + a + "1" + t + "1", w);
    NoDoubleOneConcat(f + "1" + a + "1" + t + "1" + w, "1");
    NoDoubleOneConcat(f + "1" + a + "1" + t + "1" + w + "1", r.move);
  }

  // ---------------------------------------------------------------------------
  // Decoding one rule
  // ---------------------------------------------------------------------------

  /** A run of zeros followed by '1' is cut right after the run. */
  lemma SplitNAfterZeros(a: nat, rest: string, n: nat)
    requires n >= 2
    ensures SplitN(Zeros(a) + "1" + rest, "1", n) == [Zeros(a)] + SplitN(rest, "1", n - 1)
  {
    var s := Zeros(a) + "1" + rest;
    OccursAtChar(s, '1', a);
    forall j | 0 <= j < a ensures !OccursAt(s, "1", j) {
      OccursAtChar(s, '1', j);
      assert s[j] == Zeros(a)[j];
    }
    IndexIs(s, "1", a);
    assert s[..a] == Zeros(a) && s[a + 1..] == rest;
  }

  /** Runs of zeros, each followed by '1', then `last`. */
  function ZeroRuns(runs: seq<nat>, last: string): string
    decreases |runs|
  {
    if runs == [] then last else Zeros(runs[0]) + "1" + ZeroRuns(runs[1..], last)
  }

  /** The pieces of runs of zeros split on "1": one per run, then `last`. */
  predicate RunPieces(pieces: seq<string>, runs: seq<nat>, last: string)
  {
    && |pieces| == |runs| + 1
    && pieces[|runs|] == last
    && forall i :: 0 <= i < |runs| ==> pieces[i] == Zeros(runs[i])
  }

  /** One run more: its zeros become the first piece, in front of the pieces of the rest. */
  lemma SplitNZeroRunsCons(first: nat, rest: seq<nat>, last: string)
    requires RunPieces(SplitN(ZeroRuns(rest, last), "1", |rest| + 1), rest, last)
    ensures RunPieces(SplitN(ZeroRuns([first] + rest, last), "1", |rest| + 2), [first] + rest, last)
  {
    var runs := [first] + rest;
    var tail := ZeroRuns(rest, last);
    assert runs[1..] == rest;
    assert ZeroRuns(runs, last) == Zeros(first) + "1" + tail;
    SplitNAfterZeros(first, tail, |rest| + 2);
    var p := SplitN(tail, "1", |rest| + 1);
    var pieces := [Zeros(first)] + p;
    assert SplitN(ZeroRuns(runs, last), "1", |rest| + 2) == pieces;
    forall i | 0 < i < |pieces| ensures pieces[i] == p[i - 1] {
    }
  }

  /** Splitting runs of zeros on "1", into one piece more than there are runs, gives back the runs and `last`. */
  lemma {:induction false} SplitNZeroRuns(runs: seq<nat>, last: string)
    ensures RunPieces(SplitN(ZeroRuns(runs, last), "1", |runs| + 1), runs, last)
    decreases |runs|
  {
    if runs != [] {
      SplitNZeroRuns(runs[1..], last);
      SplitNZeroRunsCons(runs[0], runs[1..], last);
      assert [runs[0]] + runs[1..] == runs;
    }
  }

  /** An encoded rule is its four counted runs followed by its move code. */
  lemma EncodeRuleRuns(r: Rule)
    ensures ZeroRuns([r.from, r.read, r.to, r.write], r.move) == EncodeRule(r)
  {
    var runs := [r.from, r.read, r.to, r.write];
    var m := r.move;
    assert ZeroRuns(runs[3..], m) == Zeros(r.write) + "1" + m by {
      assert runs[3..][1..] == [];
    }
    assert ZeroRuns(runs[2..], m) == Zeros(r.to) + "1" + ZeroRuns(runs[3..], m) by {
      assert runs[2..][1..] == runs[3..];
    }
    assert ZeroRuns(runs[1..], m) == Zeros(r.read) + "1" + ZeroRuns(runs[2..], m) by {
      assert runs[1..][1..] == runs[2..];
    }
  }

  /** An encoded rule splits on "1" into its five fields. */
  lemma EncodeRuleFields(r: Rule)
    ensures var fields := SplitN(EncodeRule(r), "1", 5);
      && |fields| == 5
      && fields[0] == Zeros(r.from) && fields[1] == Zeros(r.read)
      && fields[2] == Zeros(r.to) && fields[3] == Zeros(r.write)
      && fields[4] == r.move
  {
    var runs := [r.from, r.read, r.to, r.write];
    EncodeRuleRuns(r);
    SplitNZeroRuns(runs, r.move);
  }

  /** Decoding an encoded rule gives back the rule's entry, whatever the lengths and the move code. */
  lemma DecodeRecordRoundTrip(r: Rule)
    ensures DecodeRecord(EncodeRule(r)) == RuleEntry(r)
  {
    EncodeRuleFields(r);
    assert |EncodeRule(r)| > 0;
  }

  // ---------------------------------------------------------------------------
  // Decoding a whole input
  // ---------------------------------------------------------------------------

  /** Records are clean when each starts and ends with '0' and has no "11" inside. */
  predicate Clean(records: seq<string>)
  {
    forall i :: 0 <= i < |records| ==>
      |records[i]| >= 1 && records[i][0] == '0' && records[i][|records[i]| - 1] == '0' && NoDoubleOne(records[i])
  }

  /** Clean records joined by "11" start with '0', end with '0' and hold no "111". */
  lemma {:induction false} JoinShape(records: seq<string>)
    requires |records| >= 1 && Clean(records)
    ensures var p := Join(records, "11");
      |p| >= 1 && p[0] == '0' && p[|p| - 1] == '0' && NoTripleOne(p)
    decreases |records|
  {
    var r := records[0];
    assert NoTripleOne(r);
    if |records| > 1 {
      var rest := records[1..];
      JoinShape(rest);
      var q := Join(rest, "11");
      assert NoTripleOne("11");
      NoTripleOneConcat(r, "11");
      NoTripleOneConcat(r + "11", q);
      assert Join(records, "11") == r + "11" + q;
    }
  }

  /** Splitting clean records joined by "11" on "11" gives the records back. */
  lemma {:induction false} SplitJoinRoundTrip(records: seq<string>)
    requires |records| >= 1 && Clean(records)
    ensures Split(Join(records, "11"), "11") == records
    decreases |records|
  {
    if |records| == 1 {
      var r := records[0];
      forall j ensures !OccursAt(r, "11", j) {
        if 0 <= j && j + 2 <= |r| {
          OccursAtOneOne(r, j);
        }
      }
    } else {
      var r, rest := records[0], records[1..];
      var q := Join(rest, "11");
      var s := r + "11" + q;
      assert Join(records, "11") == s;
      OccursAtOneOne(s, |r|);
      forall j | 0 <= j < |r| ensures !OccursAt(s, "11", j) {
        OccursAtOneOne(s, j);
        if j + 1 < |r| {
          assert s[j] == r[j] && s[j + 1] == r[j + 1];
        }
      }
      IndexIs(s, "11", |r|);
      assert s[..|r|] == r && s[|r| + 2..] == q;
      SplitJoinRoundTrip(rest);
    }
  }

  /** Well-formed rules joined by "11" hold no "111" and, unless empty, end with '0'. */
  lemma ProgramShape(rules: seq<Rule>)
    requires forall i :: 0 <= i < |rules| ==> WellFormed(rules[i])
    ensures var p := Join(EncodeRules(rules), "11");
      NoTripleOne(p) && (|p| == 0 || p[|p| - 1] == '0')
  {
    var records := EncodeRules(rules);
    if |rules| >= 1 {
      forall i | 0 <= i < |rules| ensures
        |records[i]| >= 1 && records[i][0] == '0' && records[i][|records[i]| - 1] == '0' && NoDoubleOne(records[i])
      {
        EncodeRuleShape(rules[i]);
      }
      JoinShape(records);
    }
  }

  /** After a program with no "111" that does not end in '1', the first "111" is the one right after it. */
  lemma FirstTripleAfter(p: string, tape: string)
    requires NoTripleOne(p) && (|p| == 0 || p[|p| - 1] == '0')
    ensures Index(p + "111" + tape, "111") == Some(|p|)
  {
    var s := p + "111" + tape;
    OccursAtOneOneOne(s, |p|);
    forall j | 0 <= j < |p| ensures !OccursAt(s, "111", j) {
      OccursAtOneOneOne(s, j);
      if j + 2 < |p| {
        assert s[j] == p[j] && s[j + 1] == p[j + 1] && s[j + 2] == p[j + 2];
      } else {
        assert s[|p| - 1] == p[|p| - 1] == '0';
      }
    }
    IndexIs(s, "111", |p|);
  }

  /** The program part of an encoded input is the joined rules; the tape part is the tape text. */
  lemma SplitProgramOfEncode(rules: seq<Rule>, tape: string)
    requires forall i :: 0 <= i < |rules| ==> WellFormed(rules[i])
    ensures SplitProgram(Encode(rules, tape)) == (Join(EncodeRules(rules), "11"), tape)
  {
    var p := Join(EncodeRules(rules), "11");
    var s := p + "111" + tape;
    ProgramShape(rules);
    FirstTripleAfter(p, tape);
    assert s[..|p|] == p && s[|p| + 3..] == tape;
  }

  /** Decoding a non-empty encoded program gives back the rules' entries, one per rule. */
  lemma DecodeProgramRoundTrip(rules: seq<Rule>)
    requires |rules| >= 1
    requires forall i :: 0 <= i < |rules| ==> WellFormed(rules[i])
    ensures DecodeRecords(Split(Join(EncodeRules(rules), "11"), "11")) == RuleEntries(rules)
  {
    var records := EncodeRules(rules);
    forall i | 0 <= i < |rules| ensures
      |records[i]| >= 1 && records[i][0] == '0' && records[i][|records[i]| - 1] == '0' && NoDoubleOne(records[i])
    {
      EncodeRuleShape(rules[i]);
    }
    SplitJoinRoundTrip(records);
    forall i | 0 <= i < |rules| ensures DecodeRecords(records)[i] == RuleEntries(rules)[i] {
      DecodeRecordRoundTrip(rules[i]);
    }
  }

  /** The empty program: a single empty record, which yields no entry. */
  lemma EmptyProgramTable()
    ensures BuildTable(DecodeRecords(Split("", "11"))) == map[]
  {
    assert Split("", "11") == [""];
    assert DecodeRecords([""]) == [None];
    assert BuildTable([None]) == map[];
  }

  /** The records of an encoded input are the joined rules split on "11". */
  lemma RecordsOfEncode(rules: seq<Rule>, tape: string)
    requires forall i :: 0 <= i < |rules| ==> WellFormed(rules[i])
    ensures SplitRecords(Encode(rules, tape)) == Split(Join(EncodeRules(rules), "11"), "11")
  {
    SplitProgramOfEncode(rules, tape);
  }

  /** Decoding an encoded input gives back the rules' table, a later rule replacing an earlier one with the same key. */
  lemma DecodeTableOfEncode(rules: seq<Rule>, tape: string)
    requires forall i :: 0 <= i < |rules| ==> WellFormed(rules[i])
    ensures DecodeTable(Encode(rules, tape)) == BuildTable(RuleEntries(rules))
  {
    RecordsOfEncode(rules, tape);
    if |rules| == 0 {
      NoRulesTable(rules, tape);
    } else {
      DecodeProgramRoundTrip(rules);
    }
  }

  /** No rules: the empty program text decodes to the empty table. */
  lemma NoRulesTable(rules: seq<Rule>, tape: string)
    requires rules == []
    ensures BuildTable(DecodeRecords(Split(Join(EncodeRules(rules), "11"), "11"))) == BuildTable(RuleEntries(rules))
  {
    assert Join(EncodeRules(rules), "11") == "";
    EmptyProgramTable();
    assert RuleEntries(rules) == [];
  }

  /** Decoding an encoded input gives back the tape text, one character per cell (a single blank when it is empty). */
  lemma DecodeTapeOfEncode(rules: seq<Rule>, tape: string)
    requires forall i :: 0 <= i < |rules| ==> WellFormed(rules[i])
    ensures DecodeTape(Encode(rules, tape)) == FromContent(Explode(tape))
  {
    SplitProgramOfEncode(rules, tape);
  }

  /**
   Decoding an encoded input gives back the rules' table and the tape: the
   decoder inverts the encoding on well-formed rules.
   */
  lemma DecodeEncodeRoundTrip(rules: seq<Rule>, tape: string)
    requires forall i :: 0 <= i < |rules| ==> WellFormed(rules[i])
    ensures DecodeTable(Encode(rules, tape)) == BuildTable(RuleEntries(rules))
    ensures DecodeTape(Encode(rules, tape)) == FromContent(Explode(tape))
  {
    DecodeTableOfEncode(rules, tape);
    DecodeTapeOfEncode(rules, tape);
  }
}
