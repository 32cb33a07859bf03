/**
 The interpreter: decoding one unary-encoded input into an initial tape and a
 transition table, stepping the machine, and reporting acceptance.

 The functions `Decode*`, `BuildTable`, `Next` and `StepN` are the
 specification; the class `Machine` holds the state that the interpreter
 updates in place, and its constructor and methods are proved to agree with
 those functions.
 */
module Machines {
  import opened Text
  import opened Tapes

  const InitialState: string := "q1"
  const AcceptingState: string := "q2"

  /** The lookup key of a transition: the current state and the symbol under the head. */
  datatype Key = Key(state: string, symbol: string)

  /** What a transition does: the next state, the symbol to write, and the move "L", "R" or "X". */
  datatype Transition = Transition(toState: string, writeSymbol: string, move: string)

  type Table = map<Key, Transition>

  // ---------------------------------------------------------------------------
  // Field decoders
  // ---------------------------------------------------------------------------

  predicate NoComma(s: string)
  {
    forall k :: 0 <= k < |s| ==> s[k] != ','
  }

  /** A state field decodes by its length alone: "q" followed by the length in decimal. */
  function ParseState(unaryCode: string): (r: string)
    ensures |r| >= 2 && r[0] == 'q' && NoComma(r)
    ensures r[1..] == NatToString(|unaryCode|)
    ensures forall k :: 1 <= k < |r| ==> IsDigit(r[k])
    ensures DigitsValue(r[1..]) == |unaryCode|
  {
    NatToStringRoundTrip(|unaryCode|);
    "q" + NatToString(|unaryCode|)
  }

  /** A symbol field decodes by its length: 1, 2, 3 give "0", "1", "_"; any other length its decimal form. */
  function ParseSymbol(unaryCode: string): (r: string)
    ensures NoComma(r) && |r| >= 1
  {
    match |unaryCode|
    case 1 => "0"
    case 2 => "1"
    case 3 => Blank
    case _ => NatToString(|unaryCode|)
  }

  /** A move field decodes by its literal text: "0" is left, "00" is right, anything else is no move. */
  function ParseMove(unaryCode: string): (r: string)
    ensures r == "L" || r == "R" || r == "X"
    ensures r == "L" <==> unaryCode == "0"
    ensures r == "R" <==> unaryCode == "00"
  {
    if unaryCode == "0" then "L"
    else if unaryCode == "00" then "R"
    else "X"
  }

  /** Two state fields decode to the same state iff they have the same length; their characters never matter. */
  lemma ParseStateByLength(u: string, v: string)
    ensures ParseState(u) == ParseState(v) <==> |u| == |v|
  {
    NatToStringInjective(|u|, |v|);
    assert ParseState(u)[1..] == NatToString(|u|);
    assert ParseState(v)[1..] == NatToString(|v|);
  }

  /**
   The symbol decoding table.  Lengths 1, 2 and 3 give "0", "1" and the blank;
   every other length gives its decimal form, so the empty field also gives
   "0".  Among non-empty fields, two decode to the same symbol iff they have
   the same length.
   */
  lemma ParseSymbolTable(u: string, v: string)
    ensures |u| == 1 ==> ParseSymbol(u) == "0"
    ensures |u| == 2 ==> ParseSymbol(u) == "1"
    ensures |u| == 3 ==> ParseSymbol(u) == Blank
    ensures |u| == 0 ==> ParseSymbol(u) == "0"
    ensures |u| == 0 || |u| >= 4 ==> ParseSymbol(u) == NatToString(|u|) && DigitsValue(ParseSymbol(u)) == |u|
    ensures |u| >= 1 && |v| >= 1 ==> (ParseSymbol(u) == ParseSymbol(v) <==> |u| == |v|)
  {
    NatToStringRoundTrip(|u|);
    NatToStringRoundTrip(|v|);
    assert NatToString(0) == "0" && NatToString(1) == "1";
    if |u| >= 4 { NatToStringInjective(|u|, 0); NatToStringInjective(|u|, 1); }
    if |v| >= 4 { NatToStringInjective(|v|, 0); NatToStringInjective(|v|, 1); }
    if |u| >= 4 && |v| >= 4 { NatToStringInjective(|u|, |v|); }
    if |u| >= 4 { assert NatToString(|u|)[0] != '_'; }
    if |v| >= 4 { assert NatToString(|v|)[0] != '_'; }
  }

  /** The textual key the source builds, state and symbol joined by a comma. */
  function KeyString(k: Key): string
  {
    k.state + "," + k.symbol
  }

  /** In the textual key, the first comma is the one right after the state. */
  lemma FirstComma(k: Key)
    requires NoComma(k.state)
    ensures |KeyString(k)| > |k.state| && KeyString(k)[|k.state|] == ','
    ensures forall i :: 0 <= i < |k.state| ==> KeyString(k)[i] == k.state[i] != ','
  {
  }

  /**
   States and symbols hold no comma, so the textual key determines the pair:
   keying the table by the pair is the same as keying it by the joined text.
   */
  lemma KeyStringInjective(k1: Key, k2: Key)
    requires NoComma(k1.state) && NoComma(k2.state)
    ensures KeyString(k1) == KeyString(k2) <==> k1 == k2
  {
    if KeyString(k1) == KeyString(k2) {
      var s := KeyString(k1);
      var a, b := |k1.state|, |k2.state|;
      FirstComma(k1);
      FirstComma(k2);
      assert a == b;
      assert k1.state == s[..a] == k2.state;
      assert k1.symbol == s[a + 1..] == k2.symbol;
    }
  }

  /**
   Splitting the textual key on "," gives back the state and the symbol, as
   the table display reads them.
   */
  lemma KeySplit(k: Key)
    requires NoComma(k.state) && NoComma(k.symbol)
    ensures Split(KeyString(k), ",") == [k.state, k.symbol]
  {
    var s := KeyString(k);
    var a := |k.state|;
    FirstComma(k);
    OccursAtChar(s, ',', a);
    forall j | 0 <= j < a ensures !OccursAt(s, ",", j) {
      OccursAtChar(s, ',', j);
    }
    assert Index(s, ",") == Some(a);
    assert s[..a] == k.state && s[a + 1..] == k.symbol;
    forall j ensures !OccursAt(k.symbol, ",", j) {
      if 0 <= j < |k.symbol| {
        OccursAtChar(k.symbol, ',', j);
      }
    }
  }

  // ---------------------------------------------------------------------------
  // Records and the transition table
  // ---------------------------------------------------------------------------

  /** What one record contributes to the table: a key and its transition, or nothing. */
  type Entry = Option<(Key, Transition)>

  /**
   The entry one record contributes: none for the empty record, none unless
   splitting it on "1" (at most five ways) gives exactly five fields, else the
   decoded key and transition.
   */
  function DecodeRecord(record: string): Entry
  {
    if record == "" then None
    else
      var fields := SplitN(record, "1", 5);
      if |fields| != 5 then None
      else Some((Key(ParseState(fields[0]), ParseSymbol(fields[1])),
                 Transition(ParseState(fields[2]), ParseSymbol(fields[3]), ParseMove(fields[4]))))
  }

  /** A record contributes an entry iff it holds at least four '1's. */
  lemma DecodeRecordDefined(record: string)
    ensures DecodeRecord(record).Some? <==> CountChar(record, '1') >= 4
  {
    SplitNCharCount(record, '1', 5);
  }

  /** The entries of the records, in order. */
  function DecodeRecords(records: seq<string>): (entries: seq<Entry>)
    ensures |entries| == |records|
    ensures forall i :: 0 <= i < |records| ==> entries[i] == DecodeRecord(records[i])
  {
    seq(|records|, i requires 0 <= i < |records| => DecodeRecord(records[i]))
  }

  /** Entry `e` is for key `k`. */
  predicate Defines(e: Entry, k: Key)
  {
    e.Some? && e.value.0 == k
  }

  /** The table built from the entries in order, a later entry replacing an earlier one with the same key. */
  function BuildTable(entries: seq<Entry>): Table
    decreases |entries|
  {
    if entries == [] then map[]
    else
      var earlier := BuildTable(entries[..|entries| - 1]);
      match entries[|entries| - 1]
      case None => earlier
      case Some(e) => earlier[e.0 := e.1]
  }

  /** The table of the first `i + 1` entries: the table of the first `i`, updated by entry `i`. */
  lemma BuildTableSnoc(entries: seq<Entry>, i: nat)
    requires i < |entries|
    ensures entries[..i + 1][..i] == entries[..i]
    ensures BuildTable(entries[..i + 1]) ==
      if entries[i].Some? then BuildTable(entries[..i])[entries[i].value.0 := entries[i].value.1]
      else BuildTable(entries[..i])
  {
    assert entries[..i + 1][..i] == entries[..i];
  }

  /** A key is in the table iff some entry is for it; records that decode to no entry leave no trace. */
  lemma {:induction false} BuildTableHas(entries: seq<Entry>, k: Key)
    ensures k in BuildTable(entries) <==> exists i :: 0 <= i < |entries| && Defines(entries[i], k)
    decreases |entries|
  {
    if entries != [] {
      var n := |entries| - 1;
      var front := entries[..n];
      assert entries[..n + 1] == entries;
      BuildTableSnoc(entries, n);
      BuildTableHas(front, k);
      if exists i :: 0 <= i < |entries| && Defines(entries[i], k) {
        var i :| 0 <= i < |entries| && Defines(entries[i], k);
        if i < n {
          assert Defines(front[i], k);
        }
      }
      if exists i :: 0 <= i < n && Defines(front[i], k) {
        var i :| 0 <= i < n && Defines(front[i], k);
        assert Defines(entries[i], k);
      }
    }
  }

  /**
   A key in the table is mapped to the transition of the LAST entry for it:
   a later record overwrites an earlier one.
   */
  lemma {:induction false} BuildTableLastWins(entries: seq<Entry>, k: Key)
    requires k in BuildTable(entries)
    ensures exists i ::
      && 0 <= i < |entries|
      && entries[i] == Some((k, BuildTable(entries)[k]))
      && (forall j :: i < j < |entries| ==> !Defines(entries[j], k))
    decreases |entries|
  {
    var n := |entries| - 1;
    var front := entries[..n];
    assert entries[..n + 1] == entries;
    BuildTableSnoc(entries, n);
    if Defines(entries[n], k) {
      assert entries[n] == Some((k, BuildTable(entries)[k]));
    } else {
      assert k in BuildTable(front) && BuildTable(entries)[k] == BuildTable(front)[k];
      BuildTableLastWins(front, k);
      var i :| 0 <= i < n && front[i] == Some((k, BuildTable(front)[k])) &&
        (forall j :: i < j < n ==> !Defines(front[j], k));
      assert entries[i] == Some((k, BuildTable(entries)[k]));
      forall j | i < j < |entries| ensures !Defines(entries[j], k) {
        if j < n {
          assert entries[j] == front[j];
        }
      }
    }
  }

  // ---------------------------------------------------------------------------
  // Decoding a whole input
  // ---------------------------------------------------------------------------

  /**
   The program part and the tape part: the input cut at its first "111";
   without a "111", the whole input is the program and the tape part is empty.
   */
  function SplitProgram(sequence: string): (parts: (string, string))
    ensures Index(sequence, "111").None? ==> parts == (sequence, "")
    ensures Index(sequence, "111").Some? ==>
      var i := Index(sequence, "111").value;
      parts == (sequence[..i], sequence[i + 3..])
  {
    var pieces := SplitN(sequence, "111", 2);
    (pieces[0], if |pieces| > 1 then pieces[1] else "")
  }

  /** The initial tape: one cell per character of the tape part, or a single blank when it is empty. */
  function DecodeTape(sequence: string): TapeState
  {
    FromContent(Explode(SplitProgram(sequence).1))
  }

  /** The transition records: the program part split on "11". */
  function SplitRecords(sequence: string): seq<string>
  {
    Split(SplitProgram(sequence).0, "11")
  }

  function DecodeTable(sequence: string): Table
  {
    BuildTable(DecodeRecords(SplitRecords(sequence)))
  }

  /**
   What the initial tape holds: the characters after the first "111", one per
   cell, with the head on the first; a single blank when nothing follows the
   separator or there is no separator.
   */
  lemma {:induction false} DecodeTapeContents(sequence: string)
    ensures DecodeTape(sequence).Valid() && DecodeTape(sequence).head == 0
    ensures match Index(sequence, "111")
      case Some(i) =>
        if i + 3 < |sequence| then DecodeTape(sequence).content == Explode(sequence[i + 3..])
        else DecodeTape(sequence).content == [Blank]
      case None => DecodeTape(sequence).content == [Blank]
  {
    match Index(sequence, "111")
    case Some(i) =>
      assert SplitProgram(sequence).1 == sequence[i + 3..];
      if i + 3 >= |sequence| {
        assert Explode(sequence[i + 3..]) == [];
      } else {
        assert Explode(sequence[i + 3..]) != [];
      }
    case None =>
      assert SplitProgram(sequence).1 == "";
  }

  /**
   The program part holds no "111", so each record holds no "11" and
   rejoining the records with "11" gives back the program part.
   */
  lemma SplitRecordsRejoin(sequence: string)
    ensures Index(SplitProgram(sequence).0, "111").None?
    ensures Join(SplitRecords(sequence), "11") == SplitProgram(sequence).0
    ensures forall k :: 0 <= k < |SplitRecords(sequence)| ==> Index(SplitRecords(sequence)[k], "11").None?
  {
    if Index(sequence, "111").Some? {
      CutAtOccurrence(sequence, "111", Index(sequence, "111").value);
    }
  }

  // ---------------------------------------------------------------------------
  // Stepping
  // ---------------------------------------------------------------------------

  /** Everything a step reads or changes. */
  datatype Config = Config(tape: TapeState, state: string, finished: bool)

  predicate Accepting(c: Config)
  {
    c.state == AcceptingState
  }

  /** A new machine: the decoded tape, state "q1", not finished. */
  function Initial(sequence: string): (c: Config)
    ensures c.state == InitialState && !c.finished && !Accepting(c)
    ensures c.tape.Valid() && c.tape.head == 0
  {
    Config(DecodeTape(sequence), InitialState, false)
  }

  /** The tape after the head motion a move code asks for; "X" (or any other code) does not move. */
  function Moving(t: TapeState, move: string): (r: TapeState)
    ensures forall i :: r.At(i) == t.At(i - MoveShift(t, move))
    ensures t.Valid() ==> r.Valid() && r.head == t.head + MoveDelta(move) + MoveShift(t, move)
  {
    if move == "L" then MovedLeft(t) else if move == "R" then MovedRight(t) else t
  }

  /**
   One step: nothing once finished; halting, with state and tape untouched,
   when no transition matches the state and the symbol under the head;
   otherwise write, move, and change state.
   */
  function Next(table: Table, c: Config): (r: Config)
    ensures c.finished ==> r == c
    ensures !c.finished && Key(c.state, c.tape.Read()) !in table ==>
      r.finished && r.state == c.state && r.tape == c.tape
    ensures !c.finished && Key(c.state, c.tape.Read()) in table ==>
      !r.finished && r.state == table[Key(c.state, c.tape.Read())].toState
    ensures c.tape.Valid() ==> r.tape.Valid()
  {
    if c.finished then c
    else
      var key := Key(c.state, c.tape.Read());
      if key !in table then c.(finished := true)
      else
        var tr := table[key];
        Config(Moving(Written(c.tape, tr.writeSymbol), tr.move), tr.toState, false)
  }

  /** How far the stored cells are re-indexed by a move code. */
  function MoveShift(t: TapeState, move: string): nat
  {
    if move == "L" then LeftShift(t) else 0
  }

  /** Head displacement of a move code. */
  function MoveDelta(move: string): int
  {
    if move == "L" then -1 else if move == "R" then 1 else 0
  }

  /**
   A step that applies a transition writes its symbol in the cell under the
   head, leaves every other cell as it was (re-indexed by one when a move left
   prepends a blank), and moves the head by -1, +1 or 0 for "L", "R", "X".
   */
  lemma NextApplies(table: Table, c: Config, i: int)
    requires c.tape.Valid() && !c.finished && Key(c.state, c.tape.Read()) in table
    ensures
      var tr := table[Key(c.state, c.tape.Read())];
      var r := Next(table, c);
      var w := Written(c.tape, tr.writeSymbol);
      var sh := MoveShift(w, tr.move);
      && r.tape.At(i + sh) == (if i == c.tape.head then tr.writeSymbol else c.tape.At(i))
      && r.tape.head == c.tape.head + MoveDelta(tr.move) + sh
  {
    var tr := table[Key(c.state, c.tape.Read())];
    var w := Written(c.tape, tr.writeSymbol);
    assert Next(table, c).tape == Moving(w, tr.move);
    assert w.At(i) == (if i == c.tape.head then tr.writeSymbol else c.tape.At(i));
    MovingKeepsCell(w, tr.move, i);
  }

  /** The cell at index `i` before a move is at index `i` plus the move's shift after it. */
  lemma MovingKeepsCell(t: TapeState, move: string, i: int)
    ensures Moving(t, move).At(i + MoveShift(t, move)) == t.At(i)
  {
    var sh := MoveShift(t, move);
    assert Moving(t, move).At(i + sh) == t.At(i + sh - sh);
  }

  /** The configuration after `n` calls of the step operation. */
  function StepN(table: Table, c: Config, n: nat): Config
    decreases n
  {
    if n == 0 then c else StepN(table, Next(table, c), n - 1)
  }

  /** A finished machine stays exactly as it is, however many more steps are requested. */
  lemma {:induction false} FinishedIsAbsorbing(table: Table, c: Config, n: nat)
    requires c.finished
    ensures StepN(table, c, n) == c
    decreases n
  {
    if n > 0 {
      FinishedIsAbsorbing(table, Next(table, c), n - 1);
    }
  }

  /** Running `m` steps and then `n` more is running `m + n` steps. */
  lemma {:induction false} StepNAdditive(table: Table, c: Config, m: nat, n: nat)
    ensures StepN(table, c, m + n) == StepN(table, StepN(table, c, m), n)
    decreases m
  {
    if m > 0 {
      StepNAdditive(table, Next(table, c), m - 1, n);
    }
  }

  /** Once finished, the machine stays finished, in the same state, with the same tape. */
  lemma StaysFinished(table: Table, c: Config, m: nat, n: nat)
    requires StepN(table, c, m).finished
    requires m <= n
    ensures StepN(table, c, n) == StepN(table, c, m)
  {
    StepNAdditive(table, c, m, n - m);
    FinishedIsAbsorbing(table, StepN(table, c, m), n - m);
  }

  /** Every reachable tape keeps the invariant: non-empty, head inside. */
  lemma {:induction false} StepNKeepsTapeValid(table: Table, c: Config, n: nat)
    requires c.tape.Valid()
    ensures StepN(table, c, n).tape.Valid()
    decreases n
  {
    if n > 0 {
      StepNKeepsTapeValid(table, Next(table, c), n - 1);
    }
  }

  // ---------------------------------------------------------------------------
  // Textual keys and pair keys agree on every reachable configuration
  // ---------------------------------------------------------------------------

  /** Every key of the table, and every state it leads to, is free of commas. */
  predicate CommaFree(table: Table)
  {
    forall k :: k in table ==> NoComma(k.state) && NoComma(k.symbol) && NoComma(table[k].toState)
  }

  /** A decoded record's states and symbols hold no comma, and its move is "L", "R" or "X". */
  lemma DecodedEntryShape(record: string)
    ensures DecodeRecord(record).Some? ==>
      var (k, t) := DecodeRecord(record).value;
      && NoComma(k.state) && NoComma(k.symbol) && NoComma(t.toState) && NoComma(t.writeSymbol)
      && (t.move == "L" || t.move == "R" || t.move == "X")
  {
  }

  /** Every key of a decoded table, and every state it leads to, is free of commas. */
  lemma DecodeTableCommaFree(sequence: string)
    ensures CommaFree(DecodeTable(sequence))
  {
    var entries := DecodeRecords(SplitRecords(sequence));
    var table := BuildTable(entries);
    forall k | k in table
      ensures NoComma(k.state) && NoComma(k.symbol) && NoComma(table[k].toState)
    {
      BuildTableLastWins(entries, k);
      var i :| 0 <= i < |entries| && entries[i] == Some((k, table[k]));
      DecodedEntryShape(SplitRecords(sequence)[i]);
    }
  }

  /** Steps driven by a comma-free table keep the state comma-free. */
  lemma {:induction false} StepNStateCommaFree(table: Table, c: Config, n: nat)
    requires CommaFree(table) && NoComma(c.state)
    ensures NoComma(StepN(table, c, n).state)
    decreases n
  {
    if n > 0 {
      StepNStateCommaFree(table, Next(table, c), n - 1);
    }
  }

  /**
   In every configuration reachable from a decoded input, looking the text
   "state,symbol" up among the textual keys finds exactly the entry that
   looking the pair up finds, so keying the table by pairs changes nothing.
   */
  lemma TextKeysAgree(sequence: string, n: nat)
    ensures var table, c := DecodeTable(sequence), StepN(DecodeTable(sequence), Initial(sequence), n);
      && CommaFree(table) && NoComma(c.state)
      && forall k :: k in table ==>
           (KeyString(k) == KeyString(Key(c.state, c.tape.Read())) <==> k == Key(c.state, c.tape.Read()))
  {
    var table, c := DecodeTable(sequence), StepN(DecodeTable(sequence), Initial(sequence), n);
    DecodeTableCommaFree(sequence);
    assert NoComma(InitialState);
    StepNStateCommaFree(table, Initial(sequence), n);
    forall k | k in table
      ensures KeyString(k) == KeyString(Key(c.state, c.tape.Read())) <==> k == Key(c.state, c.tape.Read())
    {
      KeyStringInjective(k, Key(c.state, c.tape.Read()));
    }
  }

  /**
   The table-building loop of the decoder: skip empty records, drop records
   that do not split into five fields, and store each remaining record's
   transition under its key, overwriting an earlier one.
   */
  method DecodeTransitions(records: seq<string>) returns (table: Table)
    ensures table == BuildTable(DecodeRecords(records))
  {
    table := map[];
    var i := 0;
    while i < |records|
      invariant 0 <= i <= |records|
      invariant table == BuildTable(DecodeRecords(records)[..i])
    {
      BuildTableStep(records, i);
      table := AddRecord(table, records[i]);
      i := i + 1;
    }
    assert DecodeRecords(records)[..|records|] == DecodeRecords(records);
  }

  /** One pass of the decoder loop: the table updated by the record's entry, if it has one. */
  method AddRecord(table: Table, record: string) returns (updated: Table)
    ensures updated == match DecodeRecord(record)
      case None => table
      case Some(e) => table[e.0 := e.1]
  {
    updated := table;
    if record != "" {
      var fields := SplitN(record, "1", 5);
      if |fields| == 5 {
        var key := Key(ParseState(fields[0]), ParseSymbol(fields[1]));
        var transition := Transition(ParseState(fields[2]), ParseSymbol(fields[3]), ParseMove(fields[4]));
        updated := table[key := transition];
      }
    }
  }

  /** The table of the first `i + 1` records is the table of the first `i`, updated by record `i`'s entry. */
  lemma BuildTableStep(records: seq<string>, i: nat)
    requires i < |records|
    ensures BuildTable(DecodeRecords(records)[..i + 1]) ==
      match DecodeRecord(records[i])
      case None => BuildTable(DecodeRecords(records)[..i])
      case Some(e) => BuildTable(DecodeRecords(records)[..i])[e.0 := e.1]
  {
    BuildTableSnoc(DecodeRecords(records), i);
  }

  // ---------------------------------------------------------------------------
  // The machine object
  // ---------------------------------------------------------------------------

  const Header: seq<string> := ["#", "From State", "Read", "To State", "Write", "Move"]

  /** Row `j` of the table display for key `k` and its transition `tr`. */
  function Row(j: nat, k: Key, tr: Transition): seq<string>
  {
    [NatToString(j), k.state, k.symbol, tr.toState, tr.writeSymbol, tr.move]
  }

  function RowKey(row: seq<string>): Key
    requires |row| >= 3
  {
    Key(row[1], row[2])
  }

  /** The invariant of the row-listing loop: `order` lists the keys already printed, one per row, none twice. */
  ghost predicate RowsSoFar(transitions: Table, rows: seq<seq<string>>, order: seq<Key>, rest: set<Key>)
  {
    && |rows| == |order| + 1
    && (forall j :: 0 <= j < |order| ==> order[j] in transitions && order[j] !in rest)
    && (forall j :: 1 <= j < |rows| ==> rows[j] == Row(j, order[j - 1], transitions[order[j - 1]]))
    && (forall j1, j2 :: 0 <= j1 < j2 < |order| ==> order[j1] != order[j2])
    && (forall k :: k in transitions && k !in rest ==> k in order)
  }

  /** Printing one more unprinted key keeps the loop invariant. */
  lemma RowsSoFarStep(transitions: Table, rows: seq<seq<string>>, order: seq<Key>, rest: set<Key>, key: Key)
    requires RowsSoFar(transitions, rows, order, rest)
    requires key in rest && rest <= transitions.Keys
    ensures RowsSoFar(transitions, rows + [Row(|rows|, key, transitions[key])], order + [key], rest - {key})
  {
  }

  /**
   Rows built one per key of `order`, a list of the table's keys without
   repetition that leaves none out, are the display the table promises.
   */
  lemma RowsCoverTable(transitions: Table, rows: seq<seq<string>>, order: seq<Key>)
    requires |rows| == |order| + 1
    requires forall j :: 0 <= j < |order| ==> order[j] in transitions
    requires forall j :: 1 <= j < |rows| ==> rows[j] == Row(j, order[j - 1], transitions[order[j - 1]])
    requires forall j1, j2 :: 0 <= j1 < j2 < |order| ==> order[j1] != order[j2]
    requires forall k :: k in transitions ==> k in order
    ensures forall j :: 1 <= j < |rows| ==>
      |rows[j]| == 6 && RowKey(rows[j]) in transitions &&
      rows[j] == Row(j, RowKey(rows[j]), transitions[RowKey(rows[j])])
    ensures forall j1, j2 :: 1 <= j1 < j2 < |rows| ==> RowKey(rows[j1]) != RowKey(rows[j2])
    ensures forall k :: k in transitions ==> exists j :: 1 <= j < |rows| && RowKey(rows[j]) == k
  {
    forall j | 1 <= j < |rows| ensures RowKey(rows[j]) == order[j - 1] {
    }
    forall k | k in transitions ensures exists j :: 1 <= j < |rows| && RowKey(rows[j]) == k {
      var m :| 0 <= m < |order| && order[m] == k;
      assert RowKey(rows[m + 1]) == k;
    }
  }

  class Machine {
    var tape: Tape
    var transitions: Table
    var currentState: string
    var isFinished: bool

    function Snapshot(): Config
      reads this, tape
    {
      Config(tape.View(), currentState, isFinished)
    }

    ghost predicate Valid()
      reads this, tape
    {
      tape.Valid()
    }

    /** Decodes `sequence` into the initial tape and the transition table; starts in "q1", not finished. */
    constructor (sequence: string)
      ensures Snapshot() == Initial(sequence) && transitions == DecodeTable(sequence)
      ensures fresh(tape) && Valid()
    {
      var parts := SplitN(sequence, "111", 2);
      var programPart := parts[0];
      var tapePart := "";
      if |parts| > 1 {
        tapePart := parts[1];
      }
      assert (programPart, tapePart) == SplitProgram(sequence);
      var t := new Tape(Explode(tapePart));

      var table := DecodeTransitions(Split(programPart, "11"));
      assert Split(programPart, "11") == SplitRecords(sequence);
      assert t.View() == DecodeTape(sequence);

      tape := t;
      transitions := table;
      currentState := InitialState;
      isFinished := false;
    }

    method Step()
      modifies this, tape
      ensures tape == old(tape) && transitions == old(transitions)
      ensures Snapshot() == Next(transitions, old(Snapshot()))
      ensures old(Valid()) ==> Valid()
    {
      if isFinished {
        return;
      }
      var key := Key(currentState, tape.Read());
      if key !in transitions {
        isFinished := true;
        return;
      }
      var transition := transitions[key];
      tape.Write(transition.writeSymbol);
      if transition.move == "L" {
        tape.MoveLeft();
      } else if transition.move == "R" {
        tape.MoveRight();
      }
      currentState := transition.toState;
    }

    function IsAccepting(): (accepting: bool)
      reads this, tape
      ensures accepting <==> currentState == AcceptingState
      ensures accepting <==> Accepting(Snapshot())
    {
      currentState == "q2"
    }

    /**
     The transitions as display rows: the header first, then one numbered row
     per entry of the table, every entry exactly once, in no promised order.
     */
    method TransitionsTable() returns (rows: seq<seq<string>>)
      ensures |rows| == |transitions| + 1 && rows[0] == Header
      ensures forall j :: 1 <= j < |rows| ==>
        |rows[j]| == 6 && RowKey(rows[j]) in transitions &&
        rows[j] == Row(j, RowKey(rows[j]), transitions[RowKey(rows[j])])
      ensures forall j1, j2 :: 1 <= j1 < j2 < |rows| ==> RowKey(rows[j1]) != RowKey(rows[j2])
      ensures forall k :: k in transitions ==> exists j :: 1 <= j < |rows| && RowKey(rows[j]) == k
    {
      rows := [Header];
      var rest := transitions.Keys;
      ghost var order: seq<Key> := [];
      while rest != {}
        invariant rest <= transitions.Keys
        invariant |rows| == |order| + 1 && rows[0] == Header
        invariant |order| + |rest| == |transitions.Keys|
        invariant RowsSoFar(transitions, rows, order, rest)
        decreases |rest|
      {
        var key :| key in rest;
        RowsSoFarStep(transitions, rows, order, rest, key);
        rows := rows + [Row(|rows|, key, transitions[key])];
        order := order + [key];
        rest := rest - {key};
      }
      assert rest == {};
      RowsCoverTable(transitions, rows, order);
    }

    /**
     Steps while the budget lasts and the machine is not finished.  The
     result is exactly `maxSteps` steps, since steps of a finished machine
     change nothing.
     */
    method Run(maxSteps: nat)
      modifies this, tape
      ensures tape == old(tape) && transitions == old(transitions)
      ensures Snapshot() == StepN(transitions, old(Snapshot()), maxSteps)
    {
      var budget := maxSteps;
      while budget > 0 && !isFinished
        invariant tape == old(tape) && transitions == old(transitions)
        invariant StepN(transitions, Snapshot(), budget) == StepN(transitions, old(Snapshot()), maxSteps)
        decreases budget
      {
        Step();
        budget := budget - 1;
      }
      if budget > 0 {
        FinishedIsAbsorbing(transitions, Snapshot(), budget);
      }
    }
  }
}
