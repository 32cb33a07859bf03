# A verified model of a unary-encoded Turing machine interpreter

The interpreter reads one string of '0's and '1's that encodes a whole Turing
machine. The input is cut at its first "111". The program part is a list of
transition records separated by "11". Each record holds five fields separated
by single '1's:

- the from-state;
- the read symbol;
- the to-state;
- the write symbol;
- the move.

States and symbols are recognised by the length of their run of zeros. The
moves are "0" for left and "00" for right; any other move field means no
move. The tape part becomes the initial tape, one character per cell. The
machine starts in "q1" and halts when no transition matches its state and the
symbol under its head. It accepts when it halts in "q2".

The model has five files.

- `text.dfy` (module `Text`): Go's string operations that the decoder relies on, as Dafny functions.
  - `strings.Index`, `strings.Split` and `strings.SplitN` with Go's left-to-right, non-overlapping semantics.
  - Splitting into single characters.
  - `strconv.Itoa` on natural numbers.
- `tape.dfy` (module `Tapes`): the tape in two layers.
  - `TapeState` is a value with pure functions `Written`, `MovedLeft` and `MovedRight`. These are the specification.
  - The class `Tape` updates `content` and `headPosition` in place, as the Go methods do. Each method is proved to produce exactly what the matching function gives.
  - A ghost `origin` field counts the blanks prepended on the left. This gives every cell a stable logical position.
- `machine.dfy` (module `Machines`): the decoder, the step relation and the class `Machine`.
  - Decoding: `DecodeRecord`, `BuildTable`, `DecodeTable` and `DecodeTape`.
  - Stepping: `Next` and `StepN`.
  - The class `Machine` holds the tape, the table, the state and the finished flag. Its constructor, `Step` and `Run` are proved against the functions above.
  - Go keys the table with the text `state + "," + symbol`. The model keys it with a pair. `KeyStringInjective` and `KeySplit` show the two are interchangeable when no state or symbol holds a comma. `DecodeTableCommaFree` and `StepNStateCommaFree` show that this holds for every decoded table and every reachable state, and `TextKeysAgree` draws the conclusion.
- `encoding.dfy` (module `Encoding`): the encoding written forward, as the decoder's inverse. `DecodeEncodeRoundTrip` proves that decoding an encoded list of well-formed rules gives back their table. When two rules have the same key, the later one wins. The lemma also proves that decoding gives back the tape.
- `examples.dfy` (module `MachineExamples`): three concrete inputs decoded and run.
  - An empty program.
  - A one-rule machine that accepts.
  - The same machine retargeted to "q3", which halts without accepting.

The model follows the code on two points that a reader might not expect.

- `Write` with the head left of the tape prepends exactly one blank and puts the head on it. The loop at tape.go:34-37 runs at most once.
- A symbol field of length 0 decodes to "0", like a field of length 1. `ParseSymbolTable` states this. Inside a record the symbol fields are never empty, because a record holds no "11".

## Model

| member | source | states |
|---|---|---|
| Text.Index | turing_machine.go:19 | the result is the leftmost occurrence of the separator; none means it occurs nowhere |
| Text.Split | turing_machine.go:31 | at least one piece; rejoining the pieces with the separator gives the input back; no piece contains the separator; every cut is at the leftmost occurrence of the separator in what remains, so no occurrence starts inside a piece followed by the separator |
| Text.SplitN | turing_machine.go:38 | between 1 and n pieces; rejoining gives the input back; every piece but the last is separator-free, and the last is too when fewer than n pieces came out; every cut is at the leftmost occurrence of the separator in what remains |
| Text.SplitNCharCount | turing_machine.go:38-39 | splitting on one character gives (occurrences + 1) pieces, capped at n; so a record has five fields iff it holds at least four '1's |
| Text.Explode | turing_machine.go:27 | one single-character string per character, in order |
| Text.NatToString | turing_machine.go:124 | a non-empty string of decimal digits with no leading zero; it has one digit exactly when the number is below 10 |
| Text.NatToStringRoundTrip | turing_machine.go:124 | reading the decimal form back gives the number |
| Text.NatToStringInjective | turing_machine.go:124 | two numbers have the same decimal form iff they are equal |
| Tapes.TapeState.Read | tape.go:21-26 | the symbol at the head; a blank when the head is outside the stored cells |
| Tapes.FromContent | tape.go:10-18 | a valid tape with the head at 0 holding the given cells, or a single blank for no cells |
| Tapes.Written | tape.go:29-39 | the result is valid and reads the written symbol; a head right of the cells grows the tape and keeps the head; a head left of them prepends the symbol and shifts every other cell by one; no other cell changes |
| Tapes.MovedLeft | tape.go:42-49 | every cell keeps its symbol, shifted right by one exactly when the head leaves index 0; the head lands one cell left; validity is preserved |
| Tapes.MovedRight | tape.go:52-58 | no cell changes and the old cells stay a prefix; the head advances by one; one blank is appended exactly when the head passes the end |
| Tapes.MovesKeepCells | tape.go:42-58 | any sequence of moves keeps the tape valid; measured from a fixed logical origin that follows the blanks prepended on the left, every symbol stays at its position and the head moves by the net displacement |
| Tapes.WriteThenReturnReads | tape.go:29-58 | after a write, any moves with zero net displacement lead back to the written symbol |
| Tapes.LeftRightRestoresRead | tape.go:42-58 | left then right, or right then left, reads the original symbol |
| Tapes.Tape.constructor | tape.go:10-18 | the new tape equals `FromContent` of its argument and is valid |
| Tapes.Tape.Read | tape.go:21-26 | the symbol at the head's logical position; a blank outside the cells |
| Tapes.Tape.Write | tape.go:29-39 | the new state equals `Written` of the old one; afterwards the tape is valid and reads the symbol; on a valid tape every other logical cell and the head's logical position are unchanged |
| Tapes.Tape.MoveLeft | tape.go:42-49 | the new state equals `MovedLeft` of the old one; every logical cell is unchanged; the logical head moves left by one; validity is kept |
| Tapes.Tape.MoveRight | tape.go:52-58 | the new state equals `MovedRight` of the old one; every logical cell is unchanged; the logical head moves right by one; validity is kept |
| Machines.ParseState | turing_machine.go:123-125 | "q" followed by the decimal form of the field's length: digits whose value is the length, no leading zero, no comma |
| Machines.ParseStateByLength | turing_machine.go:123-125 | two state fields decode to the same state iff they have the same length |
| Machines.ParseSymbol | turing_machine.go:127-138 | a non-empty symbol with no comma |
| Machines.ParseSymbolTable | turing_machine.go:127-138 | lengths 1, 2 and 3 give "0", "1" and "_"; every other length, 0 included, gives its decimal form, so the empty field gives "0"; non-empty fields decode to the same symbol iff they have the same length |
| Machines.ParseMove | turing_machine.go:140-147 | the result is "L", "R" or "X"; it is "L" iff the field is "0" and "R" iff the field is "00" |
| Machines.KeyStringInjective | turing_machine.go:50 | the textual key "state,symbol" determines the pair and is determined by it |
| Machines.KeySplit | turing_machine.go:106-110 | splitting the textual key on "," gives exactly the state and the symbol |
| Machines.DecodeRecordDefined | turing_machine.go:33-51 | `DecodeRecord`: a record yields an entry iff it holds at least four '1's; empty records and records with fewer fields are skipped |
| Machines.DecodedEntryShape | turing_machine.go:44-51 | `DecodeRecord`: a decoded entry's states and symbols hold no comma, and its move is "L", "R" or "X" |
| Machines.AddRecord | turing_machine.go:34-51 | one pass of the decoding loop: an empty or malformed record leaves the table as it was; otherwise the record's key is bound to its transition, replacing any earlier binding, and nothing else changes |
| Machines.DecodeRecords | turing_machine.go:33 | one entry per record, in order |
| Machines.BuildTableHas | turing_machine.go:30-52 | `BuildTable`: a key is in the table iff some record's entry is for it |
| Machines.BuildTableLastWins | turing_machine.go:50-51 | `BuildTable`: a key maps to the transition of the last entry for it; no later entry mentions it |
| Machines.SplitProgram | turing_machine.go:19-25 | the input is cut at its first "111"; without one, the whole input is the program and the tape part is empty |
| Machines.DecodeTapeContents | turing_machine.go:27-28 | `DecodeTape`: the initial tape holds the characters after the first "111", with the head on the first; it is a single blank when nothing follows or there is no separator |
| Machines.SplitRecordsRejoin | turing_machine.go:19-31 | `SplitRecords`: the program part holds no "111"; rejoining the records with "11" gives it back; no record holds "11" |
| Machines.DecodeTableCommaFree | turing_machine.go:30-52 | `DecodeTable`: every key of the decoded table, and every state it leads to, is free of commas |
| Machines.DecodeTransitions | turing_machine.go:30-52 | the loop builds exactly `BuildTable` of the decoded records |
| Machines.Initial | turing_machine.go:54-59 | the machine starts in "q1", not finished and not accepting, on a valid tape with the head at 0 |
| Machines.Moving | turing_machine.go:82-86 | "L" moves the head by -1, "R" by +1, any other code not at all; every cell keeps its symbol, re-indexed by one when a move left prepends a blank; validity is kept |
| Machines.Next | turing_machine.go:63-89 | a finished machine is unchanged; with no matching transition the machine finishes with state and tape untouched; otherwise it is not finished and takes the transition's state; tape validity is kept |
| Machines.NextApplies | turing_machine.go:76-88 | a step writes the symbol under the head and leaves every other cell, re-indexed by a left shift; the head moves by -1, +1 or 0 for "L", "R" and anything else |
| Machines.FinishedIsAbsorbing | turing_machine.go:64-66 | `StepN`: any number of steps leaves a finished machine exactly as it is |
| Machines.StepNAdditive | turing_machine.go:63-89 | `StepN`: m steps and then n steps are m + n steps |
| Machines.StaysFinished | turing_machine.go:64-66 | once finished after m steps, the configuration after any n >= m steps is the same |
| Machines.StepNKeepsTapeValid | turing_machine.go:63-89 | every reachable tape is non-empty with the head inside |
| Machines.StepNStateCommaFree | turing_machine.go:63-89 | steps driven by a comma-free table keep the current state comma-free |
| Machines.TextKeysAgree | turing_machine.go:50-69 | in every configuration reachable from a decoded input, the textual key "state,symbol" matches a table key's text iff the pairs are equal, so keying by pairs finds the same transition |
| Machines.Machine.constructor | turing_machine.go:18-60 | the new machine's configuration is `Initial` of the input and its table is `DecodeTable` of the input |
| Machines.Machine.Step | turing_machine.go:63-89 | the new configuration is `Next` of the old one; the table and the tape object are unchanged; tape validity is kept |
| Machines.Machine.IsAccepting | turing_machine.go:92-94 | true iff the current state is "q2", that is, iff the configuration satisfies `Accepting` |
| Machines.Machine.TransitionsTable | turing_machine.go:97-120 | the header row, then one row per table entry: rows are numbered from 1, each key appears exactly once, and every key is present |
| Machines.Machine.Run | ui.go:235-243 | stepping while the budget lasts and the machine is not finished ends exactly at `StepN` of the budget |
| Encoding.EncodeRuleShape | turing_machine.go:31 | a well-formed encoded rule starts and ends with '0' and holds no "11" |
| Encoding.EncodeRuleFields | turing_machine.go:38 | an encoded rule splits on "1" into its five fields |
| Encoding.DecodeRecordRoundTrip | turing_machine.go:38-51 | decoding an encoded rule gives back that rule's entry |
| Encoding.SplitJoinRoundTrip | turing_machine.go:31 | clean records joined by "11" split on "11" back into the same records |
| Encoding.SplitProgramOfEncode | turing_machine.go:19-25 | an encoded input is cut exactly between the joined rules and the tape text |
| Encoding.DecodeProgramRoundTrip | turing_machine.go:30-52 | a non-empty encoded program decodes to one entry per rule, in order |
| Encoding.DecodeEncodeRoundTrip | turing_machine.go:18-60 | decoding an encoded input gives the rules' table, the later rule winning on a repeated key; it also gives the tape text, one character per cell |
| MachineExamples.EmptyProgramHalts | turing_machine.go:63-74 | "1110" has an empty table and the tape "0"; the first step halts in "q1", which does not accept |
| MachineExamples.ShortRuns | turing_machine.go:123-147 | runs of one, two and three zeros decode to "q1", "q2" and "q3"; as symbols, one and two zeros give "0" and "1"; "00" is a right move |
| MachineExamples.OneRuleTable | turing_machine.go:30-52 | a one-rule program decodes to a one-entry table |
| MachineExamples.TapeZeroStart | turing_machine.go:54-59 | an encoded program followed by "0" starts in "q1" on the single cell "0" |
| MachineExamples.OneRuleRun | turing_machine.go:63-89 | the one-rule machine writes "1", moves right onto a fresh blank, then halts in its target state |
| MachineExamples.OneRuleInputs | turing_machine.go:19-51 | the two one-rule inputs spelled out as strings |
| MachineExamples.OneRuleAccepts | turing_machine.go:92-94 | "0101001001001110" halts after two steps in "q2", which accepts |
| MachineExamples.OneRuleRejects | turing_machine.go:92-94 | "01010001001001110" halts after two steps in "q3", which does not accept |

## Left out

- The terminal user interface in ui.go is not part of this model: layout, styles, key handling, timers and the table widget. The step budget in ui.go:235-243 is modelled, as `Machines.Machine.Run`.
- The diagnostic `fmt.Println` for a malformed record (turing_machine.go:40) is output only. The model skips the record, as the code does.
- Machines.Machine.TransitionsTable: does not fix the order of the data rows, because Go's map iteration order is unspecified. It states the set of rows and their numbering.
- Aliasing between the slice passed to `NewTape` and the tape's own content is not modelled. The tape holds a value sequence.
- Go's `strings.Split(s, "")` splits into UTF-8 code points, and Go's `len` counts bytes. The model splits into characters and counts every field length (in `ParseState`, `ParseSymbol`, `ParseStateByLength`, `ParseSymbolTable`) in characters. Both agree with Go only on ASCII input; the encoding's alphabet is '0' and '1'. On a field such as "é", Go's `parseState` gives "q2" and the model gives "q1".
- Go's `int` is 64 bits wide. Head positions and field lengths are unbounded here; overflow needs inputs far beyond any realistic size.
- The `[]string{toState, writeSymbol, move}` triples of the source are a `Transition` record in the model, and the textual key is a `Key` pair. `KeyStringInjective` and `KeySplit` justify both choices.
