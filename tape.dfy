/**
 The machine's tape: a growable sequence of symbol strings with a head index.
 Cells outside the sequence read as the blank "_"; moving past either end
 grows the sequence by one blank, and growing on the left re-indexes every
 stored cell by one.

 `TapeState` is the value view of a tape and the functions on it are the
 specification; the class `Tape` updates its fields in place and each of its
 methods is proved to produce exactly the value the matching function gives.
 */
module Tapes {

  const Blank: string := "_"

  /** `n` blank cells. */
  function Blanks(n: nat): (cells: seq<string>)
    ensures |cells| == n && forall k :: 0 <= k < n ==> cells[k] == Blank
  {
    seq(n, _ => Blank)
  }

  /** The stored cells and the head index of a tape. */
  datatype TapeState = TapeState(content: seq<string>, head: int)
  {
    /** The invariant every reachable tape keeps: a non-empty sequence with the head inside it. */
    predicate Valid()
    {
      |content| >= 1 && 0 <= head < |content|
    }

    /** The symbol stored at index `i`, or a blank when `i` is outside the stored cells. */
    function At(i: int): string
    {
      if 0 <= i < |content| then content[i] else Blank
    }

    /** The symbol under the head. */
    function Read(): (s: string)
      ensures s == At(head)
      ensures !(0 <= head < |content|) ==> s == Blank
      ensures Valid() ==> s == content[head]
    {
      if head < 0 || head >= |content| then Blank else content[head]
    }
  }

  /** A new tape over `content`, with the head on its first cell; an empty content becomes one blank. */
  function FromContent(content: seq<string>): (t: TapeState)
    ensures t.Valid() && t.head == 0
    ensures content != [] ==> t.content == content
    ensures content == [] ==> t.content == [Blank]
  {
    TapeState(if |content| == 0 then [Blank] else content, 0)
  }

  /**
   The tape after writing `s` under the head.  A head right of the stored
   cells first grows the tape with blanks up to the head; a head left of them
   prepends one blank and moves the head onto it.  Either way the head ends
   inside the tape on a cell holding `s`.
   */
  function Written(t: TapeState, s: string): (r: TapeState)
    ensures r.Valid() && r.Read() == s
    ensures t.Valid() ==> r.head == t.head && |r.content| == |t.content|
    ensures t.Valid() ==> forall i :: i != t.head ==> r.At(i) == t.At(i)
    ensures t.head >= 0 ==> r.head == t.head && forall i :: i != t.head ==> r.At(i) == t.At(i)
    ensures t.head < 0 ==> r.head == 0 && forall i :: r.At(i) == (if i == 0 then s else t.At(i - 1))
  {
    if t.head >= |t.content| then
      TapeState(t.content + Blanks(t.head - |t.content|) + [s], t.head)
    else if t.head < 0 then
      TapeState([s] + t.content, 0)
    else
      TapeState(t.content[t.head := s], t.head)
  }

  /** How many blanks a move left prepends: one when the head leaves index 0. */
  function LeftShift(t: TapeState): nat
  {
    if t.head - 1 < 0 then 1 else 0
  }

  /**
   The tape after moving the head one cell left.  Every stored cell keeps its
   symbol, shifted by `LeftShift(t)`; the head lands on the cell left of where
   it was.
   */
  function MovedLeft(t: TapeState): (r: TapeState)
    ensures forall i :: r.At(i) == t.At(i - LeftShift(t))
    ensures t.head >= 0 ==> r.head == t.head - 1 + LeftShift(t)
    ensures t.head < 0 ==> r.head == 0
    ensures |r.content| == |t.content| + LeftShift(t)
    ensures t.Valid() ==> r.Valid()
  {
    if t.head - 1 < 0 then TapeState([Blank] + t.content, 0)
    else TapeState(t.content, t.head - 1)
  }

  /**
   The tape after moving the head one cell right.  No cell changes; one blank
   is appended exactly when the new head is not inside the stored cells.
   */
  function MovedRight(t: TapeState): (r: TapeState)
    ensures forall i :: r.At(i) == t.At(i)
    ensures r.head == t.head + 1
    ensures |r.content| == |t.content| + (if t.head + 1 >= |t.content| then 1 else 0)
    ensures r.content[..|t.content|] == t.content
    ensures t.Valid() ==> r.Valid()
  {
    if t.head + 1 >= |t.content| then TapeState(t.content + [Blank], t.head + 1)
    else TapeState(t.content, t.head + 1)
  }

  // ---------------------------------------------------------------------------
  // Sequences of moves: the logical contents never change
  // ---------------------------------------------------------------------------

  datatype Direction = Left | Right

  function Moved(t: TapeState, d: Direction): TapeState
  {
    match d
    case Left => MovedLeft(t)
    case Right => MovedRight(t)
  }

  /** How far one move re-indexes the stored cells. */
  function Shift(t: TapeState, d: Direction): nat
  {
    if d == Left then LeftShift(t) else 0
  }

  function Displacement(d: Direction): int
  {
    if d == Left then -1 else 1
  }

  /** Net displacement of the head: rights minus lefts. */
  function Net(ds: seq<Direction>): int
    decreases |ds|
  {
    if ds == [] then 0 else Displacement(ds[0]) + Net(ds[1..])
  }

  /**
   A tape together with the stored index of a fixed logical position 0; the
   index grows by one with every blank a move prepends, so `Cell(x)` names
   the same cell before and after any move.
   */
  datatype Anchored = Anchored(tape: TapeState, origin: int)
  {
    function Cell(x: int): string
    {
      tape.At(x + origin)
    }

    function LogicalHead(): int
    {
      tape.head - origin
    }
  }

  function Walked(a: Anchored, d: Direction): Anchored
  {
    Anchored(Moved(a.tape, d), a.origin + Shift(a.tape, d))
  }

  /** The anchored tape after the moves `ds`, applied first to last. */
  function WalkedAll(a: Anchored, ds: seq<Direction>): Anchored
    decreases |ds|
  {
    if ds == [] then a else WalkedAll(Walked(a, ds[0]), ds[1..])
  }

  /** One move keeps a valid tape valid, keeps every logical cell, and moves the logical head by one. */
  lemma WalkedKeepsCell(a: Anchored, d: Direction, x: int)
    requires a.tape.Valid()
    ensures Walked(a, d).tape.Valid()
    ensures Walked(a, d).Cell(x) == a.Cell(x)
    ensures Walked(a, d).LogicalHead() == a.LogicalHead() + Displacement(d)
  {
    if d == Left {
      assert MovedLeft(a.tape).At(x + a.origin + LeftShift(a.tape)) == a.tape.At(x + a.origin);
    }
  }

  /**
   Any sequence of moves keeps a valid tape valid, keeps the symbol at every
   logical position, and moves the logical head by the net displacement.
   */
  lemma {:induction false} MovesKeepCells(a: Anchored, ds: seq<Direction>, x: int)
    requires a.tape.Valid()
    ensures WalkedAll(a, ds).tape.Valid()
    ensures WalkedAll(a, ds).Cell(x) == a.Cell(x)
    ensures WalkedAll(a, ds).LogicalHead() == a.LogicalHead() + Net(ds)
    decreases |ds|
  {
    if ds != [] {
      WalkedKeepsCell(a, ds[0], x);
      MovesKeepCells(Walked(a, ds[0]), ds[1..], x);
    }
  }

  /**
   Writing a symbol, then moving away and back (any moves whose net
   displacement is zero), reads back the written symbol.
   */
  lemma WriteThenReturnReads(t: TapeState, s: string, ds: seq<Direction>)
    requires t.Valid() && Net(ds) == 0
    ensures WalkedAll(Anchored(Written(t, s), 0), ds).tape.Read() == s
  {
    var a := Anchored(Written(t, s), 0);
    var b := WalkedAll(a, ds);
    MovesKeepCells(a, ds, a.LogicalHead());
    assert b.tape.Read() == b.Cell(b.LogicalHead());
  }

  lemma LeftThenRightReads(t: TapeState)
    requires t.Valid()
    ensures MovedRight(MovedLeft(t)).Read() == t.Read()
  {
    var l := MovedLeft(t);
    var lr := MovedRight(l);
    assert lr.head == t.head + LeftShift(t);
    assert lr.At(lr.head) == l.At(lr.head) == t.At(t.head);
  }

  lemma RightThenLeftReads(t: TapeState)
    requires t.Valid()
    ensures MovedLeft(MovedRight(t)).Read() == t.Read()
  {
    var r := MovedRight(t);
    var rl := MovedLeft(r);
    assert LeftShift(r) == 0 && rl.head == t.head;
    assert rl.At(rl.head) == r.At(rl.head) == t.At(t.head);
  }

  /** A move left followed by a move right, or the reverse, reads the original symbol. */
  lemma LeftRightRestoresRead(t: TapeState)
    requires t.Valid()
    ensures MovedRight(MovedLeft(t)).Read() == t.Read()
    ensures MovedLeft(MovedRight(t)).Read() == t.Read()
  {
    LeftThenRightReads(t);
    RightThenLeftReads(t);
  }

  // ---------------------------------------------------------------------------
  // The tape object
  // ---------------------------------------------------------------------------

  class Tape {
    var content: seq<string>
    var headPosition: int
    /** The stored index of the first cell of the initial content; grows by one with each prepended blank. */
    ghost var origin: int

    function View(): TapeState
      reads this
    {
      TapeState(content, headPosition)
    }

    ghost predicate Valid()
      reads this
    {
      View().Valid()
    }

    /** The symbol at logical position `p`, counted from the first cell of the initial content. */
    ghost function Cell(p: int): string
      reads this
    {
      View().At(p + origin)
    }

    /** The head's logical position. */
    ghost function LogicalHead(): int
      reads this
    {
      headPosition - origin
    }

    constructor (initial: seq<string>)
      ensures View() == FromContent(initial) && Valid()
      ensures origin == 0
    {
      var cells := initial;
      if |cells| == 0 {
        cells := [Blank];
      }
      content := cells;
      headPosition := 0;
      origin := 0;
    }

    /** The symbol under the head; a blank when the head is outside the stored cells. */
    function Read(): (s: string)
      reads this
      ensures s == Cell(LogicalHead())
      ensures !(0 <= headPosition < |content|) ==> s == Blank
      ensures Valid() ==> s == content[headPosition]
    {
      if headPosition < 0 || headPosition >= |content| then Blank else content[headPosition]
    }

    method Write(symbol: string)
      modifies this
      ensures View() == Written(old(View()), symbol)
      ensures Valid() && Read() == symbol
      ensures old(Valid()) ==> origin == old(origin) && LogicalHead() == old(LogicalHead())
      ensures old(Valid()) ==> forall p :: p != LogicalHead() ==> Cell(p) == old(Cell(p))
    {
      while headPosition >= |content|
        invariant headPosition == old(headPosition) && origin == old(origin)
        invariant |old(content)| <= |content| <= (if headPosition >= |old(content)| then headPosition + 1 else |old(content)|)
        invariant content == old(content) + Blanks(|content| - |old(content)|)
        decreases headPosition - |content|
      {
        content := content + [Blank];
      }
      while headPosition < 0
        invariant old(headPosition) < 0 ==>
          (headPosition == old(headPosition) && content == old(content) && origin == old(origin)) ||
          (headPosition == 0 && content == [Blank] + old(content) && origin == old(origin) + 1)
        invariant old(headPosition) >= 0 ==>
          headPosition == old(headPosition) && origin == old(origin) &&
          |old(content)| <= |content| && content == old(content) + Blanks(|content| - |old(content)|) &&
          |content| == (if headPosition >= |old(content)| then headPosition + 1 else |old(content)|)
        decreases if headPosition < 0 then 1 else 0
      {
        content := [Blank] + content;
        headPosition := 0;
        origin := origin + 1;
      }
      ghost var before := content;
      content := content[headPosition := symbol];
      if old(headPosition) >= |old(content)| {
        assert content == old(content) + Blanks(headPosition - |old(content)|) + [symbol];
      }
    }

    method MoveLeft()
      modifies this
      ensures View() == MovedLeft(old(View()))
      ensures old(Valid()) ==> LogicalHead() == old(LogicalHead()) - 1
      ensures forall p :: Cell(p) == old(Cell(p))
      ensures old(Valid()) ==> Valid()
    {
      headPosition := headPosition - 1;
      if headPosition < 0 {
        content := [Blank] + content;
        headPosition := 0;
        origin := origin + 1;
      }
    }

    method MoveRight()
      modifies this
      ensures View() == MovedRight(old(View()))
      ensures LogicalHead() == old(LogicalHead()) + 1 && origin == old(origin)
      ensures forall p :: Cell(p) == old(Cell(p))
      ensures old(Valid()) ==> Valid()
    {
      headPosition := headPosition + 1;
      if headPosition >= |content| {
        content := content + [Blank];
      }
    }
  }
}
