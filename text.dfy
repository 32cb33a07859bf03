/**
 The string operations the decoder relies on, written out as Dafny functions:
 searching for a separator, `Split` and `SplitN` with Go's left-to-right,
 non-overlapping semantics, splitting into one-character strings, and the
 decimal rendering of a natural number (`strconv.Itoa` on non-negative values).
 */
module Text {

  datatype Option<T> = None | Some(value: T)

  // ---------------------------------------------------------------------------
  // Searching for a separator
  // ---------------------------------------------------------------------------

  /** `sep` occurs in `s` starting at index `j`. */
  predicate OccursAt(s: string, sep: string, j: int)
  {
    0 <= j && j + |sep| <= |s| && s[j..j + |sep|] == sep
  }

  /** The leftmost occurrence of `sep` in `s` at or after index `i`. */
  function IndexFrom(s: string, sep: string, i: nat): (r: Option<nat>)
    requires i <= |s|
    ensures r.Some? ==> i <= r.value && OccursAt(s, sep, r.value)
    ensures r.Some? ==> forall j :: i <= j < r.value ==> !OccursAt(s, sep, j)
    ensures r.None? ==> forall j :: i <= j ==> !OccursAt(s, sep, j)
    decreases |s| - i
  {
    if i + |sep| > |s| then None
    else if s[i..i + |sep|] == sep then Some(i)
    else IndexFrom(s, sep, i + 1)
  }

  /** The leftmost occurrence of `sep` in `s` (Go's `strings.Index`). */
  function Index(s: string, sep: string): (r: Option<nat>)
    ensures r.Some? ==> OccursAt(s, sep, r.value)
    ensures r.Some? ==> forall j :: 0 <= j < r.value ==> !OccursAt(s, sep, j)
    ensures r.None? ==> forall j :: !OccursAt(s, sep, j)
  {
    IndexFrom(s, sep, 0)
  }

  /** Concatenation of `pieces` with `sep` between consecutive pieces (Go's `strings.Join`). */
  function Join(pieces: seq<string>, sep: string): string
  {
    if |pieces| == 0 then ""
    else if |pieces| == 1 then pieces[0]
    else pieces[0] + sep + Join(pieces[1..], sep)
  }

  lemma JoinCons(first: string, rest: seq<string>, sep: string)
    requires |rest| >= 1
    ensures Join([first] + rest, sep) == first + sep + Join(rest, sep)
  {
    assert ([first] + rest)[1..] == rest;
  }

  /**
   Cutting `s` at its leftmost occurrence of `sep` leaves a prefix free of
   `sep`, and the prefix, the separator and the remainder make up `s`.
   */
  lemma CutAtOccurrence(s: string, sep: string, i: nat)
    requires |sep| > 0 && Index(s, sep) == Some(i)
    ensures Index(s[..i], sep).None?
    ensures s == s[..i] + sep + s[i + |sep|..]
  {
    forall j | OccursAt(s[..i], sep, j) ensures false {
      assert s[..i][j..j + |sep|] == s[j..j + |sep|];
      assert OccursAt(s, sep, j);
    }
    assert s[i..i + |sep|] == sep;
    assert s == s[..i] + s[i..i + |sep|] + s[i + |sep|..];
  }

  /**
   No occurrence of `sep` starts inside `piece` when `sep` follows it: a cut
   right after `piece` is at the leftmost occurrence of `sep`.
   */
  predicate LeftmostCut(piece: string, sep: string)
  {
    forall j :: 0 <= j < |piece| ==> !OccursAt(piece + sep, sep, j)
  }

  /** The prefix before the leftmost occurrence ends in a leftmost cut. */
  lemma CutIsLeftmost(s: string, sep: string, i: nat)
    requires |sep| > 0 && Index(s, sep) == Some(i)
    ensures LeftmostCut(s[..i], sep)
  {
    assert s[..i] + sep == s[..i + |sep|];
    forall j | 0 <= j < i ensures !OccursAt(s[..i] + sep, sep, j) {
      if OccursAt(s[..i] + sep, sep, j) {
        assert s[..i + |sep|][j..j + |sep|] == s[j..j + |sep|];
        assert OccursAt(s, sep, j);
      }
    }
  }

  /** A leftmost cut in front of pieces cut leftmost keeps every cut leftmost. */
  lemma ConsLeftmost(first: string, rest: seq<string>, sep: string)
    requires LeftmostCut(first, sep)
    requires forall k :: 0 <= k < |rest| - 1 ==> LeftmostCut(rest[k], sep)
    ensures forall k :: 0 <= k < |rest| ==> LeftmostCut(([first] + rest)[k], sep)
  {
    forall k | 0 < k < |rest| ensures ([first] + rest)[k] == rest[k - 1] {
    }
  }

  // ---------------------------------------------------------------------------
  // Split and SplitN
  // ---------------------------------------------------------------------------

  /**
   Go's `strings.Split(s, sep)` for a non-empty separator: cut at every
   occurrence, scanning left to right, matches never overlapping.
   */
  function Split(s: string, sep: string): (pieces: seq<string>)
    requires |sep| > 0
    ensures |pieces| >= 1
    ensures Join(pieces, sep) == s
    ensures forall k :: 0 <= k < |pieces| ==> Index(pieces[k], sep).None?
    ensures forall k :: 0 <= k < |pieces| - 1 ==> LeftmostCut(pieces[k], sep)
    decreases |s|
  {
    match Index(s, sep)
    case None => [s]
    case Some(i) =>
      var rest := Split(s[i + |sep|..], sep);
      CutAtOccurrence(s, sep, i);
      CutIsLeftmost(s, sep, i);
      ConsLeftmost(s[..i], rest, sep);
      JoinCons(s[..i], rest, sep);
      [s[..i]] + rest
  }

  /**
   Go's `strings.SplitN(s, sep, n)` for `n >= 1` and a non-empty separator:
   at most `n` pieces, the last holding the unsplit remainder.
   */
  function SplitN(s: string, sep: string, n: nat): (pieces: seq<string>)
    requires |sep| > 0 && n >= 1
    ensures 1 <= |pieces| <= n
    ensures Join(pieces, sep) == s
    ensures forall k :: 0 <= k < |pieces| && (k < |pieces| - 1 || |pieces| < n) ==> Index(pieces[k], sep).None?
    ensures forall k :: 0 <= k < |pieces| - 1 ==> LeftmostCut(pieces[k], sep)
    decreases n
  {
    if n == 1 then [s]
    else
      match Index(s, sep)
      case None => [s]
      case Some(i) =>
        var rest := SplitN(s[i + |sep|..], sep, n - 1);
        CutAtOccurrence(s, sep, i);
        CutIsLeftmost(s, sep, i);
        ConsLeftmost(s[..i], rest, sep);
        ConsPiece(s[..i], rest, sep);
        [s[..i]] + rest
  }

  /** Putting a separator-free piece in front keeps every piece but the last separator-free. */
  lemma ConsPiece(first: string, rest: seq<string>, sep: string)
    requires |rest| >= 1 && Index(first, sep).None?
    ensures var pieces := [first] + rest;
      && |pieces| == |rest| + 1
      && pieces[|pieces| - 1] == rest[|rest| - 1]
      && ((forall k :: 0 <= k < |rest| - 1 ==> Index(rest[k], sep).None?) ==>
          (forall k :: 0 <= k < |pieces| - 1 ==> Index(pieces[k], sep).None?))
      && Join(pieces, sep) == first + sep + Join(rest, sep)
  {
    JoinCons(first, rest, sep);
    var pieces := [first] + rest;
    forall k | 0 < k < |pieces| ensures pieces[k] == rest[k - 1] {
    }
  }

  /** Number of occurrences of the character `c` in `s`. */
  function CountChar(s: string, c: char): nat
  {
    multiset(s)[c]
  }

  /** With a one-character separator, an occurrence is just that character. */
  lemma OccursAtChar(s: string, c: char, j: int)
    requires 0 <= j < |s|
    ensures OccursAt(s, [c], j) <==> s[j] == c
  {
    if s[j] == c {
      assert s[j..j + 1] == [c];
    } else {
      assert s[j..j + 1][0] != c;
    }
  }

  /** Before the first occurrence of `c`, there is no `c`. */
  lemma NoCharBeforeIndex(s: string, c: char, i: nat)
    requires i <= |s|
    requires forall j :: 0 <= j < i ==> !OccursAt(s, [c], j)
    ensures CountChar(s[..i], c) == 0
  {
    forall j | 0 <= j < i ensures s[..i][j] != c {
      OccursAtChar(s, c, j);
    }
    assert c !in multiset(s[..i]);
  }

  /** Past the first occurrence of `c`, one `c` fewer remains. */
  lemma CountAtFirst(s: string, c: char, i: nat)
    requires Index(s, [c]) == Some(i)
    ensures i < |s| && CountChar(s, c) == 1 + CountChar(s[i + 1..], c)
  {
    NoCharBeforeIndex(s, c, i);
    CutAtOccurrence(s, [c], i);
    var pre, post := s[..i], s[i + 1..];
    assert multiset(s) == multiset(pre) + multiset([c]) + multiset(post) by {
      assert s == pre + [c] + post;
    }
  }

  /** One step of `SplitN` on a character consumes one occurrence of it. */
  lemma SplitNCharStep(s: string, c: char, n: nat, i: nat)
    requires n >= 2 && Index(s, [c]) == Some(i)
    ensures i < |s|
    ensures |SplitN(s, [c], n)| == 1 + |SplitN(s[i + 1..], [c], n - 1)|
    ensures CountChar(s, c) == 1 + CountChar(s[i + 1..], c)
  {
    CountAtFirst(s, c, i);
  }

  /** The number of pieces `SplitN` on a character gives: one more than the occurrences, capped at `n`. */
  function CappedPieces(count: nat, n: nat): nat
  {
    if count + 1 < n then count + 1 else n
  }

  /** With no character left to cut at, or no cut allowed, the whole string is the one piece. */
  lemma SplitNCharNone(s: string, c: char, n: nat)
    requires n >= 1 && (n == 1 || Index(s, [c]).None?)
    ensures |SplitN(s, [c], n)| == CappedPieces(CountChar(s, c), n)
  {
    assert SplitN(s, [c], n) == [s];
    if n > 1 {
      NoCharBeforeIndex(s, c, |s|);
      assert s[..|s|] == s;
    }
  }

  /** A cut at the first occurrence adds one piece and uses up one occurrence. */
  lemma SplitNCharCut(s: string, c: char, n: nat, i: nat)
    requires n >= 2 && Index(s, [c]) == Some(i)
    requires i < |s| && |SplitN(s[i + 1..], [c], n - 1)| == CappedPieces(CountChar(s[i + 1..], c), n - 1)
    ensures |SplitN(s, [c], n)| == CappedPieces(CountChar(s, c), n)
  {
    SplitNCharStep(s, c, n, i);
  }

  /**
   Splitting on a single character yields one piece more than the number of
   occurrences of that character, capped at `n`.  In particular a record
   splits into exactly five fields on "1" iff it holds at least four '1's.
   */
  lemma {:induction false} SplitNCharCount(s: string, c: char, n: nat)
    requires n >= 1
    ensures |SplitN(s, [c], n)| == CappedPieces(CountChar(s, c), n)
    decreases n
  {
    if n > 1 && Index(s, [c]).Some? {
      var i := Index(s, [c]).value;
      SplitNCharStep(s, c, n, i);
      SplitNCharCount(s[i + 1..], c, n - 1);
      SplitNCharCut(s, c, n, i);
    } else {
      SplitNCharNone(s, c, n);
    }
  }

  /** One single-character string per character, in order (Go's `strings.Split(s, "")`). */
  function Explode(s: string): (cells: seq<string>)
    ensures |cells| == |s|
    ensures forall k :: 0 <= k < |s| ==> cells[k] == [s[k]]
  {
    seq(|s|, k requires 0 <= k < |s| => [s[k]])
  }

  // ---------------------------------------------------------------------------
  // Decimal rendering of natural numbers
  // ---------------------------------------------------------------------------

  predicate IsDigit(c: char)
  {
    '0' <= c <= '9'
  }

  function DigitChar(d: nat): (c: char)
    requires d < 10
    ensures IsDigit(c) && c as int - '0' as int == d
  {
    ['0', '1', '2', '3', '4', '5', '6', '7', '8', '9'][d]
  }

  /** The number a string of decimal digits denotes, most significant digit first. */
  function DigitsValue(s: string): nat
    requires forall k :: 0 <= k < |s| ==> IsDigit(s[k])
  {
    if |s| == 0 then 0
    else
      assert IsDigit(s[|s| - 1]);
      10 * DigitsValue(s[..|s| - 1]) + (s[|s| - 1] as int - '0' as int)
  }

  /**
   The decimal form of `n` without leading zeros, as `strconv.Itoa` renders
   a non-negative `int`.
   */
  function NatToString(n: nat): (r: string)
    ensures |r| >= 1
    ensures forall k :: 0 <= k < |r| ==> IsDigit(r[k])
    ensures |r| > 1 ==> r[0] != '0'
    ensures n < 10 <==> |r| == 1
    decreases n
  {
    if n < 10 then [DigitChar(n)]
    else NatToString(n / 10) + [DigitChar(n % 10)]
  }

  /** Reading back the decimal form gives the number again. */
  lemma {:induction false} NatToStringRoundTrip(n: nat)
    ensures DigitsValue(NatToString(n)) == n
    decreases n
  {
    if n >= 10 {
      NatToStringRoundTrip(n / 10);
      var r := NatToString(n);
      assert r[..|r| - 1] == NatToString(n / 10);
    }
  }

  /** Distinct numbers have distinct decimal forms. */
  lemma NatToStringInjective(m: nat, n: nat)
    ensures NatToString(m) == NatToString(n) <==> m == n
  {
    if NatToString(m) == NatToString(n) {
      NatToStringRoundTrip(m);
      NatToStringRoundTrip(n);
    }
  }
}
