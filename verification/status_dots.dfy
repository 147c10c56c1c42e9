/** The row of status dots showing how much of the PIN has been entered. A
    dot is only its filled/empty state. */
module StatusDots {
  import opened Pin

  datatype Dots = Dots(filled: seq<bool>)

  /** The dots from index `i` to the end of the row, for a PIN of `length`
      characters: the body of `addDots`' loop from iteration `i` on. */
  function Row(i: nat, length: int): (r: seq<bool>)
    requires i <= PinLength
    ensures |r| == PinLength - i
    ensures forall j :: 0 <= j < |r| ==> (r[j] <==> i + j < length)
    decreases PinLength - i
  {
    if i == PinLength then [] else [i < length] + Row(i + 1, length)
  }

  /** `addDots`: the earlier dots are dropped and a fresh row of PinLength
      dots is built, dot `i` filled exactly when `i < length`. */
  function AddDots(length: int): (d: Dots)
    ensures |d.filled| == PinLength
    ensures forall i :: 0 <= i < PinLength ==> (d.filled[i] <==> i < length)
  {
    Dots(Row(0, length))
  }

  /** A full row of empty dots. */
  ghost predicate AllEmpty(d: Dots)
  {
    |d.filled| == PinLength && forall i :: 0 <= i < |d.filled| ==> !d.filled[i]
  }

  /** `initialize`: whatever was shown, a row of empty dots. */
  function Initialize(d: Dots): (r: Dots)
    ensures AllEmpty(r)
  {
    AddDots(0)
  }

  /** `updateStatusDots`: whatever was shown, the row for `pinLength`. */
  function UpdateStatusDots(d: Dots, pinLength: int): (r: Dots)
    ensures |r.filled| == PinLength
    ensures forall i :: 0 <= i < PinLength ==> (r.filled[i] <==> i < pinLength)
  {
    AddDots(pinLength)
  }

  /** The dots of a freshly constructed row (its `init` block). */
  function New(): (r: Dots)
    ensures AllEmpty(r)
  {
    Initialize(Dots([]))
  }

  /** Number of filled dots. */
  function FilledCount(s: seq<bool>): nat
  {
    if |s| == 0 then 0 else (if s[0] then 1 else 0) + FilledCount(s[1..])
  }

  function Clamp(n: int, lo: int, hi: int): int
    requires lo <= hi
  {
    if n < lo then lo else if n > hi then hi else n
  }

  lemma {:induction false} RowFilledCount(i: nat, length: int)
    requires i <= PinLength
    ensures FilledCount(Row(i, length)) == Clamp(length - i, 0, PinLength - i)
    decreases PinLength - i
  {
    if i < PinLength {
      RowFilledCount(i + 1, length);
      assert Row(i, length)[1..] == Row(i + 1, length);
    }
  }

  /** The number of filled dots is the reported length clamped to 0..PinLength. */
  lemma FilledCountIsClampedLength(length: int)
    ensures FilledCount(AddDots(length).filled) == Clamp(length, 0, PinLength)
  {
    RowFilledCount(0, length);
  }

  /** Earlier updates leave no trace: only the last one decides the row, and
      it equals a fresh `addDots` for that length. */
  lemma LastUpdateWins(d: Dots, e: Dots, m: int, n: int)
    ensures UpdateStatusDots(UpdateStatusDots(d, m), n) == UpdateStatusDots(e, n) == AddDots(n)
  {
  }

  /** Resetting is the update for length 0. */
  lemma InitializeIsUpdateToZero(d: Dots)
    ensures Initialize(d) == UpdateStatusDots(d, 0)
  {
  }
}
