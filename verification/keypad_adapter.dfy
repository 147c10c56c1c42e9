/** The keypad's adapter: the eleven grid positions, the label and item id of
    each, and the click listener that feeds the accumulator and notifies the
    listener. */
module KeypadAdapter {
  import opened Wrappers
  import opened Pin
  import opened PinListener
  import opened Keypad

  /** `getCount`: the number of grid positions. */
  function GetCount(): nat
  {
    11
  }

  /** The one-character text of the decimal digit `d`. */
  function DigitText(d: int): string
    requires 0 <= d <= 9
  {
    [('0' as int + d) as char]
  }

  /** `getItemId` for a position the grid asks about. */
  function GetItemId(position: int): (id: int)
    requires 0 <= position < GetCount()
    ensures 0 <= id <= 9
    ensures id == 0 <==> position == 9 || position == 10
    ensures position <= 8 ==> id == position + 1
  {
    if position == 10 then 0 else (position + 1) % 10
  }

  /** `setValues`: the text a position's button shows, or `None` for the
      position whose button is made invisible. */
  function KeyLabel(position: int): (r: Option<string>)
    requires 0 <= position < GetCount()
    ensures r.None? <==> position == 9
    ensures position <= 8 ==> r == Some(DigitText(position + 1))
    ensures position == 10 ==> r == Some("0")
  {
    if position == 10 then Some("0")
    else if position == 9 then None
    else Some(DigitText((position + 1) % 10))
  }

  /** The text a click at `position` hands to the listener, or `None` when
      there is no clickable button there (outside the grid, or invisible). */
  function KeyText(position: int): (r: Option<string>)
    ensures r.Some? <==> 0 <= position < GetCount() && position != 9
    ensures r.Some? ==> |r.value| == 1 && r.value == DigitText(GetItemId(position))
  {
    if 0 <= position < GetCount() then KeyLabel(position) else None
  }

  /** The layout: eleven positions; every visible one is labelled with the
      digit its item id names; position 9 is the blank and shares id 0 with
      position 10. */
  lemma KeypadLayout()
    ensures GetCount() == 11
    ensures forall p ::
              0 <= p < GetCount() && p != 9 ==> KeyLabel(p) == Some(DigitText(GetItemId(p)))
    ensures GetItemId(9) == GetItemId(10) == 0
  {
  }

  /** The visible keys carry exactly the ten decimal digits, each once. */
  lemma VisibleLabelsAreTheTenDigits()
    ensures (set p | 0 <= p < GetCount() && p != 9 :: KeyLabel(p).value)
         == (set d | 0 <= d <= 9 :: DigitText(d))
    ensures forall p, q ::
              0 <= p < GetCount() && 0 <= q < GetCount() && p != 9 && q != 9 && p != q ==>
                KeyLabel(p) != KeyLabel(q)
  {
    var labels := set p | 0 <= p < GetCount() && p != 9 :: KeyLabel(p).value;
    var digits := set d | 0 <= d <= 9 :: DigitText(d);
    forall d | 0 <= d <= 9
      ensures DigitText(d) in labels
    {
      var p := if d == 0 then 10 else d - 1;
      assert KeyLabel(p).value == DigitText(d);
    }
    forall s | s in labels
      ensures s in digits
    {
      var p :| 0 <= p < GetCount() && p != 9 && KeyLabel(p).value == s;
      assert s == DigitText(GetItemId(p));
    }
    forall p, q | 0 <= p < GetCount() && 0 <= q < GetCount() && p != 9 && q != 9 && p != q
      ensures KeyLabel(p) != KeyLabel(q)
    {
      assert KeyLabel(p).value[0] != KeyLabel(q).value[0];
    }
  }

  /** What one click leaves behind: the accumulator and the listener calls
      made, in order. */
  datatype Click = Click(buffer: PinBuffer, calls: seq<Call>)

  /** The click listener: append the key text, report the new length, and at
      the PIN length hand the whole PIN over and reset the accumulator. */
  function OnClick(b: PinBuffer, keyText: string): (r: Click)
    ensures |r.calls| == 1 || |r.calls| == 2
    ensures r.calls[0] == PinValueChange(|b.pin| + |keyText|)
    ensures |r.calls| == 2 <==> |b.pin| + |keyText| == PinLength
    ensures |r.calls| == 2 ==> r.calls[1] == Completed(b.pin + keyText) && r.buffer == Initial
    ensures |r.calls| == 1 ==> r.buffer.pin == b.pin + keyText
  {
    var (next, currentPin) := OnKeyPress(b, keyText);
    var currentPinLength := |currentPin|;
    if currentPinLength == PinLength then
      Click(ResetPin(next), [PinValueChange(currentPinLength), Completed(currentPin)])
    else
      Click(next, [PinValueChange(currentPinLength)])
  }

  /** The clicks on `keys`, one after the other. */
  function ClickAll(b: PinBuffer, keys: seq<string>): Click
    decreases |keys|
  {
    if |keys| == 0 then Click(b, [])
    else
      var c := OnClick(b, keys[0]);
      var rest := ClickAll(c.buffer, keys[1..]);
      Click(rest.buffer, c.calls + rest.calls)
  }

  /** All reported lengths lie in 1..PinLength. */
  ghost predicate LengthsInRange(calls: seq<Call>)
  {
    forall i :: 0 <= i < |calls| && calls[i].PinValueChange? ==> 1 <= calls[i].length <= PinLength
  }

  /** With one-character key texts, a buffer that starts shorter than the PIN
      stays shorter over any click sequence, and no reported length exceeds
      the PIN length. */
  lemma {:induction false} ClickAllStaysShort(b: PinBuffer, keys: seq<string>)
    requires |b.pin| < PinLength
    requires forall i :: 0 <= i < |keys| ==> |keys[i]| == 1
    ensures |ClickAll(b, keys).buffer.pin| < PinLength
    ensures LengthsInRange(ClickAll(b, keys).calls)
    decreases |keys|
  {
    if |keys| > 0 {
      var c := OnClick(b, keys[0]);
      ClickAllStaysShort(c.buffer, keys[1..]);
      var rest := ClickAll(c.buffer, keys[1..]);
      assert LengthsInRange(c.calls);
      var all := c.calls + rest.calls;
      forall i | 0 <= i < |all| && all[i].PinValueChange?
        ensures 1 <= all[i].length <= PinLength
      {
        if i >= |c.calls| {
          assert all[i] == rest.calls[i - |c.calls|];
        }
      }
    }
  }
}
