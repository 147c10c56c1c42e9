/** The PIN accumulator: the string the keypad's companion object appends
    every pressed key to. The source keeps it in one process-wide variable;
    here it is an explicit value threaded through the session. */
module Keypad {

  datatype PinBuffer = PinBuffer(pin: string)

  /** The value the accumulator holds when the process starts. */
  const Initial: PinBuffer := PinBuffer("")

  /** `onKeyPress`: appends `key` and returns the new PIN, which is also the
      new content of the accumulator. */
  function OnKeyPress(b: PinBuffer, key: string): (r: (PinBuffer, string))
    ensures r.0.pin == r.1
    ensures |r.1| == |b.pin| + |key|
    ensures r.1[..|b.pin|] == b.pin && r.1[|b.pin|..] == key
  {
    var pin := b.pin + key;
    (PinBuffer(pin), pin)
  }

  /** `resetPin`: empties the accumulator, whatever it held. */
  function ResetPin(b: PinBuffer): (r: PinBuffer)
    ensures r.pin == [] && r == Initial
  {
    PinBuffer("")
  }

  lemma ResetPinIdempotent(b: PinBuffer)
    ensures ResetPin(ResetPin(b)) == ResetPin(b)
  {
  }

  /** The keys of `keys` written one after the other. */
  function Concat(keys: seq<string>): string
  {
    if |keys| == 0 then "" else keys[0] + Concat(keys[1..])
  }

  /** The accumulator after `onKeyPress` has been called with each key of
      `keys` in turn. */
  function PressAll(b: PinBuffer, keys: seq<string>): PinBuffer
    decreases |keys|
  {
    if |keys| == 0 then b else PressAll(OnKeyPress(b, keys[0]).0, keys[1..])
  }

  /** A run of presses appends the keys, in press order, to what was held. */
  lemma {:induction false} PressAllAppends(b: PinBuffer, keys: seq<string>)
    ensures PressAll(b, keys).pin == b.pin + Concat(keys)
    decreases |keys|
  {
    if |keys| > 0 {
      var b' := OnKeyPress(b, keys[0]).0;
      PressAllAppends(b', keys[1..]);
      assert b'.pin + Concat(keys[1..]) == b.pin + (keys[0] + Concat(keys[1..]));
    }
  }

  /** After a reset, the accumulator holds exactly the pressed keys in press
      order, and its length is the total length of the keys. */
  lemma PressAllAfterReset(b: PinBuffer, keys: seq<string>)
    ensures PressAll(ResetPin(b), keys).pin == Concat(keys)
  {
    PressAllAppends(ResetPin(b), keys);
  }
}
