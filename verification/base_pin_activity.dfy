/** The base PIN screen: its label, its status dots, the result it hands back
    and whether it has finished, with the handlers every PIN screen shares
    (cancel, forgot, length change, reset). */
module BasePinActivity {
  import opened Wrappers
  import opened PinListener
  import opened Pin
  import opened StatusDots

  /** The two messages the label shows. */
  datatype Message = EnterPin | InvalidPin

  /** The state of one PIN screen. `result` is the code set with `setResult`
      (if any); `finished` records that `finish` has been called. */
  datatype Screen = Screen(
    dots: Dots,
    message: Message,
    result: Option<ResultCode>,
    finished: bool,
    forgotEnabled: bool)

  /** A screen after a handler ran, with the calls it made in order. */
  datatype Reaction = Reaction(screen: Screen, calls: seq<Call>)

  /** The cancel button: report CANCELLED and finish. */
  function OnCancelClick(s: Screen): (r: Reaction)
    ensures r.screen.result == Some(Cancelled) && r.screen.finished
    ensures r.calls == [SetResult(Cancelled), Finish]
    ensures r.screen.dots == s.dots && r.screen.message == s.message
    ensures r.screen.forgotEnabled == s.forgotEnabled
  {
    Reaction(s.(result := Some(Cancelled), finished := true), [SetResult(Cancelled), Finish])
  }

  /** The forgot button: run the screen's `onForgotPin` hook, then report
      FORGOT, then finish. A disabled button receives no clicks. */
  function OnForgotClick(s: Screen, onForgotPin: Screen -> Screen): (r: Reaction)
    ensures !s.forgotEnabled ==> r == Reaction(s, [])
    ensures s.forgotEnabled ==> r.calls == [ForgotPin, SetResult(Forgot), Finish]
    ensures s.forgotEnabled ==> r.screen.result == Some(Forgot) && r.screen.finished
    ensures s.forgotEnabled ==>
              var h := onForgotPin(s);
              r.screen.dots == h.dots && r.screen.message == h.message && r.screen.forgotEnabled == h.forgotEnabled
  {
    if s.forgotEnabled then
      var h := onForgotPin(s);
      Reaction(h.(result := Some(Forgot), finished := true), [ForgotPin, SetResult(Forgot), Finish])
    else
      Reaction(s, [])
  }

  /** The base screen's own `onForgotPin`, which does nothing. */
  function DefaultOnForgotPin(s: Screen): Screen
  {
    s
  }

  /** With the default hook, forgot changes only the result and the finished
      flag. */
  lemma DefaultForgotChangesOnlyOutcome(s: Screen)
    requires s.forgotEnabled
    ensures OnForgotClick(s, DefaultOnForgotPin).screen == s.(result := Some(Forgot), finished := true)
  {
  }

  /** `disableForgotButton`. */
  function DisableForgotButton(s: Screen): (r: Screen)
    ensures !r.forgotEnabled
    ensures r.dots == s.dots && r.message == s.message && r.result == s.result && r.finished == s.finished
  {
    s.(forgotEnabled := false)
  }

  /** Once the forgot button is disabled, clicking it has no effect. */
  lemma DisabledForgotIsInert(s: Screen, onForgotPin: Screen -> Screen)
    ensures OnForgotClick(DisableForgotButton(s), onForgotPin) == Reaction(DisableForgotButton(s), [])
  {
  }

  /** `setLabel`. */
  function SetLabel(s: Screen, m: Message): (r: Screen)
    ensures r.message == m
    ensures r.dots == s.dots && r.result == s.result && r.finished == s.finished
    ensures r.forgotEnabled == s.forgotEnabled
  {
    s.(message := m)
  }

  /** `resetStatus`: all dots empty, nothing else changes. */
  function ResetStatus(s: Screen): (r: Screen)
    ensures AllEmpty(r.dots)
    ensures r.message == s.message && r.result == s.result && r.finished == s.finished
    ensures r.forgotEnabled == s.forgotEnabled
  {
    s.(dots := Initialize(s.dots))
  }

  /** `onPinValueChange`: the dots show `length`, nothing else changes. */
  function OnPinValueChange(s: Screen, length: int): (r: Screen)
    ensures |r.dots.filled| == PinLength
    ensures forall i :: 0 <= i < |r.dots.filled| ==> (r.dots.filled[i] <==> i < length)
    ensures r.message == s.message && r.result == s.result && r.finished == s.finished
    ensures r.forgotEnabled == s.forgotEnabled
  {
    s.(dots := UpdateStatusDots(s.dots, length))
  }
}
