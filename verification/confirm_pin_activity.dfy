/** The confirm screen, and a PIN-entry session: the process-wide accumulator
    together with the screen, driven by key presses, cancel, forgot and back. */
module ConfirmPinActivity {
  import opened Wrappers
  import opened Pin
  import opened PinListener
  import opened Keypad
  import opened KeypadAdapter
  import opened StatusDots
  import opened BasePinActivity

  /** The screen as `onCreate` leaves it: fresh dots, the "enter PIN"
      message, no result, not finished, forgot button enabled. */
  function OnCreate(): (s: Screen)
    ensures s.message == EnterPin && AllEmpty(s.dots)
    ensures s.result == None && !s.finished && s.forgotEnabled
  {
    Screen(New(), EnterPin, None, false, true)
  }

  /** `onCompleted`: the dots are reset first; a correct PIN reports SUCCESS
      and finishes, a wrong one only switches the message to "invalid PIN". */
  function OnCompleted(s: Screen, pin: string, isPinCorrect: string -> bool): (r: Reaction)
    ensures AllEmpty(r.screen.dots) && r.screen.forgotEnabled == s.forgotEnabled
    ensures isPinCorrect(pin) ==>
              && r.screen.result == Some(Success) && r.screen.finished
              && r.screen.message == s.message
              && r.calls == [SetResult(Success), Finish]
    ensures !isPinCorrect(pin) ==>
              && r.screen.result == s.result && r.screen.finished == s.finished
              && r.screen.message == InvalidPin
              && r.calls == []
    ensures SetResult(Invalid) !in r.calls
  {
    var reset := ResetStatus(s);
    if isPinCorrect(pin) then
      Reaction(reset.(result := Some(Success), finished := true), [SetResult(Success), Finish])
    else
      Reaction(SetLabel(reset, InvalidPin), [])
  }

  /** `onBackPressed`: report CANCELLED and finish, exactly as the cancel
      button does. */
  function OnBackPressed(s: Screen): (r: Reaction)
    ensures r == OnCancelClick(s)
    ensures r.screen.result == Some(Cancelled) && r.screen.finished
    ensures r.calls == [SetResult(Cancelled), Finish]
    ensures r.screen.dots == s.dots && r.screen.message == s.message
    ensures r.screen.forgotEnabled == s.forgotEnabled
  {
    Reaction(s.(result := Some(Cancelled), finished := true), [SetResult(Cancelled), Finish])
  }

  /** The process-wide accumulator and the confirm screen it currently feeds. */
  datatype Session = Session(buffer: PinBuffer, screen: Screen)

  /** User input: a click on grid position `position`, the cancel button, the
      forgot button, or the back key. */
  datatype Event = Press(position: int) | CancelClick | ForgotClick | BackPress

  /** A session after some events, with the calls made, in order. */
  datatype Transition = Transition(session: Session, calls: seq<Call>)

  /** A confirm screen opened while the accumulator holds `buffer`: the
      accumulator is not reset when a screen opens. */
  function Start(buffer: PinBuffer): (s: Session)
    ensures s.buffer == buffer
    ensures s.screen.message == EnterPin && AllEmpty(s.screen.dots)
    ensures s.screen.result == None && !s.screen.finished && s.screen.forgotEnabled
  {
    Session(buffer, OnCreate())
  }

  /** A click on a key whose text is `key`: the click listener runs, and its
      calls to `onPinValueChange` and `onCompleted` are handled by the
      screen, in that order; the accumulator is reset after `onCompleted`. */
  function PressKey(s: Session, key: string, isPinCorrect: string -> bool): (r: Transition)
    ensures |r.calls| >= 1 && r.calls[0] == PinValueChange(|s.buffer.pin| + |key|)
    ensures |s.buffer.pin| + |key| != PinLength ==>
              && r.calls == [PinValueChange(|s.buffer.pin| + |key|)]
              && r.session.buffer.pin == s.buffer.pin + key
              && r.session.screen == s.screen.(dots := AddDots(|s.buffer.pin| + |key|))
    ensures |s.buffer.pin| + |key| == PinLength ==>
              && |r.calls| >= 2 && r.calls[1] == Completed(s.buffer.pin + key)
              && r.calls[2..] == OnCompleted(s.screen, s.buffer.pin + key, isPinCorrect).calls
              && r.session.buffer == Initial
              && AllEmpty(r.session.screen.dots)
              && (isPinCorrect(s.buffer.pin + key) ==>
                    && r.session.screen.result == Some(Success) && r.session.screen.finished
                    && r.session.screen.message == s.screen.message
                    && r.session.screen.forgotEnabled == s.screen.forgotEnabled)
              && (!isPinCorrect(s.buffer.pin + key) ==>
                    && r.session.screen.result == s.screen.result
                    && r.session.screen.finished == s.screen.finished
                    && r.session.screen.message == InvalidPin)
  {
    var click := OnClick(s.buffer, key);
    var shown := OnPinValueChange(s.screen, |s.buffer.pin| + |key|);
    if |click.calls| == 2 then
      var done := OnCompleted(shown, click.calls[1].pin, isPinCorrect);
      Transition(Session(click.buffer, done.screen), click.calls + done.calls)
    else
      Transition(Session(click.buffer, shown), click.calls)
  }

  /** One event. A finished screen is gone and receives nothing; a press on
      no key (outside the grid, or the invisible blank) does nothing. */
  function Step(s: Session, e: Event, isPinCorrect: string -> bool, onForgotPin: Screen -> Screen): (r: Transition)
    ensures s.screen.finished ==> r == Transition(s, [])
    ensures !s.screen.finished && (e.CancelClick? || e.BackPress?) ==>
              && r.session.buffer == s.buffer
              && r.session.screen.result == Some(Cancelled) && r.session.screen.finished
              && r.calls == [SetResult(Cancelled), Finish]
    ensures !s.screen.finished && e.ForgotClick? && s.screen.forgotEnabled ==>
              && r.session.buffer == s.buffer
              && r.session.screen.result == Some(Forgot) && r.session.screen.finished
              && r.calls == [ForgotPin, SetResult(Forgot), Finish]
    ensures e.Press? && KeyText(e.position).None? ==> r == Transition(s, [])
  {
    if s.screen.finished then Transition(s, [])
    else
      match e
      case Press(position) =>
        (match KeyText(position)
         case None => Transition(s, [])
         case Some(key) => PressKey(s, key, isPinCorrect))
      case CancelClick =>
        var a := OnCancelClick(s.screen);
        Transition(s.(screen := a.screen), a.calls)
      case ForgotClick =>
        var a := OnForgotClick(s.screen, onForgotPin);
        Transition(s.(screen := a.screen), a.calls)
      case BackPress =>
        var a := OnBackPressed(s.screen);
        Transition(s.(screen := a.screen), a.calls)
  }

  /** The events of `events`, one after the other. */
  function Run(s: Session, events: seq<Event>, isPinCorrect: string -> bool, onForgotPin: Screen -> Screen): Transition
    decreases |events|
  {
    if |events| == 0 then Transition(s, [])
    else
      var t := Step(s, events[0], isPinCorrect, onForgotPin);
      var rest := Run(t.session, events[1..], isPinCorrect, onForgotPin);
      Transition(rest.session, t.calls + rest.calls)
  }
}
