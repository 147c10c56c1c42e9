/** Properties of PIN-entry sessions over whole event sequences. */
module SessionProperties {
  import opened Wrappers
  import opened Pin
  import opened PinListener
  import opened Keypad
  import opened KeypadAdapter
  import opened StatusDots
  import opened BasePinActivity
  import opened ConfirmPinActivity

  /** What every session opened on an empty accumulator keeps (a session
      opened on leftover characters gains it at its first press that does
      not complete a PIN): the accumulator is shorter than a
      PIN, a result is set exactly when the screen has finished, that result
      is never INVALID, and while the screen is open its dots show the
      accumulator's length. */
  ghost predicate Inv(s: Session)
  {
    && |s.buffer.pin| < PinLength
    && (s.screen.result.Some? <==> s.screen.finished)
    && s.screen.result != Some(Invalid)
    && (!s.screen.finished ==> s.screen.dots == AddDots(|s.buffer.pin|))
  }

  lemma AllEmptyIsAddDotsZero(d: Dots)
    requires AllEmpty(d)
    ensures d == AddDots(0)
  {
    assert d.filled == AddDots(0).filled;
  }

  /** A screen opened on an empty accumulator starts consistent, and one
      opened on a non-empty accumulator does not: its dots show nothing
      while the accumulator already holds characters. */
  lemma StartInv(b: PinBuffer)
    requires |b.pin| < PinLength
    ensures Inv(Start(b)) <==> b.pin == ""
  {
    AllEmptyIsAddDotsZero(Start(b).screen.dots);
    if b.pin != "" {
      assert AddDots(|b.pin|).filled[0] && !Start(b).screen.dots.filled[0];
    }
  }

  lemma StepPreservesInv(s: Session, e: Event, isPinCorrect: string -> bool, onForgotPin: Screen -> Screen)
    requires Inv(s)
    ensures Inv(Step(s, e, isPinCorrect, onForgotPin).session)
  {
    if !s.screen.finished && e.Press? && KeyText(e.position).Some? {
      var key := KeyText(e.position).value;
      var r := PressKey(s, key, isPinCorrect);
      if |s.buffer.pin| + |key| == PinLength {
        AllEmptyIsAddDotsZero(r.session.screen.dots);
      }
    }
  }

  /** Every event sequence keeps the invariant. */
  lemma {:induction false} RunPreservesInv(s: Session, events: seq<Event>, isPinCorrect: string -> bool, onForgotPin: Screen -> Screen)
    requires Inv(s)
    ensures Inv(Run(s, events, isPinCorrect, onForgotPin).session)
    decreases |events|
  {
    if |events| > 0 {
      StepPreservesInv(s, events[0], isPinCorrect, onForgotPin);
      RunPreservesInv(Step(s, events[0], isPinCorrect, onForgotPin).session, events[1..], isPinCorrect, onForgotPin);
    }
  }

  lemma StepKeepsBufferShort(s: Session, e: Event, isPinCorrect: string -> bool, onForgotPin: Screen -> Screen)
    requires |s.buffer.pin| < PinLength
    ensures |Step(s, e, isPinCorrect, onForgotPin).session.buffer.pin| < PinLength
  {
  }

  /** The accumulator stays shorter than a PIN over every event sequence,
      whether or not the session started consistent: a screen opened on
      leftover characters still never holds a full PIN between events. */
  lemma {:induction false} RunKeepsBufferShort(s: Session, events: seq<Event>, isPinCorrect: string -> bool, onForgotPin: Screen -> Screen)
    requires |s.buffer.pin| < PinLength
    ensures |Run(s, events, isPinCorrect, onForgotPin).session.buffer.pin| < PinLength
    decreases |events|
  {
    if |events| > 0 {
      StepKeepsBufferShort(s, events[0], isPinCorrect, onForgotPin);
      RunKeepsBufferShort(Step(s, events[0], isPinCorrect, onForgotPin).session, events[1..], isPinCorrect, onForgotPin);
    }
  }

  /** While the screen is open, the number of filled dots is exactly the
      number of characters held. */
  lemma DotsCountBuffer(s: Session)
    requires Inv(s) && !s.screen.finished
    ensures FilledCount(s.screen.dots.filled) == |s.buffer.pin|
  {
    FilledCountIsClampedLength(|s.buffer.pin|);
  }

  /** Once the screen has finished, nothing changes and nothing is called. */
  lemma {:induction false} FinishedIsFinal(s: Session, events: seq<Event>, isPinCorrect: string -> bool, onForgotPin: Screen -> Screen)
    requires s.screen.finished
    ensures Run(s, events, isPinCorrect, onForgotPin) == Transition(s, [])
    decreases |events|
  {
    if |events| > 0 {
      FinishedIsFinal(s, events[1..], isPinCorrect, onForgotPin);
    }
  }

  /** No event sequence ever reports INVALID. */
  lemma {:induction false} RunNeverReportsInvalid(s: Session, events: seq<Event>, isPinCorrect: string -> bool, onForgotPin: Screen -> Screen)
    ensures SetResult(Invalid) !in Run(s, events, isPinCorrect, onForgotPin).calls
    decreases |events|
  {
    if |events| > 0 {
      var t := Step(s, events[0], isPinCorrect, onForgotPin);
      RunNeverReportsInvalid(t.session, events[1..], isPinCorrect, onForgotPin);
      if !s.screen.finished && events[0].Press? && KeyText(events[0].position).Some? {
        var key := KeyText(events[0].position).value;
        if |s.buffer.pin| + |key| == PinLength {
          assert t.calls == t.calls[..2] + t.calls[2..];
        }
      }
    }
  }

  /** Every `onCompleted` call carries a full-length PIN and comes right
      after the `onPinValueChange` call reporting that length. */
  ghost predicate CompletionsAnnounced(calls: seq<Call>)
  {
    forall i :: 0 <= i < |calls| && calls[i].Completed? ==>
      && 0 < i
      && calls[i - 1] == PinValueChange(PinLength)
      && |calls[i].pin| == PinLength
  }

  lemma CompletionsAnnouncedAppend(a: seq<Call>, b: seq<Call>)
    requires CompletionsAnnounced(a) && CompletionsAnnounced(b)
    ensures CompletionsAnnounced(a + b)
  {
    forall i | 0 <= i < |a + b| && (a + b)[i].Completed?
      ensures 0 < i && (a + b)[i - 1] == PinValueChange(PinLength) && |(a + b)[i].pin| == PinLength
    {
      if i >= |a| {
        assert (a + b)[i] == b[i - |a|];
        assert (a + b)[i - 1] == b[i - |a| - 1];
      }
    }
  }

  lemma StepAnnouncesCompletions(s: Session, e: Event, isPinCorrect: string -> bool, onForgotPin: Screen -> Screen)
    ensures CompletionsAnnounced(Step(s, e, isPinCorrect, onForgotPin).calls)
  {
    if !s.screen.finished && e.Press? && KeyText(e.position).Some? {
      var key := KeyText(e.position).value;
      var r := PressKey(s, key, isPinCorrect);
      if |s.buffer.pin| + |key| == PinLength {
        var rest := OnCompleted(s.screen, s.buffer.pin + key, isPinCorrect).calls;
        assert r.calls == r.calls[..2] + rest;
        forall i | 2 <= i < |r.calls|
          ensures !r.calls[i].Completed?
        {
          assert r.calls[i] == rest[i - 2];
        }
      }
    }
  }

  /** Over any event sequence, the listener hears the new length before it
      hears the completed PIN. */
  lemma {:induction false} RunAnnouncesCompletions(s: Session, events: seq<Event>, isPinCorrect: string -> bool, onForgotPin: Screen -> Screen)
    ensures CompletionsAnnounced(Run(s, events, isPinCorrect, onForgotPin).calls)
    decreases |events|
  {
    if |events| > 0 {
      var t := Step(s, events[0], isPinCorrect, onForgotPin);
      StepAnnouncesCompletions(s, events[0], isPinCorrect, onForgotPin);
      RunAnnouncesCompletions(t.session, events[1..], isPinCorrect, onForgotPin);
      CompletionsAnnouncedAppend(t.calls, Run(t.session, events[1..], isPinCorrect, onForgotPin).calls);
    }
  }

  /** Every event is a key press. */
  ghost predicate AllPresses(events: seq<Event>)
  {
    forall i :: 0 <= i < |events| ==> events[i].Press?
  }

  /** Too few presses to reach the PIN length, on any open screen without a
      result (including one opened on leftover characters): nothing
      completes, no result is reported, the screen stays open, and the accumulator has grown by
      at most one character per press. */
  lemma {:induction false} ShortRunsNeverComplete(s: Session, events: seq<Event>, isPinCorrect: string -> bool, onForgotPin: Screen -> Screen)
    requires !s.screen.finished && s.screen.result == None
    requires AllPresses(events)
    requires |s.buffer.pin| + |events| < PinLength
    ensures var r := Run(s, events, isPinCorrect, onForgotPin);
            && (forall i :: 0 <= i < |r.calls| ==> r.calls[i].PinValueChange?)
            && !r.session.screen.finished && r.session.screen.result == None
            && |s.buffer.pin| <= |r.session.buffer.pin| <= |s.buffer.pin| + |events|
    decreases |events|
  {
    if |events| > 0 {
      var t := Step(s, events[0], isPinCorrect, onForgotPin);
      ShortRunsNeverComplete(t.session, events[1..], isPinCorrect, onForgotPin);
      var rest := Run(t.session, events[1..], isPinCorrect, onForgotPin);
      forall i | 0 <= i < |t.calls + rest.calls|
        ensures (t.calls + rest.calls)[i].PinValueChange?
      {
        if i >= |t.calls| {
          assert (t.calls + rest.calls)[i] == rest.calls[i - |t.calls|];
        }
      }
    }
  }

  /** A press on a visible key that does not reach the PIN length: one
      length report, the key appended, the screen still open. */
  lemma OpenPress(s: Session, p: int, isPinCorrect: string -> bool, onForgotPin: Screen -> Screen)
    requires !s.screen.finished && s.screen.result == None && KeyText(p).Some?
    requires |s.buffer.pin| + 1 < PinLength
    ensures var t := Step(s, Press(p), isPinCorrect, onForgotPin);
            && t.calls == [PinValueChange(|s.buffer.pin| + 1)]
            && t.session.buffer.pin == s.buffer.pin + KeyText(p).value
            && !t.session.screen.finished && Inv(t.session)
  {
  }

  /** The press that reaches the PIN length: the length report, then the
      completed PIN, an empty accumulator and empty dots; SUCCESS and finish
      for a correct PIN, otherwise the screen stays open with the "invalid
      PIN" message. */
  lemma CompletingPress(s: Session, p: int, isPinCorrect: string -> bool, onForgotPin: Screen -> Screen)
    requires !s.screen.finished && s.screen.result == None && KeyText(p).Some?
    requires |s.buffer.pin| + 1 == PinLength
    ensures var t := Step(s, Press(p), isPinCorrect, onForgotPin);
            && |t.calls| >= 2
            && t.calls[..2] == [PinValueChange(PinLength), Completed(s.buffer.pin + KeyText(p).value)]
            && t.session.buffer == Initial && AllEmpty(t.session.screen.dots)
            && (isPinCorrect(s.buffer.pin + KeyText(p).value) ==>
                  t.session.screen.result == Some(Success) && t.session.screen.finished)
            && (!isPinCorrect(s.buffer.pin + KeyText(p).value) ==>
                  && t.session.screen.result == None && !t.session.screen.finished
                  && t.session.screen.message == InvalidPin)
  {
  }

  /** Running a non-empty sequence is its first step followed by the rest. */
  lemma RunFirst(s: Session, events: seq<Event>, isPinCorrect: string -> bool, onForgotPin: Screen -> Screen)
    requires |events| > 0
    ensures var t := Step(s, events[0], isPinCorrect, onForgotPin);
            var rest := Run(t.session, events[1..], isPinCorrect, onForgotPin);
            Run(s, events, isPinCorrect, onForgotPin) == Transition(rest.session, t.calls + rest.calls)
  {
  }

  /** Four presses on visible keys, starting from an empty accumulator on an
      open screen: the fourth press reports length 4, then hands over the
      four key texts in press order, and the accumulator ends empty. */
  lemma FourPressesComplete(s: Session, p0: int, p1: int, p2: int, p3: int,
                            isPinCorrect: string -> bool, onForgotPin: Screen -> Screen)
    requires Inv(s) && !s.screen.finished && s.buffer.pin == ""
    requires KeyText(p0).Some? && KeyText(p1).Some? && KeyText(p2).Some? && KeyText(p3).Some?
    ensures var r := Run(s, [Press(p0), Press(p1), Press(p2), Press(p3)], isPinCorrect, onForgotPin);
            var pin := KeyText(p0).value + KeyText(p1).value + KeyText(p2).value + KeyText(p3).value;
            && |r.calls| >= 5
            && r.calls[..5] == [PinValueChange(1), PinValueChange(2), PinValueChange(3),
                                PinValueChange(4), Completed(pin)]
            && r.session.buffer == Initial
            && AllEmpty(r.session.screen.dots)
            && (isPinCorrect(pin) ==> r.session.screen.result == Some(Success) && r.session.screen.finished)
            && (!isPinCorrect(pin) ==>
                  && r.session.screen.result == None && !r.session.screen.finished
                  && r.session.screen.message == InvalidPin)
  {
    var e := [Press(p0), Press(p1), Press(p2), Press(p3)];
    var t0 := Step(s, Press(p0), isPinCorrect, onForgotPin);
    OpenPress(s, p0, isPinCorrect, onForgotPin);
    var t1 := Step(t0.session, Press(p1), isPinCorrect, onForgotPin);
    OpenPress(t0.session, p1, isPinCorrect, onForgotPin);
    var t2 := Step(t1.session, Press(p2), isPinCorrect, onForgotPin);
    OpenPress(t1.session, p2, isPinCorrect, onForgotPin);
    var t3 := Step(t2.session, Press(p3), isPinCorrect, onForgotPin);
    CompletingPress(t2.session, p3, isPinCorrect, onForgotPin);
    assert e[1..] == [Press(p1), Press(p2), Press(p3)];
    assert e[1..][1..] == [Press(p2), Press(p3)];
    assert e[1..][1..][1..] == [Press(p3)];
    assert e[1..][1..][1..][1..] == [];
    RunFirst(t2.session, e[1..][1..][1..], isPinCorrect, onForgotPin);
    RunFirst(t1.session, e[1..][1..], isPinCorrect, onForgotPin);
    RunFirst(t0.session, e[1..], isPinCorrect, onForgotPin);
    RunFirst(s, e, isPinCorrect, onForgotPin);
    var r := Run(s, e, isPinCorrect, onForgotPin);
    assert r.session == t3.session;
    assert r.calls == t0.calls + (t1.calls + (t2.calls + (t3.calls + [])));
    assert t2.session.buffer.pin == KeyText(p0).value + KeyText(p1).value + KeyText(p2).value;
    assert r.calls[..5] == [PinValueChange(1), PinValueChange(2), PinValueChange(3)] + t3.calls[..2];
  }

  /** Canceling does not empty the accumulator: a press followed by cancel
      finishes the screen with CANCELLED while the pressed key stays held. */
  lemma CancelKeepsBuffer(s: Session, p: int, isPinCorrect: string -> bool, onForgotPin: Screen -> Screen)
    requires !s.screen.finished && s.screen.result == None && KeyText(p).Some?
    requires |s.buffer.pin| + 1 < PinLength
    ensures var r := Run(s, [Press(p), CancelClick], isPinCorrect, onForgotPin);
            && r.session.buffer.pin == s.buffer.pin + KeyText(p).value
            && r.session.screen.result == Some(Cancelled) && r.session.screen.finished
            && r.calls == [PinValueChange(|s.buffer.pin| + 1), SetResult(Cancelled), Finish]
  {
    var e := [Press(p), CancelClick];
    var t0 := Step(s, Press(p), isPinCorrect, onForgotPin);
    OpenPress(s, p, isPinCorrect, onForgotPin);
    assert e[1..] == [CancelClick] && e[1..][1..] == [];
    RunFirst(t0.session, e[1..], isPinCorrect, onForgotPin);
    RunFirst(s, e, isPinCorrect, onForgotPin);
  }

  /** A screen opened on leftover characters shows no dots until its first
      press; that press reports the full length, leftovers included, and if
      it does not complete a PIN the dots match the accumulator again and the
      session invariant holds from then on. */
  lemma DotsCatchUpAfterFirstPress(b: PinBuffer, p: int, isPinCorrect: string -> bool, onForgotPin: Screen -> Screen)
    requires 0 < |b.pin| && |b.pin| + 1 < PinLength && KeyText(p).Some?
    ensures !Inv(Start(b))
    ensures var t := Step(Start(b), Press(p), isPinCorrect, onForgotPin);
            && t.calls == [PinValueChange(|b.pin| + 1)]
            && FilledCount(t.session.screen.dots.filled) == |t.session.buffer.pin| == |b.pin| + 1
            && Inv(t.session)
  {
    StartInv(b);
    var t := Step(Start(b), Press(p), isPinCorrect, onForgotPin);
    OpenPress(Start(b), p, isPinCorrect, onForgotPin);
    DotsCountBuffer(t.session);
  }

  /** The next screen opens on whatever the accumulator still holds: its
      dots show nothing entered, yet with PinLength - 1 characters left over
      the very first press completes a PIN made mostly of old characters. */
  lemma StaleBufferCarriesOver(b: PinBuffer, p: int, isPinCorrect: string -> bool, onForgotPin: Screen -> Screen)
    requires |b.pin| == PinLength - 1 && KeyText(p).Some?
    ensures AllEmpty(Start(b).screen.dots) && !Inv(Start(b))
    ensures var t := Step(Start(b), Press(p), isPinCorrect, onForgotPin);
            && |t.calls| >= 2
            && t.calls[..2] == [PinValueChange(PinLength), Completed(b.pin + KeyText(p).value)]
  {
    StartInv(b);
    assert Step(Start(b), Press(p), isPinCorrect, onForgotPin) == PressKey(Start(b), KeyText(p).value, isPinCorrect);
  }

  /** A screen whose correct PIN is "1234". */
  predicate IsPin1234(pin: string)
  {
    pin == "1234"
  }

  /** With a correct PIN of "1234", pressing 1, 2, 3, 4 reports SUCCESS and
      finishes; pressing 1, 2, 3, 5 keeps the screen open with empty dots,
      an empty accumulator and the "invalid PIN" message. */
  lemma ConfirmExample(onForgotPin: Screen -> Screen)
    ensures var right := Run(Start(Initial), [Press(0), Press(1), Press(2), Press(3)], IsPin1234, onForgotPin);
            var wrong := Run(Start(Initial), [Press(0), Press(1), Press(2), Press(4)], IsPin1234, onForgotPin);
            && right.session.screen.result == Some(Success) && right.session.screen.finished
            && wrong.session.screen.result == None && !wrong.session.screen.finished
            && wrong.session.screen.message == InvalidPin
            && wrong.session.buffer == Initial && AllEmpty(wrong.session.screen.dots)
  {
    StartInv(Initial);
    assert KeyText(0) == Some("1") && KeyText(1) == Some("2") && KeyText(2) == Some("3");
    assert KeyText(3) == Some("4") && KeyText(4) == Some("5");
    assert "1" + "2" + "3" + "4" == "1234" && "1" + "2" + "3" + "5" == "1235";
    FourPressesComplete(Start(Initial), 0, 1, 2, 3, IsPin1234, onForgotPin);
    FourPressesComplete(Start(Initial), 0, 1, 2, 4, IsPin1234, onForgotPin);
  }
}
