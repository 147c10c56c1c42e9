# PinLock PIN-entry state machine in Dafny

This project models the logic inside the PinLock widget, a reusable PIN screen for Android. The widget has a
three-column keypad, a row of four status dots, and a confirm screen. The model covers how key presses build up the PIN
string, how the keypad lays out its eleven grid positions, and how the dots follow the entered length. It also covers
how the confirm screen decides the outcome of a session: success, an "invalid PIN" retry, cancel, back and forgot. It
does not model the Android views.

The model is functional. The state of a session is an immutable record. Each user event is a pure step function that
returns the next state together with the calls it made to the listener and to the platform, in the order the source
makes them.

Modules, following the source files:

- `Pin`: the fixed PIN length, 4. The click listener and the dot row each hard-code this value; the model defines it once.
- `PinListener`: the result codes SUCCESS=0, CANCELLED=1, INVALID=3 and FORGOT=4, and the `Call` trace alphabet:
  - the three listener callbacks: `onPinValueChange`, `onCompleted` and `onForgotPin`;
  - the two platform calls: `setResult` and `finish`.
- `Keypad`: the PIN accumulator. In the source it is a variable in the keypad's companion object, one per process.
  The model makes it an explicit `PinBuffer` value, updated by `onKeyPress` and `resetPin`.
- `KeypadAdapter`: the eleven grid positions, their labels and item ids, and the click listener. On each click the
  listener appends the key text, reports the new length, and at length 4 hands over the PIN and resets the accumulator.
- `StatusDots`: the dot row. A dot is its filled flag. `addDots` rebuilds the whole row from the given length.
- `BasePinActivity`: the screen record (dots, message, result, finished flag, whether the forgot button is enabled)
  and the handlers every PIN screen shares: cancel, forgot, length change, reset and disabling forgot.
- `ConfirmPinActivity`: `onCreate`, `onCompleted`, `onBackPressed`, the session record (the accumulator plus the
  screen it feeds), the `Step` function for the events `Press(position)`, `CancelClick`, `ForgotClick` and
  `BackPress`, and `Run` over event sequences.
- `SessionProperties`: lemmas over event sequences. They cover:
  - a session invariant: the accumulator stays shorter than a PIN, a result is set exactly when the screen has finished,
    the result is never INVALID, and while the screen is open the dots show the accumulator's length;
  - the ordering of the listener calls;
  - worked scenarios.

The screen's correctness check (`isPinCorrect`) and its forgot hook (`onForgotPin`) are abstract in the source. The
model takes them as parameters: `string -> bool` and `Screen -> Screen`.

Behaviour of the code worth knowing:

- The accumulator is reset only after `onCompleted` (KeypadAdapter.kt:88). Cancel, back and forgot leave it as it
  is, and a newly opened screen inherits it. `SessionProperties.CancelKeepsBuffer` and
  `SessionProperties.StaleBufferCarriesOver` state this. In the second lemma, the dots of the new screen show nothing
  entered, yet a single press completes a PIN made mostly of the earlier screen's characters. Until its first press such a screen shows no dots although the
  accumulator holds characters (`SessionProperties.StartInv`). The first press reports the full length, leftovers
  included, and from then on the dots match again (`SessionProperties.DotsCatchUpAfterFirstPress`). In every case the accumulator never reaches 4 characters between events (`SessionProperties.RunKeepsBufferShort`).
- `isPinCorrect` is abstract. Only `SessionProperties.ConfirmExample` instantiates it, with equality to "1234".
- The INVALID code is declared but never reported: a wrong PIN only changes the message
  (`SessionProperties.RunNeverReportsInvalid`).

Members without a row of their own are covered by other rows: `KeypadAdapter.GetCount` by
`KeypadAdapter.KeypadLayout`, `BasePinActivity.DefaultOnForgotPin` by
`BasePinActivity.DefaultForgotChangesOnlyOutcome`, and `ConfirmPinActivity.Run` (the event loop) by the
`SessionProperties` rows about event sequences.

## Model

| member | source | states |
|---|---|---|
| PinListener.Code | pinlock/src/main/java/com/manusunny/pinlock/PinListener.kt:46-61 | every outcome is reported as one of the four declared integers |
| PinListener.FromCode | pinlock/src/main/java/com/manusunny/pinlock/PinListener.kt:46-61 | an integer reads as an outcome exactly when it is one of 0, 1, 3, 4 |
| PinListener.CodeValues | pinlock/src/main/java/com/manusunny/pinlock/PinListener.kt:46-61 | SUCCESS is 0, CANCELLED is 1, INVALID is 3, FORGOT is 4 |
| PinListener.CodeRoundTrip | pinlock/src/main/java/com/manusunny/pinlock/PinListener.kt:46-61 | reading back the integer of an outcome gives that outcome |
| PinListener.FromCodeRoundTrip | pinlock/src/main/java/com/manusunny/pinlock/PinListener.kt:46-61 | every code integer is the integer of the outcome it reads as |
| PinListener.CodesDistinct | pinlock/src/main/java/com/manusunny/pinlock/PinListener.kt:46-61 | two outcomes share an integer only if they are the same outcome |
| Keypad.OnKeyPress | pinlock/src/main/java/com/manusunny/pinlock/components/Keypad.kt:92-95 | the returned PIN is the stored one; it is the previous content followed by the key, so its length grows by exactly the key's length |
| Keypad.ResetPin | pinlock/src/main/java/com/manusunny/pinlock/components/Keypad.kt:100-102 | after a reset the accumulator is empty, the same as at process start |
| Keypad.ResetPinIdempotent | pinlock/src/main/java/com/manusunny/pinlock/components/Keypad.kt:100-102 | resetting twice is the same as resetting once |
| Keypad.PressAllAppends | pinlock/src/main/java/com/manusunny/pinlock/components/Keypad.kt:87-102 | a run of presses appends the keys to the held content in press order |
| Keypad.PressAllAfterReset | pinlock/src/main/java/com/manusunny/pinlock/components/Keypad.kt:87-102 | after a reset, the accumulator holds exactly the concatenation of the pressed keys |
| KeypadAdapter.GetItemId | pinlock/src/main/java/com/manusunny/pinlock/components/KeypadAdapter.kt:63-65 | ids lie in 0..9; positions 0..8 get position+1; exactly positions 9 and 10 get 0 |
| KeypadAdapter.KeyLabel | pinlock/src/main/java/com/manusunny/pinlock/components/KeypadAdapter.kt:132-140 | positions 0..8 show the digit position+1, position 9 shows no key, position 10 shows "0" |
| KeypadAdapter.KeyText | pinlock/src/main/java/com/manusunny/pinlock/components/KeypadAdapter.kt:132-140 | a click delivers text exactly for grid positions other than the blank, and that text is the one-character digit named by the key's item id |
| KeypadAdapter.KeypadLayout | pinlock/src/main/java/com/manusunny/pinlock/components/KeypadAdapter.kt:55-65 | the grid has 11 positions; each visible key's label is the digit its item id names; the blank and the zero key share id 0 |
| KeypadAdapter.VisibleLabelsAreTheTenDigits | pinlock/src/main/java/com/manusunny/pinlock/components/KeypadAdapter.kt:132-140 | the visible labels are exactly the ten digits "0".."9", with no two keys alike |
| KeypadAdapter.OnClick | pinlock/src/main/java/com/manusunny/pinlock/components/KeypadAdapter.kt:75-91 | the first call reports the new length; a second call, onCompleted with the full PIN, happens iff that length is 4, and then the accumulator is empty; otherwise the accumulator holds the appended PIN |
| KeypadAdapter.ClickAllStaysShort | pinlock/src/main/java/com/manusunny/pinlock/components/KeypadAdapter.kt:79-89 | from a buffer shorter than 4 and with one-character keys, every reported length is in 1..4 and the buffer stays shorter than 4 over any click sequence |
| StatusDots.Row | pinlock/src/main/java/com/manusunny/pinlock/components/StatusDots.kt:47-50 | the loop from iteration i yields 4-i dots, dot j filled iff i+j is below the length |
| StatusDots.AddDots | pinlock/src/main/java/com/manusunny/pinlock/components/StatusDots.kt:44-51 | there are exactly 4 dots, dot i filled iff i < length, whatever was shown before |
| StatusDots.Initialize | pinlock/src/main/java/com/manusunny/pinlock/components/StatusDots.kt:62-64 | four dots, all empty |
| StatusDots.UpdateStatusDots | pinlock/src/main/java/com/manusunny/pinlock/components/StatusDots.kt:70-72 | four dots, dot i filled iff i < pinLength, whatever was shown before |
| StatusDots.New | pinlock/src/main/java/com/manusunny/pinlock/components/StatusDots.kt:74-76 | a freshly built row has four empty dots |
| StatusDots.FilledCountIsClampedLength | pinlock/src/main/java/com/manusunny/pinlock/components/StatusDots.kt:46-49 | the number of filled dots is the length clamped to 0..4 |
| StatusDots.LastUpdateWins | pinlock/src/main/java/com/manusunny/pinlock/components/StatusDots.kt:70-72 | only the last update decides the row, and it equals addDots of that length |
| StatusDots.InitializeIsUpdateToZero | pinlock/src/main/java/com/manusunny/pinlock/components/StatusDots.kt:62-72 | resetting the row is the update for length 0 |
| BasePinActivity.OnCancelClick | pinlock/src/main/java/com/manusunny/pinlock/BasePinActivity.kt:66-69 | cancel sets CANCELLED and finishes, in that order, leaving dots, message and forgot button as they were |
| BasePinActivity.OnForgotClick | pinlock/src/main/java/com/manusunny/pinlock/BasePinActivity.kt:71-75 | an enabled forgot button runs the hook, then sets FORGOT, then finishes; the hook's other effects remain; a disabled one does nothing |
| BasePinActivity.DefaultForgotChangesOnlyOutcome | pinlock/src/main/java/com/manusunny/pinlock/BasePinActivity.kt:142-144 | with the base screen's empty hook, forgot changes only the result and the finished flag |
| BasePinActivity.DisableForgotButton | pinlock/src/main/java/com/manusunny/pinlock/BasePinActivity.kt:104-107 | the forgot button becomes disabled and nothing else changes |
| BasePinActivity.DisabledForgotIsInert | pinlock/src/main/java/com/manusunny/pinlock/BasePinActivity.kt:104-107 | after disabling, a forgot click changes nothing and calls nothing |
| BasePinActivity.SetLabel | pinlock/src/main/java/com/manusunny/pinlock/BasePinActivity.kt:113-115 | the label shows the given message and nothing else changes |
| BasePinActivity.ResetStatus | pinlock/src/main/java/com/manusunny/pinlock/BasePinActivity.kt:120-122 | all four dots become empty and nothing else changes |
| BasePinActivity.OnPinValueChange | pinlock/src/main/java/com/manusunny/pinlock/BasePinActivity.kt:135-137 | the dots show the reported length and nothing else changes |
| ConfirmPinActivity.OnCreate | pinlock/src/main/java/com/manusunny/pinlock/ConfirmPinActivity.kt:28-31 | a new screen shows the "enter PIN" message and empty dots, has no result and is open |
| ConfirmPinActivity.OnCompleted | pinlock/src/main/java/com/manusunny/pinlock/ConfirmPinActivity.kt:37-45 | dots are reset either way; a correct PIN sets SUCCESS and finishes; a wrong one sets no result, stays open and shows "invalid PIN"; INVALID is never set |
| ConfirmPinActivity.OnBackPressed | pinlock/src/main/java/com/manusunny/pinlock/ConfirmPinActivity.kt:58-61 | back sets CANCELLED and finishes, leaving the rest of the screen as it was: exactly what the cancel button does |
| ConfirmPinActivity.Start | pinlock/src/main/java/com/manusunny/pinlock/BasePinActivity.kt:50-59 | a new screen shows the "enter PIN" message and empty dots, has no result, is open with forgot enabled, and holds the accumulator as left by earlier screens |
| ConfirmPinActivity.PressKey | pinlock/src/main/java/com/manusunny/pinlock/components/KeypadAdapter.kt:82-89 | the length report comes first; below length 4 only the dots change; at length 4 onCompleted follows with the full PIN, its own calls come next, and the accumulator and dots end empty; a correct PIN leaves the message and forgot button as they were |
| ConfirmPinActivity.Step | pinlock/src/main/java/com/manusunny/pinlock/BasePinActivity.kt:64-76 | cancel and back give CANCELLED and forgot gives FORGOT, each finishing without touching the accumulator; a press on no key, or any event on a finished screen, changes nothing |
| SessionProperties.StartInv | pinlock/src/main/java/com/manusunny/pinlock/components/Keypad.kt:87 | a screen opened on an empty accumulator is consistent; one opened on a non-empty one is not |
| SessionProperties.StepPreservesInv | pinlock/src/main/java/com/manusunny/pinlock/components/KeypadAdapter.kt:79-89 | each event keeps the session invariant |
| SessionProperties.RunKeepsBufferShort | pinlock/src/main/java/com/manusunny/pinlock/components/KeypadAdapter.kt:79-89 | from any session whose accumulator is shorter than 4, including one opened on leftover characters, every event sequence keeps it shorter than 4 |
| SessionProperties.RunPreservesInv | pinlock/src/main/java/com/manusunny/pinlock/components/KeypadAdapter.kt:79-89 | from a consistent session (one opened on an empty accumulator, or one opened on leftovers after its first press that does not complete a PIN), every event sequence keeps the session invariant; in particular the accumulator never reaches 4 characters and the open screen's dots match it |
| SessionProperties.DotsCountBuffer | pinlock/src/main/java/com/manusunny/pinlock/BasePinActivity.kt:135-137 | in a consistent session (one opened on an empty accumulator, or one opened on leftovers after its first press that does not complete a PIN), while the screen is open, the number of filled dots equals the number of characters held |
| SessionProperties.FinishedIsFinal | pinlock/src/main/java/com/manusunny/pinlock/ConfirmPinActivity.kt:41 | under the modelling assumption (see Left out) that a screen gets no events after `finish`, later events change nothing and call nothing |
| SessionProperties.RunNeverReportsInvalid | pinlock/src/main/java/com/manusunny/pinlock/ConfirmPinActivity.kt:37-45 | no event sequence ever sets the INVALID code |
| SessionProperties.RunAnnouncesCompletions | pinlock/src/main/java/com/manusunny/pinlock/components/KeypadAdapter.kt:85-87 | every onCompleted carries a 4-character PIN and comes right after the report of length 4 |
| SessionProperties.ShortRunsNeverComplete | pinlock/src/main/java/com/manusunny/pinlock/components/KeypadAdapter.kt:79-89 | on any open screen without a result, including one opened on leftover characters, too few presses to reach length 4 give only length reports, set no result, and leave the screen open |
| SessionProperties.OpenPress | pinlock/src/main/java/com/manusunny/pinlock/components/KeypadAdapter.kt:82-85 | on any open screen without a result, leftovers included, a press below length 4 makes one length report, appends the key, and leaves a consistent session |
| SessionProperties.CompletingPress | pinlock/src/main/java/com/manusunny/pinlock/components/KeypadAdapter.kt:82-89 | on any open screen without a result, leftovers included, the press that reaches length 4 reports it, hands over the PIN, and empties the accumulator and the dots; a correct PIN gives SUCCESS and finishes, a wrong one leaves the screen open with no result and the "invalid PIN" message |
| SessionProperties.FourPressesComplete | pinlock/src/main/java/com/manusunny/pinlock/components/KeypadAdapter.kt:82-89 | from an empty accumulator, four presses report lengths 1..4 and then hand over the four labels in press order, ending with an empty accumulator and dots and the outcome onCompleted decides |
| SessionProperties.CancelKeepsBuffer | pinlock/src/main/java/com/manusunny/pinlock/BasePinActivity.kt:66-69 | on any open screen without a result, a press followed by cancel finishes with CANCELLED while the pressed key stays in the accumulator |
| SessionProperties.DotsCatchUpAfterFirstPress | pinlock/src/main/java/com/manusunny/pinlock/components/KeypadAdapter.kt:82-85 | a screen opened on 1-2 leftover characters is inconsistent until its first press; that press reports the full length, the dots then count the accumulator, and the invariant holds |
| SessionProperties.StaleBufferCarriesOver | pinlock/src/main/java/com/manusunny/pinlock/components/Keypad.kt:83-102 | a screen opened on three left-over characters shows empty dots, yet its first press completes a PIN made of the left-overs and the new key |
| SessionProperties.ConfirmExample | pinlock/src/main/java/com/manusunny/pinlock/ConfirmPinActivity.kt:37-45 | with "1234" as the correct PIN, pressing 1-2-3-4 succeeds and finishes; pressing 1-2-3-5 stays open with "invalid PIN", empty dots and an empty accumulator |

## Left out

- Dot styling (drawables, sizes, margins): a dot is only its filled flag.
- Button and label styling: `setStyle`, `setSpacing`, `setLayoutParameters`, `onDraw` and `setupStyles` set text
  sizes, colours, layout parameters and dp conversions. This is presentation and floating point.
- The key-press transition animation and `vibrateIfEnabled`. The vibration is dead code: its `enabled` flag is
  hard-coded to false.
- View inflation and `convertView` recycling are not modelled. `setValues` never makes a recycled button visible
  again and never clears its text. So, with recycling, a reused invisible button could hide another key.
- The Android lifecycle is reduced to a result option and a finished flag. The model adds one assumption: a finished
  screen is gone, so later events are ignored. It also assumes that a disabled or invisible button receives no clicks.
- A new screen is assumed to start with the forgot button enabled. The Kotlin code never sets this flag; it comes
  from the screen's layout resource, which is not part of this model.
- `getItem` always returns null; it carries no behaviour.
- `isPinCorrect` and the confirm screen's `onForgotPin` are abstract in the source. They are parameters of the model.
  The forgot hook can change only the screen record, not the accumulator.
- String resources become the two-value `Message` type. `setLabel` is only ever called with those two messages.
- No digit validation is added. The accumulator accepts any key text, and the length bound is proved only for
  one-character keys, which is what the grid's labels are.
- KeypadAdapter.GetItemId: defined only for grid positions 0..10, the positions the grid asks about. Kotlin's
  truncating `%` and 32-bit overflow on other integers are not modelled.
- KeypadAdapter.KeyLabel: defined only for grid positions 0..10, for the same reason.
- String length is counted in Dafny characters rather than UTF-16 units. The two agree on the digit labels.
