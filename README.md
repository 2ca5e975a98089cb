# Skritter review automation — a Dafny model of its state machine

The program drives Skritter's flashcard review from the keyboard. It waits a
fixed time in each state, listening for a few operator keys, and when the
wait runs out it taps the keys that grade and advance the card. The states
are `init`, `test`, `test_paused`, `review`, `review_paused`, `forgotten`
and `shut_down`. The operator keys are Esc (pause or resume), "c" (mark the
current card forgotten), "l" (mark the previous card forgotten) and "q"
(quit).

The model has five modules:

- `Results` (results.dfy): `Option` and `Result`.
- `Keyboard` (keyboard.dfy): keys as the listener reports them (a special
  key, or a key code whose character may be missing), the keys the action
  enums carry and the controller taps, and `MatchOf`, the `key.char`/`key`
  comparison of `get_action`.
- `Wait` (wait.dfy): `get_action`. A `Window` lists the events delivered in
  each 100 ms tick. `Resolve` finds the enum member a key names. `WaitFor`
  is the first resolving press within the tick budget. `GetAction` is the
  nested polling loop, proved to compute `WaitFor`.
- `Machine` (machine.dfy): the states, the four action enums, the duration
  table with its 60-second default, and `Advance` (`advance`). `Advance`
  returns the next state together with the keys it tapped, in order, and
  returns `Err(InvalidState)` on `shut_down`. `Heard` names the first key the
  state recognises within its budget, so the transition lemmas read in terms
  of keys.
- `Driver` (driver.dfy): `Run` is the main loop. `Trace` is its
  specification. The whole-run lemmas cover the undisturbed cadence, pauses
  that hold, and quitting.

A paused state records where it resumes by itself: `test_paused` resumes to
`test`, `review_paused` to `review`. There is no separate pause memory. The
taps follow the code: from `test`, "c" taps "1", Left, "1", Left; from
`review`, "c" taps "1", Left.

## Model

| member | source | states |
|---|---|---|
| `Keyboard.MatchOf` | src/skritter/__init__.py:207-213 | a special key is compared as itself and a key code by its character; a key code with no character matches nothing; a match gives back the key that was pressed |
| `Wait.FirstMatch` | src/skritter/__init__.py:204-218 | the member found among the events is one of the enum's members; `FirstMatchIsEarliest` says which one |
| `Wait.WaitFor` | src/skritter/__init__.py:198-219 | the outcome of a wait is `None` or one of the enum's members; `WaitForTimeout` says when it is `None` |
| `Wait.Resolve` | src/skritter/__init__.py:214-218 | the member found is in the enum and its value equals the matched key; `None` exactly when no member's value equals it |
| `Wait.ResolveUnique` | src/skritter/__init__.py:43-68 | when the enum's values are distinct (`@unique`), a key resolves to the one member that carries it |
| `Wait.FirstMatchIsEarliest` | src/skritter/__init__.py:204-218 | the wait's answer is what the earliest resolving event resolves to; it is `None` exactly when no event resolves, so releases and unknown keys are passed over |
| `Wait.FirstMatchAppend` | src/skritter/__init__.py:209-218 | events that resolve to nothing do not end the wait; the answer comes from what follows them |
| `Wait.ObservedContains` | src/skritter/__init__.py:198-206 | an event is seen within `n` ticks exactly when it arrives in one of the first `n` ticks |
| `Wait.ObservedWithinBudget` | src/skritter/__init__.py:198-199 | ticks after the budget are never polled, whatever they hold |
| `Wait.WaitForTimeout` | src/skritter/__init__.py:198-219 | the wait returns `None` exactly when no event in the first `int(duration / 0.1)` ticks resolves |
| `Wait.FirstPressDecides` | src/skritter/__init__.py:207-218 | a resolving press at the start of the first tick ends the wait with its member, whatever follows |
| `Wait.QuietTimesOut` | src/skritter/__init__.py:207-219 | a wait in which no key goes down returns `None` |
| `Wait.GetAction` | src/skritter/__init__.py:193-219 | the tick-by-tick polling loop returns the first member a press resolves to within the tick budget, and `None` when the ticks run out |
| `Wait.Ticks` | src/skritter/__init__.py:196-199 | the budget is the number of whole 100 ms ticks in the duration, so the wait lasts within one tick of it; a duration that is not positive gives no ticks |
| `Wait.FirstKey` | src/skritter/__init__.py:204-218 | a key that is heard is one the state listens for, and it was pressed during the wait |
| `Wait.FirstMatchHearsFirstKey` | src/skritter/__init__.py:214-218 | the member the wait returns carries the first recognised key pressed, and there is no member when no recognised key is pressed |
| `Wait.FirstPressHeard` | src/skritter/__init__.py:204-218 | a recognised key pressed at the start of the first tick is the key heard |
| `Machine.InitValue` | src/skritter/__init__.py:43-46 | pause carries Esc and shut_down carries "q", both keys `init` recognises |
| `Machine.TestValue` | src/skritter/__init__.py:49-54 | toggle_pause, fail_current, fail_last and shut_down carry Esc, "c", "l" and "q", all keys a test recognises |
| `Machine.ReviewValue` | src/skritter/__init__.py:57-62 | toggle_pause, fail_current, fail_last and shut_down carry Esc, "c", "l" and "q", as in a test, all keys a review recognises |
| `Machine.ForgottenValue` | src/skritter/__init__.py:65-68 | pause carries Esc and shut_down carries "q", both keys `forgotten` recognises |
| `Machine.Duration` | src/skritter/__init__.py:96-102 | `init`, `test`, `review` and `forgotten` wait their configured durations; every other state waits the 60-second default |
| `Machine.InitTable` | src/skritter/__init__.py:43-46 | `InitAction` lists pause (Esc) and shut_down ("q") once each; their values are distinct and are exactly the keys `init` recognises |
| `Machine.TestTable` | src/skritter/__init__.py:49-54 | `TestAction` lists toggle_pause, fail_current, fail_last and shut_down (Esc, "c", "l", "q"); its values are distinct and are the keys a test recognises |
| `Machine.ReviewTable` | src/skritter/__init__.py:57-62 | `ReviewAction` has the same four members and keys as `TestAction`; its values are distinct |
| `Machine.ForgottenTable` | src/skritter/__init__.py:65-68 | `ForgottenAction` lists pause (Esc) and shut_down ("q"); its values are distinct and are the keys `forgotten` recognises |
| `Machine.KeysResolveUniquely` | src/skritter/__init__.py:214-218 | in every state's enum, a key press resolves to the single member whose value it is |
| `Machine.PausedWaitsDefault` | src/skritter/__init__.py:96-102 | the paused states are absent from the duration table, so they wait the 60-second default, which is 600 ticks |
| `Machine.AwaitHearsFirstKey` | src/skritter/__init__.py:104-178 | each state's `get_action` call (`AwaitInit`, `AwaitTest`, `AwaitReview`, `AwaitForgotten`) returns the member for the first key that state recognises within its budget; `shut_down` hears nothing |
| `Machine.PauseTest` | src/skritter/__init__.py:233-235 | `pause_test` returns a paused state that resumes into a test |
| `Machine.PauseReview` | src/skritter/__init__.py:238-240 | `pause_review` returns a paused state that resumes into a review |
| `Machine.FailCurrentReview` | src/skritter/__init__.py:227-230 | taps "1" then Left and ends in `forgotten` |
| `Machine.FailLastStep` | src/skritter/__init__.py:222-224 | taps Left, then does what `fail_current_review` does, and ends in the same `forgotten` state |
| `Machine.Advance` | src/skritter/__init__.py:93-190 | raises the invalid-state error exactly on `shut_down`; no step returns to `init`; every tap is one of "1", "3", Enter, Left and Right |
| `Machine.InitReactions` | src/skritter/__init__.py:104-115 | `init` taps nothing; a timeout leads to `test`, Esc to `test_paused` and "q" to `shut_down`; nothing else is heard there |
| `Machine.TimeoutsGrade` | src/skritter/__init__.py:117-152 | a timeout in `test` taps "3", Enter and leads to `review`; a timeout in `review` taps "3" and leads to `test` |
| `Machine.PausedReactions` | src/skritter/__init__.py:127-163 | a paused state stays put on a timeout and resumes on Esc, tapping nothing either way |
| `Machine.PauseRoundTrip` | src/skritter/__init__.py:125-163 | Esc in `test` or `review` leads to a paused state with no taps, and Esc there brings back exactly the state that was paused |
| `Machine.FailPaths` | src/skritter/__init__.py:134-169 | "c" and "l" lead to `forgotten` from a test or a review, paused or not; "l" taps Left, "1", Left; "c" taps "1", Left, "1", Left from a test and "1", Left from a review |
| `Machine.ForgottenReactions` | src/skritter/__init__.py:175-187 | in `forgotten` a timeout taps Right and leads to `test`; Esc leads to `review_paused`; "q" leads to `shut_down`; nothing else is heard there |
| `Machine.FailReturnsToTest` | src/skritter/__init__.py:134-181 | after any fail, one timeout in `forgotten` taps Right and returns to `test`, whatever the durations |
| `Machine.QuitInOneStep` | src/skritter/__init__.py:104-185 | "q" leads to `shut_down` in one step from every state except `shut_down`, tapping nothing |
| `Machine.PressHeard` | src/skritter/__init__.py:198-218 | a recognised key pressed at the start of a wait of at least one tick is the key the state hears |
| `Machine.ShortWaitHearsNothing` | src/skritter/__init__.py:198-199 | a wait shorter than one tick polls nothing, so it always times out |
| `Machine.QuietHearsNothing` | src/skritter/__init__.py:207-208 | a wait in which no key goes down hears nothing, in every state |
| `Machine.QuietSteps` | src/skritter/__init__.py:121-152 | with no key pressed, a test taps "3", Enter and leads to a review, and a review taps "3" and leads to a test |
| `Driver.Trace` | src/skritter/__init__.py:84-89 | a run stops at `shut_down` or when the input runs out, never advances from `shut_down`, and never returns to `init` |
| `Driver.OnlyGradingKeys` | src/skritter/__init__.py:93-190 | whatever the operator presses, a whole run taps only "1", "3", Enter, Left and Right |
| `Driver.Run` | src/skritter/__init__.py:84-90 | the main loop starts in `init`, advances until `shut_down` comes back, and collects the taps of every step in order |
| `Driver.QuietCadence` | src/skritter/__init__.py:117-152 | with no key pressed, tests and reviews alternate and the taps are "3", Enter for each test and "3" for each review |
| `Driver.QuietRound` | src/skritter/__init__.py:121-152 | two waits with no key pressed, starting in a test, tap "3", Enter, "3" and come back to a test |
| `Driver.LeftAlone` | src/skritter/__init__.py:84-124 | with no key pressed, the program leaves `init` without a tap and then keeps that cadence for every remaining wait |
| `Driver.PausedHoldsStill` | src/skritter/__init__.py:127-158 | a paused state with no key pressed stays paused and taps nothing, for any number of waits |
| `Driver.QuitEndsRun` | src/skritter/__init__.py:86-88 | "q" heard in the first wait ends the run after that one step, with nothing tapped |

## Left out

- Real-time waiting is not modelled: `default_timer`, the `Events` listener opened for each poll, and the timed `events.get`. A `Window` stands for the events delivered during each tick. Events lost between two listeners are not modelled.
- Wait.Ticks: computes `int(duration / 0.1)` on exact reals, not floats. Durations that are not finite, or so large that dividing by 0.1 overflows, make `int(duration / 0.1)` raise (OverflowError, or ValueError for NaN); the model's real durations have no such case. The floating-point tick count can also differ from the exact count by one in either direction (0.3 seconds gives 2 ticks in floats and 3 here; a duration just under 0.5 that parses to 0.5 gives 5 in floats and 4 here).
- The pynput controller is not modelled. Each tap is an element of `Step.taps`, and `Run` concatenates them into a log.
- Observability is left out: the tqdm progress bars, loguru messages, and the padded `__str__` of `State` and `FailMsg`.
- The click command-line options and their default durations are left out. `Durations` takes the four durations as given.
- `Driver.Run`: `main` may loop forever. `Run` reads a finite sequence of windows and stops when it reaches `shut_down` or the windows run out.
- The `Invalid action` errors in the `init`, `test`, `review` and `forgotten` branches are absent. The model matches over each action enum exhaustively, so those branches cannot be reached.
- Exceptions from the listener or the controller are not modelled.
- Special keys other than Esc, Enter, Left and Right are one constructor, `OtherSpecial(code)`.
- main.py, skritter/__init__.py and skritter/__main__.py are not part of this model. They hold earlier versions of the program and a mouse-driven variant.
