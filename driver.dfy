/**
 * The main loop: starting in `init`, advance the machine until it reaches
 * `shut_down`. Each `advance` consumes one observation window; the taps of
 * every step are appended, in order, to a log of what the controller typed.
 */
module Driver {
  import opened Results
  import opened Keyboard
  import opened Wait
  import opened Machine

  /** Where a run stopped, everything it tapped, and how many waits it took. */
  datatype Session = Session(final: State, log: seq<Key>, steps: nat)

  /**
   * The run from `s` over successive windows: advance until `shut_down`, or
   * until the windows run out. It never advances from `shut_down`.
   */
  function Trace(s: State, d: Durations, ws: seq<Window>): (r: Session)
    ensures r.steps <= |ws|
    ensures r.final.ShutDown? || r.steps == |ws|
    ensures s.ShutDown? ==> r == Session(s, [], 0)
    ensures 0 < r.steps ==> r.final != Init
    decreases |ws|
  {
    if s.ShutDown? || ws == [] then Session(s, [], 0)
    else
      var step := Advance(s, d, ws[0]).value;
      var rest := Trace(step.next, d, ws[1..]);
      Session(rest.final, step.taps + rest.log, rest.steps + 1)
  }

  /**
   * `main`: from `init`, advance on each window in turn and stop as soon as
   * `shut_down` comes back (or the windows are exhausted). The loop never
   * hands `shut_down` to `advance`, so the invalid-state error never arises.
   */
  method Run(d: Durations, ws: seq<Window>) returns (final: State, log: seq<Key>, steps: nat)
    ensures Session(final, log, steps) == Trace(Init, d, ws)
  {
    var state := Init;
    log, steps := [], 0;
    while steps < |ws| && !state.ShutDown?
      invariant steps <= |ws|
      invariant Trace(Init, d, ws) == (var rest := Trace(state, d, ws[steps..]);
                                      Session(rest.final, log + rest.log, steps + rest.steps))
    {
      var step := Advance(state, d, ws[steps]).value;
      assert ws[steps..][0] == ws[steps] && ws[steps..][1..] == ws[steps + 1..];
      TraceStep(state, step.next, step.taps, d, ws[steps..]);
      ghost var rest := Trace(step.next, d, ws[steps + 1..]);
      assert log + (step.taps + rest.log) == (log + step.taps) + rest.log;
      state := step.next;
      log := log + step.taps;
      steps := steps + 1;
    }
    final := state;
  }

  /** Whatever the operator does, a run taps only the grading keys "1" and "3", Enter, Left and Right. */
  lemma {:induction false} OnlyGradingKeys(s: State, d: Durations, ws: seq<Window>)
    ensures forall k :: k in Trace(s, d, ws).log ==> Tappable(k)
    decreases |ws|
  {
    if !s.ShutDown? && ws != [] {
      OnlyGradingKeys(Advance(s, d, ws[0]).value.next, d, ws[1..]);
    }
  }

  /** The taps of `n` undisturbed waits from a test: "3", Enter to pass each test, "3" to pass each review. */
  function Cadence(n: nat): seq<Key>
  {
    if n == 0 then []
    else if n == 1 then [Char('3'), Named(Enter)]
    else [Char('3'), Named(Enter), Char('3')] + Cadence(n - 2)
  }

  /** No key goes down in any of the windows. */
  ghost predicate AllQuiet(ws: seq<Window>)
  {
    forall i :: 0 <= i < |ws| ==> Quiet(ws[i])
  }

  /** With nobody at the keyboard, tests and reviews alternate, each passed with a "3". */
  lemma {:induction false} QuietCadence(d: Durations, ws: seq<Window>)
    requires AllQuiet(ws)
    ensures Trace(Test, d, ws) == Session(if |ws| % 2 == 0 then Test else Review, Cadence(|ws|), |ws|)
  {
    if |ws| == 1 {
      QuietSteps(d, ws[0]);
      TraceStep(Test, Review, [Char('3'), Named(Enter)], d, ws);
    } else if |ws| > 1 {
      QuietRound(d, ws);
      QuietSuffix(ws);
      QuietCadence(d, ws[2..]);
      assert (|ws| - 2) % 2 == |ws| % 2;
      assert [Char('3'), Named(Enter), Char('3')] + Cadence(|ws| - 2) == Cadence(|ws|);
    }
  }

  /** The first two windows of a quiet run are quiet, and so is the rest. */
  lemma QuietSuffix(ws: seq<Window>)
    requires AllQuiet(ws) && 2 <= |ws|
    ensures Quiet(ws[0]) && Quiet(ws[1]) && AllQuiet(ws[2..])
  {
  }

  /** Two undisturbed waits from a test pass one test and one review and come back to a test. */
  lemma QuietRound(d: Durations, ws: seq<Window>)
    requires 2 <= |ws| && Quiet(ws[0]) && Quiet(ws[1])
    ensures var r := Trace(Test, d, ws[2..]);
      Trace(Test, d, ws) == Session(r.final, [Char('3'), Named(Enter), Char('3')] + r.log, r.steps + 2)
  {
    QuietSteps(d, ws[0]);
    QuietSteps(d, ws[1]);
    TraceStep(Test, Review, [Char('3'), Named(Enter)], d, ws);
    assert ws[1..][0] == ws[1] && ws[1..][1..] == ws[2..];
    TraceStep(Review, Test, [Char('3')], d, ws[1..]);
    var r2 := Trace(Test, d, ws[2..]);
    assert [Char('3'), Named(Enter)] + ([Char('3')] + r2.log) == [Char('3'), Named(Enter), Char('3')] + r2.log;
  }

  /** One step of a run: the step's taps come first, then the rest of the run from the next state. */
  lemma TraceStep(s: State, next: State, taps: seq<Key>, d: Durations, ws: seq<Window>)
    requires ws != [] && Advance(s, d, ws[0]) == Ok(Step(next, taps))
    ensures var r := Trace(next, d, ws[1..]);
      Trace(s, d, ws) == Session(r.final, taps + r.log, r.steps + 1)
  {
  }

  /** Left alone, the program leaves `init` for a test without a tap, then keeps the cadence. */
  lemma LeftAlone(d: Durations, ws: seq<Window>)
    requires AllQuiet(ws) && ws != []
    ensures Trace(Init, d, ws).log == Cadence(|ws| - 1)
    ensures Trace(Init, d, ws).steps == |ws|
  {
    QuietHearsNothing(Init, d, ws[0]);
    InitReactions(d, ws[0]);
    QuietCadence(d, ws[1..]);
  }

  /** A paused state with nobody at the keyboard stays paused and taps nothing, however long. */
  lemma {:induction false} PausedHoldsStill(p: State, d: Durations, ws: seq<Window>)
    requires Paused(p) && AllQuiet(ws)
    ensures Trace(p, d, ws) == Session(p, [], |ws|)
  {
    if ws != [] {
      QuietHearsNothing(p, d, ws[0]);
      PausedReactions(p, d, ws[0]);
      PausedHoldsStill(p, d, ws[1..]);
    }
  }

  /** "q" heard in the first wait ends the run there, with nothing tapped, whatever would follow. */
  lemma QuitEndsRun(s: State, d: Durations, ws: seq<Window>)
    requires !s.ShutDown? && ws != []
    requires Heard(s, d, ws[0]) == Some(Char('q'))
    ensures Trace(s, d, ws) == Session(State.ShutDown, [], 1)
  {
    QuitInOneStep(s, d, ws[0]);
  }
}
