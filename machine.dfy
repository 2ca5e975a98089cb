/**
 * The review automation's state machine: the states, the action each state
 * listens for, the wait durations, and `advance`, which waits in the current
 * state, taps keys and names the next state.
 *
 * The controller's taps are returned with the next state as a `Step`, in the
 * order they are made, instead of being sent to the keyboard.
 */
module Machine {
  import opened Results
  import opened Keyboard
  import opened Wait

  datatype State = Init | Test | TestPaused | Review | ReviewPaused | Forgotten | ShutDown

  /** A paused state holds still; which one it is says where unpausing resumes. */
  predicate Paused(s: State)
  {
    s == TestPaused || s == ReviewPaused
  }

  /** The state unpausing returns to: a test for a paused test, a review for a paused review. */
  function Resumed(p: State): State
    requires Paused(p)
  {
    if p == TestPaused then Test else Review
  }

  /** The actions of `init`, each carrying the key that triggers it. */
  datatype InitAction = Pause | ShutDown
  /** The actions of `test` and `test_paused`. */
  datatype TestAction = TogglePause | FailCurrent | FailLast | ShutDown
  /** The actions of `review` and `review_paused`. */
  datatype ReviewAction = TogglePause | FailCurrent | FailLast | ShutDown
  /** The actions of `forgotten`. */
  datatype ForgottenAction = Pause | ShutDown

  const InitMembers: seq<InitAction> := [InitAction.Pause, InitAction.ShutDown]
  const TestMembers: seq<TestAction> :=
    [TestAction.TogglePause, TestAction.FailCurrent, TestAction.FailLast, TestAction.ShutDown]
  const ReviewMembers: seq<ReviewAction> :=
    [ReviewAction.TogglePause, ReviewAction.FailCurrent, ReviewAction.FailLast, ReviewAction.ShutDown]
  const ForgottenMembers: seq<ForgottenAction> := [ForgottenAction.Pause, ForgottenAction.ShutDown]

  function InitValue(a: InitAction): (k: Key)
    ensures k in Recognised(Init)
    ensures a.Pause? <==> k == Named(Esc)
  {
    match a
    case Pause => Named(Esc)
    case ShutDown => Char('q')
  }

  function TestValue(a: TestAction): (k: Key)
    ensures k in Recognised(Test)
    ensures a.TogglePause? <==> k == Named(Esc)
    ensures a.ShutDown? <==> k == Char('q')
    ensures a.FailCurrent? <==> k == Char('c')
    ensures a.FailLast? <==> k == Char('l')
  {
    match a
    case TogglePause => Named(Esc)
    case FailCurrent => Char('c')
    case FailLast => Char('l')
    case ShutDown => Char('q')
  }

  function ReviewValue(a: ReviewAction): (k: Key)
    ensures k in Recognised(Review)
    ensures a.TogglePause? <==> k == Named(Esc)
    ensures a.ShutDown? <==> k == Char('q')
    ensures a.FailCurrent? <==> k == Char('c')
    ensures a.FailLast? <==> k == Char('l')
  {
    match a
    case TogglePause => Named(Esc)
    case FailCurrent => Char('c')
    case FailLast => Char('l')
    case ShutDown => Char('q')
  }

  function ForgottenValue(a: ForgottenAction): (k: Key)
    ensures k in Recognised(Forgotten)
    ensures a.Pause? <==> k == Named(Esc)
  {
    match a
    case Pause => Named(Esc)
    case ShutDown => Char('q')
  }

  /** The keys each state reacts to; every other key is ignored while it waits. */
  function Recognised(s: State): set<Key>
  {
    match s
    case Init | Forgotten => {Named(Esc), Char('q')}
    case Test | TestPaused | Review | ReviewPaused => {Named(Esc), Char('c'), Char('l'), Char('q')}
    case ShutDown => {}
  }

  /**
   * Each action enum lists every member once, its values are distinct, and
   * they are exactly the keys its states recognise.
   */
  lemma InitTable()
    ensures forall a: InitAction :: a in InitMembers
    ensures Unique(InitMembers, InitValue)
    ensures Values(InitMembers, InitValue) == Recognised(Init)
  {
    forall a: InitAction ensures a in InitMembers {
      assert a == InitMembers[0] || a == InitMembers[1];
    }
    assert InitValue(InitMembers[0]) in Values(InitMembers, InitValue);
    assert InitValue(InitMembers[1]) in Values(InitMembers, InitValue);
  }

  lemma TestTable()
    ensures forall a: TestAction :: a in TestMembers
    ensures Unique(TestMembers, TestValue)
    ensures Values(TestMembers, TestValue) == Recognised(Test)
  {
    forall a: TestAction ensures a in TestMembers {
      assert a == TestMembers[0] || a == TestMembers[1] || a == TestMembers[2] || a == TestMembers[3];
    }
    assert TestValue(TestMembers[0]) in Values(TestMembers, TestValue);
    assert TestValue(TestMembers[1]) in Values(TestMembers, TestValue);
    assert TestValue(TestMembers[2]) in Values(TestMembers, TestValue);
    assert TestValue(TestMembers[3]) in Values(TestMembers, TestValue);
  }

  lemma ReviewTable()
    ensures forall a: ReviewAction :: a in ReviewMembers
    ensures Unique(ReviewMembers, ReviewValue)
    ensures Values(ReviewMembers, ReviewValue) == Recognised(Review)
  {
    forall a: ReviewAction ensures a in ReviewMembers {
      assert a == ReviewMembers[0] || a == ReviewMembers[1] || a == ReviewMembers[2] || a == ReviewMembers[3];
    }
    assert ReviewValue(ReviewMembers[0]) in Values(ReviewMembers, ReviewValue);
    assert ReviewValue(ReviewMembers[1]) in Values(ReviewMembers, ReviewValue);
    assert ReviewValue(ReviewMembers[2]) in Values(ReviewMembers, ReviewValue);
    assert ReviewValue(ReviewMembers[3]) in Values(ReviewMembers, ReviewValue);
  }

  lemma ForgottenTable()
    ensures forall a: ForgottenAction :: a in ForgottenMembers
    ensures Unique(ForgottenMembers, ForgottenValue)
    ensures Values(ForgottenMembers, ForgottenValue) == Recognised(Forgotten)
  {
    forall a: ForgottenAction ensures a in ForgottenMembers {
      assert a == ForgottenMembers[0] || a == ForgottenMembers[1];
    }
    assert ForgottenValue(ForgottenMembers[0]) in Values(ForgottenMembers, ForgottenValue);
    assert ForgottenValue(ForgottenMembers[1]) in Values(ForgottenMembers, ForgottenValue);
  }

  /** A key press resolves to the one member whose value it is, in every state's enum. */
  lemma KeysResolveUniquely()
    ensures forall a: InitAction :: Resolve(InitMembers, InitValue, Some(InitValue(a))) == Some(a)
    ensures forall a: TestAction :: Resolve(TestMembers, TestValue, Some(TestValue(a))) == Some(a)
    ensures forall a: ReviewAction :: Resolve(ReviewMembers, ReviewValue, Some(ReviewValue(a))) == Some(a)
    ensures forall a: ForgottenAction :: Resolve(ForgottenMembers, ForgottenValue, Some(ForgottenValue(a))) == Some(a)
  {
    InitTable();
    TestTable();
    ReviewTable();
    ForgottenTable();
    forall a: InitAction ensures Resolve(InitMembers, InitValue, Some(InitValue(a))) == Some(a) {
      ResolveUnique(InitMembers, InitValue, a);
    }
    forall a: TestAction ensures Resolve(TestMembers, TestValue, Some(TestValue(a))) == Some(a) {
      ResolveUnique(TestMembers, TestValue, a);
    }
    forall a: ReviewAction ensures Resolve(ReviewMembers, ReviewValue, Some(ReviewValue(a))) == Some(a) {
      ResolveUnique(ReviewMembers, ReviewValue, a);
    }
    forall a: ForgottenAction ensures Resolve(ForgottenMembers, ForgottenValue, Some(ForgottenValue(a))) == Some(a) {
      ResolveUnique(ForgottenMembers, ForgottenValue, a);
    }
  }

  /** The wait, in seconds, of `init`, `test`, `review` and `forgotten`. */
  datatype Durations = Durations(init: real, test: real, review: real, forgotten: real)

  /** How long to wait in `s`: its table entry, or 60 seconds for a state the table lacks. */
  function Duration(d: Durations, s: State): (r: real)
    ensures s.Init? ==> r == d.init
    ensures s.Test? ==> r == d.test
    ensures s.Review? ==> r == d.review
    ensures s.Forgotten? ==> r == d.forgotten
    ensures Paused(s) || s.ShutDown? ==> r == 60.0
  {
    var table := map[Init := d.init, Test := d.test, Review := d.review, Forgotten := d.forgotten];
    if s in table then table[s] else 60.0
  }

  /** Paused states, absent from the table, wait the 60-second default: 600 ticks. */
  lemma PausedWaitsDefault(d: Durations, p: State)
    requires Paused(p)
    ensures Duration(d, p) == 60.0 && Ticks(Duration(d, p)) == 600
  {
  }

  /** The key of the first press within the wait's tick budget that `s` recognises. */
  function Heard(s: State, d: Durations, w: Window): (k: Option<Key>)
  {
    FirstKey(Recognised(s), Observed(w, Ticks(Duration(d, s))))
  }

  // The four `get_action` calls of `advance`, one per enum.

  function AwaitInit(d: Durations, w: Window): Option<InitAction>
  {
    WaitFor(InitMembers, InitValue, w, Ticks(Duration(d, Init)))
  }

  function AwaitTest(s: State, d: Durations, w: Window): Option<TestAction>
  {
    WaitFor(TestMembers, TestValue, w, Ticks(Duration(d, s)))
  }

  function AwaitReview(s: State, d: Durations, w: Window): Option<ReviewAction>
  {
    WaitFor(ReviewMembers, ReviewValue, w, Ticks(Duration(d, s)))
  }

  function AwaitForgotten(d: Durations, w: Window): Option<ForgottenAction>
  {
    WaitFor(ForgottenMembers, ForgottenValue, w, Ticks(Duration(d, Forgotten)))
  }

  /** Each wait returns the member carrying the key heard first, and `None` when none was. */
  lemma AwaitHearsFirstKey(s: State, d: Durations, w: Window)
    ensures s == Init ==> ValueOf(AwaitInit(d, w), InitValue) == Heard(s, d, w)
    ensures s in {Test, TestPaused} ==> ValueOf(AwaitTest(s, d, w), TestValue) == Heard(s, d, w)
    ensures s in {Review, ReviewPaused} ==> ValueOf(AwaitReview(s, d, w), ReviewValue) == Heard(s, d, w)
    ensures s == Forgotten ==> ValueOf(AwaitForgotten(d, w), ForgottenValue) == Heard(s, d, w)
    ensures s.ShutDown? ==> Heard(s, d, w) == None
  {
    match s
    case Init => InitHearsFirstKey(d, w);
    case Test | TestPaused => TestHearsFirstKey(s, d, w);
    case Review | ReviewPaused => ReviewHearsFirstKey(s, d, w);
    case Forgotten => ForgottenHearsFirstKey(d, w);
    case ShutDown =>
  }

  lemma InitHearsFirstKey(d: Durations, w: Window)
    ensures ValueOf(AwaitInit(d, w), InitValue) == Heard(Init, d, w)
  {
    InitTable();
    FirstMatchHearsFirstKey(InitMembers, InitValue, Observed(w, Ticks(Duration(d, Init))));
  }

  lemma TestHearsFirstKey(s: State, d: Durations, w: Window)
    requires s in {Test, TestPaused}
    ensures ValueOf(AwaitTest(s, d, w), TestValue) == Heard(s, d, w)
  {
    TestTable();
    FirstMatchHearsFirstKey(TestMembers, TestValue, Observed(w, Ticks(Duration(d, s))));
  }

  lemma ReviewHearsFirstKey(s: State, d: Durations, w: Window)
    requires s in {Review, ReviewPaused}
    ensures ValueOf(AwaitReview(s, d, w), ReviewValue) == Heard(s, d, w)
  {
    ReviewTable();
    FirstMatchHearsFirstKey(ReviewMembers, ReviewValue, Observed(w, Ticks(Duration(d, s))));
  }

  lemma ForgottenHearsFirstKey(d: Durations, w: Window)
    ensures ValueOf(AwaitForgotten(d, w), ForgottenValue) == Heard(Forgotten, d, w)
  {
    ForgottenTable();
    FirstMatchHearsFirstKey(ForgottenMembers, ForgottenValue, Observed(w, Ticks(Duration(d, Forgotten))));
  }

  datatype Step = Step(next: State, taps: seq<Key>)

  datatype Error = InvalidState(state: State)

  /** `pause_test`: a paused test, which unpausing resumes into a test. */
  function PauseTest(): (p: State)
    ensures Paused(p) && Resumed(p) == Test
  {
    TestPaused
  }

  /** `pause_review`: a paused review, which unpausing resumes into a review. */
  function PauseReview(): (p: State)
    ensures Paused(p) && Resumed(p) == Review
  {
    ReviewPaused
  }

  /** `fail_current_review`: grade the card on screen as forgotten, step back to it, then confirm in `forgotten`. */
  function FailCurrentReview(): (r: Step)
    ensures r.next == Forgotten && r.taps == [Char('1'), Named(Left)]
  {
    Step(Forgotten, [Char('1'), Named(Left)])
  }

  /** `fail_last`: step back to the previous card, then mark it as `fail_current_review` does. */
  function FailLastStep(): (r: Step)
    ensures r.next == FailCurrentReview().next
    ensures r.taps == [Named(Left)] + FailCurrentReview().taps
  {
    var f := FailCurrentReview();
    Step(f.next, [Named(Left)] + f.taps)
  }

  /**
   * `advance`: wait in `s` for one of its actions, tap what that outcome calls
   * for and name the next state. The terminal state has no branch and is an error.
   */
  function Advance(s: State, d: Durations, w: Window): (r: Result<Step, Error>)
    ensures r.Err? <==> s.ShutDown?
    ensures r.Err? ==> r.error == InvalidState(s)
    ensures r.Ok? ==> r.value.next != Init
    ensures r.Ok? ==> forall k :: k in r.value.taps ==> Tappable(k)
  {
    match s
    case Init =>
      var a := AwaitInit(d, w);
      Ok(match a
         case None => Step(Test, [])
         case Some(Pause) => Step(PauseTest(), [])
         case Some(ShutDown) => Step(State.ShutDown, []))
    case Test | TestPaused =>
      var a := AwaitTest(s, d, w);
      Ok(match a
         case None => if s == Test then Step(Review, [Char('3'), Named(Enter)]) else Step(TestPaused, [])
         case Some(TogglePause) => if s == Test then Step(PauseTest(), []) else Step(Test, [])
         case Some(FailCurrent) => var f := FailLastStep(); Step(f.next, [Char('1')] + f.taps)
         case Some(FailLast) => FailLastStep()
         case Some(ShutDown) => Step(State.ShutDown, []))
    case Review | ReviewPaused =>
      var a := AwaitReview(s, d, w);
      Ok(match a
         case None => if s == Review then Step(Test, [Char('3')]) else Step(ReviewPaused, [])
         case Some(TogglePause) => if s == Review then Step(PauseReview(), []) else Step(Review, [])
         case Some(FailCurrent) => FailCurrentReview()
         case Some(FailLast) => FailLastStep()
         case Some(ShutDown) => Step(State.ShutDown, []))
    case Forgotten =>
      var a := AwaitForgotten(d, w);
      Ok(match a
         case None => Step(Test, [Named(Right)])
         case Some(Pause) => Step(PauseReview(), [])
         case Some(ShutDown) => Step(State.ShutDown, []))
    case ShutDown =>
      Err(InvalidState(s))
  }

  /** From `init` every outcome has its own successor, and nothing is tapped. */
  lemma InitReactions(d: Durations, w: Window)
    ensures Heard(Init, d, w) in {None, Some(Named(Esc)), Some(Char('q'))}
    ensures Advance(Init, d, w).Ok? && Advance(Init, d, w).value.taps == []
    ensures Heard(Init, d, w) == None ==> Advance(Init, d, w).value.next == Test
    ensures Heard(Init, d, w) == Some(Named(Esc)) ==> Advance(Init, d, w).value.next == TestPaused
    ensures Heard(Init, d, w) == Some(Char('q')) ==> Advance(Init, d, w).value.next == State.ShutDown
  {
    AwaitHearsFirstKey(Init, d, w);
  }

  /** Left alone, a test is graded "3" and submitted, and a review is graded "3". */
  lemma TimeoutsGrade(d: Durations, w: Window)
    ensures Heard(Test, d, w) == None ==> Advance(Test, d, w) == Ok(Step(Review, [Char('3'), Named(Enter)]))
    ensures Heard(Review, d, w) == None ==> Advance(Review, d, w) == Ok(Step(Test, [Char('3')]))
  {
    AwaitHearsFirstKey(Test, d, w);
    AwaitHearsFirstKey(Review, d, w);
  }

  /** A paused state stays put on a timeout and resumes on Esc, tapping nothing. */
  lemma PausedReactions(p: State, d: Durations, w: Window)
    requires Paused(p)
    ensures Heard(p, d, w) == None ==> Advance(p, d, w) == Ok(Step(p, []))
    ensures Heard(p, d, w) == Some(Named(Esc)) ==> Advance(p, d, w) == Ok(Step(Resumed(p), []))
  {
    AwaitHearsFirstKey(p, d, w);
  }

  /** Esc pauses a test or a review, and Esc in the paused state brings back exactly that state. */
  lemma PauseRoundTrip(s: State, d: Durations, w1: Window, w2: Window)
    requires s == Test || s == Review
    requires Heard(s, d, w1) == Some(Named(Esc))
    ensures Advance(s, d, w1).Ok? && Advance(s, d, w1).value.taps == []
    ensures Paused(Advance(s, d, w1).value.next)
    ensures var p := Advance(s, d, w1).value.next;
      Heard(p, d, w2) == Some(Named(Esc)) ==> Advance(p, d, w2) == Ok(Step(s, []))
  {
    AwaitHearsFirstKey(s, d, w1);
    PausedReactions(Advance(s, d, w1).value.next, d, w2);
  }

  /**
   * "c" and "l" mark a card as forgotten from a test or a review, paused or
   * not, and always land in `forgotten` after a fixed run of taps.
   */
  lemma FailPaths(s: State, d: Durations, w: Window)
    requires s in {Test, TestPaused, Review, ReviewPaused}
    requires Heard(s, d, w) in {Some(Char('c')), Some(Char('l'))}
    ensures Advance(s, d, w).Ok? && Advance(s, d, w).value.next == Forgotten
    ensures Heard(s, d, w) == Some(Char('l')) ==>
      Advance(s, d, w).value.taps == [Named(Left), Char('1'), Named(Left)]
    ensures Heard(s, d, w) == Some(Char('c')) && s in {Test, TestPaused} ==>
      Advance(s, d, w).value.taps == [Char('1'), Named(Left), Char('1'), Named(Left)]
    ensures Heard(s, d, w) == Some(Char('c')) && s in {Review, ReviewPaused} ==>
      Advance(s, d, w).value.taps == [Char('1'), Named(Left)]
  {
    AwaitHearsFirstKey(s, d, w);
    if s in {Test, TestPaused} {
      assert AwaitTest(s, d, w) in {Some(TestAction.FailCurrent), Some(TestAction.FailLast)};
      TestFailPaths(s, d, w);
    } else {
      assert AwaitReview(s, d, w) in {Some(ReviewAction.FailCurrent), Some(ReviewAction.FailLast)};
      ReviewFailPaths(s, d, w);
    }
  }

  lemma TestFailPaths(s: State, d: Durations, w: Window)
    requires s in {Test, TestPaused}
    ensures AwaitTest(s, d, w) == Some(TestAction.FailCurrent) ==>
      Advance(s, d, w) == Ok(Step(Forgotten, [Char('1'), Named(Left), Char('1'), Named(Left)]))
    ensures AwaitTest(s, d, w) == Some(TestAction.FailLast) ==>
      Advance(s, d, w) == Ok(Step(Forgotten, [Named(Left), Char('1'), Named(Left)]))
  {
    assert FailLastStep().taps == [Named(Left), Char('1'), Named(Left)];
    assert [Char('1')] + FailLastStep().taps == [Char('1'), Named(Left), Char('1'), Named(Left)];
  }

  lemma ReviewFailPaths(s: State, d: Durations, w: Window)
    requires s in {Review, ReviewPaused}
    ensures AwaitReview(s, d, w) == Some(ReviewAction.FailCurrent) ==>
      Advance(s, d, w) == Ok(Step(Forgotten, [Char('1'), Named(Left)]))
    ensures AwaitReview(s, d, w) == Some(ReviewAction.FailLast) ==>
      Advance(s, d, w) == Ok(Step(Forgotten, [Named(Left), Char('1'), Named(Left)]))
  {
    assert FailLastStep().taps == [Named(Left), Char('1'), Named(Left)];
  }

  /** `forgotten` moves on to the next test on a timeout, pauses into a review on Esc, and stops on "q". */
  lemma ForgottenReactions(d: Durations, w: Window)
    ensures Heard(Forgotten, d, w) in {None, Some(Named(Esc)), Some(Char('q'))}
    ensures Heard(Forgotten, d, w) == None ==> Advance(Forgotten, d, w) == Ok(Step(Test, [Named(Right)]))
    ensures Heard(Forgotten, d, w) == Some(Named(Esc)) ==> Advance(Forgotten, d, w) == Ok(Step(ReviewPaused, []))
    ensures Heard(Forgotten, d, w) == Some(Char('q')) ==> Advance(Forgotten, d, w) == Ok(Step(State.ShutDown, []))
  {
    AwaitHearsFirstKey(Forgotten, d, w);
  }

  /** Every fail path is back at a test after one timeout in `forgotten`, whatever its duration. */
  lemma FailReturnsToTest(s: State, d: Durations, w1: Window, w2: Window)
    requires s in {Test, TestPaused, Review, ReviewPaused}
    requires Heard(s, d, w1) in {Some(Char('c')), Some(Char('l'))}
    requires Heard(Forgotten, d, w2) == None
    ensures Advance(s, d, w1).Ok?
    ensures Advance(Advance(s, d, w1).value.next, d, w2) == Ok(Step(Test, [Named(Right)]))
  {
    FailPaths(s, d, w1);
    ForgottenReactions(d, w2);
  }

  /** "q" stops the machine in one step from every state but the terminal one, tapping nothing. */
  lemma QuitInOneStep(s: State, d: Durations, w: Window)
    requires !s.ShutDown?
    requires Heard(s, d, w) == Some(Char('q'))
    ensures Advance(s, d, w) == Ok(Step(State.ShutDown, []))
  {
    AwaitHearsFirstKey(s, d, w);
  }

  /** A key a state recognises, pressed at the start of a wait of at least one tick, is what it hears. */
  lemma PressHeard(s: State, d: Durations, w: Window, k: Key)
    requires 0 < Ticks(Duration(d, s))
    requires 0 < |w| && 0 < |w[0]| && w[0][0] == Press(PressOf(k))
    requires k in Recognised(s)
    ensures Heard(s, d, w) == Some(k)
  {
    FirstPressHeard(Recognised(s), w, Ticks(Duration(d, s)), k);
  }

  /** A wait shorter than one tick polls nothing, so every key is missed and the wait times out. */
  lemma ShortWaitHearsNothing(s: State, d: Durations, w: Window)
    requires Duration(d, s) < TickLength
    ensures Heard(s, d, w) == None
  {
  }

  /** A wait in which no key goes down hears nothing, whatever the state. */
  lemma QuietHearsNothing(s: State, d: Durations, w: Window)
    requires Quiet(w)
    ensures Heard(s, d, w) == None
  {
    var events := Observed(w, Ticks(Duration(d, s)));
    forall i | 0 <= i < |events| ensures events[i].Release? {
      assert events[i] in events;
      ObservedContains(w, Ticks(Duration(d, s)), events[i]);
    }
  }

  /** Undisturbed, a test is graded and submitted, and a review is graded. */
  lemma QuietSteps(d: Durations, w: Window)
    requires Quiet(w)
    ensures Advance(Test, d, w) == Ok(Step(Review, [Char('3'), Named(Enter)]))
    ensures Advance(Review, d, w) == Ok(Step(Test, [Char('3')]))
  {
    QuietHearsNothing(Test, d, w);
    QuietHearsNothing(Review, d, w);
    TimeoutsGrade(d, w);
  }
}
