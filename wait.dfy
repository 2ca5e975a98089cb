/**
 * The wait window of `get_action`: resolving a pressed key to a member of an
 * action enum, and polling the listener tick by tick until a press resolves or
 * the tick budget runs out.
 *
 * Real time is abstracted away: a `Window` lists, for each 100 ms tick, the
 * events the listener delivered during that tick. Ticks past the end of the
 * window deliver nothing.
 */
module Wait {
  import opened Results
  import opened Keyboard

  /** Events delivered during each successive tick of a wait. */
  type Window = seq<seq<Event>>

  /** The values of an enum's members are pairwise distinct: what `@unique` enforces. */
  ghost predicate Unique<A>(members: seq<A>, value: A -> Key)
  {
    forall i, j :: 0 <= i < j < |members| ==> value(members[i]) != value(members[j])
  }

  /**
   * The first member, in declaration order, whose value equals the matched key:
   * `next(action for action in actions if action.value == match)`, with `None`
   * for the `StopIteration` that is suppressed.
   */
  function Resolve<A>(members: seq<A>, value: A -> Key, m: Option<Key>): (r: Option<A>)
    ensures r.Some? ==> r.value in members && m == Some(value(r.value))
    ensures r.None? <==> forall a :: a in members ==> m != Some(value(a))
  {
    if members == [] then None
    else if m == Some(value(members[0])) then Some(members[0])
    else Resolve(members[1..], value, m)
  }

  /** Resolution is deterministic: under `@unique` the matching member is the only one. */
  lemma {:induction false} ResolveUnique<A>(members: seq<A>, value: A -> Key, a: A)
    requires Unique(members, value)
    requires a in members
    ensures Resolve(members, value, Some(value(a))) == Some(a)
  {
    // Resolve finds some member carrying value(a); under Unique that member is a.
  }

  /** What one event resolves to: presses are matched, releases are ignored. */
  function ResolveEvent<A>(members: seq<A>, value: A -> Key, e: Event): Option<A>
  {
    if e.Press? then Resolve(members, value, MatchOf(e.key)) else None
  }

  /** The action of the first event that resolves, if any does. */
  function FirstMatch<A>(members: seq<A>, value: A -> Key, events: seq<Event>): (r: Option<A>)
    ensures r.Some? ==> r.value in members
  {
    if events == [] then None
    else
      var a := ResolveEvent(members, value, events[0]);
      if a.Some? then a else FirstMatch(members, value, events[1..])
  }

  /**
   * `FirstMatch` finds the earliest event that resolves: it is `None` exactly
   * when none does, and otherwise names what the first resolving event resolves to.
   */
  lemma {:induction false} FirstMatchIsEarliest<A>(members: seq<A>, value: A -> Key, events: seq<Event>)
    ensures FirstMatch(members, value, events).None?
        <==> forall i :: 0 <= i < |events| ==> ResolveEvent(members, value, events[i]).None?
    ensures FirstMatch(members, value, events).Some? ==>
              exists i :: 0 <= i < |events| && ResolveEvent(members, value, events[i]) == FirstMatch(members, value, events)
                && forall j :: 0 <= j < i ==> ResolveEvent(members, value, events[j]).None?
  {
    if events != [] && ResolveEvent(members, value, events[0]).None? {
      var rest := events[1..];
      FirstMatchIsEarliest(members, value, rest);
      assert forall i :: 1 <= i < |events| ==> events[i] == rest[i - 1];
      if FirstMatch(members, value, rest).Some? {
        var i :| 0 <= i < |rest| && ResolveEvent(members, value, rest[i]) == FirstMatch(members, value, rest)
                 && forall j :: 0 <= j < i ==> ResolveEvent(members, value, rest[j]).None?;
        assert ResolveEvent(members, value, events[i + 1]) == FirstMatch(members, value, events);
      }
    }
  }

  /** Events that resolve to nothing may be skipped: waiting goes on past them. */
  lemma {:induction false} FirstMatchAppend<A>(members: seq<A>, value: A -> Key, xs: seq<Event>, ys: seq<Event>)
    ensures FirstMatch(members, value, xs + ys)
         == if FirstMatch(members, value, xs).Some? then FirstMatch(members, value, xs) else FirstMatch(members, value, ys)
  {
    if xs == [] {
      assert xs + ys == ys;
    } else {
      assert (xs + ys)[0] == xs[0];
      assert (xs + ys)[1..] == xs[1..] + ys;
      FirstMatchAppend(members, value, xs[1..], ys);
    }
  }

  /** The events of tick `t`: none once the window has run out. */
  function TickEvents(w: Window, t: nat): seq<Event>
  {
    if t < |w| then w[t] else []
  }

  /** Everything delivered during the first `n` ticks, in order. */
  function Observed(w: Window, n: nat): seq<Event>
  {
    if n == 0 then [] else Observed(w, n - 1) + TickEvents(w, n - 1)
  }

  /** An event is observed within `n` ticks exactly when it arrives in one of them. */
  lemma {:induction false} ObservedContains(w: Window, n: nat, e: Event)
    ensures e in Observed(w, n) <==> exists t :: 0 <= t < n && t < |w| && e in w[t]
  {
    if n > 0 {
      ObservedContains(w, n - 1, e);
      if n - 1 < |w| && e in w[n - 1] {
        assert e in Observed(w, n);
      }
    }
  }

  /** The events of a shorter wait are a prefix of those of a longer one. */
  lemma {:induction false} ObservedPrefix(w: Window, t: nat, n: nat)
    requires t <= n
    ensures |Observed(w, t)| <= |Observed(w, n)|
    ensures Observed(w, n) == Observed(w, t) + Observed(w, n)[|Observed(w, t)|..]
  {
    if t < n {
      ObservedPrefix(w, t, n - 1);
      var p, q := Observed(w, t), Observed(w, n - 1);
      assert q == p + q[|p|..];
      assert Observed(w, n) == p + (q[|p|..] + TickEvents(w, n - 1));
    }
  }

  /** Ticks past the budget are never polled, whatever they hold. */
  lemma {:induction false} ObservedWithinBudget(w: Window, later: Window, n: nat)
    requires n <= |w|
    ensures Observed(w + later, n) == Observed(w, n)
  {
    if n > 0 {
      ObservedWithinBudget(w, later, n - 1);
      assert (w + later)[n - 1] == w[n - 1];
    }
  }

  /** The outcome of waiting `ticks` ticks: the action of the first press that resolves. */
  function WaitFor<A>(members: seq<A>, value: A -> Key, w: Window, ticks: nat): (r: Option<A>)
    ensures r.Some? ==> r.value in members
  {
    FirstMatch(members, value, Observed(w, ticks))
  }

  /** The outcome is `None` exactly when no event within the budget resolves. */
  lemma WaitForTimeout<A>(members: seq<A>, value: A -> Key, w: Window, ticks: nat)
    ensures WaitFor(members, value, w, ticks).None?
        <==> forall t, e :: 0 <= t < ticks && t < |w| && e in w[t] ==> ResolveEvent(members, value, e).None?
  {
    var obs := Observed(w, ticks);
    FirstMatchIsEarliest(members, value, obs);
    if WaitFor(members, value, w, ticks).None? {
      forall t, e | 0 <= t < ticks && t < |w| && e in w[t] ensures ResolveEvent(members, value, e).None? {
        ObservedContains(w, ticks, e);
        var i :| 0 <= i < |obs| && obs[i] == e;
      }
    } else if forall t, e :: 0 <= t < ticks && t < |w| && e in w[t] ==> ResolveEvent(members, value, e).None? {
      forall i | 0 <= i < |obs| ensures ResolveEvent(members, value, obs[i]).None? {
        ObservedContains(w, ticks, obs[i]);
      }
      assert false;
    }
  }

  /** A press that resolves in the first tick ends the wait at once, whatever follows. */
  lemma FirstPressDecides<A>(members: seq<A>, value: A -> Key, w: Window, ticks: nat, k: PressedKey)
    requires 0 < ticks && 0 < |w| && 0 < |w[0]| && w[0][0] == Press(k)
    requires Resolve(members, value, MatchOf(k)).Some?
    ensures WaitFor(members, value, w, ticks) == Resolve(members, value, MatchOf(k))
  {
    var rest := ObservedThrough(w, ticks, 0, 0);
    assert Observed(w, 0) + TickEvents(w, 0)[..0] == [];
    assert Observed(w, ticks) == [Press(k)] + rest;
  }

  /** A wait in which no key goes down ends in a timeout. */
  ghost predicate Quiet(w: Window)
  {
    forall t, e :: 0 <= t < |w| && e in w[t] ==> e.Release?
  }

  lemma QuietTimesOut<A>(members: seq<A>, value: A -> Key, w: Window, ticks: nat)
    requires Quiet(w)
    ensures WaitFor(members, value, w, ticks) == None
  {
    forall t, e | 0 <= t < ticks && t < |w| && e in w[t] ensures ResolveEvent(members, value, e).None? {
      assert e.Release?;
    }
    WaitForTimeout(members, value, w, ticks);
  }

  /** One more event that resolves to nothing leaves the wait undecided. */
  lemma SkipUnresolved<A>(members: seq<A>, value: A -> Key, seen: seq<Event>, events: seq<Event>, j: nat)
    requires j < |events|
    requires FirstMatch(members, value, seen + events[..j]) == None
    requires ResolveEvent(members, value, events[j]).None?
    ensures FirstMatch(members, value, seen + events[..j + 1]) == None
  {
    assert seen + events[..j + 1] == (seen + events[..j]) + [events[j]];
    FirstMatchAppend(members, value, seen + events[..j], [events[j]]);
  }

  /** The events seen within the budget run through event `j` of tick `t`, then go on. */
  lemma ObservedThrough(w: Window, ticks: nat, t: nat, j: nat) returns (rest: seq<Event>)
    requires t < ticks && j < |TickEvents(w, t)|
    ensures Observed(w, ticks) == (Observed(w, t) + TickEvents(w, t)[..j]) + [TickEvents(w, t)[j]] + rest
  {
    var seen, events := Observed(w, t), TickEvents(w, t);
    ObservedPrefix(w, t + 1, ticks);
    var more := Observed(w, ticks)[|Observed(w, t + 1)|..];
    assert Observed(w, ticks) == (seen + events) + more;
    rest := events[j + 1..] + more;
    Regroup(seen, events, more, j);
  }

  /** Splitting a tick's events around event `j`. */
  lemma Regroup(xs: seq<Event>, ys: seq<Event>, zs: seq<Event>, j: nat)
    requires j < |ys|
    ensures (xs + ys) + zs == (xs + ys[..j]) + [ys[j]] + (ys[j + 1..] + zs)
  {
  }

  /** The first event that resolves within the budget decides the whole wait. */
  lemma FoundInTick<A>(members: seq<A>, value: A -> Key, w: Window, ticks: nat, t: nat, j: nat)
    requires t < ticks && j < |TickEvents(w, t)|
    requires FirstMatch(members, value, Observed(w, t) + TickEvents(w, t)[..j]) == None
    requires ResolveEvent(members, value, TickEvents(w, t)[j]).Some?
    ensures WaitFor(members, value, w, ticks) == ResolveEvent(members, value, TickEvents(w, t)[j])
  {
    var e := TickEvents(w, t)[j];
    var before := Observed(w, t) + TickEvents(w, t)[..j];
    var rest := ObservedThrough(w, ticks, t, j);
    FirstMatchAppend(members, value, before, [e]);
    assert FirstMatch(members, value, [e]) == ResolveEvent(members, value, e);
    FirstMatchAppend(members, value, before + [e], rest);
  }

  /**
   * `get_action`'s polling: for each of the `ticks` ticks, take the events the
   * listener delivers in that tick and return the member the first resolving
   * press names; `None` once every tick has elapsed.
   */
  method GetAction<A>(members: seq<A>, value: A -> Key, w: Window, ticks: nat) returns (r: Option<A>)
    ensures r == WaitFor(members, value, w, ticks)
  {
    for t := 0 to ticks
      invariant FirstMatch(members, value, Observed(w, t)) == None
    {
      var events := TickEvents(w, t);
      var j := 0;
      assert Observed(w, t) + events[..0] == Observed(w, t);
      while j < |events|
        invariant j <= |events|
        invariant FirstMatch(members, value, Observed(w, t) + events[..j]) == None
      {
        var e := events[j];
        if e.Press? {
          var a := Resolve(members, value, MatchOf(e.key));
          if a.Some? {
            FoundInTick(members, value, w, ticks, t, j);
            return a;
          }
        }
        SkipUnresolved(members, value, Observed(w, t), events, j);
        j := j + 1;
      }
      assert events[..j] == events;
    }
    r := None;
  }

  /** The polling step of `get_action`, in seconds. */
  const TickLength: real := 0.1

  /**
   * The number of ticks a wait of `duration` seconds polls: `int(duration / 0.1)`,
   * i.e. the whole ticks that fit in the duration, and none for a duration that
   * is not positive.
   */
  function Ticks(duration: real): (n: nat)
    ensures 0.0 <= duration ==> n as real * TickLength <= duration < (n + 1) as real * TickLength
    ensures duration < 0.0 ==> n == 0
  {
    if duration <= 0.0 then 0 else (duration / TickLength).Floor
  }

  /** The value of the member an outcome names: the key that was heard. */
  function ValueOf<A>(o: Option<A>, value: A -> Key): Option<Key>
  {
    if o.Some? then Some(value(o.value)) else None
  }

  /** All the values an enum's members carry: the keys a wait over it listens for. */
  ghost function Values<A>(members: seq<A>, value: A -> Key): set<Key>
  {
    set a | a in members :: value(a)
  }

  /** The key of the first press among `events` whose matched key is one of `keys`. */
  function FirstKey(keys: set<Key>, events: seq<Event>): (k: Option<Key>)
    ensures k.Some? ==> k.value in keys && exists i :: 0 <= i < |events| && events[i] == Press(PressOf(k.value))
  {
    if events == [] then None
    else if events[0].Press? && MatchOf(events[0].key).Some? && MatchOf(events[0].key).value in keys
    then MatchOf(events[0].key)
    else FirstKey(keys, events[1..])
  }

  /**
   * What a wait resolves to carries the first key among the events that any
   * member listens for: the enum lookup only names that key's member.
   */
  lemma {:induction false} FirstMatchHearsFirstKey<A>(members: seq<A>, value: A -> Key, events: seq<Event>)
    ensures ValueOf(FirstMatch(members, value, events), value) == FirstKey(Values(members, value), events)
  {
    if events != [] {
      var e := events[0];
      var keys := Values(members, value);
      if e.Press? {
        var m := MatchOf(e.key);
        var a := Resolve(members, value, m);
        if a.Some? {
          assert value(a.value) in keys;
        } else if m.Some? {
          assert m.value !in keys;
          FirstMatchHearsFirstKey(members, value, events[1..]);
        } else {
          FirstMatchHearsFirstKey(members, value, events[1..]);
        }
      } else {
        FirstMatchHearsFirstKey(members, value, events[1..]);
      }
    }
  }

  /** A recognised press at the very start of the first tick is what the wait hears. */
  lemma FirstPressHeard(keys: set<Key>, w: Window, ticks: nat, k: Key)
    requires 0 < ticks && 0 < |w| && 0 < |w[0]| && w[0][0] == Press(PressOf(k))
    requires k in keys
    ensures FirstKey(keys, Observed(w, ticks)) == Some(k)
  {
    var rest := ObservedThrough(w, ticks, 0, 0);
    assert Observed(w, 0) + TickEvents(w, 0)[..0] == [];
    assert Observed(w, ticks) == [Press(PressOf(k))] + rest;
  }
}
