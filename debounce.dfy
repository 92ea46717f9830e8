/** `debounce(func, wait)`: each call of the returned function cancels the
    pending timer and schedules a new one `wait` milliseconds later; when a
    timer fires, `func` runs with the arguments of the call that scheduled
    it. Time is the millisecond clock reading passed in with each event. */
module Debounce {
  import opened Wrappers

  /** A scheduled call of `later`: the arguments it will pass and the time
      it is due. */
  datatype Timer<A> = Timer(args: A, due: int)

  /** What happens to a debounced function: it is called (the browser
      event), or the clock reaches a time at which pending timers run. */
  datatype Event<A> = Triggered(args: A, at: int) | Elapsed(at: int)

  /** The effect of one event on the pending timer, and the call of `func`
      it makes, if any. A trigger replaces whatever was pending; the clock
      reaching the due time runs the pending call once and clears it. */
  function Step<A>(pending: Option<Timer<A>>, e: Event<A>, wait: nat): (r: (Option<Timer<A>>, Option<A>))
    ensures e.Triggered? ==> r.0 == Some(Timer(e.args, e.at + wait)) && r.1 == None
    ensures e.Elapsed? && pending.Some? && pending.value.due <= e.at ==> r == (None, Some(pending.value.args))
    ensures e.Elapsed? && !(pending.Some? && pending.value.due <= e.at) ==> r == (pending, None)
  {
    match e
    case Triggered(args, at) => (Some(Timer(args, at + wait)), None)
    case Elapsed(at) =>
      if pending.Some? && pending.value.due <= at then (None, Some(pending.value.args))
      else (pending, None)
  }

  /** A sequence of events from a starting timer: the timer left pending and
      the calls of `func`, in order. */
  function Run<A>(pending: Option<Timer<A>>, events: seq<Event<A>>, wait: nat): (r: (Option<Timer<A>>, seq<A>))
    decreases |events|
  {
    if events == [] then (pending, [])
    else
      var step := Step(pending, events[0], wait);
      var rest := Run(step.0, events[1..], wait);
      (rest.0, Calls(step.1) + rest.1)
  }

  /** The calls one step makes, as a sequence. */
  function Calls<A>(call: Option<A>): (r: seq<A>)
    ensures |r| <= 1
  {
    if call.Some? then [call.value] else []
  }

  /** How many of the events are calls of the debounced function. */
  function CountTriggers<A>(events: seq<Event<A>>): (n: nat)
    ensures n <= |events|
  {
    if events == [] then 0 else (if events[0].Triggered? then 1 else 0) + CountTriggers(events[1..])
  }

  /** The positions of the calls among the events. */
  ghost function TriggerPositions<A>(events: seq<Event<A>>): set<int> {
    set i | 0 <= i < |events| && events[i].Triggered?
  }

  /** Appending an event adds one to the count exactly when it is a call. */
  lemma {:induction false} CountTriggersSnoc<A>(events: seq<Event<A>>, e: Event<A>)
    ensures CountTriggers(events + [e]) == CountTriggers(events) + (if e.Triggered? then 1 else 0)
    decreases |events|
  {
    if events == [] {
      assert [e][1..] == [];
    } else {
      assert (events + [e])[1..] == events[1..] + [e];
      CountTriggersSnoc(events[1..], e);
    }
  }

  /** `CountTriggers` counts exactly the positions of the calls. */
  lemma {:induction false} CountTriggersCounts<A>(events: seq<Event<A>>)
    ensures CountTriggers(events) == |TriggerPositions(events)|
    decreases |events|
  {
    if events != [] {
      var n := |events| - 1;
      var front := events[..n];
      CountTriggersCounts(front);
      assert front + [events[n]] == events;
      CountTriggersSnoc(front, events[n]);
      var before := TriggerPositions(front);
      assert n !in before;
      if events[n].Triggered? {
        assert TriggerPositions(events) == before + {n} by {
          forall i ensures i in TriggerPositions(events) <==> i in before + {n} {
            if 0 <= i < n {
              assert front[i] == events[i];
            }
          }
        }
      } else {
        assert TriggerPositions(events) == before by {
          forall i ensures i in TriggerPositions(events) <==> i in before {
            if 0 <= i < n {
              assert front[i] == events[i];
            }
          }
        }
      }
    }
  }

  /** `r` is `None` when no event is a call, and otherwise the arguments
      of a call with no call after it. */
  ghost predicate IsLatest<A>(events: seq<Event<A>>, r: Option<A>) {
    && (r.None? <==> forall i :: 0 <= i < |events| ==> !events[i].Triggered?)
    && (r.Some? ==> exists i :: (0 <= i < |events| && events[i].Triggered? && events[i].args == r.value &&
      forall j :: i < j < |events| ==> !events[j].Triggered?))
  }

  /** The arguments of the latest trigger, if any. */
  function LatestArgs<A>(events: seq<Event<A>>): (r: Option<A>)
    ensures IsLatest(events, r)
  {
    if events == [] then None
    else if events[|events| - 1].Triggered? then Some(events[|events| - 1].args)
    else
      var r := LatestArgs(events[..|events| - 1]);
      LatestStep(events, r);
      r
  }

  /** A clock event at the end does not change which call is the latest. */
  lemma LatestStep<A>(events: seq<Event<A>>, r: Option<A>)
    requires events != [] && !events[|events| - 1].Triggered?
    requires IsLatest(events[..|events| - 1], r)
    ensures IsLatest(events, r)
  {
    var n := |events| - 1;
    var front := events[..n];
    if r.None? {
      forall i | 0 <= i < |events| ensures !events[i].Triggered? {
        if i < n {
          assert events[i] == front[i];
        }
      }
    } else {
      var i :| 0 <= i < n && front[i].Triggered? && front[i].args == r.value &&
        forall j :: i < j < n ==> !front[j].Triggered?;
      assert events[i] == front[i];
      forall j | i < j < |events| ensures !events[j].Triggered? {
        if j < n {
          assert events[j] == front[j];
        }
      }
    }
  }

  predicate AllTriggers<A>(events: seq<Event<A>>) {
    forall i :: 0 <= i < |events| ==> events[i].Triggered?
  }

  /** A burst of triggers calls nothing and leaves one timer pending, for
      the last trigger's arguments, `wait` after it. */
  lemma {:induction false} BurstCallsNothing<A>(pending: Option<Timer<A>>, events: seq<Event<A>>, wait: nat)
    requires events != [] && AllTriggers(events)
    ensures Run(pending, events, wait).1 == []
    ensures Run(pending, events, wait).0 == Some(Timer(events[|events| - 1].args, events[|events| - 1].at + wait))
    decreases |events|
  {
    if |events| > 1 {
      assert AllTriggers(events[1..]) by {
        forall i | 0 <= i < |events| - 1 ensures events[1..][i].Triggered? {
          assert events[1..][i] == events[i + 1];
        }
      }
      BurstCallsNothing(Step(pending, events[0], wait).0, events[1..], wait);
      assert events[1..][|events[1..]| - 1] == events[|events| - 1];
    }
  }

  predicate AllClock<A>(events: seq<Event<A>>) {
    forall i :: 0 <= i < |events| ==> events[i].Elapsed?
  }

  /** With nothing pending, clock events call nothing. */
  lemma {:induction false} QuietCallsNothing<A>(events: seq<Event<A>>, wait: nat)
    requires AllClock(events)
    ensures Run(None, events, wait) == (None, [])
    decreases |events|
  {
    if events != [] {
      assert AllClock(events[1..]) by {
        forall i | 0 <= i < |events| - 1 ensures events[1..][i].Elapsed? {
          assert events[1..][i] == events[i + 1];
        }
      }
      QuietCallsNothing(events[1..], wait);
      var step := Step(None, events[0], wait);
      assert step.0 == None && Calls(step.1) == [];
      assert Run(None, events, wait).1 == Calls(step.1) + Run(step.0, events[1..], wait).1;
    }
  }

  /** Once the clock reaches the due time the pending call runs, exactly
      once: clock events after it call nothing more. */
  lemma FiresOnce<A>(t: Timer<A>, at: int, later: seq<Event<A>>, wait: nat)
    requires t.due <= at && AllClock(later)
    ensures Run(Some(t), [Elapsed(at)] + later, wait) == (None, [t.args])
  {
    var events := [Elapsed(at)] + later;
    assert events[0] == Elapsed(at) && events[1..] == later;
    QuietCallsNothing(later, wait);
    var step := Step(Some(t), events[0], wait);
    assert step.0 == None && Calls(step.1) == [t.args];
    assert Run(Some(t), events, wait).0 == Run(step.0, events[1..], wait).0;
    assert Run(Some(t), events, wait).1 == Calls(step.1) + Run(step.0, events[1..], wait).1;
    assert [t.args] + [] == [t.args];
  }

  /** Before the due time, clock events change nothing. */
  lemma EarlyTickDoesNothing<A>(t: Timer<A>, at: int, wait: nat)
    requires at < t.due
    ensures Step(Some(t), Elapsed(at), wait) == (Some(t), None)
  {
  }

  /** `func` never runs more often than the debounced function was called,
      counting a timer already pending as one call. */
  lemma {:induction false} CallsBoundedByTriggers<A>(pending: Option<Timer<A>>, events: seq<Event<A>>, wait: nat)
    ensures |Run(pending, events, wait).1| <= CountTriggers(events) + (if pending.Some? then 1 else 0)
    ensures Run(pending, events, wait).0.Some? ==> pending.Some? || CountTriggers(events) > 0
    decreases |events|
  {
    if events != [] {
      CallsBoundedByTriggers(Step(pending, events[0], wait).0, events[1..], wait);
    }
  }

  /** Starting with nothing pending, the pending timer and every call carry
      the arguments of the latest trigger so far. */
  lemma {:induction false} PendingHoldsLatest<A>(events: seq<Event<A>>, wait: nat)
    ensures Run(None, events, wait).0.Some? ==> Some(Run(None, events, wait).0.value.args) == LatestArgs(events)
    decreases |events|
  {
    if events != [] {
      var n := |events| - 1;
      var front := events[..n];
      PendingHoldsLatest(front, wait);
      RunSnoc(None, front, events[n], wait);
      assert front + [events[n]] == events;
    }
  }

  /** Running one more event extends the run by one step. */
  lemma {:induction false} RunSnoc<A>(pending: Option<Timer<A>>, events: seq<Event<A>>, e: Event<A>, wait: nat)
    ensures var before := Run(pending, events, wait);
      var last := Step(before.0, e, wait);
      Run(pending, events + [e], wait) == (last.0, before.1 + Calls(last.1))
    decreases |events|
  {
    if events == [] {
      assert [e][1..] == [];
      var step := Step(pending, e, wait);
      assert Run(pending, [e], wait).1 == Calls(step.1) + Run(step.0, [], wait).1;
      assert Calls(step.1) + [] == [] + Calls(step.1);
    } else {
      assert (events + [e])[1..] == events[1..] + [e];
      var step := Step(pending, events[0], wait);
      RunSnoc(step.0, events[1..], e, wait);
      var rest := Run(step.0, events[1..], wait);
      var last := Step(rest.0, e, wait);
      assert Calls(step.1) + (rest.1 + Calls(last.1)) == (Calls(step.1) + rest.1) + Calls(last.1);
    }
  }

  /** Every call of `func` uses the arguments of the latest trigger before
      it: the call made by the next clock event is that of the latest
      trigger in the history. */
  lemma CallUsesLatestArgs<A>(events: seq<Event<A>>, at: int, wait: nat)
    requires Step(Run(None, events, wait).0, Elapsed(at), wait).1.Some?
    ensures Step(Run(None, events, wait).0, Elapsed(at), wait).1 == LatestArgs(events)
  {
    PendingHoldsLatest(events, wait);
  }

  /** The closure returned by `debounce`: the waiting time it was made with
      and the timer it has scheduled, if any. */
  class Debouncer<A> {
    const wait: nat
    var pending: Option<Timer<A>>

    constructor (wait: nat)
      ensures this.wait == wait && pending == None
    {
      this.wait := wait;
      pending := None;
    }

    /** `executedFunction(...args)` at time `now`: `clearTimeout` on the
        pending timer, then `setTimeout(later, wait)`. */
    method Trigger(args: A, now: int)
      modifies this
      ensures (pending, None) == Step(old(pending), Triggered(args, now), wait)
      ensures pending == Some(Timer(args, now + wait))
    {
      pending := None;
      pending := Some(Timer(args, now + wait));
    }

    /** The clock reaches `now`: a due timer runs `later`, which calls
        `func` with its arguments; otherwise nothing happens. */
    method Tick(now: int) returns (call: Option<A>)
      modifies this
      ensures (pending, call) == Step(old(pending), Elapsed(now), wait)
    {
      call := None;
      if pending.Some? && pending.value.due <= now {
        call := Some(pending.value.args);
        pending := None;
      }
    }
  }
}
