/**
 * The trailing-edge throttle in front of the glasses display
 * (`updateTextThrottled`, teleprompter/src/sdk/containers.ts). A text update
 * is sent at once when at least `ThrottleMs` milliseconds have passed since
 * the last send; otherwise one deferred send is scheduled for the moment that
 * interval ends, replacing any deferred send already waiting, so the latest
 * text always reaches the display.
 *
 * The clock is a parameter (`now`); a deferred send firing is the step
 * `Fire`. Sends are recorded in order, with their times.
 */
module Throttle {
  import opened Wrappers

  const ThrottleMs := 100

  /** The arguments of one `updateText` call: the container and the text for it. */
  datatype Request = Request(containerId: int, containerName: string, content: string)

  /** A call of `updateText` made at time `at`. */
  datatype Send = Send(request: Request, at: int)

  /** The deferred send: what it will send, when it was scheduled and after what delay. */
  datatype Pending = Pending(request: Request, scheduledAt: int, delay: int)

  /** `lastUpdate` and `pendingTimer`. */
  datatype State = State(lastUpdate: int, pending: Option<Pending>)

  /** One thing that happens to the throttle: a call, or the deferred send's timer firing. */
  datatype Event = Call(request: Request, now: int) | Fire(now: int)

  const Initial := State(0, None)

  function Due(p: Pending): int {
    p.scheduledAt + p.delay
  }

  /** A deferred send is due exactly `ThrottleMs` after the last send. */
  predicate Coherent(st: State) {
    st.pending.Some? ==> Due(st.pending.value) == st.lastUpdate + ThrottleMs
  }

  function SendsOf(s: Option<Send>): seq<Send> {
    if s.Some? then [s.value] else []
  }

  /**
   * `updateTextThrottled(request)` at time `now`: the state afterwards and
   * the send made at once, if any. Either the request is sent now or it is
   * the one deferred send, never both; a deferred send is due `ThrottleMs`
   * after the last send, which with a clock that has not gone back is a
   * delay in (0, `ThrottleMs`].
   */
  function OnCall(st: State, request: Request, now: int): (r: (State, Option<Send>))
    ensures r.1.Some? <==> now - st.lastUpdate >= ThrottleMs
    ensures r.1.Some? <==> r.0.pending.None?
    ensures r.1.Some? ==> r.1.value == Send(request, now) && r.0.lastUpdate == now
    ensures r.1.None? ==> r.0.lastUpdate == st.lastUpdate && r.0.pending.value.request == request &&
                          r.0.pending.value.scheduledAt == now
    ensures Coherent(r.0)
    ensures r.0.pending.Some? && now >= st.lastUpdate ==> 0 < r.0.pending.value.delay <= ThrottleMs
  {
    var elapsed := now - st.lastUpdate;
    if elapsed >= ThrottleMs then (State(now, None), Some(Send(request, now)))
    else (State(st.lastUpdate, Some(Pending(request, now, ThrottleMs - elapsed))), None)
  }

  /** The deferred send firing at `now`: it sends what it captured and becomes the last send. */
  function OnFire(st: State, now: int): (r: (State, Send))
    requires st.pending.Some?
    ensures r.0.pending == None && r.0.lastUpdate == now && r.1.at == now
    ensures r.1.request == st.pending.value.request
  {
    (State(now, None), Send(st.pending.value.request, now))
  }

  /** One event; a timer that was cleared never fires, so a firing with nothing pending changes nothing. */
  function Step(st: State, e: Event): (State, Option<Send>) {
    match e
      case Call(request, now) => OnCall(st, request, now)
      case Fire(now) =>
        if st.pending.Some? then var r := OnFire(st, now); (r.0, Some(r.1)) else (st, None)
  }

  /** The state after a run of events and the sends made on the way, in order. */
  function Run(st: State, events: seq<Event>): (State, seq<Send>)
    decreases |events|
  {
    if |events| == 0 then (st, [])
    else
      var step := Step(st, events[0]);
      var rest := Run(step.0, events[1..]);
      (rest.0, SendsOf(step.1) + rest.1)
  }

  /** Timers never fire early: every firing of a pending send comes at or after its due time. */
  predicate NeverEarly(st: State, events: seq<Event>)
    decreases |events|
  {
    |events| == 0 ||
    ((events[0].Fire? && st.pending.Some? ==> events[0].now >= Due(st.pending.value)) &&
     NeverEarly(Step(st, events[0]).0, events[1..]))
  }

  /** Each send comes at least `ThrottleMs` after the one before it, the first one after `since`. */
  predicate SpacedAfter(since: int, sends: seq<Send>) {
    (|sends| > 0 ==> sends[0].at >= since + ThrottleMs) &&
    forall i :: 0 < i < |sends| ==> sends[i].at >= sends[i - 1].at + ThrottleMs
  }

  lemma {:induction false} SpacedAfterCons(since: int, s: Send, sends: seq<Send>)
    requires s.at >= since + ThrottleMs && SpacedAfter(s.at, sends)
    ensures SpacedAfter(since, [s] + sends)
  {
    var all := [s] + sends;
    forall i | 0 < i < |all|
      ensures all[i].at >= all[i - 1].at + ThrottleMs
    {
      assert all[i] == sends[i - 1];
      if i > 1 {
        assert all[i - 1] == sends[i - 2];
      }
    }
  }

  lemma {:induction false} SpacedAfterSnoc(since: int, sends: seq<Send>, s: Send)
    requires SpacedAfter(since, sends)
    requires s.at >= (if |sends| == 0 then since else sends[|sends| - 1].at) + ThrottleMs
    ensures SpacedAfter(since, sends + [s])
  {
    var all := sends + [s];
    forall i | 0 < i < |all|
      ensures all[i].at >= all[i - 1].at + ThrottleMs
    {
      assert all[i - 1] == sends[i - 1];
      if i < |sends| {
        assert all[i] == sends[i];
      }
    }
  }

  /**
   * One step keeps a deferred send due `ThrottleMs` after the last send; a
   * step that sends makes that send the last one, and, when a firing is not
   * early, comes at least `ThrottleMs` after the previous send.
   */
  lemma StepSpaced(st: State, e: Event)
    requires Coherent(st)
    requires e.Fire? && st.pending.Some? ==> e.now >= Due(st.pending.value)
    ensures Coherent(Step(st, e).0)
    ensures Step(st, e).1.None? ==> Step(st, e).0.lastUpdate == st.lastUpdate
    ensures Step(st, e).1.Some? ==>
      Step(st, e).0.lastUpdate == Step(st, e).1.value.at && Step(st, e).1.value.at >= st.lastUpdate + ThrottleMs
  {
  }

  /**
   * With timers that never fire early, consecutive sends are at least
   * `ThrottleMs` apart, and the first comes at least `ThrottleMs` after the
   * last send before the run.
   */
  lemma {:induction false} RunSpaced(st: State, events: seq<Event>)
    requires Coherent(st) && NeverEarly(st, events)
    ensures var r := Run(st, events);
            SpacedAfter(st.lastUpdate, r.1) && Coherent(r.0) &&
            r.0.lastUpdate == (if |r.1| == 0 then st.lastUpdate else r.1[|r.1| - 1].at)
    decreases |events|
  {
    if |events| > 0 {
      var step := Step(st, events[0]);
      StepSpaced(st, events[0]);
      RunSpaced(step.0, events[1..]);
      var rest := Run(step.0, events[1..]);
      assert Run(st, events) == (rest.0, SendsOf(step.1) + rest.1);
      if step.1.Some? {
        SpacedAfterCons(st.lastUpdate, step.1.value, rest.1);
        assert SendsOf(step.1) + rest.1 == [step.1.value] + rest.1;
      } else {
        assert SendsOf(step.1) + rest.1 == rest.1;
      }
    }
  }

  /** Every event of the run is a call made before `until`. */
  predicate CallsBefore(events: seq<Event>, until: int) {
    forall i :: 0 <= i < |events| ==> events[i].Call? && events[i].now < until
  }

  /**
   * Coalescing: a burst of calls within `ThrottleMs` of the last send sends
   * nothing; only the last request is kept, due `ThrottleMs` after the last
   * send, and every earlier one is dropped.
   */
  lemma {:induction false} BurstKeepsLast(st: State, events: seq<Event>)
    requires |events| > 0 && CallsBefore(events, st.lastUpdate + ThrottleMs)
    ensures Run(st, events).1 == []
    ensures Run(st, events).0.lastUpdate == st.lastUpdate
    ensures Run(st, events).0.pending ==
            Some(Pending(events[|events| - 1].request, events[|events| - 1].now,
                         st.lastUpdate + ThrottleMs - events[|events| - 1].now))
    decreases |events|
  {
    var step := Step(st, events[0]);
    assert events[0].Call?;
    if |events| > 1 {
      assert CallsBefore(events[1..], step.0.lastUpdate + ThrottleMs) by {
        forall i | 0 <= i < |events[1..]|
          ensures events[1..][i].Call? && events[1..][i].now < step.0.lastUpdate + ThrottleMs
        {
          assert events[1..][i] == events[i + 1];
        }
      }
      BurstKeepsLast(step.0, events[1..]);
      assert events[1..][|events[1..]| - 1] == events[|events| - 1];
    }
  }

  /** Running two stretches of events one after the other is running them together. */
  lemma {:induction false} RunAppend(st: State, a: seq<Event>, b: seq<Event>)
    ensures Run(st, a + b) == (Run(Run(st, a).0, b).0, Run(st, a).1 + Run(Run(st, a).0, b).1)
    decreases |a|
  {
    if |a| > 0 {
      var step := Step(st, a[0]);
      assert (a + b)[0] == a[0];
      assert (a + b)[1..] == a[1..] + b;
      RunAppend(step.0, a[1..], b);
      var tail := Run(step.0, a[1..]);
      var after := Run(tail.0, b);
      assert Run(st, a + b) == (after.0, SendsOf(step.1) + (tail.1 + after.1));
      assert Run(st, a) == (tail.0, SendsOf(step.1) + tail.1);
      assert SendsOf(step.1) + (tail.1 + after.1) == (SendsOf(step.1) + tail.1) + after.1;
    } else {
      assert a + b == b;
      assert Run(st, a) == (st, []);
      assert [] + Run(st, b).1 == Run(st, b).1;
    }
  }

  lemma RunOne(st: State, e: Event)
    ensures Run(st, [e]) == (Step(st, e).0, SendsOf(Step(st, e).1))
  {
    assert [e][1..] == [];
    assert SendsOf(Step(st, e).1) + [] == SendsOf(Step(st, e).1);
  }

  /**
   * Trailing edge: after a burst of calls within `ThrottleMs` of the last
   * send, the firing of the deferred send delivers the last request, and
   * only that one.
   */
  lemma BurstThenFire(st: State, events: seq<Event>, at: int)
    requires |events| > 0 && CallsBefore(events, st.lastUpdate + ThrottleMs)
    ensures Run(st, events + [Fire(at)]).1 == [Send(events[|events| - 1].request, at)]
    ensures Run(st, events + [Fire(at)]).0 == State(at, None)
  {
    BurstKeepsLast(st, events);
    RunAppend(st, events, [Fire(at)]);
    var mid := Run(st, events).0;
    assert [Fire(at)][1..] == [];
    assert Step(mid, Fire(at)) == (State(at, None), Some(Send(events[|events| - 1].request, at)));
    RunOne(mid, Fire(at));
  }

  class Throttler {
    var lastUpdate: int
    var pendingTimer: Option<Pending>
    /** Every `updateText` call made so far, in order. */
    ghost var sent: seq<Send>

    /** A deferred send is due `ThrottleMs` after the last send, and sends are spaced by `ThrottleMs`. */
    ghost predicate Valid()
      reads this
    {
      Coherent(State(lastUpdate, pendingTimer)) &&
      SpacedAfter(0, sent) &&
      lastUpdate == (if |sent| == 0 then 0 else sent[|sent| - 1].at)
    }

    constructor ()
      ensures Valid()
      ensures lastUpdate == 0 && pendingTimer == None && sent == []
    {
      lastUpdate := 0;
      pendingTimer := None;
      sent := [];
    }

    /** `updateTextThrottled`: cancel any deferred send, then send now or defer. */
    method UpdateTextThrottled(containerId: int, containerName: string, content: string, now: int)
      requires Valid()
      modifies this
      ensures Valid()
      ensures var r := OnCall(old(State(lastUpdate, pendingTimer)), Request(containerId, containerName, content), now);
              State(lastUpdate, pendingTimer) == r.0 && sent == old(sent) + SendsOf(r.1)
    {
      if pendingTimer.Some? {
        pendingTimer := None;
      }
      var elapsed := now - lastUpdate;
      var request := Request(containerId, containerName, content);
      if elapsed >= ThrottleMs {
        SpacedAfterSnoc(0, sent, Send(request, now));
        lastUpdate := now;
        sent := sent + [Send(request, now)];
      } else {
        pendingTimer := Some(Pending(request, now, ThrottleMs - elapsed));
      }
    }

    /** The deferred send's timer firing at `now`, which is never before it is due. */
    method Fire(now: int)
      requires Valid() && pendingTimer.Some? && now >= Due(pendingTimer.value)
      modifies this
      ensures Valid()
      ensures var r := OnFire(old(State(lastUpdate, pendingTimer)), now);
              State(lastUpdate, pendingTimer) == r.0 && sent == old(sent) + [r.1]
    {
      var request := pendingTimer.value.request;
      SpacedAfterSnoc(0, sent, Send(request, now));
      pendingTimer := None;
      lastUpdate := now;
      sent := sent + [Send(request, now)];
    }
  }
}
