/**
 * The liveness probe of checkerror.py. It probes the exchangeInfo endpoint
 * over and over, sleeping `sleep` seconds between probes. At every epoch
 * boundary (more than 300 s since the epoch began) `sleep` drops by 0.1 s,
 * or the loop ends when it is already 0. The first failed probe ends the
 * loop and reports the current `sleep`.
 *
 * `sleep` is counted in tenths of a second, which is exact because the
 * source rounds it to one decimal after each step. The clock and the probe
 * answers come in as one event per turn of the loop.
 */
module CheckError {

  /** `sleep = 1`: ten tenths. */
  const InitialSleep: int := 10

  /** An epoch is over once more than this many whole seconds have passed. */
  const EpochSeconds: int := 300

  /**
   * One turn of the `while True` loop as the outside world presents it: the
   * clock reading (microseconds) and whether the probe got status 200.
   */
  datatype Event = Event(clock: int, ok: bool)

  /** `sleep` in tenths of a second and the epoch start `start` (microseconds). */
  datatype State = State(sleep: int, start: int)

  /** `(now - start).seconds`: the whole seconds of the difference, leaving out whole days. */
  function ElapsedSeconds(start: int, now: int): (r: int)
    ensures 0 <= r < 86400
    ensures 0 <= now - start < 86400 * 1000000 ==> r == (now - start) / 1000000
  {
    ((now - start) / 1000000) % 86400
  }

  predicate IsBoundary(st: State, e: Event) {
    ElapsedSeconds(st.start, e.clock) > EpochSeconds
  }

  /** What a turn does, in order: the 60 s pause after a decrement, a probe, a sleep of `tenths`. */
  datatype Action = Pause | Probe | Sleep(tenths: int)

  /** How the loop stands: still running, ended by the `break` with `sleep` at 0, or ended by a failed probe. */
  datatype LoopStatus = Running(state: State) | Exhausted(sleep: int) | ProbeFailed(sleep: int)

  function SleepOf(o: LoopStatus): int {
    match o
    case Running(st) => st.sleep
    case Exhausted(s) => s
    case ProbeFailed(s) => s
  }

  /** The effect of one turn: the loop goes on in a new state, or it stops. */
  datatype Turn = Next(state: State, actions: seq<Action>) | Stop(status: LoopStatus, actions: seq<Action>)

  /** One turn of the loop body; it stops exactly at one of the two `break`s. */
  function Iterate(st: State, e: Event): (r: Turn)
    ensures r.Stop? <==> !e.ok || (IsBoundary(st, e) && st.sleep <= 0)
  {
    if IsBoundary(st, e) && st.sleep <= 0 then Stop(Exhausted(st.sleep), [])
    else
      var now := if IsBoundary(st, e) then State(st.sleep - 1, e.clock) else st;
      var pause := if IsBoundary(st, e) then [Pause] else [];
      if !e.ok then Stop(ProbeFailed(now.sleep), pause + [Probe])
      else Next(now, pause + [Probe] + [Sleep(now.sleep)])
  }

  /** The status after a sequence of turns and everything done on the way. */
  datatype Run = Run(status: LoopStatus, trace: seq<Action>)

  /** `r` with the actions `pre` done before it. */
  function After(pre: seq<Action>, r: Run): Run {
    Run(r.status, pre + r.trace)
  }

  lemma AfterAppend(pre: seq<Action>, acts: seq<Action>, r: Run)
    ensures After(pre, After(acts, r)) == After(pre + acts, r)
  {
    assert pre + (acts + r.trace) == (pre + acts) + r.trace;
  }

  /** The loop run over the events, until it stops or the events run out. */
  function Exec(st: State, events: seq<Event>): Run
    decreases |events|
  {
    if events == [] then Run(Running(st), [])
    else
      match Iterate(st, events[0])
      case Stop(o, acts) => Run(o, acts)
      case Next(st', acts) => After(acts, Exec(st', events[1..]))
  }

  /** `main`: the loop of checkerror.py, with the clock and the probe answers taken from `events`. */
  method ProbeLoop(start: int, events: seq<Event>) returns (status: LoopStatus, trace: seq<Action>)
    ensures Run(status, trace) == Exec(State(InitialSleep, start), events)
  {
    var sleep := InitialSleep;
    var epochStart := start;
    trace := [];
    var i := 0;
    while i < |events|
      invariant 0 <= i <= |events|
      invariant Exec(State(InitialSleep, start), events) == After(trace, Exec(State(sleep, epochStart), events[i..]))
    {
      var e := events[i];
      ghost var st := State(sleep, epochStart);
      assert events[i..][0] == e && events[i..][1..] == events[i + 1..];
      var acts: seq<Action> := [];
      if ElapsedSeconds(epochStart, e.clock) > EpochSeconds {
        epochStart := e.clock;
        if sleep > 0 {
          sleep := sleep - 1;
        } else {
          assert Exec(st, events[i..]) == Run(Exhausted(sleep), []);
          assert trace + [] == trace;
          return Exhausted(sleep), trace;
        }
        acts := [Pause];
      }
      acts := acts + [Probe];
      if !e.ok {
        assert Exec(st, events[i..]) == Run(ProbeFailed(sleep), acts);
        return ProbeFailed(sleep), trace + acts;
      }
      acts := acts + [Sleep(sleep)];
      assert Iterate(st, e) == Next(State(sleep, epochStart), acts);
      AfterAppend(trace, acts, Exec(State(sleep, epochStart), events[i + 1..]));
      trace := trace + acts;
      i := i + 1;
    }
    assert events[i..] == [];
    assert trace + [] == trace;
    status := Running(State(sleep, epochStart));
  }

  /** How often `a` occurs in a trace. */
  function Count(trace: seq<Action>, a: Action): nat
    decreases |trace|
  {
    if trace == [] then 0
    else (if trace[0] == a then 1 else 0) + Count(trace[1..], a)
  }

  lemma {:induction false} CountAppend(s: seq<Action>, t: seq<Action>, a: Action)
    ensures Count(s + t, a) == Count(s, a) + Count(t, a)
    decreases |s|
  {
    if s != [] {
      assert (s + t)[0] == s[0] && (s + t)[1..] == s[1..] + t;
      CountAppend(s[1..], t, a);
    } else {
      assert s + t == t;
    }
  }

  /**
   * One turn probes once, unless it ends the loop before probing; it pauses
   * once exactly when it lowers `sleep`, and a turn that goes on has lowered
   * `sleep` by its pauses and ends with the probe followed by a sleep of the
   * new length.
   */
  lemma CountTurn(st: State, e: Event)
    ensures var t := Iterate(st, e);
      var exhausted := t.Stop? && t.status.Exhausted?;
      Count(t.actions, Probe) == (if exhausted then 0 else 1)
      && Count(t.actions, Pause) == (if IsBoundary(st, e) && !exhausted then 1 else 0)
      && (t.Next? ==> t.state.sleep == st.sleep - Count(t.actions, Pause))
      && (t.Next? ==> |t.actions| >= 2 && t.actions[|t.actions| - 1] == Sleep(t.state.sleep)
                      && t.actions[|t.actions| - 2] == Probe)
  {
    var n := if IsBoundary(st, e) then st.sleep - 1 else st.sleep;
    var pause: seq<Action> := if IsBoundary(st, e) then [Pause] else [];
    assert [Probe][1..] == [] && [Sleep(n)][1..] == [] && [Pause][1..] == [];
    CountAppend(pause, [Probe], Pause);
    CountAppend(pause, [Probe], Probe);
    CountAppend(pause + [Probe], [Sleep(n)], Pause);
    CountAppend(pause + [Probe], [Sleep(n)], Probe);
  }

  /**
   * `sleep` never goes below 0 and never rises; it has dropped by one tenth
   * for every 60 s pause (one per decrementing boundary); the loop ends
   * exhausted only with `sleep` at 0; while it runs, every turn probed once.
   */
  lemma {:induction false} ExecAccounting(st: State, events: seq<Event>)
    requires 0 <= st.sleep
    ensures var r := Exec(st, events);
      0 <= SleepOf(r.status) <= st.sleep
      && SleepOf(r.status) == st.sleep - Count(r.trace, Pause)
      && (r.status.Exhausted? ==> SleepOf(r.status) == 0)
      && (r.status.Running? ==> Count(r.trace, Probe) == |events|)
    decreases |events|
  {
    if events != [] {
      var e := events[0];
      CountTurn(st, e);
      match Iterate(st, e)
      case Stop(o, acts) =>
      case Next(st', acts) =>
        ExecAccounting(st', events[1..]);
        CountAppend(acts, Exec(st', events[1..]).trace, Pause);
        CountAppend(acts, Exec(st', events[1..]).trace, Probe);
    }
  }

  /** Every sleep of the trace lies in `[lo, hi]`. */
  predicate SleepsWithin(trace: seq<Action>, lo: int, hi: int) {
    forall i :: 0 <= i < |trace| && trace[i].Sleep? ==> lo <= trace[i].tenths <= hi
  }

  /** Each sleep of the trace is at most every sleep before it. */
  predicate SleepsNonIncreasing(trace: seq<Action>) {
    forall i, j :: 0 <= i < j < |trace| && trace[i].Sleep? && trace[j].Sleep? ==>
      trace[j].tenths <= trace[i].tenths
  }

  /** A turn that goes on, followed by a trace whose sleeps descend from at most the turn's `sleep`. */
  lemma TurnThenRest(st: State, e: Event, rest: seq<Action>, lo: int)
    requires Iterate(st, e).Next?
    requires lo <= Iterate(st, e).state.sleep
    requires SleepsWithin(rest, lo, Iterate(st, e).state.sleep) && SleepsNonIncreasing(rest)
    ensures SleepsWithin(Iterate(st, e).actions + rest, lo, Iterate(st, e).state.sleep)
    ensures SleepsNonIncreasing(Iterate(st, e).actions + rest)
  {
    var n := Iterate(st, e).state.sleep;
    var pause: seq<Action> := if IsBoundary(st, e) then [Pause] else [];
    var acts := pause + [Probe] + [Sleep(n)];
    assert Iterate(st, e).actions == acts;
    var trace := acts + rest;
    assert forall k :: 0 <= k < |acts| - 1 ==> !trace[k].Sleep?;
    assert trace[|acts| - 1] == Sleep(n);
    assert forall k :: |acts| <= k < |trace| ==> trace[k] == rest[k - |acts|];
  }

  /**
   * The sleeps in a trace never increase and lie between the value finally
   * reported and the starting value.
   */
  lemma {:induction false} SleepsDescend(st: State, events: seq<Event>)
    requires 0 <= st.sleep
    ensures SleepsWithin(Exec(st, events).trace, SleepOf(Exec(st, events).status), st.sleep)
    ensures SleepsNonIncreasing(Exec(st, events).trace)
    decreases |events|
  {
    if events != [] {
      var e := events[0];
      var b := IsBoundary(st, e);
      if !(b && st.sleep <= 0) {
        var now := if b then State(st.sleep - 1, e.clock) else st;
        var pause: seq<Action> := if b then [Pause] else [];
        if e.ok {
          assert Iterate(st, e) == Next(now, pause + [Probe] + [Sleep(now.sleep)]);
          SleepsDescend(now, events[1..]);
          ExecAccounting(now, events[1..]);
          TurnThenRest(st, e, Exec(now, events[1..]).trace, SleepOf(Exec(now, events[1..]).status));
        } else {
          assert Exec(st, events).trace == pause + [Probe];
        }
      }
    }
  }

  predicate AllOk(events: seq<Event>) {
    forall i :: 0 <= i < |events| ==> events[i].ok
  }

  /**
   * How many epoch boundaries the clock readings cross, each boundary
   * starting the next epoch. It depends on the clock alone.
   */
  function BoundaryCount(start: int, events: seq<Event>): nat
    decreases |events|
  {
    if events == [] then 0
    else if ElapsedSeconds(start, events[0].clock) > EpochSeconds then 1 + BoundaryCount(events[0].clock, events[1..])
    else BoundaryCount(start, events[1..])
  }

  /** The start of the epoch that is current after the clock readings. */
  function EpochStartAfter(start: int, events: seq<Event>): int
    decreases |events|
  {
    if events == [] then start
    else if ElapsedSeconds(start, events[0].clock) > EpochSeconds then EpochStartAfter(events[0].clock, events[1..])
    else EpochStartAfter(start, events[1..])
  }

  /**
   * With every probe answering, the loop runs on while it has crossed at
   * most `st.sleep` boundaries, each lowering `sleep` by one tenth, with one
   * probe per turn; the next boundary ends it, reporting 0 after exactly
   * `st.sleep` pauses.
   */
  lemma {:induction false} AnsweredProbesExhaust(st: State, events: seq<Event>)
    requires 0 <= st.sleep && AllOk(events)
    ensures var r := Exec(st, events);
      var n := BoundaryCount(st.start, events);
      (n <= st.sleep ==>
         r.status == Running(State(st.sleep - n, EpochStartAfter(st.start, events)))
         && Count(r.trace, Probe) == |events|)
      && (n > st.sleep ==> r.status == Exhausted(0) && Count(r.trace, Pause) == st.sleep)
    decreases |events|
  {
    if events != [] {
      var e := events[0];
      assert e.ok;
      assert AllOk(events[1..]) by {
        forall i | 0 <= i < |events[1..]| ensures events[1..][i].ok {
          assert events[1..][i] == events[i + 1];
        }
      }
      CountTurn(st, e);
      if !(IsBoundary(st, e) && st.sleep <= 0) {
        var st' := if IsBoundary(st, e) then State(st.sleep - 1, e.clock) else st;
        assert Iterate(st, e).Next? && Iterate(st, e).state == st';
        AnsweredProbesExhaust(st', events[1..]);
        CountAppend(Iterate(st, e).actions, Exec(st', events[1..]).trace, Probe);
        CountAppend(Iterate(st, e).actions, Exec(st', events[1..]).trace, Pause);
      }
    }
  }

  /**
   * From `sleep` 1.0 with every probe answering: ten boundaries leave
   * `sleep` at 0.0, and the eleventh ends the loop after ten pauses,
   * however many turns lie between the boundaries.
   */
  lemma ElevenBoundariesFromStart(start: int, events: seq<Event>)
    requires AllOk(events)
    ensures BoundaryCount(start, events) == 10 ==>
      (Exec(State(InitialSleep, start), events).status.Running?
       && Exec(State(InitialSleep, start), events).status.state.sleep == 0)
    ensures BoundaryCount(start, events) >= 11 ==>
      (Exec(State(InitialSleep, start), events).status == Exhausted(0)
       && Count(Exec(State(InitialSleep, start), events).trace, Pause) == 10)
  {
    AnsweredProbesExhaust(State(InitialSleep, start), events);
  }

  /**
   * A failed probe ends the turn it happens in: the report is the value of
   * `sleep` in that turn (decremented first if the turn is on a boundary),
   * and the turn's last action is that probe.
   */
  lemma FailedProbeStops(st: State, events: seq<Event>)
    requires events != [] && !events[0].ok
    requires !(IsBoundary(st, events[0]) && st.sleep <= 0)
    ensures Exec(st, events).status
      == ProbeFailed(if IsBoundary(st, events[0]) then st.sleep - 1 else st.sleep)
    ensures Exec(st, events).trace == (if IsBoundary(st, events[0]) then [Pause] else []) + [Probe]
  {
  }

  /** Once the loop has stopped, later events change nothing. */
  lemma {:induction false} StoppedStaysStopped(st: State, events: seq<Event>, more: seq<Event>)
    requires !Exec(st, events).status.Running?
    ensures Exec(st, events + more) == Exec(st, events)
    decreases |events|
  {
    assert events != [];
    assert (events + more)[0] == events[0] && (events + more)[1..] == events[1..] + more;
    match Iterate(st, events[0])
    case Stop(o, acts) =>
    case Next(st', acts) =>
      StoppedStaysStopped(st', events[1..], more);
  }

  /** Running over two stretches of events is running over the first and then, from where it left off, the second. */
  lemma {:induction false} ExecConcat(st: State, events: seq<Event>, more: seq<Event>)
    requires Exec(st, events).status.Running?
    ensures Exec(st, events + more)
      == After(Exec(st, events).trace, Exec(Exec(st, events).status.state, more))
    decreases |events|
  {
    if events == [] {
      assert events + more == more;
      assert [] + Exec(st, more).trace == Exec(st, more).trace;
    } else {
      assert (events + more)[0] == events[0] && (events + more)[1..] == events[1..] + more;
      match Iterate(st, events[0])
      case Stop(o, acts) =>
      case Next(st', acts) =>
        ExecConcat(st', events[1..], more);
        var first := Exec(st', events[1..]);
        AfterAppend(acts, first.trace, Exec(first.status.state, more));
    }
  }

  /**
   * Two good epochs and a probe that fails on the third boundary: the loop
   * stops reporting 0.7 s, the value of that third epoch, whatever turns
   * came in between.
   */
  lemma FailureInThirdEpoch(start: int, good: seq<Event>, bad: Event)
    requires AllOk(good) && BoundaryCount(start, good) == 2
    requires ElapsedSeconds(EpochStartAfter(start, good), bad.clock) > EpochSeconds && !bad.ok
    ensures Exec(State(InitialSleep, start), good + [bad]).status == ProbeFailed(7)
  {
    var st := State(InitialSleep, start);
    AnsweredProbesExhaust(st, good);
    ExecConcat(st, good, [bad]);
    var mid := Exec(st, good).status.state;
    assert mid == State(8, EpochStartAfter(start, good));
    FailedProbeStops(mid, [bad]);
  }

  /** `.seconds` leaves out whole days: a day and 100 s after the epoch start is not a boundary. */
  lemma DayWrapHidesElapsedTime(start: int)
    ensures ElapsedSeconds(start, start + (86400 + 100) * 1000000) == 100
    ensures !IsBoundary(State(InitialSleep, start), Event(start + (86400 + 100) * 1000000, true))
  {
  }
}
