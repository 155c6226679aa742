/** `throttle(func, delay)`: the wrapper runs `func` at once when more than
    `delay` milliseconds have passed since it last ran, and otherwise
    replaces any pending deferred run with one due when `delay` will have
    passed. Times are `Date.now()` values, integer milliseconds since the
    epoch, and `lastExecTime` starts at 0, so the first call always runs at
    once; the deferred run is an explicit pending event. */
module Throttle {
  import opened Wrappers

  /** A deferred run: when it is due and the arguments it carries. */
  datatype Pending<A> = Pending(fireAt: int, arg: A)

  /** The closure's state: `lastExecTime` and the scheduled timer, if any. */
  datatype State<A> = State(lastExec: int, pending: Option<Pending<A>>)

  /** What one call of the wrapper does. */
  datatype Outcome<A> = RanNow(s: State<A>) | Deferred(s: State<A>, wait: int)

  /** `let lastExecTime = 0`, and no timer. */
  function Init<A>(): State<A> {
    State(0, None)
  }

  /** One call of the wrapper at time `now` with arguments `arg`. The
      immediate branch leaves a scheduled timer alone; the deferred branch
      cancels it and schedules one with wait `delay - elapsed`. */
  function Call<A>(s: State<A>, now: int, delay: int, arg: A): (o: Outcome<A>)
    ensures o.RanNow? <==> now - s.lastExec > delay
    ensures o.RanNow? ==> o.s == State(now, s.pending)
    ensures o.Deferred? ==> o.s.lastExec == s.lastExec && o.s.pending == Some(Pending(now + o.wait, arg))
    ensures o.Deferred? ==> now + o.wait == s.lastExec + delay
  {
    var elapsed := now - s.lastExec;
    if elapsed > delay then RanNow(State(now, s.pending))
    else Deferred(State(s.lastExec, Some(Pending(now + (delay - elapsed), arg))), delay - elapsed)
  }

  /** The timer fires at time `at`: `func` runs with the deferred
      arguments and `lastExecTime` becomes `Date.now()`, the time it fires. */
  function Fire<A>(s: State<A>, at: int): (r: (State<A>, A))
    requires s.pending.Some?
    ensures r.0 == State(at, None) && r.1 == s.pending.value.arg
  {
    (State(at, None), s.pending.value.arg)
  }

  /** A deferred run, whenever its timer fires (never before it is due),
      runs the deferred call's own arguments at least `delay` after the
      previous run and leaves nothing pending. */
  lemma DeferredRunSpacing<A>(s: State<A>, now: int, delay: int, arg: A, at: int)
    requires Call(s, now, delay, arg).Deferred?
    requires at >= Call(s, now, delay, arg).s.pending.value.fireAt
    ensures var o := Call(s, now, delay, arg);
      var (s', a) := Fire(o.s, at);
      && a == arg
      && s'.pending.None?
      && s'.lastExec - s.lastExec >= delay
      && s'.lastExec == at
  {
  }

  /** With a clock that has not gone back since the last run, a deferred
      call waits between 0 and `delay`, and a call exactly `delay` after the
      last run is deferred with wait 0. */
  lemma DeferredWaitBounds<A>(s: State<A>, now: int, delay: int, arg: A)
    requires s.lastExec <= now
    ensures var o := Call(s, now, delay, arg);
      && (o.Deferred? ==> 0 <= o.wait <= delay)
      && (now - s.lastExec == delay ==> o.Deferred? && o.wait == 0)
  {
  }

  /** A run of `func`: when and with what. */
  datatype Exec<A> = Exec(at: int, arg: A)

  /** A call of the wrapper: when and with what. */
  datatype Invocation<A> = Invocation(at: int, arg: A)

  /** The timeline so far: the closure's state and the runs of `func`. */
  datatype Trace<A> = Trace(s: State<A>, execs: seq<Exec<A>>)

  /** Lets a due timer fire before a call at time `now`. A timer due at
      exactly `now` fires first. */
  function Settle<A>(tr: Trace<A>, now: int): Trace<A> {
    if tr.s.pending.Some? && tr.s.pending.value.fireAt <= now then
      var (s, a) := Fire(tr.s, tr.s.pending.value.fireAt);
      Trace(s, tr.execs + [Exec(tr.s.pending.value.fireAt, a)])
    else tr
  }

  /** A call at `inv.at`, after any due timer has fired. */
  function Step<A>(tr: Trace<A>, delay: int, inv: Invocation<A>): Trace<A> {
    var t := Settle(tr, inv.at);
    match Call(t.s, inv.at, delay, inv.arg)
    case RanNow(s) => Trace(s, t.execs + [Exec(inv.at, inv.arg)])
    case Deferred(s, _) => Trace(s, t.execs)
  }

  /** The calls in order, from the start. */
  function Simulate<A>(delay: int, calls: seq<Invocation<A>>): Trace<A>
    decreases |calls|
  {
    if calls == [] then Trace(Init(), [])
    else Step(Simulate(delay, calls[..|calls| - 1]), delay, calls[|calls| - 1])
  }

  /** Lets the last timer fire, if one is pending. */
  function Flush<A>(tr: Trace<A>): Trace<A> {
    if tr.s.pending.Some? then
      Trace(State(tr.s.pending.value.fireAt, None), tr.execs + [Exec(tr.s.pending.value.fireAt, tr.s.pending.value.arg)])
    else tr
  }

  /** Call times never go back. */
  predicate Monotone<A>(calls: seq<Invocation<A>>) {
    forall i, j :: 0 <= i < j < |calls| ==> calls[i].at <= calls[j].at
  }

  /** Runs of `func` are at least `delay` apart. */
  predicate Spaced<A>(execs: seq<Exec<A>>, delay: int) {
    forall i :: 0 < i < |execs| ==> execs[i - 1].at + delay <= execs[i].at
  }

  /** What holds between calls: a pending run is due `delay` after the
      last run; `lastExecTime` is the time of the last run, or 0 before
      the first; runs are spaced; and runs plus the pending one never
      outnumber the calls. */
  ghost predicate Good<A>(tr: Trace<A>, delay: nat, calls: nat, clock: int) {
    && (tr.s.pending.Some? ==> tr.s.pending.value.fireAt == tr.s.lastExec + delay)
    && (if tr.execs == [] then tr.s.lastExec == 0 else tr.s.lastExec == tr.execs[|tr.execs| - 1].at)
    && Spaced(tr.execs, delay)
    && |tr.execs| + (if tr.s.pending.Some? then 1 else 0) <= calls
    && tr.s.lastExec <= clock
  }

  lemma SettleGood<A>(tr: Trace<A>, delay: nat, calls: nat, clock: int, now: int)
    requires Good(tr, delay, calls, clock) && clock <= now
    ensures Good(Settle(tr, now), delay, calls, now)
    ensures Settle(tr, now).s.pending.Some? ==> now < Settle(tr, now).s.pending.value.fireAt
    ensures Settle(tr, now).s.pending == tr.s.pending || Settle(tr, now).s.pending.None?
  {
  }

  lemma {:induction false} StepGood<A>(tr: Trace<A>, delay: nat, calls: nat, clock: int, inv: Invocation<A>)
    requires Good(tr, delay, calls, clock) && clock <= inv.at
    requires 0 <= inv.at
    ensures Good(Step(tr, delay, inv), delay, calls + 1, inv.at)
  {
    var t := Settle(tr, inv.at);
    SettleGood(tr, delay, calls, clock, inv.at);
    match Call(t.s, inv.at, delay, inv.arg)
    case RanNow(s) =>
      var r := Step(tr, delay, inv);
      assert r.execs == t.execs + [Exec(inv.at, inv.arg)];
      assert t.execs != [] ==> t.execs[|t.execs| - 1].at == t.s.lastExec;
    case Deferred(s, _) =>
  }

  /** The invariant holds after every prefix of calls at non-negative,
      non-decreasing times. */
  lemma {:induction false} SimulateGood<A>(delay: nat, calls: seq<Invocation<A>>)
    requires Monotone(calls) && forall i :: 0 <= i < |calls| ==> 0 <= calls[i].at
    ensures Good(Simulate(delay, calls), delay, |calls|, if calls == [] then 0 else calls[|calls| - 1].at)
    decreases |calls|
  {
    if calls != [] {
      var init := calls[..|calls| - 1];
      SimulateGood(delay, init);
      StepGood(Simulate(delay, init), delay, |init|, if init == [] then 0 else init[|init| - 1].at, calls[|calls| - 1]);
    }
  }

  /** With every timer firing as soon as it is due (`Settle`), over any
      monotone sequence of calls, `func` runs at most once per call, and
      any two consecutive runs are at least `delay` apart, also counting
      the last deferred run. */
  lemma ThrottleSpacing<A>(delay: nat, calls: seq<Invocation<A>>)
    requires Monotone(calls) && forall i :: 0 <= i < |calls| ==> 0 <= calls[i].at
    ensures var f := Flush(Simulate(delay, calls));
      |f.execs| <= |calls| && Spaced(f.execs, delay)
  {
    SimulateGood(delay, calls);
  }

  /** With every timer firing as soon as it is due, the last call's
      arguments are the last ones `func` sees: once the pending timer has
      fired, the final run carries them. A call that runs at once leaves a
      pending timer alone, but none can be pending then: a timer still
      waiting is due within `delay` of the last run. */
  lemma {:induction false} LastCallWins<A>(delay: nat, calls: seq<Invocation<A>>)
    requires calls != []
    requires Monotone(calls) && forall i :: 0 <= i < |calls| ==> 0 <= calls[i].at
    ensures var f := Flush(Simulate(delay, calls));
      f.execs != [] && f.execs[|f.execs| - 1].arg == calls[|calls| - 1].arg
  {
    var init := calls[..|calls| - 1];
    var last := calls[|calls| - 1];
    SimulateGood(delay, init);
    var clock := if init == [] then 0 else init[|init| - 1].at;
    SettleGood(Simulate(delay, init), delay, |init|, clock, last.at);
  }

  /** Something the page's event loop runs: a call of the wrapper, or the
      pending timer's callback getting its turn at time `at`. */
  datatype Event<A> = CallAt(inv: Invocation<A>) | TimerAt(at: int)

  /** The calls an event contributes. */
  function CallsOf<A>(e: Event<A>): seq<Invocation<A>> {
    match e
    case CallAt(inv) => [inv]
    case TimerAt(_) => []
  }

  /** The calls among `evs`, in order. */
  function Calls<A>(evs: seq<Event<A>>): seq<Invocation<A>> {
    if evs == [] then [] else Calls(evs[..|evs| - 1]) + CallsOf(evs[|evs| - 1])
  }

  /** One event. A timer callback runs only once its timer is due and only
      if it was not cleared. When `clearing` holds, a call that runs at once
      also cancels the pending timer; as written it does not. */
  function Handle<A>(tr: Trace<A>, delay: int, e: Event<A>, clearing: bool): Trace<A> {
    match e
    case CallAt(inv) =>
      (match Call(tr.s, inv.at, delay, inv.arg)
       case RanNow(s) =>
         Trace(if clearing then State(s.lastExec, None) else s, tr.execs + [Exec(inv.at, inv.arg)])
       case Deferred(s, _) => Trace(s, tr.execs))
    case TimerAt(at) =>
      if tr.s.pending.Some? && tr.s.pending.value.fireAt <= at then
        var (s, a) := Fire(tr.s, at);
        Trace(s, tr.execs + [Exec(at, a)])
      else tr
  }

  /** The events in order, from the start. */
  function Replay<A>(delay: int, evs: seq<Event<A>>, clearing: bool): Trace<A> {
    if evs == [] then Trace(Init(), [])
    else Handle(Replay(delay, evs[..|evs| - 1], clearing), delay, evs[|evs| - 1], clearing)
  }

  /** With a `Date.now()` clock, later than `delay` after the epoch, the
      first call runs at once. */
  lemma FirstCallRunsAtOnce<A>(now: int, delay: int, arg: A)
    requires now > delay
    ensures Call(Init(), now, delay, arg) == RanNow(State(now, None))
  {
  }

  /** As written: after a run at 1000, a call at 1050 is deferred to 1100;
      if that timer's callback is held up past a call at 1150, the call at
      1150 runs at once and the callback then runs `func` again at 1160,
      10 ms later and with the older call's arguments. With the timer
      cleared, the same events run `func` at 1000 and 1150 only, and the
      last run carries the last call's arguments. */
  lemma LateTimerRunsTwice()
    ensures var evs := [CallAt(Invocation(1000, "x")), CallAt(Invocation(1050, "a")),
                        CallAt(Invocation(1150, "b")), TimerAt(1160)];
      && Calls(evs) == [Invocation(1000, "x"), Invocation(1050, "a"), Invocation(1150, "b")]
      && Flush(Replay(100, evs, false)).execs == [Exec(1000, "x"), Exec(1150, "b"), Exec(1160, "a")]
      && !Spaced(Flush(Replay(100, evs, false)).execs, 100)
      && Flush(Replay(100, evs, true)).execs == [Exec(1000, "x"), Exec(1150, "b")]
  {
    var e0: Event<string> := CallAt(Invocation(1000, "x"));
    var e1: Event<string> := CallAt(Invocation(1050, "a"));
    var e2: Event<string> := CallAt(Invocation(1150, "b"));
    var e3: Event<string> := TimerAt(1160);
    var evs := [e0, e1, e2, e3];
    assert evs[..3] == [e0, e1, e2] && [e0, e1, e2][..2] == [e0, e1];
    assert [e0, e1][..1] == [e0] && [e0][..0] == [];
    assert Calls([e0]) == [Invocation(1000, "x")];
    assert Calls([e0, e1]) == [Invocation(1000, "x"), Invocation(1050, "a")];
    assert Calls([e0, e1, e2]) == [Invocation(1000, "x"), Invocation(1050, "a"), Invocation(1150, "b")];
    forall clearing: bool
      ensures Replay(100, [e0], clearing) == Trace(State(1000, None), [Exec(1000, "x")])
      ensures Replay(100, [e0, e1], clearing) == Trace(State(1000, Some(Pending(1100, "a"))), [Exec(1000, "x")])
    {
    }
    // As written, the call at 1150 runs at once and keeps the timer.
    var w2 := Trace(State(1150, Some(Pending(1100, "a"))), [Exec(1000, "x"), Exec(1150, "b")]);
    assert Replay(100, [e0, e1, e2], false) == w2;
    var w3 := Trace(State(1160, None), [Exec(1000, "x"), Exec(1150, "b"), Exec(1160, "a")]);
    assert Replay(100, evs, false) == w3;
    assert w3.execs[1].at + 100 > w3.execs[2].at;
    // Cleared, the timer is gone and the late callback does nothing.
    var c2 := Trace(State(1150, None), [Exec(1000, "x"), Exec(1150, "b")]);
    assert Replay(100, [e0, e1, e2], true) == c2;
    assert Replay(100, evs, true) == c2;
  }

  /** What holds between events when the timer is cleared: a pending run is
      due `delay` after the last run; `lastExecTime` is the time of the last
      run; runs are spaced; runs plus the pending one never outnumber the
      calls; and the pending run, or else the last run, carries the last
      call's arguments. */
  ghost predicate Kept<A>(tr: Trace<A>, delay: int, calls: seq<Invocation<A>>) {
    && (tr.s.pending.Some? ==> tr.s.pending.value.fireAt == tr.s.lastExec + delay)
    && (tr.execs != [] ==> tr.s.lastExec == tr.execs[|tr.execs| - 1].at)
    && Spaced(tr.execs, delay)
    && |tr.execs| + (if tr.s.pending.Some? then 1 else 0) <= |calls|
    && (calls != [] ==>
          if tr.s.pending.Some? then tr.s.pending.value.arg == calls[|calls| - 1].arg
          else tr.execs != [] && tr.execs[|tr.execs| - 1].arg == calls[|calls| - 1].arg)
  }

  /** A run at `at`, at least `delay` after the last one, keeps runs spaced. */
  lemma SpacedAppend<A>(execs: seq<Exec<A>>, delay: int, e: Exec<A>)
    requires Spaced(execs, delay)
    requires execs != [] ==> execs[|execs| - 1].at + delay <= e.at
    ensures Spaced(execs + [e], delay)
  {
    var r := execs + [e];
    forall i | 0 < i < |r|
      ensures r[i - 1].at + delay <= r[i].at
    {
      if i < |execs| {
        assert r[i - 1] == execs[i - 1] && r[i] == execs[i];
      }
    }
  }

  lemma {:induction false} HandleKept<A>(tr: Trace<A>, delay: int, calls: seq<Invocation<A>>, e: Event<A>)
    requires Kept(tr, delay, calls)
    ensures Kept(Handle(tr, delay, e, true), delay, calls + CallsOf(e))
  {
    match e
    case CallAt(inv) =>
      if inv.at - tr.s.lastExec > delay {
        SpacedAppend(tr.execs, delay, Exec(inv.at, inv.arg));
      }
    case TimerAt(at) =>
      if tr.s.pending.Some? && tr.s.pending.value.fireAt <= at {
        SpacedAppend(tr.execs, delay, Exec(at, tr.s.pending.value.arg));
      }
  }

  lemma {:induction false} ReplayKept<A>(delay: int, evs: seq<Event<A>>)
    ensures Kept(Replay(delay, evs, true), delay, Calls(evs))
  {
    if evs != [] {
      ReplayKept(delay, evs[..|evs| - 1]);
      HandleKept(Replay(delay, evs[..|evs| - 1], true), delay, Calls(evs[..|evs| - 1]), evs[|evs| - 1]);
    }
  }

  lemma FlushKept<A>(tr: Trace<A>, delay: int, calls: seq<Invocation<A>>)
    requires Kept(tr, delay, calls)
    ensures Kept(Flush(tr), delay, calls)
  {
    if tr.s.pending.Some? {
      SpacedAppend(tr.execs, delay, Exec(tr.s.pending.value.fireAt, tr.s.pending.value.arg));
    }
  }

  /** With the timer cleared on every call, over any events in any order
      and with timers firing late, `func` runs at most once per call and
      any two consecutive runs are at least `delay` apart. */
  lemma ClearingSpacing<A>(delay: int, evs: seq<Event<A>>)
    ensures var f := Flush(Replay(delay, evs, true));
      |f.execs| <= |Calls(evs)| && Spaced(f.execs, delay)
  {
    ReplayKept(delay, evs);
    FlushKept(Replay(delay, evs, true), delay, Calls(evs));
  }

  /** With the timer cleared on every call, the last call's arguments are
      the last ones `func` sees once the pending timer has fired. */
  lemma ClearingLastCallWins<A>(delay: int, evs: seq<Event<A>>)
    requires Calls(evs) != []
    ensures var f := Flush(Replay(delay, evs, true));
      f.execs != [] && f.execs[|f.execs| - 1].arg == Calls(evs)[|Calls(evs)| - 1].arg
  {
    ReplayKept(delay, evs);
    FlushKept(Replay(delay, evs, true), delay, Calls(evs));
  }
}
