/** `animateJourneySteps`: with `n` steps, one step is activated every two
    seconds; once all are active, three seconds later every step is cleared
    and the cycle starts again from step 0. The timer is an explicit
    pending event: the phase of the callback that is scheduled, and when. */
module Journey {
  import opened Wrappers

  const StartDelay := 1000
  const StepDelay := 2000
  const ResetDelay := 3000

  /** `Advance` is `activateNextStep`; `Reset` is the callback that clears
      the steps and starts over. */
  datatype Phase = Advance | Reset

  /** The `active` class of each step, `currentStep`, and the pending timer. */
  datatype Journey = Journey(active: seq<bool>, current: nat, phase: Phase, dueAt: nat)

  /** `active` holds exactly the steps before `current`, `current` stays
      within the steps, and a reset is only ever pending once all are
      active. */
  ghost predicate Inv(j: Journey) {
    && j.current <= |j.active|
    && (forall i :: 0 <= i < |j.active| ==> (j.active[i] <==> i < j.current))
    && (j.phase == Reset ==> j.current == |j.active|)
  }

  /** The steps with exactly the first `k` active. */
  function FirstActive(n: nat, k: nat): (a: seq<bool>)
    ensures |a| == n && forall i :: 0 <= i < n ==> (a[i] <==> i < k)
  {
    seq(n, i => i < k)
  }

  /** Starting the animation: nothing happens without steps; otherwise the
      first `activateNextStep` is due after a second. The steps are taken
      to start without the `active` class, as the page's markup has them:
      the script itself does not clear them before the first activation. */
  function Start(n: nat): (r: Option<Journey>)
    ensures r.None? <==> n == 0
    ensures r.Some? ==> Inv(r.value) && |r.value.active| == n && r.value.current == 0 && r.value.dueAt == StartDelay
  {
    if n == 0 then None else Some(Journey(FirstActive(n, 0), 0, Advance, StartDelay))
  }

  /** The pending timer fires. `activateNextStep` activates the next step
      and schedules itself again, or, with every step active, schedules
      the reset; the reset clears every step and calls `activateNextStep`
      at once, which activates step 0. */
  function Tick(j: Journey): Journey
    requires |j.active| > 0
  {
    match j.phase
    case Advance =>
      if j.current < |j.active| then
        Journey(j.active[j.current := true], j.current + 1, Advance, j.dueAt + StepDelay)
      else
        j.(phase := Reset, dueAt := j.dueAt + ResetDelay)
    case Reset =>
      Journey(FirstActive(|j.active|, 1), 1, Advance, j.dueAt + StepDelay)
  }

  /** Every tick keeps the invariant, the number of steps and the timer
      moving forward. */
  lemma TickInv(j: Journey)
    requires Inv(j) && |j.active| > 0
    ensures Inv(Tick(j)) && |Tick(j).active| == |j.active| && Tick(j).dueAt > j.dueAt
  {
  }

  /** After a reset the steps are all cleared but step 0, which is active
      again, and the counter is 1: step 0 is activated right after the
      counter goes back to 0. */
  lemma ResetRestarts(j: Journey)
    requires Inv(j) && |j.active| > 0 && j.phase == Reset
    ensures var r := Tick(j);
      && r.current == 1 && r.active[0]
      && (forall i :: 1 <= i < |r.active| ==> !r.active[i])
  {
  }

  function Ticks(j: Journey, k: nat): Journey
    requires |j.active| > 0
    decreases k
  {
    if k == 0 then j else Ticks(Tick(j), k - 1)
  }

  lemma {:induction false} TicksKeep(j: Journey, k: nat)
    requires |j.active| > 0
    ensures |Ticks(j, k).active| == |j.active|
    decreases k
  {
    if k > 0 {
      TicksKeep(Tick(j), k - 1);
    }
  }

  /** The invariant holds after any number of ticks. */
  lemma {:induction false} TicksInv(j: Journey, k: nat)
    requires Inv(j) && |j.active| > 0
    ensures Inv(Ticks(j, k)) && |Ticks(j, k).active| == |j.active|
    decreases k
  {
    if k > 0 {
      TickInv(j);
      TicksInv(Tick(j), k - 1);
    }
  }

  /** From `activateNextStep` pending with `c` steps active, the remaining
      steps come one every two seconds. */
  lemma {:induction false} AdvanceToEnd(j: Journey)
    requires Inv(j) && |j.active| > 0 && j.phase == Advance
    ensures var e := Ticks(j, |j.active| - j.current);
      && e.current == |j.active| && e.phase == Advance
      && e.active == FirstActive(|j.active|, |j.active|)
      && e.dueAt == j.dueAt + StepDelay * (|j.active| - j.current)
    decreases |j.active| - j.current
  {
    var n := |j.active|;
    if j.current < n {
      TickInv(j);
      AdvanceToEnd(Tick(j));
    } else {
      assert j.active == FirstActive(n, n);
    }
  }

  lemma {:induction false} TicksAdd(j: Journey, a: nat, b: nat)
    requires |j.active| > 0
    ensures |Ticks(j, a).active| > 0 && Ticks(j, a + b) == Ticks(Ticks(j, a), b)
    decreases a
  {
    if a > 0 {
      TicksAdd(Tick(j), a - 1, b);
    }
  }

  /** The animation is periodic: from the state after the first tick,
      `n + 1` more ticks give back the same steps, counter and phase,
      `2000 * n + 3000` milliseconds later. */
  lemma {:induction false} Periodic(n: nat)
    requires n > 0
    ensures var j1 := Tick(Start(n).value);
      Ticks(j1, n + 1) == j1.(dueAt := j1.dueAt + StepDelay * n + ResetDelay)
  {
    var j0 := Start(n).value;
    var j1 := Tick(j0);
    TickInv(j0);
    AdvanceToEnd(j1);
    TicksAdd(j1, n - 1, 2);
    var e := Ticks(j1, n - 1);
    assert Ticks(e, 2) == Tick(Tick(e));
    assert j1.active == FirstActive(n, 1);
  }
}
