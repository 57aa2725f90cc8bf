/** The barrier cannot stall: without any spurious wake-up, the threads inside
    the barrier always have an enabled step, and can take only boundedly many
    before some device is back at work or everything has exited. */
module BarrierProgress {
  import opened Wrappers
  import opened TimerBarrier

  /** A step of the barrier itself: not a new call, not a spurious wake-up. */
  predicate Internal(step: Step) { step.Timer? || step.Device? }

  predicate SomeWorking(s: State) { exists i :: 0 <= i < |s.devs| && s.devs[i].pc == Working }

  predicate AllExited(s: State) {
    s.timer == TExited && forall i :: 0 <= i < |s.devs| ==> s.devs[i].pc == Exited
  }

  // ---- No deadlock ----------------------------------------------------------

  predicate Enabled(s: State, step: Step) { Next(s, step).Some? }

  /** A device the timer is waiting for can itself move. */
  lemma AwaitedDeviceMoves(s: State, k: nat)
    requires Inv(s) && k < |s.devs| && s.devs[k].pc != Working
    requires (s.timer == TGather(k) && s.devs[k].eventLock != Nobody)
          || (s.timer == TSleep(k) && (s.devs[k].eventSleeper || s.devs[k].eventLock != Nobody))
          || (s.timer == TRelease(k) && s.devs[k].timerLock != Nobody)
    ensures Enabled(s, Device(k))
  {
    assert DevOk(s, k);
  }

  /** No deadlock, even without spurious wake-ups: unless everything has exited,
      either a device is at work (and may call next_slot or detach_event) or the
      barrier has an internal step. */
  lemma NoDeadlock(s: State) returns (step: Step)
    requires Inv(s) && !SomeWorking(s) && !AllExited(s)
    ensures Internal(step) && Enabled(s, step)
  {
    if Enabled(s, Timer) { return Timer; }
    if s.timer == TExited {
      var i :| 0 <= i < |s.devs| && s.devs[i].pc != Exited;
      assert DevOk(s, i);
      return Device(i);
    }
    var k := s.timer.k;
    assert s.devs[k].pc != Working;
    AwaitedDeviceMoves(s, k);
    return Device(k);
  }

  /** In every state of every run with a live thread, some step other than a
      spurious wake-up is enabled. */
  lemma RunNeverDeadlocks(run: seq<State>, j: nat)
    requires IsRun(run) && j < |run| && !AllExited(run[j])
    ensures exists step: Step :: !step.SpuriousTimer? && !step.SpuriousDevice? && !step.Stop? && Enabled(run[j], step)
  {
    RunInv(run, j);
    if SomeWorking(run[j]) {
      var i :| 0 <= i < |run[j].devs| && run[j].devs[i].pc == Working;
      assert Enabled(run[j], CallNextSlot(i));
    } else {
      var step := NoDeadlock(run[j]);
    }
  }

  // ---- A measure ------------------------------------------------------------

  /** How many steps a device may still take before it is back at work. */
  function DevPot(d: Dev): nat {
    match d.pc
    case Working => 0
    case NsLockE => 11
    case NsSetDone => 10
    case NsSignalE => 9
    case NsUnlockE => 8
    case NsLockT => 7
    case NsTest => if d.done then 5 else 2
    case NsSleep => if d.timerSleeper then 4 else if d.done then 6 else 3
    case NsUnlockT => 1
    case DtLockE => 4
    case DtSetFsh => 3
    case DtSignalE => 2
    case DtUnlockE => 1
    case Exited => 0
  }

  function SumPot(devs: seq<Dev>): nat {
    if devs == [] then 0 else DevPot(devs[0]) + SumPot(devs[1..])
  }

  lemma {:induction false} SumUpdate(devs: seq<Dev>, i: nat, d: Dev)
    requires i < |devs|
    ensures SumPot(devs[i := d]) + DevPot(devs[i]) == SumPot(devs) + DevPot(d)
    decreases |devs|
  {
    if i == 0 {
      assert devs[i := d][1..] == devs[1..];
    } else {
      assert devs[i := d][1..] == devs[1..][i - 1 := d];
      SumUpdate(devs[1..], i - 1, d);
    }
  }

  function Flag(s: State, k: nat): bool { k < |s.devs| && (s.devs[k].done || s.devs[k].fsh) }

  /** How far the timer is from its next tick, counting from the last one. */
  function TimerPos(s: State): int {
    var n := |s.devs|;
    match s.timer
    case TRelease(k) => 10 * n + 10 + 5 * (n - k)
    case TClear(k) => 10 * n + 9 + 5 * (n - k)
    case TSignal(k) => 10 * n + 8 + 5 * (n - k)
    case TUnlockT(k) => 10 * n + 7 + 5 * (n - k)
    case TDecide => 10 * n + 9
    case TLoop => 10 * n + 8
    case TGather(k) => 10 * (n - k) + 7
    case TTest(k) => 10 * (n - k) + (if Flag(s, k) then 2 else 5)
    case TSleep(k) =>
      10 * (n - k) + (if k < n && s.devs[k].eventSleeper then 4 else if Flag(s, k) then 3 else 6)
    case TCount(k) => 10 * (n - k) + 1
    case TUnlockE(k) => 10 * (n - k)
    case TTick => 0
    case TExited => 0
  }

  /** Inside detach_event or past it. */
  predicate Quitting(d: Dev) { d.pc in {DtLockE, DtSetFsh, DtSignalE, DtUnlockE, Exited} }

  /** Device d will not hold up the next tick. */
  predicate CanTick(t: TimerPc, i: nat, d: Dev) {
    Quitting(d) || ((d.pc in {NsLockE, NsSetDone} || d.done) && !Pending(t, i))
  }

  predicate AllCanTick(s: State) { forall i :: 0 <= i < |s.devs| ==> CanTick(s.timer, i, s.devs[i]) }
  predicate AllQuitting(s: State) { forall i :: 0 <= i < |s.devs| ==> Quitting(s.devs[i]) }

  /** How many ticks can still happen before a device must make a new call. */
  function TicksLeft(s: State): nat {
    if !AllCanTick(s) then 0
    else if !AllQuitting(s) then 1
    else
      var again := if s.fsh < s.event then 1 else 0;
      match s.timer
      case TLoop => 1
      case TGather(_) => 1 + again
      case TTest(_) => 1 + again
      case TSleep(_) => 1 + again
      case TCount(_) => 1 + again
      case TUnlockE(_) => 1 + again
      case TTick => 1 + again
      case TExited => 0
      case _ => again
  }

  function Scale(s: State): nat { 15 * |s.devs| + 11 }

  function Times(a: nat, b: nat): int { a * b }

  function Measure(s: State): int { Times(TicksLeft(s), Scale(s)) + TimerPos(s) + SumPot(s.devs) }

  lemma PosRange(s: State)
    requires TimerOk(s)
    ensures 0 <= TimerPos(s) < Scale(s)
  {
  }

  lemma DeviceTicks(s: State, i: nat, s': State)
    requires Inv(s) && Next(s, Device(i)) == Some(s')
    ensures TicksLeft(s') == TicksLeft(s)
  {
    assert DevOk(s, i);
    var d, d' := s.devs[i], s'.devs[i];
    assert CanTick(s.timer, i, d') == CanTick(s.timer, i, d) && Quitting(d') == Quitting(d);
    assert forall j :: 0 <= j < |s.devs| ==>
             && CanTick(s.timer, j, s'.devs[j]) == CanTick(s.timer, j, s.devs[j])
             && Quitting(s'.devs[j]) == Quitting(s.devs[j]);
  }

  lemma DevicePos(s: State, i: nat, s': State)
    requires Inv(s) && Next(s, Device(i)) == Some(s')
    ensures TimerPos(s') <= TimerPos(s)
    ensures DevPot(s'.devs[i]) < DevPot(s.devs[i])
  {
    assert DevOk(s, i);
  }

  /** What a timer step can change in a device's claim on the next tick: letting
      it go clears its flag, the tick itself uses every claim up, and nothing else
      matters. */
  lemma TimerTouches(s: State, s': State, i: nat)
    requires TimerNext(s) == Some(s') && i < |s.devs|
    ensures |s'.devs| == |s.devs| && s'.devs[i].pc == s.devs[i].pc
    ensures s.timer != TClear(i) ==> s'.devs[i].done == s.devs[i].done
    ensures s.timer != TSignal(i) ==> s'.devs[i].timerSleeper == s.devs[i].timerSleeper
    ensures s.timer == TClear(i) ==> !s'.devs[i].done && Pending(s.timer, i)
    ensures s.timer == TSignal(i) ==> !s'.devs[i].timerSleeper
    ensures s.timer != TTick && s.timer != TClear(i) ==> Pending(s'.timer, i) == Pending(s.timer, i)
    ensures s.timer == TTick ==> Pending(s'.timer, i)
  {
  }

  /** A timer step leaves every device's claim on the next tick alone, except the
      tick itself. */
  lemma TimerCanTick(s: State, s': State, i: nat)
    requires Inv(s) && TimerNext(s) == Some(s') && i < |s.devs|
    ensures Quitting(s'.devs[i]) == Quitting(s.devs[i])
    ensures s.timer != TTick ==> CanTick(s'.timer, i, s'.devs[i]) == CanTick(s.timer, i, s.devs[i])
    ensures s.timer == TTick ==>
              CanTick(s.timer, i, s.devs[i]) && CanTick(s'.timer, i, s'.devs[i]) == Quitting(s.devs[i])
  {
    hide TimerNext, TimerOk, Pending;
    assert DevOk(s, i);
    TimerTouches(s, s', i);
    if s.timer == TTick { TickClaims(s, i); }
    if s.timer == TClear(i) { ClearedDevice(s, i); }
  }

  /** At the tick every device that has not quit has its flag up. */
  lemma TickClaims(s: State, i: nat)
    requires DevOk(s, i) && i < |s.devs| && s.timer == TTick
    ensures CanTick(s.timer, i, s.devs[i])
  {
  }

  lemma TimerTicks(s: State, s': State)
    requires Inv(s) && TimerNext(s) == Some(s')
    ensures TicksLeft(s') + (if s.timer == TTick then 1 else 0) <= TicksLeft(s)
  {
    hide DevOk, CanTick, Quitting;
    TimerKeepsFinished(s, s');
    forall i | 0 <= i < |s.devs|
      ensures Quitting(s'.devs[i]) == Quitting(s.devs[i])
      ensures s.timer != TTick ==> CanTick(s'.timer, i, s'.devs[i]) == CanTick(s.timer, i, s.devs[i])
      ensures s.timer == TTick ==>
                CanTick(s.timer, i, s.devs[i]) && CanTick(s'.timer, i, s'.devs[i]) == Quitting(s.devs[i])
    {
      TimerCanTick(s, s', i);
    }
    assert AllQuitting(s') == AllQuitting(s);
    if s.timer == TTick {
      assert AllCanTick(s) && (AllCanTick(s') <==> AllQuitting(s));
    } else {
      assert AllCanTick(s') == AllCanTick(s);
      if s.timer.TCount? && AllQuitting(s) { QuittingCounted(s, s.timer.k); }
      if s'.timer.TExited? || s.timer.TDecide? { ExitedQuits(s'); }
    }
  }

  lemma QuittingCounted(s: State, k: nat)
    requires Inv(s) && s.timer == TCount(k) && k < |s.devs| && Quitting(s.devs[k])
    ensures s.devs[k].fsh
  {
    assert DevOk(s, k);
  }

  lemma ExitedQuits(s: State)
    ensures s.timer == TExited && TimerOk(s) && (forall i: nat :: DevOk(s, i)) ==> AllQuitting(s)
  {
    if s.timer == TExited && TimerOk(s) && (forall i: nat :: DevOk(s, i)) {
      forall i | 0 <= i < |s.devs| ensures Quitting(s.devs[i]) { assert DevOk(s, i); }
    }
  }

  lemma TimerPosDown(s: State, s': State)
    requires Inv(s) && TimerNext(s) == Some(s') && s.timer != TTick
    ensures TimerPos(s') < TimerPos(s)
  {
    if s.timer.TTest? { assert DevOk(s, s.timer.k); }
    if s.timer.TSleep? { assert DevOk(s, s.timer.k); }
  }

  lemma TimerPotOne(s: State, s': State, i: nat)
    requires Inv(s) && TimerNext(s) == Some(s') && i < |s.devs|
    ensures |s'.devs| == |s.devs| && DevPot(s'.devs[i]) <= DevPot(s.devs[i])
  {
    hide TimerNext, TimerOk, Inv;
    TimerTouches(s, s', i);
    if s.timer == TClear(i) || s.timer == TSignal(i) { LetGo(s, i); }
  }

  lemma LetGo(s: State, i: nat)
    requires Inv(s) && i < |s.devs| && (s.timer == TClear(i) || s.timer == TSignal(i))
    ensures s.timer == TClear(i) ==> s.devs[i].pc == NsLockT || s.devs[i].pc == NsSleep || s.devs[i].fsh
    ensures s.timer == TSignal(i) ==> !s.devs[i].done
  {
    assert DevOk(s, i);
    if s.timer == TClear(i) { ClearedDevice(s, i); }
  }

  lemma {:induction false} SumMono(devs: seq<Dev>, devs': seq<Dev>)
    requires |devs'| == |devs| && forall i :: 0 <= i < |devs| ==> DevPot(devs'[i]) <= DevPot(devs[i])
    ensures SumPot(devs') <= SumPot(devs)
  {
    hide DevPot;
    if devs != [] { SumMono(devs[1..], devs'[1..]); }
  }

  lemma TimerPot(s: State, s': State)
    requires Inv(s) && TimerNext(s) == Some(s')
    ensures SumPot(s'.devs) <= SumPot(s.devs)
  {
    hide SumPot, DevPot, Inv;
    TimerKeepsFinished(s, s');
    forall i | 0 <= i < |s.devs| ensures DevPot(s'.devs[i]) <= DevPot(s.devs[i]) { TimerPotOne(s, s', i); }
    SumMono(s.devs, s'.devs);
  }

  /** Every internal step uses up the measure. */
  lemma InternalDecreases(s: State, step: Step, s': State)
    requires Inv(s) && Internal(step) && Next(s, step) == Some(s')
    ensures Measure(s') < Measure(s) && Measure(s') >= 0 && |s'.devs| == |s.devs|
  {
    hide TicksLeft, TimerPos, SumPot, TimerOk, TimerNext, DevNext, DevPot, Inv, Times;
    NextInv(s, step, s');
    InvPos(s);
    InvPos(s');
    match step {
      case Timer =>
        TimerKeepsFinished(s, s');
        TimerTicks(s, s');
        TimerPot(s, s');
        if s.timer != TTick { TimerPosDown(s, s'); }
      case Device(i) =>
        DeviceTicks(s, i, s');
        DevicePos(s, i, s');
        SumUpdate(s.devs, i, s'.devs[i]);
    }
    Combine(TicksLeft(s), TimerPos(s), SumPot(s.devs), TicksLeft(s'), TimerPos(s'), SumPot(s'.devs), Scale(s));
  }

  lemma InvPos(s: State)
    requires Inv(s)
    ensures 0 <= TimerPos(s) < Scale(s)
  {
    hide TimerPos;
    PosRange(s);
  }

  /** A smaller tick count outweighs any position within a round. */
  lemma Combine(t: nat, pos: int, sum: nat, t': nat, pos': int, sum': nat, k: nat)
    requires t' <= t && sum' <= sum && 0 <= pos && 0 <= pos' < k
    requires t' < t || pos' < pos || (pos' <= pos && sum' < sum)
    ensures 0 <= Times(t', k) + pos' + sum' < Times(t, k) + pos + sum
  {
    Scaled(t', t, k);
    Scaled(0, t', k);
  }

  lemma Scaled(a: nat, b: nat, k: nat)
    requires a <= b
    ensures a * k <= b * k
    ensures a < b ==> a * k + k <= b * k
  {
    if a < b { assert b * k == a * k + k + (b - a - 1) * k; } else { assert a == b; }
  }

  /** steps leads from s to t. */
  predicate Path(s: State, steps: seq<Step>, t: State)
    decreases |steps|
  {
    if steps == [] then s == t
    else Next(s, steps[0]).Some? && Path(Next(s, steps[0]).value, steps[1..], t)
  }

  /** No livelock: the barrier can take at most Measure(s) steps of its own from
      s, in whatever order, without a device making a new call. */
  lemma {:induction false} InternalBounded(s: State, steps: seq<Step>, t: State)
    requires Inv(s) && Path(s, steps, t) && forall j :: 0 <= j < |steps| ==> Internal(steps[j])
    ensures |steps| <= Measure(s) && Inv(t)
    decreases |steps|
  {
    hide Measure, Next, Inv;
    if steps == [] {
      MeasureNonNegative(s);
    } else {
      var s' := Next(s, steps[0]).value;
      InternalDecreases(s, steps[0], s');
      NextInv(s, steps[0], s');
      InternalBounded(s', steps[1..], t);
    }
  }

  lemma MeasureNonNegative(s: State)
    requires Inv(s)
    ensures Measure(s) >= 0
  {
    hide TicksLeft, TimerPos, SumPot, TimerOk;
    PosRange(s);
    Scaled(0, TicksLeft(s), Scale(s));
  }

  /** The barrier has no step of its own left. */
  ghost predicate Quiet(s: State) { forall step: Step :: Internal(step) ==> !Enabled(s, step) }

  /** Device i is at work or gone; or it has reported for the current slot and
      waits, and then the timer waits for a device that is at work. */
  predicate Settled(s: State, i: nat)
    requires i < |s.devs|
  {
    var d := s.devs[i];
    || d.pc == Working || d.pc == Exited
    || (d.pc == NsSleep && d.done && d.slots == s.time
        && s.timer.TSleep? && s.timer.k < |s.devs| && s.devs[s.timer.k].pc == Working)
  }

  lemma QuietSettled(s: State, i: nat)
    requires Inv(s) && Quiet(s) && i < |s.devs|
    ensures Settled(s, i)
  {
    assert DevOk(s, i);
    assert !Enabled(s, Timer) && !Enabled(s, Device(i));
    QuietTimer(s);
  }

  /** A timer that cannot move sleeps on a device at work, or has exited. */
  lemma QuietTimer(s: State)
    requires Inv(s) && Quiet(s)
    ensures s.timer == TExited
         || (s.timer.TSleep? && s.timer.k < |s.devs|
             && s.devs[s.timer.k].eventSleeper && s.devs[s.timer.k].pc == Working)
  {
    assert !Enabled(s, Timer);
    if s.timer != TExited {
      var k := s.timer.k;
      assert DevOk(s, k);
      assert !Enabled(s, Device(k));
    }
  }

  /** Every round completes, for every device: from any reachable state the
      barrier's own steps lead to a state in which each device is at work, gone, or
      has reported and waits only for a device that is at work. */
  lemma {:induction false} RoundCompletes(s: State) returns (steps: seq<Step>, t: State)
    requires Inv(s)
    ensures Path(s, steps, t) && forall j :: 0 <= j < |steps| ==> Internal(steps[j])
    ensures Inv(t) && Quiet(t) && (SomeWorking(t) || AllExited(t))
    ensures forall i :: 0 <= i < |t.devs| ==> Settled(t, i)
    decreases Measure(s)
  {
    hide Measure, Next, Inv, Settled;
    MeasureNonNegative(s);
    if Quiet(s) {
      steps, t := [], s;
      if !SomeWorking(s) && !AllExited(s) { var step := NoDeadlock(s); }
      forall i | 0 <= i < |t.devs| ensures Settled(t, i) { QuietSettled(t, i); }
    } else {
      var step: Step :| Internal(step) && Enabled(s, step);
      var s' := Next(s, step).value;
      InternalDecreases(s, step, s');
      NextInv(s, step, s');
      var rest;
      rest, t := RoundCompletes(s');
      steps := [step] + rest;
      assert steps[1..] == rest;
    }
  }
}
