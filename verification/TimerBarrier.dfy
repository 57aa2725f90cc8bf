/** The timer barrier (src/timer.c): one timer thread and any number of device
    threads, interleaved at every lock operation, flag access and condition
    variable operation.  A step is one action of one thread. */
module TimerBarrier {
  import opened Wrappers

  // ---- State ----------------------------------------------------------------

  /** Who holds a mutex.  Each device's two mutexes are contended only by the
      timer and that device. */
  datatype Holder = Nobody | ByTimer | ByDevice

  /** Where a device thread is.  Working is everything between its calls. */
  datatype DevPc =
    | Working
    | NsLockE | NsSetDone | NsSignalE | NsUnlockE // next_slot, event_lock half
    | NsLockT | NsTest | NsSleep | NsUnlockT // next_slot, timer_lock half
    | DtLockE | DtSetFsh | DtSignalE | DtUnlockE // detach_event
    | Exited

  /** timer_id_t with its thread.  A sleeper flag is membership in the wait set
      of the condition variable.  `slots` counts the next_slot calls that have
      returned. */
  datatype Dev = Dev(pc: DevPc, done: bool, fsh: bool, eventLock: Holder, timerLock: Holder,
                     eventSleeper: bool, timerSleeper: bool, slots: nat)

  /** Where the timer thread is; k is its position in dev_list. */
  datatype TimerPc =
    | TLoop // while (!timer_stop)
    | TGather(k: nat) // first loop: test, then lock event_lock
    | TTest(k: nat) | TSleep(k: nat) | TCount(k: nat) | TUnlockE(k: nat)
    | TTick // _time++
    | TRelease(k: nat) // second loop: test, then lock timer_lock
    | TClear(k: nat) | TSignal(k: nat) | TUnlockT(k: nat)
    | TDecide // if (fsh == event) break
    | TExited

  datatype State = State(time: nat, stop: bool, timer: TimerPc, fsh: nat, event: nat, devs: seq<Dev>)

  datatype Step =
    | Timer // the timer thread takes its next action
    | Device(i: nat) // device i takes its next action inside a call
    | CallNextSlot(i: nat) // device i, working, calls next_slot
    | CallDetach(i: nat) // device i, working, calls detach_event
    | SpuriousTimer // pthread_cond_wait returns without a signal
    | SpuriousDevice(i: nat)
    | Stop // main, having joined every device, sets timer_stop

  // ---- Transitions ----------------------------------------------------------

  function SetDev(s: State, i: nat, d: Dev): State
    requires i < |s.devs|
  {
    s.(devs := s.devs[i := d])
  }

  function TimerNext(s: State): Option<State> {
    match s.timer
    case TLoop => if s.stop then Some(s.(timer := TExited)) else Some(s.(timer := TGather(0), fsh := 0, event := 0))
    case TGather(k) =>
      if k >= |s.devs| then Some(s.(timer := TTick))
      else if s.devs[k].eventLock != Nobody then None
      else Some(SetDev(s, k, s.devs[k].(eventLock := ByTimer)).(timer := TTest(k)))
    case TTest(k) =>
      if k >= |s.devs| then None
      else if !s.devs[k].done && !s.devs[k].fsh
        then Some(SetDev(s, k, s.devs[k].(eventLock := Nobody, eventSleeper := true)).(timer := TSleep(k)))
      else Some(s.(timer := TCount(k)))
    case TSleep(k) =>
      if k >= |s.devs| || s.devs[k].eventSleeper || s.devs[k].eventLock != Nobody then None
      else Some(SetDev(s, k, s.devs[k].(eventLock := ByTimer)).(timer := TTest(k)))
    case TCount(k) =>
      if k >= |s.devs| then None
      else Some(s.(timer := TUnlockE(k), event := s.event + 1, fsh := if s.devs[k].fsh then s.fsh + 1 else s.fsh))
    case TUnlockE(k) =>
      if k >= |s.devs| then None
      else Some(SetDev(s, k, s.devs[k].(eventLock := Nobody)).(timer := TGather(k + 1)))
    case TTick => Some(s.(timer := TRelease(0), time := s.time + 1))
    case TRelease(k) =>
      if k >= |s.devs| then Some(s.(timer := TDecide))
      else if s.devs[k].timerLock != Nobody then None
      else Some(SetDev(s, k, s.devs[k].(timerLock := ByTimer)).(timer := TClear(k)))
    case TClear(k) =>
      if k >= |s.devs| then None
      else Some(SetDev(s, k, s.devs[k].(done := false)).(timer := TSignal(k)))
    case TSignal(k) =>
      if k >= |s.devs| then None
      else Some(SetDev(s, k, s.devs[k].(timerSleeper := false)).(timer := TUnlockT(k)))
    case TUnlockT(k) =>
      if k >= |s.devs| then None
      else Some(SetDev(s, k, s.devs[k].(timerLock := Nobody)).(timer := TRelease(k + 1)))
    case TDecide => Some(s.(timer := if s.fsh == s.event then TExited else TLoop))
    case TExited => None
  }

  function DevNext(d: Dev): Option<Dev> {
    match d.pc
    case Working => None
    case NsLockE => if d.eventLock != Nobody then None else Some(d.(pc := NsSetDone, eventLock := ByDevice))
    case NsSetDone => Some(d.(pc := NsSignalE, done := true))
    case NsSignalE => Some(d.(pc := NsUnlockE, eventSleeper := false))
    case NsUnlockE => Some(d.(pc := NsLockT, eventLock := Nobody))
    case NsLockT => if d.timerLock != Nobody then None else Some(d.(pc := NsTest, timerLock := ByDevice))
    case NsTest =>
      if d.done then Some(d.(pc := NsSleep, timerLock := Nobody, timerSleeper := true)) else Some(d.(pc := NsUnlockT))
    case NsSleep =>
      if d.timerSleeper || d.timerLock != Nobody then None else Some(d.(pc := NsTest, timerLock := ByDevice))
    case NsUnlockT => Some(d.(pc := Working, timerLock := Nobody, slots := d.slots + 1))
    case DtLockE => if d.eventLock != Nobody then None else Some(d.(pc := DtSetFsh, eventLock := ByDevice))
    case DtSetFsh => Some(d.(pc := DtSignalE, fsh := true))
    case DtSignalE => Some(d.(pc := DtUnlockE, eventSleeper := false))
    case DtUnlockE => Some(d.(pc := Exited, eventLock := Nobody))
    case Exited => None
  }

  /** The state after a step, or None when the step is not enabled. */
  function Next(s: State, step: Step): Option<State> {
    match step
    case Timer => TimerNext(s)
    case Device(i) =>
      if i >= |s.devs| then None
      else
        var d := DevNext(s.devs[i]);
        if d.None? then None else Some(SetDev(s, i, d.value))
    case CallNextSlot(i) =>
      if i >= |s.devs| || s.devs[i].pc != Working then None else Some(SetDev(s, i, s.devs[i].(pc := NsLockE)))
    case CallDetach(i) =>
      if i >= |s.devs| || s.devs[i].pc != Working then None else Some(SetDev(s, i, s.devs[i].(pc := DtLockE)))
    case SpuriousTimer =>
      if s.timer.TSleep? && s.timer.k < |s.devs| && s.devs[s.timer.k].eventSleeper
      then Some(SetDev(s, s.timer.k, s.devs[s.timer.k].(eventSleeper := false))) else None
    case SpuriousDevice(i) =>
      if i < |s.devs| && s.devs[i].timerSleeper then Some(SetDev(s, i, s.devs[i].(timerSleeper := false))) else None
    case Stop =>
      if s.stop || exists i :: 0 <= i < |s.devs| && s.devs[i].pc != Exited then None else Some(s.(stop := true))
  }

  /** attach_event for every device, then start_timer. */
  predicate Init(s: State) {
    && s.time == 0 && !s.stop && s.timer == TLoop && s.fsh == 0 && s.event == 0
    && forall i :: 0 <= i < |s.devs| ==>
         s.devs[i] == Dev(Working, false, false, Nobody, Nobody, false, false, 0)
  }

  ghost predicate Follows(s: State, s': State) { exists step :: Next(s, step) == Some(s') }

  /** run[0] is initial and each state follows from the one before by a step. */
  ghost predicate IsRun(run: seq<State>) {
    && |run| > 0 && Init(run[0])
    && forall j :: 0 <= j < |run| - 1 ==> Follows(run[j], run[j + 1])
  }

  // ---- The invariant --------------------------------------------------------

  /** The timer has counted device i in the current round. */
  predicate Gathered(t: TimerPc, i: nat) {
    match t
    case TGather(k) => i < k
    case TTest(k) => i < k
    case TSleep(k) => i < k
    case TCount(k) => i <= k
    case TUnlockE(k) => i <= k
    case TTick => true
    case _ => false
  }

  /** The slot has advanced but device i has not been let go yet. */
  predicate Pending(t: TimerPc, i: nat) {
    match t
    case TRelease(k) => k <= i
    case TClear(k) => k <= i
    case TSignal(k) => k < i
    case TUnlockT(k) => k < i
    case _ => false
  }

  /** The timer owes device i a release. */
  predicate Owed(t: TimerPc, i: nat) { Gathered(t, i) || Pending(t, i) }

  predicate HoldsE(pc: DevPc) { pc in {NsSetDone, NsSignalE, NsUnlockE, DtSetFsh, DtSignalE, DtUnlockE} }
  predicate HoldsT(pc: DevPc) { pc in {NsTest, NsUnlockT} }
  predicate TimerHoldsE(t: TimerPc, i: nat) { t == TTest(i) || t == TCount(i) || t == TUnlockE(i) }
  predicate TimerHoldsT(t: TimerPc, i: nat) { t == TClear(i) || t == TSignal(i) || t == TUnlockT(i) }

  /** Inside next_slot, past reporting: waiting for, or just given, the release. */
  predicate Awaiting(pc: DevPc) { pc in {NsLockT, NsTest, NsSleep} }

  /** Released but not yet back from next_slot. */
  predicate Returning(d: Dev) { (Awaiting(d.pc) && !d.done) || d.pc == NsUnlockT }

  predicate LocksOk(t: TimerPc, i: nat, d: Dev) {
    && d.eventLock == (if HoldsE(d.pc) then ByDevice else if TimerHoldsE(t, i) then ByTimer else Nobody)
    && d.timerLock == (if HoldsT(d.pc) then ByDevice else if TimerHoldsT(t, i) then ByTimer else Nobody)
    && !(HoldsE(d.pc) && TimerHoldsE(t, i)) && !(HoldsT(d.pc) && TimerHoldsT(t, i))
    && (d.eventSleeper ==> t == TSleep(i))
    && (d.timerSleeper ==> d.pc == NsSleep)
  }

  /** The flags of device i against its program counter and the timer's. */
  predicate FlagsOk(t: TimerPc, i: nat, d: Dev) {
    && (d.fsh <==> d.pc in {DtSignalE, DtUnlockE, Exited})
    && (d.done ==> d.pc in {NsSignalE, NsUnlockE} || Awaiting(d.pc))
    && (d.pc in {NsSignalE, NsUnlockE} ==> d.done && !Owed(t, i))
    && (d.pc in {Working, NsLockE, NsSetDone, NsUnlockT, DtLockE, DtSetFsh} ==> !Owed(t, i))
    && (Awaiting(d.pc) && Owed(t, i) ==> d.done)
    && (t == TSignal(i) || t == TUnlockT(i) ==> !d.done && (d.pc in {NsLockT, NsSleep} || d.fsh))
    // no lost wake-up, in either direction
    && (d.eventSleeper ==> (!d.done && !d.fsh) || d.pc in {NsSignalE, DtSignalE})
    && (d.timerSleeper ==> d.done || t == TSignal(i))
  }

  /** The slots an unfinished device has completed are the time, less one while
      the release of the last tick is still on its way. */
  predicate SlotsOk(s: State, i: nat, d: Dev) {
    if d.fsh then d.slots <= s.time
    else d.slots + (if Returning(d) || Pending(s.timer, i) then 1 else 0) == s.time
  }

  predicate DevOk(s: State, i: nat) {
    i < |s.devs| ==>
      LocksOk(s.timer, i, s.devs[i]) && FlagsOk(s.timer, i, s.devs[i]) && SlotsOk(s, i, s.devs[i])
  }

  predicate AllFinished(s: State, n: nat) {
    forall i :: 0 <= i < n && i < |s.devs| ==> s.devs[i].fsh
  }

  /** The counters of the timer's round: how many devices it has counted, and
      that equal counters mean every counted device had finished. */
  predicate TimerOk(s: State) {
    && (match s.timer
        case TLoop => true
        case TGather(k) => k <= |s.devs| && s.event == k
        case TTest(k) => k < |s.devs| && s.event == k
        case TSleep(k) => k < |s.devs| && s.event == k
        case TCount(k) => k < |s.devs| && s.event == k
        case TUnlockE(k) => k < |s.devs| && s.event == k + 1
        case TTick => s.event == |s.devs|
        case TRelease(k) => k <= |s.devs| && s.event == |s.devs|
        case TClear(k) => k < |s.devs| && s.event == |s.devs|
        case TSignal(k) => k < |s.devs| && s.event == |s.devs|
        case TUnlockT(k) => k < |s.devs| && s.event == |s.devs|
        case TDecide => s.event == |s.devs|
        case TExited => AllFinished(s, |s.devs|))
    && (!s.timer.TLoop? && !s.timer.TExited? ==> s.fsh <= s.event && (s.fsh == s.event ==> AllFinished(s, s.event)))
    && (s.stop ==> forall i :: 0 <= i < |s.devs| ==> s.devs[i].pc == Exited)
  }

  ghost predicate Inv(s: State) {
    TimerOk(s) && forall i: nat :: DevOk(s, i)
  }

  lemma InitInv(s: State)
    requires Init(s)
    ensures Inv(s)
  {
  }

  // ---- Every step keeps the invariant ---------------------------------------

  predicate EventHalf(pc: DevPc) { pc in {NsLockE, NsSetDone, NsSignalE, NsUnlockE} }
  predicate TimerHalf(pc: DevPc) { pc in {NsLockT, NsTest, NsSleep, NsUnlockT} }

  lemma ReportStepDev(s: State, i: nat, d: Dev)
    requires DevOk(s, i) && i < |s.devs| && EventHalf(s.devs[i].pc) && DevNext(s.devs[i]) == Some(d)
    ensures DevOk(SetDev(s, i, d), i)
  {
  }

  lemma WaitStepDev(s: State, i: nat, d: Dev)
    requires DevOk(s, i) && i < |s.devs| && TimerHalf(s.devs[i].pc) && DevNext(s.devs[i]) == Some(d)
    ensures DevOk(SetDev(s, i, d), i)
  {
  }

  lemma DetachStepDev(s: State, i: nat, d: Dev)
    requires DevOk(s, i) && i < |s.devs| && DevNext(s.devs[i]) == Some(d)
    requires !EventHalf(s.devs[i].pc) && !TimerHalf(s.devs[i].pc)
    ensures DevOk(SetDev(s, i, d), i)
  {
  }

  /** A step of one device leaves its invariant true under the same timer. */
  lemma DevStepOk(s: State, i: nat, d: Dev)
    requires Inv(s) && i < |s.devs| && DevNext(s.devs[i]) == Some(d)
    ensures Inv(SetDev(s, i, d))
  {
    hide LocksOk, FlagsOk;
    var s' := SetDev(s, i, d);
    assert DevOk(s, i);
    if EventHalf(s.devs[i].pc) {
      ReportStepDev(s, i, d);
    } else if TimerHalf(s.devs[i].pc) {
      WaitStepDev(s, i, d);
    } else {
      DetachStepDev(s, i, d);
    }
    forall j: nat ensures DevOk(s', j) { assert DevOk(s, j); }
    DevStepTimer(s, i, d);
  }

  lemma DevStepTimer(s: State, i: nat, d: Dev)
    requires TimerOk(s) && i < |s.devs| && DevNext(s.devs[i]) == Some(d)
    ensures TimerOk(SetDev(s, i, d))
  {
    assert s.devs[i].fsh ==> d.fsh;
    assert s.devs[i].pc != Exited;
  }

  lemma LoopStepDev(s: State, s': State, i: nat)
    requires TimerOk(s) && DevOk(s, i) && i < |s.devs| && TimerNext(s) == Some(s')
    requires s.timer.TLoop? || s.timer.TTick? || s.timer.TDecide?
    ensures DevOk(s', i)
  {
  }

  lemma GatherStepDev(s: State, s': State, i: nat)
    requires TimerOk(s) && DevOk(s, i) && i < |s.devs| && TimerNext(s) == Some(s')
    requires s.timer.TGather? || s.timer.TUnlockE?
    ensures DevOk(s', i)
  {
  }

  lemma TestStepDev(s: State, s': State, i: nat)
    requires TimerOk(s) && DevOk(s, i) && i < |s.devs| && TimerNext(s) == Some(s')
    requires s.timer.TTest?
    ensures DevOk(s', i)
  {
  }

  lemma SleepStepDev(s: State, s': State, i: nat)
    requires TimerOk(s) && DevOk(s, i) && i < |s.devs| && TimerNext(s) == Some(s')
    requires s.timer.TSleep?
    ensures DevOk(s', i)
  {
  }

  lemma CountStepDev(s: State, s': State, i: nat)
    requires TimerOk(s) && DevOk(s, i) && i < |s.devs| && TimerNext(s) == Some(s')
    requires s.timer.TCount?
    ensures DevOk(s', i)
  {
  }

  lemma ReleaseStepDev(s: State, s': State, i: nat)
    requires TimerOk(s) && DevOk(s, i) && i < |s.devs| && TimerNext(s) == Some(s')
    requires s.timer.TRelease? || s.timer.TUnlockT?
    ensures DevOk(s', i)
  {
  }

  /** When the timer holds a device's timer_lock to clear its flag, the device is
      at one of its two waits or has finished. */
  lemma ClearedDevice(s: State, i: nat)
    requires DevOk(s, i) && i < |s.devs| && s.timer == TClear(i)
    ensures s.devs[i].pc == NsLockT || s.devs[i].pc == NsSleep || s.devs[i].fsh
  {
    assert Owed(s.timer, i) && TimerHoldsT(s.timer, i);
    assert !HoldsT(s.devs[i].pc) && s.devs[i].pc != NsTest;
  }

  lemma ClearStepDev(s: State, s': State, i: nat)
    requires TimerOk(s) && DevOk(s, i) && i < |s.devs| && TimerNext(s) == Some(s')
    requires s.timer.TClear?
    ensures DevOk(s', i)
  {
    if s.timer == TClear(i) { ClearedDevice(s, i); }
  }

  lemma SignalStepDev(s: State, s': State, i: nat)
    requires TimerOk(s) && DevOk(s, i) && i < |s.devs| && TimerNext(s) == Some(s')
    requires s.timer.TSignal?
    ensures DevOk(s', i)
  {
  }

  lemma TimerStepDev(s: State, s': State, i: nat)
    requires TimerOk(s) && DevOk(s, i) && i < |s.devs| && TimerNext(s) == Some(s')
    ensures DevOk(s', i)
  {
    hide DevOk, TimerOk;
    match s.timer
    case TGather(_) => GatherStepDev(s, s', i);
    case TUnlockE(_) => GatherStepDev(s, s', i);
    case TTest(_) => TestStepDev(s, s', i);
    case TSleep(_) => SleepStepDev(s, s', i);
    case TCount(_) => CountStepDev(s, s', i);
    case TRelease(_) => ReleaseStepDev(s, s', i);
    case TUnlockT(_) => ReleaseStepDev(s, s', i);
    case TClear(_) => ClearStepDev(s, s', i);
    case TSignal(_) => SignalStepDev(s, s', i);
    case _ => LoopStepDev(s, s', i);
  }

  /** The timer never changes which devices have finished. */
  lemma TimerKeepsFinished(s: State, s': State)
    requires TimerNext(s) == Some(s')
    ensures |s'.devs| == |s.devs| && s'.stop == s.stop
    ensures forall i :: 0 <= i < |s.devs| ==> s'.devs[i].fsh == s.devs[i].fsh && s'.devs[i].pc == s.devs[i].pc
  {
  }

  lemma TimerStepTimer(s: State, s': State)
    requires TimerOk(s) && TimerNext(s) == Some(s')
    requires s.timer.TLoop? && s.stop ==> AllFinished(s, |s.devs|)
    ensures TimerOk(s')
  {
    TimerKeepsFinished(s, s');
  }

  lemma TimerStepOk(s: State, s': State)
    requires Inv(s) && TimerNext(s) == Some(s')
    ensures Inv(s')
  {
    hide TimerNext, TimerOk;
    TimerKeepsFinished(s, s');
    forall i: nat ensures DevOk(s', i) {
      assert DevOk(s, i);
      if i < |s.devs| { TimerStepDev(s, s', i); }
    }
    if s.stop { StoppedFinished(s); }
    TimerStepTimer(s, s');
  }

  lemma StoppedFinished(s: State)
    requires Inv(s) && s.stop
    ensures AllFinished(s, |s.devs|)
  {
    forall i | 0 <= i < |s.devs| ensures s.devs[i].fsh { assert DevOk(s, i); }
  }

  lemma CallStepOk(s: State, i: nat, pc: DevPc)
    requires Inv(s) && i < |s.devs| && s.devs[i].pc == Working && pc in {NsLockE, DtLockE}
    ensures Inv(SetDev(s, i, s.devs[i].(pc := pc)))
  {
    var s' := SetDev(s, i, s.devs[i].(pc := pc));
    forall j: nat ensures DevOk(s', j) { assert DevOk(s, j); }
  }

  /** A wake-up without a signal: the sleeper merely leaves the wait set. */
  lemma WakeStepOk(s: State, i: nat, d: Dev)
    requires Inv(s) && i < |s.devs|
    requires d == s.devs[i].(eventSleeper := false) || d == s.devs[i].(timerSleeper := false)
    ensures Inv(SetDev(s, i, d))
  {
    var s' := SetDev(s, i, d);
    forall j: nat ensures DevOk(s', j) { assert DevOk(s, j); }
  }

  lemma StopStepOk(s: State)
    requires Inv(s) && forall i :: 0 <= i < |s.devs| ==> s.devs[i].pc == Exited
    ensures Inv(s.(stop := true))
  {
    forall j: nat ensures DevOk(s.(stop := true), j) { assert DevOk(s, j); }
  }

  /** Every step of every thread keeps the invariant. */
  lemma NextInv(s: State, step: Step, s': State)
    requires Inv(s) && Next(s, step) == Some(s')
    ensures Inv(s')
  {
    hide Inv, TimerNext, DevNext;
    match step
    case Timer => TimerStepOk(s, s');
    case Device(i) => DevStepOk(s, i, s'.devs[i]);
    case CallNextSlot(i) => CallStepOk(s, i, NsLockE);
    case CallDetach(i) => CallStepOk(s, i, DtLockE);
    case SpuriousTimer => WakeStepOk(s, s.timer.k, s'.devs[s.timer.k]);
    case SpuriousDevice(i) => WakeStepOk(s, i, s'.devs[i]);
    case Stop => StopStepOk(s);
  }

  lemma {:induction false} RunInv(run: seq<State>, j: nat)
    requires IsRun(run) && j < |run|
    ensures Inv(run[j])
    decreases j
  {
    if j == 0 {
      InitInv(run[0]);
    } else {
      RunInv(run, j - 1);
      assert Follows(run[j - 1], run[j - 1 + 1]);
      var step :| Next(run[j - 1], step) == Some(run[j]);
      NextInv(run[j - 1], step, run[j]);
    }
  }

  // ---- What the barrier promises --------------------------------------------

  /** Lockstep.  In every state of every run: an unfinished device that is
      working has completed exactly `time` slots, and any two unfinished devices
      are within one slot of each other. */
  lemma Lockstep(run: seq<State>, j: nat, a: nat, b: nat)
    requires IsRun(run) && j < |run| && a < |run[j].devs| && b < |run[j].devs|
    requires !run[j].devs[a].fsh && !run[j].devs[b].fsh
    ensures run[j].devs[a].pc == Working ==> run[j].devs[a].slots == run[j].time
    ensures -1 <= run[j].devs[a].slots - run[j].devs[b].slots <= 1
  {
    RunInv(run, j);
    assert DevOk(run[j], a) && DevOk(run[j], b);
  }

  /** While a device works the time does not move: no step out of a state in
      which some device is working ticks the clock. */
  lemma TimeStableWhileWorking(s: State, step: Step, s': State, i: nat)
    requires Inv(s) && Next(s, step) == Some(s') && i < |s.devs| && s.devs[i].pc == Working
    ensures s'.time == s.time
  {
    assert DevOk(s, i);
    if step == Timer { WorkingBlocksTick(s, i); }
  }

  lemma WorkingBlocksTick(s: State, i: nat)
    requires DevOk(s, i) && i < |s.devs| && s.devs[i].pc == Working
    ensures s.timer != TTick
  {
  }

  /** No lost wake-up.  The timer sleeps on a device's event_cond only while the
      device has neither reported nor finished, or holds the lock and is about to
      signal; a device sleeps on timer_cond only while its flag is up, or the
      timer holds the lock and is about to signal. */
  lemma NoLostWakeup(run: seq<State>, j: nat, i: nat)
    requires IsRun(run) && j < |run| && i < |run[j].devs|
    ensures var d := run[j].devs[i];
            && (d.eventSleeper ==>
                  && run[j].timer == TSleep(i)
                  && ((!d.done && !d.fsh) || (d.pc in {NsSignalE, DtSignalE} && d.eventLock == ByDevice)))
            && (d.timerSleeper ==>
                  d.pc == NsSleep && (d.done || (run[j].timer == TSignal(i) && d.timerLock == ByTimer)))
  {
    RunInv(run, j);
    assert DevOk(run[j], i);
  }

  /** Exit safety.  Once the timer has left its loop every device has detached;
      and whenever it lowers a flag that is up, the flag is the report for the
      slot just closed, never one for the slot just opened. */
  lemma ExitSafety(run: seq<State>, j: nat)
    requires IsRun(run) && j < |run|
    ensures run[j].timer == TExited ==> forall i :: 0 <= i < |run[j].devs| ==> run[j].devs[i].fsh
    ensures run[j].timer.TClear? ==>
              var k := run[j].timer.k;
              k < |run[j].devs| && (run[j].devs[k].done ==> run[j].devs[k].slots + 1 == run[j].time)
  {
    RunInv(run, j);
    if run[j].timer.TClear? { assert DevOk(run[j], run[j].timer.k); }
  }

  /** When the timer leaves its loop: at the loop test exactly when main has asked it
      to stop, and at the end of a round only if every device had finished when it
      was counted, by a count that reached every device. */
  lemma TimerLeaves(run: seq<State>, j: nat, s': State)
    requires IsRun(run) && j < |run| && TimerNext(run[j]) == Some(s')
    ensures run[j].timer == TLoop ==> (s'.timer == TExited <==> run[j].stop)
    ensures s'.timer == TExited ==> run[j].timer == TLoop || run[j].timer == TDecide
    ensures run[j].timer == TDecide ==>
              && run[j].event == |run[j].devs| && (s'.timer == TExited <==> run[j].fsh == |run[j].devs|)
              && (s'.timer == TExited ==> forall i :: 0 <= i < |s'.devs| ==> s'.devs[i].fsh)
  {
    RunInv(run, j);
  }
}
