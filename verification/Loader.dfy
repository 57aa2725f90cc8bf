/** The timing loop of the loader thread (src/os.c:114-146), as a client of the
    barrier: the slot at which each process is added. */
module Loader {
  import opened Wrappers
  import opened TimerBarrier

  /** The barrier and the loader's locals.  The loader attaches last, so it is
      device 0 of dev_list; `loads` records _time at each add_proc. */
  datatype Sys = Sys(barrier: State, i: nat, needSlot: bool, loads: seq<nat>)

  datatype SysStep =
    | Other(step: Step) // any thread's step except a call by the loader
    | Ld // the loader, outside next_slot, takes its next action

  predicate LoaderWorks(s: Sys) { |s.barrier.devs| > 0 && s.barrier.devs[0].pc == Working }

  /** The loader's own action: wait a slot, add the next process, or detach. */
  function LdNext(starts: seq<nat>, s: Sys): Option<Sys> {
    if !LoaderWorks(s) then None
    else if s.needSlot then Call(s, CallNextSlot(0))
    else if s.i >= |starts| then Call(s, CallDetach(0))
    else if s.barrier.time < starts[s.i] then Call(s, CallNextSlot(0))
    else Some(s.(i := s.i + 1, needSlot := true, loads := s.loads + [s.barrier.time]))
  }

  function Call(s: Sys, step: Step): Option<Sys> {
    var b := Next(s.barrier, step);
    if b.None? then None else Some(s.(barrier := b.value, needSlot := false))
  }

  function SysNext(starts: seq<nat>, s: Sys, step: SysStep): Option<Sys> {
    match step
    case Ld => LdNext(starts, s)
    case Other(st) =>
      if st == CallNextSlot(0) || st == CallDetach(0) then None
      else
        var b := Next(s.barrier, st);
        if b.None? then None else Some(s.(barrier := b.value))
  }

  predicate SysInit(s: Sys) { Init(s.barrier) && |s.barrier.devs| > 0 && s.i == 0 && !s.needSlot && s.loads == [] }

  ghost predicate SysFollows(starts: seq<nat>, s: Sys, s': Sys) { exists step :: SysNext(starts, s, step) == Some(s') }

  ghost predicate IsSysRun(starts: seq<nat>, run: seq<Sys>) {
    && |run| > 0 && SysInit(run[0])
    && forall j :: 0 <= j < |run| - 1 ==> SysFollows(starts, run[j], run[j + 1])
  }

  /** L_0 = start_0 and L_i = max(start_i, L_{i-1} + 1). */
  function LoadSlot(starts: seq<nat>, i: nat): nat
    requires i < |starts|
  {
    var floor := if i == 0 then 0 else LoadSlot(starts, i - 1) + 1;
    if starts[i] > floor then starts[i] else floor
  }

  /** The first slot at which process i could be added. */
  function Floor(starts: seq<nat>, i: nat): nat
    requires i <= |starts|
  {
    if i == 0 then 0 else LoadSlot(starts, i - 1) + 1
  }

  predicate InNextSlot(pc: DevPc) {
    pc in {NsLockE, NsSetDone, NsSignalE, NsUnlockE, NsLockT, NsTest, NsSleep, NsUnlockT}
  }

  /** The slot the loader will next work in. */
  function NextSlot(d: Dev): nat { if InNextSlot(d.pc) then d.slots + 1 else d.slots }

  ghost predicate LdInv(starts: seq<nat>, s: Sys) {
    && Inv(s.barrier) && |s.barrier.devs| > 0 && s.i <= |starts| && |s.loads| == s.i
    && (forall j :: 0 <= j < s.i ==> s.loads[j] == LoadSlot(starts, j))
    && var d := s.barrier.devs[0];
       && (s.needSlot ==> d.pc == Working && s.i > 0 && d.slots == LoadSlot(starts, s.i - 1))
       && (!s.needSlot && s.i < |starts| ==>
             (d.pc == Working || InNextSlot(d.pc)) && Floor(starts, s.i) <= NextSlot(d) <= LoadSlot(starts, s.i))
  }

  /** A step that is not a call by device i leaves its next slot alone. */
  lemma OtherKeeps(s: State, step: Step, s': State, i: nat)
    requires Next(s, step) == Some(s') && i < |s.devs| && step != CallNextSlot(i) && step != CallDetach(i)
    ensures |s'.devs| == |s.devs|
    ensures var d, d' := s.devs[i], s'.devs[i];
            && (d.pc == Working ==> d'.pc == Working && d'.slots == d.slots)
            && (InNextSlot(d.pc) ==> (InNextSlot(d'.pc) || d'.pc == Working) && NextSlot(d') == NextSlot(d))
  {
    hide TimerNext;
    if step.Timer? { TimerKeepsSlots(s, s'); }
  }

  lemma TimerKeepsSlots(s: State, s': State)
    requires TimerNext(s) == Some(s')
    ensures |s'.devs| == |s.devs|
    ensures forall i :: 0 <= i < |s.devs| ==> s'.devs[i].slots == s.devs[i].slots && s'.devs[i].pc == s.devs[i].pc
  {
  }

  lemma LdStepInv(starts: seq<nat>, s: Sys, s': Sys)
    requires LdInv(starts, s) && LdNext(starts, s) == Some(s')
    ensures LdInv(starts, s')
  {
    hide TimerNext, DevNext, TimerOk;
    var d := s.barrier.devs[0];
    assert DevOk(s.barrier, 0);
    assert d.slots == s.barrier.time;
    if s.needSlot {
      NextInv(s.barrier, CallNextSlot(0), s'.barrier);
    } else if s.i >= |starts| {
      NextInv(s.barrier, CallDetach(0), s'.barrier);
    } else if s.barrier.time < starts[s.i] {
      NextInv(s.barrier, CallNextSlot(0), s'.barrier);
    }
  }

  lemma SysStepInv(starts: seq<nat>, s: Sys, step: SysStep, s': Sys)
    requires LdInv(starts, s) && SysNext(starts, s, step) == Some(s')
    ensures LdInv(starts, s')
  {
    hide Inv, Next;
    match step
    case Ld => LdStepInv(starts, s, s');
    case Other(st) =>
      NextInv(s.barrier, st, s'.barrier);
      OtherKeeps(s.barrier, st, s'.barrier, 0);
  }

  /** Load times.  In every interleaving of the loader, the timer and the other
      devices, process j is added exactly in slot L_j. */
  lemma {:induction false} LoadTimes(starts: seq<nat>, run: seq<Sys>, n: nat)
    requires IsSysRun(starts, run) && n < |run|
    ensures LdInv(starts, run[n])
    ensures |run[n].loads| <= |starts|
    ensures forall j :: 0 <= j < |run[n].loads| ==> run[n].loads[j] == LoadSlot(starts, j)
    decreases n
  {
    if n == 0 {
      InitInv(run[0].barrier);
    } else {
      LoadTimes(starts, run, n - 1);
      assert SysFollows(starts, run[n - 1], run[n - 1 + 1]);
      var step :| SysNext(starts, run[n - 1], step) == Some(run[n]);
      SysStepInv(starts, run[n - 1], step, run[n]);
    }
  }
}
