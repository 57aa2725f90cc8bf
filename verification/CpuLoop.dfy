/** The loader and N copies of cpu_routine over one scheduler (src/os.c:49-147,
    src/cpu.c:60-69), interleaved at scheduler calls and instructions. */
module CpuLoop {
  import opened Wrappers
  import opened Queue
  import opened Scheduler

  /** pcb_t as the CPU loop sees it.  `trace` is history: the instruction indices
      executed so far. */
  datatype Pcb = Pcb(prio: nat, size: nat, pc: nat, trace: seq<nat>)

  /** Where cpu_routine is: the top of its loop, the get_proc after a finish or a
      put, the recheck, the run, or next_slot. */
  datatype CpuPc = Top | GetNext | Recheck | RunOne | Slot | Stopped

  /** `startPc` is history: the program counter when the slice began. */
  datatype Cpu = Cpu(at: CpuPc, proc: Pid, timeLeft: int, startPc: nat)

  /** Process p is procs[p - 1]: pids are given in load order from 1.  `finished`,
      `enq` and `disp` are history: the freed processes, and for each level what
      was ever enqueued and ever dispatched. */
  datatype Sys = Sys(timeSlot: int, sched: Sched, procs: seq<Pcb>, cpus: seq<Cpu>, loaded: bool,
                     finished: seq<Pid>, enq: Levels, disp: Levels)

  datatype Step = Load(prio: nat, size: nat) | LoadDone | CpuStep(c: nat)

  // ---- The code -------------------------------------------------------------

  /** run: advance the program counter unless the program is over. */
  function Execute(p: Pcb): Pcb {
    if p.pc >= p.size then p else p.(pc := p.pc + 1, trace := p.trace + [p.pc])
  }

  /** What a queue history gains: nothing when the queue is full. */
  function Note(hist: Levels, s: Sched, prio: nat, p: Pid): Levels {
    if prio < LEVELS && |s.mlq[prio]| < CAP then hist[prio := hist[prio] + [p]] else hist
  }

  /** get_proc by CPU c. */
  function TakeProc(s: Sys, c: nat, whenNone: CpuPc): Sys
    requires c < |s.cpus|
  {
    var (sched, p) := Get(s.sched);
    if p == 0 then s.(sched := sched, cpus := s.cpus[c := s.cpus[c].(at := whenNone)])
    else
      var k := FirstReady(s.sched.mlq, 0);
      s.(sched := sched, cpus := s.cpus[c := s.cpus[c].(at := Recheck, proc := p)],
         disp := if k < LEVELS then s.disp[k := s.disp[k] + [p]] else s.disp)
  }

  function CpuNext(s: Sys, c: nat): Option<Sys>
    requires c < |s.cpus|
  {
    var cpu := s.cpus[c];
    if cpu.proc > |s.procs| then None
    else match cpu.at
      case Top =>
        if cpu.proc == 0 then Some(TakeProc(s, c, Slot))
        else
          var pcb := s.procs[cpu.proc - 1];
          if pcb.pc == pcb.size then
            Some(s.(finished := s.finished + [cpu.proc],
                    cpus := s.cpus[c := cpu.(at := GetNext, proc := 0, timeLeft := 0)]))
          else if cpu.timeLeft == 0 then
            Some(s.(sched := Put(s.sched, cpu.proc, pcb.prio), enq := Note(s.enq, s.sched, pcb.prio, cpu.proc),
                    cpus := s.cpus[c := cpu.(at := GetNext, proc := 0)]))
          else Some(s.(cpus := s.cpus[c := cpu.(at := Recheck)]))
      case GetNext => Some(TakeProc(s, c, Recheck))
      case Recheck =>
        if cpu.proc == 0 then Some(s.(cpus := s.cpus[c := cpu.(at := if s.loaded then Stopped else Slot)]))
        else if cpu.timeLeft == 0 then
          Some(s.(cpus := s.cpus[c := cpu.(at := RunOne, timeLeft := s.timeSlot, startPc := s.procs[cpu.proc - 1].pc)]))
        else Some(s.(cpus := s.cpus[c := cpu.(at := RunOne)]))
      case RunOne =>
        if cpu.proc == 0 then None
        else
          Some(s.(procs := s.procs[cpu.proc - 1 := Execute(s.procs[cpu.proc - 1])],
                  cpus := s.cpus[c := cpu.(at := Slot, timeLeft := cpu.timeLeft - 1)]))
      case Slot => Some(s.(cpus := s.cpus[c := cpu.(at := Top)]))
      case Stopped => None
  }

  function Next(s: Sys, step: Step): Option<Sys> {
    match step
    case Load(prio, size) =>
      if s.loaded then None
      else
        var p := |s.procs| + 1;
        Some(s.(procs := s.procs + [Pcb(prio, size, 0, [])], sched := Add(s.sched, p, prio),
                enq := Note(s.enq, s.sched, prio, p)))
    case LoadDone => if s.loaded then None else Some(s.(loaded := true))
    case CpuStep(c) => if c >= |s.cpus| then None else CpuNext(s, c)
  }

  predicate Init(s: Sys) {
    && s.procs == [] && !s.loaded && s.finished == []
    && s.sched == Sched(seq(LEVELS, _ => []), [], 0, 0)
    && s.enq == seq(LEVELS, _ => []) && s.disp == seq(LEVELS, _ => [])
    && forall c :: 0 <= c < |s.cpus| ==> s.cpus[c] == Cpu(Top, 0, 0, 0)
  }

  ghost predicate Follows(s: Sys, s': Sys) { exists step :: Next(s, step) == Some(s') }

  ghost predicate IsRun(run: seq<Sys>) {
    && |run| > 0 && Init(run[0])
    && forall j :: 0 <= j < |run| - 1 ==> Follows(run[j], run[j + 1])
  }

  // ---- Counting where processes are -----------------------------------------

  function Union(qs: seq<seq<Pid>>): multiset<Pid> {
    if qs == [] then multiset{} else multiset(qs[0]) + Union(qs[1..])
  }

  function HeldBy(cpu: Cpu): multiset<Pid> { if cpu.proc == 0 then multiset{} else multiset{cpu.proc} }

  function Held(cpus: seq<Cpu>): multiset<Pid> {
    if cpus == [] then multiset{} else HeldBy(cpus[0]) + Held(cpus[1..])
  }

  /** Every pid from 1 to n, once. */
  function Pids(n: nat): multiset<Pid> {
    if n == 0 then multiset{} else Pids(n - 1) + multiset{n}
  }

  lemma {:induction false} UnionUpdate(qs: seq<seq<Pid>>, k: nat, q: seq<Pid>)
    requires k < |qs|
    ensures multiset(qs[k]) <= Union(qs)
    ensures Union(qs[k := q]) == Union(qs) - multiset(qs[k]) + multiset(q)
  {
    if k == 0 {
      assert qs[k := q][1..] == qs[1..];
    } else {
      assert qs[k := q][1..] == qs[1..][k - 1 := q];
      UnionUpdate(qs[1..], k - 1, q);
    }
  }

  lemma {:induction false} HeldUpdate(cpus: seq<Cpu>, c: nat, cpu: Cpu)
    requires c < |cpus|
    ensures HeldBy(cpus[c]) <= Held(cpus)
    ensures Held(cpus[c := cpu]) == Held(cpus) - HeldBy(cpus[c]) + HeldBy(cpu)
  {
    hide HeldBy;
    if c == 0 {
      assert cpus[c := cpu][1..] == cpus[1..];
    } else {
      assert cpus[c := cpu][1..] == cpus[1..][c - 1 := cpu];
      HeldUpdate(cpus[1..], c - 1, cpu);
    }
  }

  lemma {:induction false} PidsOnce(n: nat, p: Pid)
    ensures Pids(n)[p] == if 1 <= p <= n then 1 else 0
    ensures |Pids(n)| == n
  {
    if n > 0 { PidsOnce(n - 1, p); }
  }

  lemma UnionAppend(qs: seq<seq<Pid>>, k: nat, p: Pid)
    requires k < |qs|
    ensures Union(qs[k := qs[k] + [p]]) == Union(qs) + multiset{p}
  {
    hide Union;
    UnionUpdate(qs, k, qs[k] + [p]);
  }

  lemma UnionTail(qs: seq<seq<Pid>>, k: nat)
    requires k < |qs| && qs[k] != []
    ensures Union(qs) == Union(qs[k := qs[k][1..]]) + multiset{qs[k][0]}
  {
    hide Union;
    assert qs[k] == [qs[k][0]] + qs[k][1..];
    UnionUpdate(qs, k, qs[k][1..]);
  }

  lemma HeldSame(cpus: seq<Cpu>, c: nat, cpu: Cpu)
    requires c < |cpus| && cpu.proc == cpus[c].proc
    ensures Held(cpus[c := cpu]) == Held(cpus)
  {
    hide Held;
    HeldUpdate(cpus, c, cpu);
  }

  lemma HeldDrop(cpus: seq<Cpu>, c: nat, cpu: Cpu)
    requires c < |cpus| && cpus[c].proc != 0 && cpu.proc == 0
    ensures Held(cpus) == Held(cpus[c := cpu]) + multiset{cpus[c].proc}
  {
    hide Held;
    HeldUpdate(cpus, c, cpu);
  }

  lemma HeldGain(cpus: seq<Cpu>, c: nat, cpu: Cpu)
    requires c < |cpus| && cpus[c].proc == 0 && cpu.proc != 0
    ensures Held(cpus[c := cpu]) == Held(cpus) + multiset{cpu.proc}
  {
    hide Held;
    HeldUpdate(cpus, c, cpu);
  }

  // ---- The invariant --------------------------------------------------------

  /** Every process that is somewhere, with multiplicity; and those outside the
      ready queues. */
  function Places(s: Sys): multiset<Pid> { Union(s.sched.mlq) + Out(s) }
  function Out(s: Sys): multiset<Pid> { Held(s.cpus) + multiset(s.finished) }

  /** No process is in two places, and the running list holds, once each, only
      processes that were taken. */
  ghost predicate Conserved(s: Sys) {
    Places(s) <= Pids(|s.procs|) && multiset(s.sched.running) <= Out(s)
  }

  /** Every loaded process is somewhere. */
  ghost predicate Placed(s: Sys) { Places(s) == Pids(|s.procs|) }

  /** The running list holds every process that was taken. */
  ghost predicate Listed(s: Sys) { multiset(s.sched.running) == Out(s) }

  /** Level k holds only processes of priority k, and what was ever enqueued
      there is what was dispatched followed by what waits. */
  ghost predicate LevelOk(s: Sys, k: nat) {
    k < LEVELS ==>
      && s.enq[k] == s.disp[k] + s.sched.mlq[k]
      && forall p :: p in s.sched.mlq[k] ==>
           1 <= p <= |s.procs| && s.procs[p - 1].prio == k && ReadyPcb(s.procs[p - 1])
  }

  /** A process that may be dispatched: it has instructions left, or none at all. */
  predicate ReadyPcb(p: Pcb) { p.pc < p.size || p.size == 0 }

  predicate PcbOk(p: Pcb) { p.pc <= p.size && p.trace == seq(p.pc, i => i) }

  /** A CPU against the process it holds: inside a slice the process has executed
      one instruction for each unit of the slice used. */
  predicate CpuOk(s: Sys, c: nat) {
    c < |s.cpus| ==>
      var cpu := s.cpus[c];
      && cpu.proc <= |s.procs|
      && (cpu.at == Stopped ==> s.loaded)
      && (cpu.at == GetNext || cpu.proc == 0 ==> cpu.proc == 0 && cpu.timeLeft == 0 && cpu.at != RunOne)
      && (cpu.proc != 0 ==>
            var pcb := s.procs[cpu.proc - 1];
            && pcb.prio < LEVELS && cpu.at != Stopped
            && (cpu.at == RunOne || (cpu.at == Recheck && cpu.timeLeft != 0) ==> cpu.timeLeft <= s.timeSlot)
            && (cpu.at == Recheck || cpu.at == RunOne ==> ReadyPcb(pcb))
            && (cpu.at == Slot || cpu.at == Top ==> cpu.timeLeft < s.timeSlot)
            && (!(cpu.at == Recheck && cpu.timeLeft == 0) ==>
                  pcb.size == 0 || pcb.pc == cpu.startPc + (s.timeSlot - cpu.timeLeft)))
  }

  /** What holds in every reachable state, however many processes are loaded. */
  ghost predicate Inv(s: Sys) {
    && Conserved(s)
    && (forall k: nat :: LevelOk(s, k))
    && (forall p :: 0 <= p < |s.procs| ==> PcbOk(s.procs[p]))
    && (forall p :: p in s.finished ==> 1 <= p <= |s.procs| && s.procs[p - 1].pc == s.procs[p - 1].size)
    && (forall c: nat :: CpuOk(s, c))
  }

  lemma {:induction false} EmptyUnion(qs: seq<seq<Pid>>)
    requires forall k :: 0 <= k < |qs| ==> qs[k] == []
    ensures Union(qs) == multiset{}
  {
    if qs != [] { EmptyUnion(qs[1..]); }
  }

  lemma {:induction false} NothingHeld(cpus: seq<Cpu>)
    requires forall c :: 0 <= c < |cpus| ==> cpus[c].proc == 0
    ensures Held(cpus) == multiset{}
  {
    if cpus != [] { NothingHeld(cpus[1..]); }
  }

  lemma InitInv(s: Sys)
    requires Init(s)
    ensures Inv(s) && Placed(s) && Listed(s)
  {
    EmptyUnion(s.sched.mlq);
    NothingHeld(s.cpus);
  }

  // ---- Room in the queues ---------------------------------------------------

  /** CPU c is about to put its process back. */
  predicate PutsBack(s: Sys, c: nat) {
    && c < |s.cpus| && s.cpus[c].at == Top && 0 < s.cpus[c].proc <= |s.procs| && s.cpus[c].timeLeft == 0
    && s.procs[s.cpus[c].proc - 1].prio < LEVELS
    && s.procs[s.cpus[c].proc - 1].pc != s.procs[s.cpus[c].proc - 1].size
  }

  /** CPU c is about to call get_proc. */
  predicate Gets(s: Sys, c: nat) {
    c < |s.cpus| && ((s.cpus[c].at == Top && s.cpus[c].proc == 0) || s.cpus[c].at == GetNext)
  }

  /** If the step enqueues a process, its level exists and is not full. */
  predicate LevelRoom(s: Sys, step: Step) {
    match step
    case Load(prio, _) => prio < LEVELS && |s.sched.mlq[prio]| < CAP
    case LoadDone => true
    case CpuStep(c) => PutsBack(s, c) ==> |s.sched.mlq[s.procs[s.cpus[c].proc - 1].prio]| < CAP
  }

  /** If the step dispatches a process, the running list is not full. */
  predicate ListRoom(s: Sys, step: Step) {
    step.CpuStep? && Gets(s, step.c) && Get(s.sched).1 != 0 ==> |s.sched.running| < CAP
  }

  lemma SubCard(a: multiset<Pid>, b: multiset<Pid>)
    requires a <= b
    ensures |a| <= |b|
  {
    assert b == a + (b - a);
  }

  /** No queue can hold more processes than were loaded, less those elsewhere. */
  lemma QueueRoom(s: Sys, k: nat)
    requires Conserved(s) && k < LEVELS
    ensures |s.sched.mlq[k]| + |Held(s.cpus)| + |s.finished| <= |s.procs|
    ensures |s.sched.running| + |s.sched.mlq[k]| <= |s.procs|
  {
    hide Union, Held, Pids;
    UnionUpdate(s.sched.mlq, k, s.sched.mlq[k]);
    SubCard(multiset(s.sched.mlq[k]), Union(s.sched.mlq));
    PidsOnce(|s.procs|, 0);
    SubCard(Places(s), Pids(|s.procs|));
    SubCard(multiset(s.sched.running), Out(s));
  }

  /** A process held by a CPU is in no queue, on no other CPU and not finished. */
  lemma HeldElsewhere(s: Sys, c: nat)
    requires Conserved(s) && c < |s.cpus| && s.cpus[c].proc != 0
    ensures var p := s.cpus[c].proc;
            && 1 <= p <= |s.procs|
            && Union(s.sched.mlq)[p] == 0 && p !in s.finished && Held(s.cpus)[p] == 1
            && (forall k :: 0 <= k < LEVELS ==> p !in s.sched.mlq[k])
            && (forall d :: 0 <= d < |s.cpus| && d != c ==> s.cpus[d].proc != p)
            && |Held(s.cpus)| >= 1
  {
    hide Union, Held, Pids;
    var p := s.cpus[c].proc;
    var empty := s.cpus[c].(proc := 0);
    HeldDrop(s.cpus, c, empty);
    PidsOnce(|s.procs|, p);
    assert Places(s)[p] == Union(s.sched.mlq)[p] + Held(s.cpus)[p] + multiset(s.finished)[p];
    forall k | 0 <= k < LEVELS ensures p !in s.sched.mlq[k] {
      UnionUpdate(s.sched.mlq, k, s.sched.mlq[k]);
      assert multiset(s.sched.mlq[k])[p] == 0;
    }
    forall d | 0 <= d < |s.cpus| && d != c ensures s.cpus[d].proc != p {
      HeldUpdate(s.cpus[c := empty], d, s.cpus[d]);
      assert Held(s.cpus[c := empty])[p] == 0;
      assert s.cpus[c := empty][d] == s.cpus[d];
    }
    SubCard(multiset{p}, Held(s.cpus));
  }

  // ---- Where a step leaves the processes ------------------------------------

  /** What a step does to the accounts: a step that finds room keeps them
      complete, and a step that finds none leaves a process out. */
  ghost predicate Tally(s: Sys, s': Sys, room: bool, listRoom: bool) {
    && Conserved(s')
    && (if room then Placed(s) ==> Placed(s') else !Placed(s'))
    && (if listRoom then Listed(s) ==> Listed(s') else !Listed(s'))
  }

  lemma SameTally(s: Sys, s': Sys)
    requires Conserved(s) && |s'.procs| == |s.procs| && s'.sched.running == s.sched.running
    requires Places(s') == Places(s) && Out(s') == Out(s)
    ensures Tally(s, s', true, true)
  {
    hide Places, Out, Pids;
  }

  lemma PutTally(s: Sys, s': Sys, c: nat, prio: nat)
    requires Conserved(s) && c < |s.cpus| && s.cpus[c].proc != 0 && prio < LEVELS
    requires s'.sched == Put(s.sched, s.cpus[c].proc, prio)
    requires s'.cpus == s.cpus[c := s.cpus[c].(at := GetNext, proc := 0)]
    requires s'.finished == s.finished && |s'.procs| == |s.procs|
    ensures Tally(s, s', |s.sched.mlq[prio]| < CAP, true)
  {
    hide Union, Held, Pids, Put, HeldBy;
    var p := s.cpus[c].proc;
    HeldDrop(s.cpus, c, s'.cpus[c]);
    PutShape(s.sched, p, prio);
    PutSums(Union(s.sched.mlq), Held(s'.cpus), multiset(s.finished), p, Pids(|s.procs|), multiset(s.sched.running));
  }

  /** Put adds the process to the ready queues if its level has room, and takes it
      off the running list. */
  lemma PutShape(s: Sched, p: Pid, prio: nat)
    requires p != 0 && prio < LEVELS
    ensures var t := Put(s, p, prio);
            && Union(t.mlq) == (if |s.mlq[prio]| < CAP then Union(s.mlq) + multiset{p} else Union(s.mlq))
            && multiset(t.running) == multiset(s.running) - multiset{p}
  {
    hide Union, Purge;
    UnionAppend(s.mlq, prio, p);
    PurgeOne(s.running, p);
    assert s.mlq[prio := s.mlq[prio]] == s.mlq;
  }

  lemma PutSums(u: multiset<Pid>, h: multiset<Pid>, f: multiset<Pid>, p: Pid, all: multiset<Pid>, run: multiset<Pid>)
    requires u + (h + multiset{p} + f) <= all && run <= h + multiset{p} + f
    ensures u + (h + f) <= all && u + (h + f) != all
    ensures u + multiset{p} + (h + f) == u + (h + multiset{p} + f)
    ensures run - multiset{p} <= h + f
    ensures run == h + multiset{p} + f ==> run - multiset{p} == h + f
  {
    assert (u + (h + f))[p] < (u + (h + multiset{p} + f))[p];
  }

  lemma TakeTally(s: Sys, s': Sys, c: nat, k: nat)
    requires Conserved(s) && c < |s.cpus| && s.cpus[c].proc == 0
    requires k < LEVELS && s.sched.mlq[k] != [] && s.sched.mlq[k][0] != 0
    requires s'.sched.mlq == s.sched.mlq[k := s.sched.mlq[k][1..]]
    requires s'.sched.running == Enq(s.sched.running, s.sched.mlq[k][0])
    requires s'.cpus == s.cpus[c := s.cpus[c].(at := Recheck, proc := s.sched.mlq[k][0])]
    requires s'.finished == s.finished && |s'.procs| == |s.procs|
    ensures Tally(s, s', true, |s.sched.running| < CAP)
  {
    hide Union, Held, Pids;
    var p := s.sched.mlq[k][0];
    UnionTail(s.sched.mlq, k);
    HeldGain(s.cpus, c, s'.cpus[c]);
    TakeSums(Union(s'.sched.mlq), Held(s.cpus), multiset(s.finished), p, multiset(s.sched.running));
  }

  lemma TakeSums(u: multiset<Pid>, h: multiset<Pid>, f: multiset<Pid>, p: Pid, run: multiset<Pid>)
    requires run <= h + f
    ensures u + (h + multiset{p} + f) == u + multiset{p} + (h + f)
    ensures run <= h + multiset{p} + f && run != h + multiset{p} + f
    ensures run + multiset{p} <= h + multiset{p} + f
    ensures run == h + f ==> run + multiset{p} == h + multiset{p} + f
  {
    assert run[p] < (h + multiset{p} + f)[p];
  }

  lemma FinishTally(s: Sys, s': Sys, c: nat)
    requires Conserved(s) && c < |s.cpus| && s.cpus[c].proc != 0
    requires s'.sched == s.sched && |s'.procs| == |s.procs| && s'.finished == s.finished + [s.cpus[c].proc]
    requires s'.cpus == s.cpus[c := s.cpus[c].(at := GetNext, proc := 0, timeLeft := 0)]
    ensures Tally(s, s', true, true)
  {
    hide Union, Held, Pids;
    HeldDrop(s.cpus, c, s'.cpus[c]);
    assert multiset(s'.finished) == multiset(s.finished) + multiset{s.cpus[c].proc};
    assert Out(s') == Out(s);
    SameTally(s, s');
  }

  lemma LoadTally(s: Sys, s': Sys, prio: nat)
    requires Conserved(s) && |s'.procs| == |s.procs| + 1
    requires s'.sched == Add(s.sched, |s.procs| + 1, prio) && s'.cpus == s.cpus && s'.finished == s.finished
    ensures Tally(s, s', prio < LEVELS && |s.sched.mlq[prio]| < CAP, true)
  {
    hide Union, Held;
    var p := |s.procs| + 1;
    if prio < LEVELS {
      UnionAppend(s.sched.mlq, prio, p);
      assert s.sched.mlq[prio := s.sched.mlq[prio]] == s.sched.mlq;
    }
    assert Pids(p) == Pids(|s.procs|) + multiset{p};
    LoadSums(Places(s), Pids(|s.procs|), p);
    assert Out(s') == Out(s);
    assert Union(s.sched.mlq) + multiset{p} + Out(s) == Places(s) + multiset{p};
  }

  lemma LoadSums(places: multiset<Pid>, all: multiset<Pid>, p: Pid)
    requires places <= all
    ensures places + multiset{p} <= all + multiset{p} && places <= all + multiset{p}
    ensures places != all + multiset{p}
  {
    assert places[p] < (all + multiset{p})[p];
  }

  // ---- Every step keeps the invariant ---------------------------------------

  /** A CPU that moves on without getting or giving up a process. */
  lemma MoveOk(s: Sys, c: nat, cpu: Cpu)
    requires Inv(s) && c < |s.cpus| && cpu.proc == s.cpus[c].proc
    requires CpuOk(s.(cpus := s.cpus[c := cpu]), c)
    ensures Inv(s.(cpus := s.cpus[c := cpu])) && Tally(s, s.(cpus := s.cpus[c := cpu]), true, true)
  {
    hide Union, Held, Pids, PcbOk, ReadyPcb, Conserved;
    var s' := s.(cpus := s.cpus[c := cpu]);
    HeldSame(s.cpus, c, cpu);
    SameTally(s, s');
    forall k: nat ensures LevelOk(s', k) { assert LevelOk(s, k); }
    forall d: nat ensures CpuOk(s', d) { assert CpuOk(s, d); }
  }

  /** Dropping a finished process: it goes from the CPU to `finished`, and its
      running-list entry stays. */
  lemma FinishOk(s: Sys, c: nat)
    requires Inv(s) && c < |s.cpus| && s.cpus[c].at == Top && s.cpus[c].proc != 0
    requires s.cpus[c].proc <= |s.procs| && s.procs[s.cpus[c].proc - 1].pc == s.procs[s.cpus[c].proc - 1].size
    ensures var s' := s.(finished := s.finished + [s.cpus[c].proc],
                         cpus := s.cpus[c := s.cpus[c].(at := GetNext, proc := 0, timeLeft := 0)]);
            Inv(s') && Tally(s, s', true, true)
  {
    hide PcbOk, ReadyPcb, Conserved, Placed, Listed;
    var s' := s.(finished := s.finished + [s.cpus[c].proc],
                 cpus := s.cpus[c := s.cpus[c].(at := GetNext, proc := 0, timeLeft := 0)]);
    FinishTally(s, s', c);
    forall k: nat ensures LevelOk(s', k) { assert LevelOk(s, k); }
    forall d: nat ensures CpuOk(s', d) { assert CpuOk(s, d); }
  }

  /** Putting a process back: from the CPU and the running list to the tail of
      its own level; a full level loses it. */
  lemma PutOk(s: Sys, c: nat)
    requires Inv(s) && PutsBack(s, c)
    ensures var cpu := s.cpus[c]; var prio := s.procs[cpu.proc - 1].prio;
            var s' := s.(sched := Put(s.sched, cpu.proc, prio), enq := Note(s.enq, s.sched, prio, cpu.proc),
                         cpus := s.cpus[c := cpu.(at := GetNext, proc := 0)]);
            Inv(s') && Tally(s, s', |s.sched.mlq[prio]| < CAP, true)
  {
    hide Purge, Conserved, Placed, Listed, Put, Note;
    var cpu := s.cpus[c];
    var p, prio := cpu.proc, s.procs[cpu.proc - 1].prio;
    var s' := s.(sched := Put(s.sched, p, prio), enq := Note(s.enq, s.sched, prio, p),
                 cpus := s.cpus[c := cpu.(at := GetNext, proc := 0)]);
    assert PcbOk(s.procs[p - 1]);
    PutTally(s, s', c, prio);
    forall k: nat ensures LevelOk(s', k) {
      assert LevelOk(s, k);
      Enqueued(s, p, prio, k);
      LevelAppend(s, s', k, p, prio);
    }
    forall d: nat ensures CpuOk(s', d) { assert CpuOk(s, d); }
  }

  /** Level k and its history after a put or an add of p to level prio. */
  lemma Enqueued(s: Sys, p: Pid, prio: nat, k: nat)
    requires p != 0
    ensures k < LEVELS ==>
              var more := if k == prio && |s.sched.mlq[prio]| < CAP then [p] else [];
              && Put(s.sched, p, prio).mlq[k] == s.sched.mlq[k] + more
              && Add(s.sched, p, prio).mlq[k] == s.sched.mlq[k] + more
              && Note(s.enq, s.sched, prio, p)[k] == s.enq[k] + more
  {
    hide Purge;
  }

  lemma LevelAppend(s: Sys, s': Sys, k: nat, p: Pid, prio: nat)
    requires LevelOk(s, k) && 1 <= p <= |s'.procs| && |s'.procs| >= |s.procs|
    requires forall i :: 0 <= i < |s.procs| ==> s'.procs[i] == s.procs[i]
    requires s'.procs[p - 1].prio == prio && ReadyPcb(s'.procs[p - 1]) && s'.disp == s.disp
    requires k < LEVELS ==>
               var more := if k == prio && |s.sched.mlq[prio]| < CAP then [p] else [];
               s'.sched.mlq[k] == s.sched.mlq[k] + more && s'.enq[k] == s.enq[k] + more
    ensures LevelOk(s', k)
  {
    if k < LEVELS {
      var more := if k == prio && |s.sched.mlq[prio]| < CAP then [p] else [];
      assert s.disp[k] + s.sched.mlq[k] + more == s.disp[k] + (s.sched.mlq[k] + more);
    }
  }

  /** Getting a process: from the head of the best level to the CPU and, if there
      is room, to the running list. */
  lemma TakeOk(s: Sys, c: nat, whenNone: CpuPc)
    requires Inv(s) && c < |s.cpus| && s.cpus[c].proc == 0
    requires s.cpus[c].at == Top || s.cpus[c].at == GetNext
    requires whenNone == Slot || whenNone == Recheck
    ensures var s' := TakeProc(s, c, whenNone);
            Inv(s') && Tally(s, s', true, Get(s.sched).1 != 0 ==> |s.sched.running| < CAP)
  {
    hide Conserved, Placed, Listed, FirstReady;
    var k := FirstReady(s.sched.mlq, 0);
    var s' := TakeProc(s, c, whenNone);
    assert CpuOk(s, c);
    if k == LEVELS {
      MoveKeeps(s, c, whenNone);
    } else {
      assert LevelOk(s, k);
      var q := s.sched.mlq[k];
      var p := q[0];
      assert p in q;
      TakeTally(s, s', c, k);
      assert s'.disp == s.disp[k := s.disp[k] + [p]] && s'.sched.mlq == s.sched.mlq[k := q[1..]];
      forall j: nat ensures LevelOk(s', j) {
        assert LevelOk(s, j);
        if j == k { LevelTake(s, s', k, p); }
      }
      forall d: nat ensures CpuOk(s', d) { assert CpuOk(s, d); }
    }
  }

  lemma MoveKeeps(s: Sys, c: nat, at: CpuPc)
    requires Inv(s) && c < |s.cpus| && s.cpus[c].proc == 0 && (at == Slot || at == Recheck)
    ensures var s' := s.(sched := s.sched.(currentPrio := 0, currentSlot := 0),
                         cpus := s.cpus[c := s.cpus[c].(at := at)]);
            Inv(s') && Tally(s, s', true, true)
  {
    hide Union, Held, Pids, PcbOk, ReadyPcb;
    var cpu := s.cpus[c].(at := at);
    var s1 := s.(cpus := s.cpus[c := cpu]);
    assert CpuOk(s, c);
    MoveOk(s, c, cpu);
    var s' := s1.(sched := s.sched.(currentPrio := 0, currentSlot := 0));
    forall k: nat ensures LevelOk(s', k) { assert LevelOk(s1, k); }
    forall d: nat ensures CpuOk(s', d) { assert CpuOk(s1, d); }
  }

  lemma LevelTake(s: Sys, s': Sys, k: nat, p: Pid)
    requires k < LEVELS && LevelOk(s, k) && s.sched.mlq[k] != [] && p == s.sched.mlq[k][0] && s'.procs == s.procs
    requires s'.sched.mlq[k] == s.sched.mlq[k][1..] && s'.enq[k] == s.enq[k] && s'.disp[k] == s.disp[k] + [p]
    ensures LevelOk(s', k)
  {
    var q := s.sched.mlq[k];
    assert s.disp[k] + [p] + q[1..] == s.disp[k] + q;
    forall r | r in q[1..] ensures r in q { }
  }

  /** One instruction: only the held process changes, and no other CPU or queue
      has it. */
  lemma RunOk(s: Sys, c: nat)
    requires Inv(s) && c < |s.cpus| && s.cpus[c].at == RunOne
    requires 0 < s.cpus[c].proc <= |s.procs|
    ensures var cpu := s.cpus[c];
            var s' := s.(procs := s.procs[cpu.proc - 1 := Execute(s.procs[cpu.proc - 1])],
                         cpus := s.cpus[c := cpu.(at := Slot, timeLeft := cpu.timeLeft - 1)]);
            Inv(s') && Tally(s, s', true, true)
  {
    hide Union, Held, Pids, Conserved;
    var cpu := s.cpus[c];
    var p := cpu.proc;
    var cpu' := cpu.(at := Slot, timeLeft := cpu.timeLeft - 1);
    var s' := s.(procs := s.procs[p - 1 := Execute(s.procs[p - 1])], cpus := s.cpus[c := cpu']);
    HeldElsewhere(s, c);
    HeldSame(s.cpus, c, cpu');
    SameTally(s, s');
    assert CpuOk(s, c) && PcbOk(s.procs[p - 1]);
    forall k: nat ensures LevelOk(s', k) { assert LevelOk(s, k); }
    forall d: nat ensures CpuOk(s', d) { assert CpuOk(s, d); }
  }

  /** Loading: the new process goes to the tail of its own level; a full level, or
      a priority without a level, loses it. */
  lemma LoadOk(s: Sys, prio: nat, size: nat)
    requires Inv(s) && !s.loaded
    ensures var s' := Next(s, Load(prio, size)).value;
            Inv(s') && Tally(s, s', prio < LEVELS && |s.sched.mlq[prio]| < CAP, true)
  {
    hide Conserved, Placed, Listed, Add, Note, LevelOk, PcbOk;
    var p := |s.procs| + 1;
    var s' := Next(s, Load(prio, size)).value;
    LoadTally(s, s', prio);
    assert PcbOk(s'.procs[p - 1]) by { FreshPcbOk(prio, size); }
    forall k: nat ensures LevelOk(s', k) {
      assert LevelOk(s, k);
      Enqueued(s, p, prio, k);
      LevelAppend(s, s', k, p, prio);
    }
    forall d: nat ensures CpuOk(s', d) { assert CpuOk(s, d); }
  }

  lemma FreshPcbOk(prio: nat, size: nat)
    ensures PcbOk(Pcb(prio, size, 0, []))
  {
  }

  lemma CpuStepOk(s: Sys, c: nat, s': Sys)
    requires Inv(s) && c < |s.cpus| && CpuNext(s, c) == Some(s')
    ensures Inv(s') && Tally(s, s', LevelRoom(s, CpuStep(c)), ListRoom(s, CpuStep(c)))
  {
    hide TakeProc, Put, Note, Conserved, Placed, Listed, LevelOk, Execute, Get, Tally;
    var cpu := s.cpus[c];
    assert CpuOk(s, c);
    match cpu.at
    case Top =>
      if cpu.proc == 0 {
        TakeOk(s, c, Slot);
      } else {
        var pcb := s.procs[cpu.proc - 1];
        assert PcbOk(pcb);
        if pcb.pc == pcb.size { FinishOk(s, c); }
        else if cpu.timeLeft == 0 { PutOk(s, c); }
        else { MoveOk(s, c, cpu.(at := Recheck)); }
      }
    case GetNext => TakeOk(s, c, Recheck);
    case Recheck => MoveOk(s, c, s'.cpus[c]);
    case RunOne => RunOk(s, c);
    case Slot => MoveOk(s, c, cpu.(at := Top));
  }

  /** Every step keeps the invariant, and says what it does to the accounts. */
  lemma NextInv(s: Sys, step: Step, s': Sys)
    requires Inv(s) && Next(s, step) == Some(s')
    ensures Inv(s') && Tally(s, s', LevelRoom(s, step), ListRoom(s, step))
  {
    hide CpuNext, TakeProc, Conserved, Placed, Listed, Get, Tally;
    match step
    case Load(prio, size) => LoadOk(s, prio, size);
    case LoadDone =>
      forall k: nat ensures LevelOk(s', k) { assert LevelOk(s, k); }
      forall d: nat ensures CpuOk(s', d) { assert CpuOk(s, d); }
      LoadDoneTally(s);
    case CpuStep(c) => CpuStepOk(s, c, s');
  }

  lemma LoadDoneTally(s: Sys)
    requires Conserved(s)
    ensures Tally(s, s.(loaded := true), true, true)
  {
    SameTally(s, s.(loaded := true));
  }
}
