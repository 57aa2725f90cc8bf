/** The bounded array queue (src/queue.c).  A process is its pid; 0 is NULL. */
module Queue {

  const CAP := 50 // MAX_QUEUE_SIZE

  type Pid = nat

  // ---- Meaning --------------------------------------------------------------

  /** A full queue drops the process. */
  function Enq(q: seq<Pid>, p: Pid): seq<Pid> {
    if p == 0 || |q| >= CAP then q else q + [p]
  }

  function Deq(q: seq<Pid>): (seq<Pid>, Pid) {
    if q == [] then (q, 0) else (q[1..], q[0])
  }

  /** The queue without the first occurrence of p. */
  function Purge(q: seq<Pid>, p: Pid): seq<Pid> {
    if q == [] then q else if q[0] == p then q[1..] else [q[0]] + Purge(q[1..], p)
  }

  /** Purging removes exactly one occurrence, and leaves a queue without p alone. */
  lemma {:induction false} PurgeOne(q: seq<Pid>, p: Pid)
    ensures multiset(Purge(q, p)) == multiset(q) - multiset{p}
    ensures p !in q ==> Purge(q, p) == q
    ensures p in q ==> |Purge(q, p)| == |q| - 1
  {
    if q != [] {
      var t := q[1..];
      assert q == [q[0]] + t && multiset(q) == multiset{q[0]} + multiset(t);
      if q[0] != p {
        PurgeOne(t, p);
        var rest := Purge(t, p);
        assert Purge(q, p) == [q[0]] + rest;
        assert multiset([q[0]] + rest) == multiset{q[0]} + multiset(rest);
      }
    }
  }

  lemma {:induction false} PurgeAbsent(q: seq<Pid>, p: Pid)
    requires forall j :: 0 <= j < |q| ==> q[j] != p
    ensures Purge(q, p) == q
  {
    if q != [] { PurgeAbsent(q[1..], p); }
  }

  /** Where the first occurrence is determines what Purge yields. */
  lemma {:induction false} PurgeAt(q: seq<Pid>, p: Pid, i: nat)
    requires i < |q| && q[i] == p && forall j :: 0 <= j < i ==> q[j] != p
    ensures Purge(q, p) == q[..i] + q[i + 1..]
  {
    if i > 0 {
      PurgeAt(q[1..], p, i - 1);
      assert q[1..][..i - 1] == q[1..i] && q[1..][i..] == q[i + 1..];
      assert [q[0]] + q[1..i] == q[..i];
    }
  }

  // ---- The array ------------------------------------------------------------

  class ArrayQueue {
    const proc: array<Pid>
    var size: nat

    ghost predicate Valid()
      reads this
    {
      proc.Length == CAP && size <= CAP
    }

    ghost function Contents(): seq<Pid>
      reads this, proc
      requires Valid()
    {
      proc[..size]
    }

    constructor ()
      ensures Valid() && Contents() == [] && fresh(proc)
    {
      proc := new Pid[CAP];
      size := 0;
    }

    method IsEmpty() returns (r: bool)
      requires Valid()
      ensures r <==> Contents() == []
    {
      r := size == 0;
    }

    method Enqueue(p: Pid)
      requires Valid()
      modifies this, proc
      ensures Valid() && Contents() == Enq(old(Contents()), p)
    {
      if p == 0 { return; }
      if size >= CAP { return; }
      proc[size] := p;
      size := size + 1;
    }

    /** Take the first process and shift the rest up. */
    method Dequeue() returns (p: Pid)
      requires Valid()
      modifies this, proc
      ensures Valid() && (Contents(), p) == Deq(old(Contents()))
    {
      if size == 0 { return 0; }
      p := proc[0];
      var i := 0;
      while i < size - 1
        invariant 0 <= i <= size - 1 && size == old(size)
        invariant forall j :: 0 <= j < i ==> proc[j] == old(proc[j + 1])
        invariant forall j :: i <= j < size ==> proc[j] == old(proc[j])
      {
        proc[i] := proc[i + 1];
        i := i + 1;
      }
      size := size - 1;
      assert proc[..size] == old(proc[..size])[1..];
    }

    /** Close the gap at i and clear the freed cell. */
    method RemoveAt(i: nat)
      requires Valid() && i < size
      modifies this, proc
      ensures Valid() && Contents() == old(Contents())[..i] + old(Contents())[i + 1..]
    {
      var j := i;
      while j < size - 1
        invariant i <= j <= size - 1 && size == old(size)
        invariant forall k :: 0 <= k < i ==> proc[k] == old(proc[k])
        invariant forall k :: i <= k < j ==> proc[k] == old(proc[k + 1])
        invariant forall k :: j <= k < size ==> proc[k] == old(proc[k])
      {
        proc[j] := proc[j + 1];
        j := j + 1;
      }
      size := size - 1;
      assert proc[..size] == old(proc[..size])[..i] + old(proc[..size])[i + 1..];
      proc[size] := 0;
    }

    /** The first position of p, or size. */
    method Find(p: Pid) returns (i: nat)
      requires Valid()
      ensures i <= |Contents()| && forall j :: 0 <= j < i ==> Contents()[j] != p
      ensures i < |Contents()| ==> Contents()[i] == p
    {
      i := 0;
      while i < size
        invariant 0 <= i <= size && forall j :: 0 <= j < i ==> proc[j] != p
      {
        if proc[i] == p { return; }
        i := i + 1;
      }
    }

    /** Find p and remove it. */
    method PurgeProc(p: Pid) returns (r: Pid)
      requires Valid()
      modifies this, proc
      ensures Valid() && Contents() == if p == 0 then old(Contents()) else Purge(old(Contents()), p)
      ensures r == if p != 0 && p in old(Contents()) then p else 0
    {
      hide Purge;
      if size == 0 || p == 0 {
        if size == 0 { PurgeAbsent(Contents(), p); }
        return 0;
      }
      var i := Find(p);
      if i < size {
        PurgeAt(Contents(), p, i);
        r := proc[i];
        RemoveAt(i);
      } else {
        PurgeAbsent(Contents(), p);
        r := 0;
      }
    }
  }
}
