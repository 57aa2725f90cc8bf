/** First fit over the linked list of free regions (src/libmem.c:25-36, 371-411):
    nodes rewritten in place, and what that means for the set of free addresses. */
module FreeRegions {
  import opened Bits
  import opened Pte
  import opened Machine
  import opened Regions

  // ---- Meaning --------------------------------------------------------------

  /** Address a lies in rg. */
  predicate Covers(rg: Rg, a: nat) { rg.start <= a < rg.end }

  /** Address a is free. */
  predicate IsFree(rgs: seq<Rg>, a: nat) { exists i :: 0 <= i < |rgs| && Covers(rgs[i], a) }

  /** Regions that do not run backwards and do not overlap. */
  predicate WellFormed(rgs: seq<Rg>) {
    && (forall i :: 0 <= i < |rgs| ==> rgs[i].start <= rgs[i].end)
    && (forall i, j :: 0 <= i < j < |rgs| ==> Apart(rgs[i], rgs[j]))
  }

  /** The source's test, in 64-bit arithmetic. */
  predicate Admits(rg: Rg, size: nat) { (rg.start + size) % WORD <= rg.end }

  /** The `int` size as the sum with a 64-bit start sees it. */
  function Size64(size: int): nat { size % WORD }

  // ---- The list -------------------------------------------------------------

  /** The list after taking size bytes from the front of cell i: a shorter cell,
      or the next cell copied over it, or an empty last cell. */
  function Taken(rgs: seq<Rg>, i: nat, size: nat): seq<Rg>
    requires i < |rgs|
  {
    var rg := rgs[i];
    var cut := (rg.start + size) % WORD;
    if cut < rg.end then rgs[i := Rg(cut, rg.end)]
    else if i + 1 < |rgs| then rgs[..i] + rgs[i + 1..]
    else rgs[i := Rg(rg.end, rg.end)]
  }

  /** What is handed out of rg. */
  function Front(rg: Rg, size: nat): Rg { Rg(rg.start, (rg.start + size) % WORD) }

  /** The cell after i is copied over it, and its node freed. */
  predicate DropsNext(rgs: seq<Rg>, i: nat, size: nat)
    requires i < |rgs|
  {
    (rgs[i].start + size) % WORD >= rgs[i].end && i + 1 < |rgs|
  }

  // ---- The linked list ------------------------------------------------------

  /** vm_rg_struct as a list node. */
  class Node {
    var start: nat
    var end: nat
    var next: Node?

    /** init_vm_rg. */
    constructor (start: nat, end: nat)
      ensures this.start == start && this.end == end && next == null
    {
      this.start, this.end, next := start, end, null;
    }
  }

  /** Node i of the chain, or the NULL that ends it. */
  ghost function NodeAt(nodes: seq<Node>, i: nat): Node? { if i < |nodes| then nodes[i] else null }

  /** The regions in a chain of nodes. */
  ghost function RgsOf(nodes: seq<Node>): (rgs: seq<Rg>)
    reads nodes
    ensures |rgs| == |nodes| && forall i :: 0 <= i < |nodes| ==> rgs[i] == Rg(nodes[i].start, nodes[i].end)
  {
    seq(|nodes|, i requires 0 <= i < |nodes| reads nodes => Rg(nodes[i].start, nodes[i].end))
  }

  ghost predicate Distinct(nodes: seq<Node>) { forall i, j :: 0 <= i < j < |nodes| ==> nodes[i] != nodes[j] }

  ghost predicate LinkedAt(nodes: seq<Node>, i: nat)
    reads nodes
  {
    i < |nodes| ==> nodes[i].next == NodeAt(nodes, i + 1)
  }

  /** Distinct nodes, each linked to the next and the last to NULL. */
  ghost predicate Chained(nodes: seq<Node>)
    reads nodes
  {
    Distinct(nodes) && forall i: nat :: LinkedAt(nodes, i)
  }

  /** The chain without node i + 1. */
  ghost function Unlinked(nodes: seq<Node>, i: nat): (ns: seq<Node>)
    requires i + 1 < |nodes|
    ensures |ns| == |nodes| - 1 && forall k :: 0 <= k < |ns| ==> ns[k] == nodes[if k <= i then k else k + 1]
  {
    nodes[..i + 1] + nodes[i + 2..]
  }

  lemma UnlinkedDistinct(nodes: seq<Node>, i: nat)
    requires Distinct(nodes) && i + 1 < |nodes|
    ensures Distinct(Unlinked(nodes, i)) && nodes[i + 1] !in Unlinked(nodes, i)
  {
    hide Unlinked;
  }

  /** vm_freerg_list.  `nodes` is the footprint: the nodes reachable from the
      head, in order. */
  class FreeList {
    var head: Node?
    ghost var nodes: seq<Node>

    ghost predicate Valid()
      reads this, nodes
    {
      Chained(nodes) && head == NodeAt(nodes, 0)
    }

    ghost function Contents(): seq<Rg>
      reads this, nodes
    {
      RgsOf(nodes)
    }

    constructor ()
      ensures Valid() && nodes == []
    {
      head, nodes := null, [];
    }

    /** enlist_vm_freerg_list: a region that is not empty goes to the head.  A node
        given to an empty list must already end the chain. */
    method Enlist(node: Node) returns (ok: bool)
      requires Valid() && node !in nodes && (head == null ==> node.next == null)
      modifies this, node
      ensures Valid() && (ok <==> node.start < node.end)
      ensures node.start == old(node.start) && node.end == old(node.end)
      ensures nodes == (if ok then [node] + old(nodes) else old(nodes))
      ensures Contents() == (if ok then [Rg(node.start, node.end)] else []) + old(Contents())
    {
      if node.start >= node.end { return false; }
      if head != null { node.next := head; }
      head := node;
      nodes := [node] + nodes;
      ok := true;
      forall i: nat ensures LinkedAt(nodes, i) {
        if i > 0 { assert old(LinkedAt(nodes, i - 1)); }
      }
      assert forall i :: 0 < i < |nodes| ==> nodes[i] == old(nodes)[i - 1];
    }

    /** get_free_vmrg_area: walk the list to the first region that is large enough
        and carve the request off its front.  Node i keeps its identity; when the
        region is used up and there is a next node, that node leaves the footprint.
        On failure nothing changes; the result is -1 in both bounds if there was a
        list to search, and else what the caller had in it. */
    method GetFreeVmrgArea(vmaid: int, size: int, newrg: Rg) returns (ok: bool, rg: Rg, ghost i: nat)
      requires Valid()
      modifies this`nodes, nodes
      ensures Valid()
      ensures ok <==> HasVma(vmaid) && exists j :: 0 <= j < |old(nodes)| && Admits(old(Contents())[j], Size64(size))
      ensures ok ==> && i < |old(nodes)| && Admits(old(Contents())[i], Size64(size))
                     && (forall j :: 0 <= j < i ==> !Admits(old(Contents())[j], Size64(size)))
                     && rg == Front(old(Contents())[i], Size64(size))
                     && Contents() == Taken(old(Contents()), i, Size64(size))
                     && nodes == (if DropsNext(old(Contents()), i, Size64(size))
                                  then Unlinked(old(nodes), i) else old(nodes))
                     && (DropsNext(old(Contents()), i, Size64(size)) ==> old(nodes)[i + 1] !in nodes)
      ensures !ok ==> nodes == old(nodes) && Contents() == old(Contents())
      ensures !ok ==> rg == if HasVma(vmaid) && old(nodes) != [] then Rg(WORD - 1, WORD - 1) else newrg
    {
      hide Admits, Taken, DropsNext, Front, Size64, Chained;
      ok, rg, i := false, newrg, 0;
      if !HasVma(vmaid) { return; }
      var it := head;
      if it == null { return; }
      rg := Rg(WORD - 1, WORD - 1);
      while it != null
        invariant 0 <= i <= |nodes| && it == NodeAt(nodes, i) && nodes == old(nodes) && Valid()
        invariant Contents() == old(Contents())
        invariant forall j :: 0 <= j < i ==> !Admits(Contents()[j], Size64(size))
        decreases |nodes| - i
      {
        if Admits(Rg(it.start, it.end), Size64(size)) {
          rg := Front(Rg(it.start, it.end), Size64(size));
          Carve(it, i, Size64(size));
          ok := true;
          return;
        }
        it := Step(it, i);
        i := i + 1;
      }
    }

    /** rgit = rgit->rg_next. */
    method Step(it: Node, ghost i: nat) returns (next: Node?)
      requires Valid() && i < |nodes| && it == nodes[i]
      ensures next == NodeAt(nodes, i + 1)
    {
      assert LinkedAt(nodes, i);
      next := it.next;
    }

    /** Take size bytes off the front of node i. */
    method Carve(it: Node, ghost i: nat, size: nat)
      requires Valid() && i < |nodes| && it == nodes[i]
      modifies this`nodes, nodes
      ensures Valid() && Contents() == Taken(old(Contents()), i, size)
      ensures nodes == if DropsNext(old(Contents()), i, size) then Unlinked(old(nodes), i) else old(nodes)
      ensures DropsNext(old(Contents()), i, size) ==> old(nodes)[i + 1] !in nodes
    {
      hide Unlinked, Distinct, RgsOf;
      assert LinkedAt(nodes, i);
      var cut := (it.start + size) % WORD;
      if cut < it.end {
        Shorten(it, i, cut);
      } else if it.next != null {
        CopyNext(it, i);
      } else {
        Shorten(it, i, it.end);
      }
    }

    /** Move the start of node i. */
    method Shorten(it: Node, ghost i: nat, start: nat)
      requires Valid() && i < |nodes| && it == nodes[i]
      modifies it`start
      ensures Valid() && Contents() == old(Contents())[i := Rg(start, it.end)]
    {
      hide Distinct;
      assert forall k :: 0 <= k < |nodes| && k != i ==> nodes[k] != it by { OthersDiffer(nodes, i); }
      it.start := start;
      forall k: nat ensures LinkedAt(nodes, k) { assert old(LinkedAt(nodes, k)); }
    }

    /** Copy the next node over node i and unlink it. */
    method CopyNext(it: Node, ghost i: nat)
      requires Valid() && i + 1 < |nodes| && it == nodes[i]
      modifies this`nodes, it
      ensures Valid() && nodes == Unlinked(old(nodes), i) && old(nodes)[i + 1] !in nodes
      ensures Contents() == old(Contents())[..i] + old(Contents())[i + 1..]
    {
      hide Distinct, Unlinked;
      assert forall k :: 0 <= k < |nodes| && k != i ==> nodes[k] != it by { OthersDiffer(nodes, i); }
      UnlinkedDistinct(nodes, i);
      assert LinkedAt(nodes, i) && LinkedAt(nodes, i + 1);
      var next := it.next;
      it.start := next.start;
      it.end := next.end;
      it.next := next.next;
      nodes := Unlinked(nodes, i);
      forall k: nat ensures LinkedAt(nodes, k) {
        assert old(LinkedAt(nodes, if k <= i then k else k + 1));
      }
      forall k | 0 <= k < |nodes| ensures Contents()[k] == (old(Contents())[..i] + old(Contents())[i + 1..])[k] {
        DroppedAt(old(Contents()), i, k);
      }
    }
  }

  lemma OthersDiffer(nodes: seq<Node>, i: nat)
    requires Distinct(nodes) && i < |nodes|
    ensures forall k :: 0 <= k < |nodes| && k != i ==> nodes[k] != nodes[i]
  {
  }

  // ---- What carving does to the free set ------------------------------------

  lemma ShrunkCell(rgs: seq<Rg>, i: nat, rg: Rg, a: nat)
    requires WellFormed(rgs) && i < |rgs| && rgs[i].start <= rg.start <= rg.end == rgs[i].end
    ensures WellFormed(rgs[i := rg])
    ensures IsFree(rgs[i := rg], a) <==> IsFree(rgs, a) && !(rgs[i].start <= a < rg.start)
  {
    var rgs' := rgs[i := rg];
    if IsFree(rgs', a) {
      var j :| 0 <= j < |rgs'| && Covers(rgs'[j], a);
      assert Covers(rgs[j], a);
    }
    if IsFree(rgs, a) && !(rgs[i].start <= a < rg.start) {
      var j :| 0 <= j < |rgs| && Covers(rgs[j], a);
      assert Covers(rgs'[j], a);
    }
  }

  /** Dropping cell i renumbers the cells after it. */
  lemma DroppedAt(rgs: seq<Rg>, i: nat, j: nat)
    requires i < |rgs| && j < |rgs| - 1
    ensures (rgs[..i] + rgs[i + 1..])[j] == rgs[if j < i then j else j + 1]
  {
  }

  lemma DroppedWellFormed(rgs: seq<Rg>, i: nat)
    requires WellFormed(rgs) && i < |rgs|
    ensures WellFormed(rgs[..i] + rgs[i + 1..])
  {
    var rgs' := rgs[..i] + rgs[i + 1..];
    forall j | 0 <= j < |rgs'| ensures rgs'[j].start <= rgs'[j].end { DroppedAt(rgs, i, j); }
    forall j, k | 0 <= j < k < |rgs'| ensures Apart(rgs'[j], rgs'[k]) {
      hide Apart;
      DroppedAt(rgs, i, j);
      DroppedAt(rgs, i, k);
    }
  }

  lemma DroppedFree(rgs: seq<Rg>, i: nat, a: nat)
    requires WellFormed(rgs) && i < |rgs|
    ensures IsFree(rgs[..i] + rgs[i + 1..], a) <==> IsFree(rgs, a) && !Covers(rgs[i], a)
  {
    var rgs' := rgs[..i] + rgs[i + 1..];
    if IsFree(rgs', a) {
      var j :| 0 <= j < |rgs'| && Covers(rgs'[j], a);
      DroppedAt(rgs, i, j);
      var j' := if j < i then j else j + 1;
      assert Covers(rgs[j'], a);
      assert Apart(rgs[if j < i then j else i], rgs[if j < i then i else j']);
    }
    if IsFree(rgs, a) && !Covers(rgs[i], a) {
      var j :| 0 <= j < |rgs| && Covers(rgs[j], a);
      var j' := if j < i then j else j - 1;
      DroppedAt(rgs, i, j');
      assert Covers(rgs'[j'], a);
    }
  }

  /** Address a is in exactly one of the region handed out and the new free set if
      it was free, and in neither if it was not. */
  predicate SplitAt(rgs: seq<Rg>, got: Rg, rgs': seq<Rg>, a: nat) {
    && (IsFree(rgs, a) <==> Covers(got, a) || IsFree(rgs', a))
    && !(Covers(got, a) && IsFree(rgs', a))
  }

  lemma TakenUnwrapped(rgs: seq<Rg>, i: nat, size: nat)
    requires i < |rgs| && rgs[i].start + size < WORD
    ensures var cut := rgs[i].start + size;
            && Front(rgs[i], size) == Rg(rgs[i].start, cut)
            && (Admits(rgs[i], size) <==> cut <= rgs[i].end)
            && Taken(rgs, i, size) == if cut < rgs[i].end then rgs[i := Rg(cut, rgs[i].end)]
                                      else if i + 1 < |rgs| then rgs[..i] + rgs[i + 1..]
                                      else rgs[i := Rg(rgs[i].end, rgs[i].end)]
  {
    ModSmall(rgs[i].start + size, WORD);
  }

  lemma CarveSplits(rgs: seq<Rg>, i: nat, size: nat, a: nat)
    requires WellFormed(rgs) && i < |rgs| && Admits(rgs[i], size) && rgs[i].start + size < WORD
    ensures WellFormed(Taken(rgs, i, size)) && SplitAt(rgs, Front(rgs[i], size), Taken(rgs, i, size), a)
  {
    hide WellFormed, IsFree, Taken, Front, Admits;
    var rg, cut := rgs[i], rgs[i].start + size;
    TakenUnwrapped(rgs, i, size);
    if cut < rg.end {
      ShrunkCell(rgs, i, Rg(cut, rg.end), a);
    } else if i + 1 < |rgs| {
      DroppedWellFormed(rgs, i);
      DroppedFree(rgs, i, a);
    } else {
      ShrunkCell(rgs, i, Rg(rg.end, rg.end), a);
    }
    CellIsFree(rgs, i, a);
  }

  lemma CellIsFree(rgs: seq<Rg>, i: nat, a: nat)
    requires i < |rgs|
    ensures Covers(rgs[i], a) ==> IsFree(rgs, a)
  {
  }

  /** When the sum wraps, the cell grows downwards: either it now overlaps another
      cell, or an address that was not free has become free. */
  lemma WrapBreaks(rgs: seq<Rg>, i: nat, size: nat)
    requires WellFormed(rgs) && i < |rgs| && rgs[i].end < WORD && size < WORD && rgs[i].start + size >= WORD
    ensures var cut := rgs[i].start + size - WORD; var rgs' := Taken(rgs, i, size);
            !WellFormed(rgs') || !SplitAt(rgs, Front(rgs[i], size), rgs', cut)
  {
    var rg := rgs[i];
    var cut := rg.start + size - WORD;
    assert (rg.start + size) % WORD == cut;
    var rgs' := Taken(rgs, i, size);
    assert rgs'[i] == Rg(cut, rg.end) && Covers(rgs'[i], cut);
    if IsFree(rgs, cut) {
      var j :| 0 <= j < |rgs| && Covers(rgs[j], cut);
      assert rgs'[j] == rgs[j];
      assert !Apart(rgs'[if i < j then i else j], rgs'[if i < j then j else i]);
    }
  }

  /** The carve-out.  The region handed out has the size asked for, and it and the
      new free set are disjoint and together are the old free set, through every
      way the node is rewritten, with the list still well formed: exactly when the
      sum does not wrap 64 bits. */
  lemma CarvePartitions(rgs: seq<Rg>, i: nat, size: nat)
    requires WellFormed(rgs) && i < |rgs| && rgs[i].end < WORD && size < WORD && Admits(rgs[i], size)
    ensures var got, rgs' := Front(rgs[i], size), Taken(rgs, i, size);
            && (got.end == got.start + size <==> rgs[i].start + size < WORD)
            && (WellFormed(rgs') && (forall a: nat :: SplitAt(rgs, got, rgs', a)) <==> rgs[i].start + size < WORD)
  {
    hide WellFormed, Taken, SplitAt;
    if rgs[i].start + size < WORD {
      forall a: nat ensures SplitAt(rgs, Front(rgs[i], size), Taken(rgs, i, size), a) { CarveSplits(rgs, i, size, a); }
      CarveSplits(rgs, i, size, 0);
    } else {
      WrapBreaks(rgs, i, size);
    }
  }

  /** A request that wraps: size -1 on a one-page list is admitted, hands out a
      region that ends before it starts, and frees the byte below the list. */
  lemma NegativeSize()
    ensures var rgs := [Rg(4096, 8192)]; var size := Size64(-1); var rgs' := Taken(rgs, 0, size);
            && Admits(rgs[0], size) && Front(rgs[0], size) == Rg(4096, 4095)
            && !IsFree(rgs, 4095) && IsFree(rgs', 4095)
  {
    var rgs := [Rg(4096, 8192)];
    assert (4096 + Size64(-1)) % WORD == 4095;
    assert Covers(Taken(rgs, 0, Size64(-1))[0], 4095);
  }
}
