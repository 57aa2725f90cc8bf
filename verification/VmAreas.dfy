/** The list of memory areas of a process (src/mm-vm.c:26-41). */
module VmAreas {
  import opened Regions

  /** vm_area_struct as a list node. */
  class VmArea {
    var next: VmArea?

    constructor ()
      ensures next == null
    {
      next := null;
    }
  }

  /** Area i of the chain, or the NULL past its end. */
  ghost function AreaAt(areas: seq<VmArea>, i: nat): VmArea? { if i < |areas| then areas[i] else null }

  /** mmap: each area linked to the next and the last to NULL. */
  ghost predicate Linked(areas: seq<VmArea>)
    reads areas
  {
    forall i :: 0 <= i < |areas| ==> areas[i].next == AreaAt(areas, i + 1)
  }

  /** get_vma_by_num: the area with that position in the list, NULL past the end,
      and the first one for a negative number. */
  method GetVmaByNum(mmap: VmArea?, vmaid: int, ghost areas: seq<VmArea>) returns (pvma: VmArea?)
    requires Linked(areas) && mmap == AreaAt(areas, 0)
    ensures pvma == AreaAt(areas, if vmaid < 0 then 0 else vmaid)
  {
    if mmap == null { return null; }
    pvma := mmap;
    var vmait := 0;
    while pvma != null && vmait < vmaid
      invariant 0 <= vmait <= |areas| && pvma == AreaAt(areas, vmait)
      invariant vmait <= if vmaid < 0 then 0 else vmaid
      decreases |areas| - vmait
    {
      pvma := pvma.next;
      vmait := vmait + 1;
    }
  }

  /** With the one area that init_mm makes, a lookup finds it exactly for the
      numbers up to 0: what __alloc and inc_vma_limit ask. */
  lemma OnlyArea(areas: seq<VmArea>, vmaid: int)
    requires |areas| == 1
    ensures AreaAt(areas, if vmaid < 0 then 0 else vmaid) != null <==> HasVma(vmaid)
  {
  }
}
