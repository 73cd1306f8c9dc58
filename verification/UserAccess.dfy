/** uaccess_validate_range of kernel/mm/uaccess.c over the page-table walk. */
module UserAccess {
  import opened Options
  import opened PageWords
  import opened PageTables
  import opened VmProofs
  import opened KernelHeap
  import opened VirtualMemory

  const USER_MAX: nat := 0x7FFF_FFFF_FFFF

  /** The byte at b may be touched from user mode, and written if asked. */
  ghost predicate ByteAllowed(mem: Memory, root: nat, b: nat, write: bool) {
    root != 0 &&
    match Query(mem, root, b)
    case None => false
    case Some(m) => m.perm.user && (write ==> m.perm.writable)
  }

  ghost predicate BytesAllowed(mem: Memory, root: nat, lo: nat, hi: nat, write: bool) {
    forall b: nat {:trigger ByteAllowed(mem, root, b, write)} :: lo <= b < hi ==> ByteAllowed(mem, root, b, write)
  }

  /** All bytes of a page are allowed alike. */
  lemma {:induction false} PageAlike(mem: Memory, root: nat, a: nat, b: nat, write: bool)
    requires a / 4096 == b / 4096
    ensures ByteAllowed(mem, root, a, write) <==> ByteAllowed(mem, root, b, write)
  {
    hide SamePage;
    SamePageIff(a, b);
    SameIndexSamePerm(mem, root, a, b);
  }

  lemma {:induction false} SameIndexSamePerm(mem: Memory, root: nat, a: nat, b: nat)
    requires SamePage(a, b)
    ensures Query(mem, root, a) == None <==> Query(mem, root, b) == None
    ensures Query(mem, root, a) != None ==> Query(mem, root, a).value.perm == Query(mem, root, b).value.perm
  {
    hide Walk, PermOf, Or, Phys, IndexOf;
  }

  /** Accepts exactly the ranges that are empty, or start above address 0, end within the user half without wrapping,
      and whose every byte is mapped for the user, and writable when a write is asked for. */
  method ValidateRange(vmm: Vmm, addr: nat, size: nat, write: bool) returns (ok: bool)
    requires addr < 0x1_0000_0000_0000_0000 && size < 0x1_0000_0000_0000_0000
    ensures ok <==>
            (size == 0
             || (addr != 0 && addr + size - 1 <= 0x7FFF_FFFF_FFFF && BytesAllowed(vmm.mem, vmm.root, addr, addr + size, write)))
  {
    hide Query;
    if size == 0 {
      return true;
    }
    if addr == 0 || addr > USER_MAX {
      return false;
    }
    var end := (addr + size - 1) % 0x1_0000_0000_0000_0000;
    if end < addr || end > USER_MAX {
      return false;
    }
    var page := addr - addr % 4096;
    var last := end - end % 4096;
    ok := ValidatePages(vmm, addr, end, page, last, write);
  }

  /** The page loop. */
  method ValidatePages(vmm: Vmm, addr: nat, end: nat, first: nat, last: nat, write: bool) returns (ok: bool)
    requires addr <= end && first == addr - addr % 4096 && last == end - end % 4096
    ensures ok <==> BytesAllowed(vmm.mem, vmm.root, addr, end + 1, write)
  {
    hide Query;
    var page := first;
    while true
      invariant first <= page <= last && page % 4096 == 0
      invariant BytesAllowed(vmm.mem, vmm.root, addr, page, write)
      decreases last - page
    {
      var m := vmm.QueryMapping(page);
      assert ByteAllowed(vmm.mem, vmm.root, page, write) <==> m != None && m.value.perm.user && (write ==> m.value.perm.writable);
      PageDecides(vmm.mem, vmm.root, addr, end, page, write);
      if m == None {
        return false;
      }
      if !m.value.perm.user {
        return false;
      }
      if write && !m.value.perm.writable {
        return false;
      }
      if page == last {
        break;
      }
      page := page + 4096;
    }
    ok := true;
  }

  /** One page checked at its base settles all bytes of the range that lie in it. */
  lemma {:induction false} PageDecides(mem: Memory, root: nat, addr: nat, end: nat, page: nat, write: bool)
    requires addr <= end && page % 4096 == 0 && addr - addr % 4096 <= page <= end - end % 4096
    ensures ByteAllowed(mem, root, page, write) && BytesAllowed(mem, root, addr, page, write) ==>
      BytesAllowed(mem, root, addr, page + 4096, write)
    ensures !ByteAllowed(mem, root, page, write) ==> !BytesAllowed(mem, root, addr, end + 1, write)
  {
    hide ByteAllowed;
    forall b: nat | page <= b < page + 4096
      ensures ByteAllowed(mem, root, b, write) <==> ByteAllowed(mem, root, page, write)
    {
      PageAlike(mem, root, b, page, write);
    }
    var probe := if page < addr then addr else page;
    assert ByteAllowed(mem, root, probe, write) <==> ByteAllowed(mem, root, page, write);
  }
}
