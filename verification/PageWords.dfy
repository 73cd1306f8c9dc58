/** Page-table words of kernel/mm/vmm.c: 64-bit numbers with the bit layout of 4-level paging. */
module PageWords {
  import opened Arith


  datatype Perm = Perm(writable: bool, user: bool, noExec: bool)

  predicate Present(e: nat) { e % 2 == 1 }

  predicate Large(e: nat) { e / 128 % 2 == 1 }

  /** entry & VMM_PHYS_MASK. */
  function Phys(e: nat): nat { e / 4096 % 0x100_0000_0000 * 4096 }

  /** The writable, user and no-execute bits, which stand at the same places in an entry and in a flags argument. */
  function PermOf(e: nat): Perm {
    Perm(e / 2 % 2 == 1, e / 4 % 2 == 1, e / 0x8000_0000_0000_0000 % 2 == 1)
  }

  function Bit(b: bool, w: nat): nat { if b then w else 0 }

  /** Bitwise or. */
  function Or(a: nat, b: nat): (r: nat)
    decreases a + b
  {
    if a == 0 then b
    else if b == 0 then a
    else 2 * Or(a / 2, b / 2) + if a % 2 == 1 || b % 2 == 1 then 1 else 0
  }

  /** The permission bits of an entry, without its address. */
  function PermBits(p: Perm): nat {
    Or(LowBits(p.writable, p.user), Bit(p.noExec, 0x8000_0000_0000_0000))
  }

  /** A present 4 KiB entry: (phys & VMM_PHYS_MASK) | flags. */
  function PageEntry(phys: nat, p: Perm): nat {
    Or(Phys(phys), PermBits(p))
  }

  /** The entry that links a table: (table & VMM_PHYS_MASK) | PRESENT | WRITABLE, with USER where a split keeps it. */
  function TableEntry(table: nat, user: bool): nat {
    Or(Phys(table), LowBits(true, user))
  }

  lemma {:induction false} OrAdds(a: nat, b: nat, k: nat)
    requires Aligned(a, k) && b < Pow2(k)
    ensures Or(a, b) == a + b && Or(b, a) == a + b
    decreases k
  {
    if k > 0 && a > 0 && b > 0 {
      OrAdds(a / 2, b / 2, k - 1);
    }
  }

  lemma {:induction false} OrAssoc(a: nat, b: nat, c: nat)
    ensures Or(a, Or(b, c)) == Or(Or(a, b), c)
    decreases a + b + c
  {
    if a > 0 && b > 0 && c > 0 {
      OrAssoc(a / 2, b / 2, c / 2);
      OrHalves(a, b);
      OrHalves(b, c);
    }
  }

  lemma {:induction false} OrHalves(a: nat, b: nat)
    requires a > 0 && b > 0
    ensures Or(a, b) > 0 && Or(a, b) / 2 == Or(a / 2, b / 2) && (Or(a, b) % 2 == 1 <==> a % 2 == 1 || b % 2 == 1)
  {
    if a / 2 > 0 && b / 2 > 0 {
      OrHalves(a / 2, b / 2);
    }
  }

  lemma {:induction false} PhysAligned(e: nat)
    ensures Phys(e) % 4096 == 0 && Aligned(Phys(e), 12) && Phys(e) < 0x10_0000_0000_0000
    ensures e % 4096 == 0 && e < 0x10_0000_0000_0000 ==> Phys(e) == e
  {
    AlignedIsMultiple(Phys(e), 12);
    assert Pow2(12) == 4096;
  }

  /** PRESENT | WRITABLE? | USER?. */
  function LowBits(w: bool, u: bool): nat {
    Or(Or(1, Bit(w, 2)), Bit(u, 4))
  }

  lemma {:induction false} LowBitsSum(w: bool, u: bool)
    ensures LowBits(w, u) == 1 + Bit(w, 2) + Bit(u, 4)
  {
    OrAdds(Bit(w, 2), 1, 1);
    OrAdds(Bit(u, 4), 1 + Bit(w, 2), 2);
  }

  lemma {:induction false} Pow2Product(a: nat, b: nat)
    ensures Pow2(a + b) == Pow2(a) * Pow2(b)
  {
    if a > 0 {
      Pow2Product(a - 1, b);
    }
  }

  lemma {:induction false} Pow2Aligned(k: nat)
    ensures Aligned(Pow2(k), k) && Aligned(0, k)
    decreases k
  {
    if k > 0 {
      Pow2Aligned(k - 1);
    }
  }

  lemma {:induction false} NxAligned(x: bool)
    ensures Pow2(63) == 0x8000_0000_0000_0000 && Aligned(Bit(x, 0x8000_0000_0000_0000), 63)
  {
    hide Aligned;
    assert Pow2(15) == 0x8000 && Pow2(16) == 0x1_0000;
    Pow2Product(16, 16);
    Pow2Product(32, 16);
    Pow2Product(48, 15);
    Pow2Aligned(63);
  }

  lemma {:induction false} EntrySum(phys: nat, w: bool, u: bool, x: bool)
    ensures PageEntry(phys, Perm(w, u, x)) == Phys(phys) + 1 + Bit(w, 2) + Bit(u, 4) + Bit(x, 0x8000_0000_0000_0000)
    ensures TableEntry(phys, u) == Phys(phys) + 3 + Bit(u, 4)
  {
    hide Phys, Or, Aligned;
    PhysAligned(phys);
    assert Pow2(12) == 4096;
    LowBitsSum(w, u);
    LowBitsSum(true, u);
    OrAdds(Phys(phys), LowBits(w, u), 12);
    OrAdds(Phys(phys), LowBits(true, u), 12);
    NxAligned(x);
    OrAdds(Bit(x, 0x8000_0000_0000_0000), Phys(phys) + LowBits(w, u), 63);
    OrAssoc(Phys(phys), LowBits(w, u), Bit(x, 0x8000_0000_0000_0000));
  }

  lemma {:induction false} SplitWord(f: nat, low: nat, x: nat)
    requires f < 0x100_0000_0000 && low < 8 && x <= 1
    ensures var e := f * 4096 + low + x * 0x8000_0000_0000_0000;
            e / 4096 % 0x100_0000_0000 == f && e / 0x8000_0000_0000_0000 % 2 == x && e / 128 % 2 == 0
            && e % 2 == low % 2 && e / 2 % 2 == low / 2 % 2 && e / 4 % 2 == low / 4
  {
    var e := f * 4096 + low + x * 0x8000_0000_0000_0000;
    SplitLow(f, low, x, e);
    SplitHigh(f, low, x, e);
  }

  lemma {:induction false} SplitLow(f: nat, low: nat, x: nat, e: nat)
    requires f < 0x100_0000_0000 && low < 8 && x <= 1 && e == f * 4096 + low + x * 0x8000_0000_0000_0000
    ensures e / 128 % 2 == 0 && e % 2 == low % 2 && e / 2 % 2 == low / 2 % 2 && e / 4 % 2 == low / 4
  {
    var g := f * 16 + x * 0x80_0000_0000_0000;
    var (a, b, c) := (low % 2, low / 2 % 2, low / 4);
    assert low == a + 2 * b + 4 * c;
    Quotient(128, 2 * g, low, e);
    Quotient(2, g, 0, 2 * g);
    Quotient(2, 128 * g + b + 2 * c, a, e);
    Quotient(2, 64 * g + c, b, 128 * g + b + 2 * c);
    Quotient(4, 64 * g + c, a + 2 * b, e);
    Quotient(2, 32 * g, c, 64 * g + c);
  }

  lemma {:induction false} SplitHigh(f: nat, low: nat, x: nat, e: nat)
    requires f < 0x100_0000_0000 && low < 8 && x <= 1 && e == f * 4096 + low + x * 0x8000_0000_0000_0000
    ensures e / 4096 % 0x100_0000_0000 == f && e / 0x8000_0000_0000_0000 % 2 == x
  {
    var h := f + x * 0x8_0000_0000_0000;
    Quotient(4096, h, low, e);
    Quotient(0x100_0000_0000, x * 0x800, f, h);
    Quotient(0x8000_0000_0000_0000, x, f * 4096 + low, e);
  }

  /** What was put into an entry is what is read back from it. */
  lemma {:induction false} EntryDecodes(phys: nat, p: Perm)
    ensures var e := PageEntry(phys, p);
            Present(e) && !Large(e) && Phys(e) == Phys(phys) && PermOf(e) == p
  {
    hide PageEntry, TableEntry;
    EntrySum(phys, p.writable, p.user, p.noExec);
    SplitWord(phys / 4096 % 0x100_0000_0000, 1 + Bit(p.writable, 2) + Bit(p.user, 4), Bit(p.noExec, 1));
  }

  lemma {:induction false} TableEntryDecodes(table: nat, user: bool)
    ensures var e := TableEntry(table, user);
            Present(e) && !Large(e) && Phys(e) == Phys(table) && PermOf(e) == Perm(true, user, false)
  {
    hide PageEntry, TableEntry;
    EntrySum(table, true, user, false);
    SplitWord(table / 4096 % 0x100_0000_0000, 3 + Bit(user, 4), 0);
  }
}
