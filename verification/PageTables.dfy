/** The page-table tree in physical memory and the software walks of kernel/mm/vmm.c over it. */
module PageTables {
  import opened Options
  import opened Arith
  import opened PageWords

  type Memory = map<nat, seq<nat>>

  /** table[i] for the table in the frame at address f. */
  function Word(mem: Memory, f: nat, i: nat): nat {
    if f in mem && i < |mem[f]| then mem[f][i] else 0
  }

  predicate Table(mem: Memory, f: nat) {
    f in mem && |mem[f]| == 512
  }

  /** table[i] = w; only initialised tables are written. */
  function Put(mem: Memory, f: nat, i: nat, w: nat): Memory {
    if Table(mem, f) && i < 512 then
      var t: seq<nat> := mem[f][i := w];
      mem[f := t]
    else mem
  }

  datatype Index = Index(l4: nat, l3: nat, l2: nat, l1: nat)

  /** The four table indices of a virtual address: bits 12..47, nine at a time. */
  function IndexOf(v: nat): Index {
    Index(v / 0x80_0000_0000 % 512, v / 0x4000_0000 % 512, v / 0x20_0000 % 512, v / 4096 % 512)
  }

  predicate Indices(x: Index) {
    x.l4 < 512 && x.l3 < 512 && x.l2 < 512 && x.l1 < 512
  }

  /** The entry a walk ends at: none, or a 4 KiB, 2 MiB or 1 GiB entry. */
  datatype Leaf = NoLeaf | Small(e: nat) | Mid(e: nat) | Giant(e: nat)

  /** The walk of vmm_translate and vmm_query_mapping. */
  function Walk(mem: Memory, root: nat, x: Index): Leaf {
    var e4 := Word(mem, root, x.l4);
    if !Present(e4) then NoLeaf
    else
      var e3 := Word(mem, Phys(e4), x.l3);
      if !Present(e3) then NoLeaf
      else if Large(e3) then Giant(e3)
      else
        var e2 := Word(mem, Phys(e3), x.l2);
        if !Present(e2) then NoLeaf
        else if Large(e2) then Mid(e2)
        else
          var e1 := Word(mem, Phys(e2), x.l1);
          if Present(e1) then Small(e1) else NoLeaf
  }

  datatype Mapping = Mapping(phys: nat, perm: Perm)

  /** The physical address and permissions a leaf gives to virtual address v. */
  function Meaning(l: Leaf, v: nat): Option<Mapping> {
    match l
    case NoLeaf => None
    case Small(e) => Some(Mapping(Or(Phys(e), v % 4096), PermOf(e)))
    case Mid(e) => Some(Mapping(Or(Phys(e), v % 0x20_0000), PermOf(e)))
    case Giant(e) => Some(Mapping(Or(Phys(e), v % 0x4000_0000), PermOf(e)))
  }

  function Query(mem: Memory, root: nat, v: nat): Option<Mapping> {
    Meaning(Walk(mem, root, IndexOf(v)), v)
  }

  function Translate(mem: Memory, root: nat, v: nat): Option<nat> {
    match Query(mem, root, v)
    case None => None
    case Some(m) => Some(m.phys)
  }

  // ---- the tree of tables

  /** A position in the tree of tables: the root, or entry index of the table above. */
  datatype Path = Root | Down(up: Path, index: nat)

  function Depth(p: Path): nat {
    match p
    case Root => 0
    case Down(q, _) => 1 + Depth(q)
  }

  predicate IsPath(p: Path) {
    match p
    case Root => true
    case Down(q, i) => i < 512 && IsPath(q) && Depth(q) < 3
  }

  /** The frame of the table at p, if every entry on the way is present and links a table. */
  function NodeAt(mem: Memory, root: nat, p: Path): Option<nat> {
    match p
    case Root => Some(root)
    case Down(q, i) =>
      match NodeAt(mem, root, q)
      case None => None
      case Some(f) =>
        var e := Word(mem, f, i);
        if Present(e) && (q == Root || !Large(e)) then Some(Phys(e)) else None
  }

  ghost predicate Is(mem: Memory, root: nat, p: Path, f: nat) {
    IsPath(p) && NodeAt(mem, root, p) == Some(f)
  }

  /** Every table is initialised memory and is referenced by exactly one entry. */
  ghost predicate Tree(mem: Memory, root: nat) {
    && (forall p, f {:trigger Is(mem, root, p, f)} :: Is(mem, root, p, f) ==> Table(mem, f))
    && (forall p, q, f {:trigger Is(mem, root, p, f), Is(mem, root, q, f)} ::
          Is(mem, root, p, f) && Is(mem, root, q, f) ==> p == q)
  }

  ghost predicate IsNode(mem: Memory, root: nat, f: nat) {
    exists p :: Is(mem, root, p, f)
  }

  // ---- the walk through the tree

  function P1(x: Index): Path { Down(Root, x.l4) }
  function P2(x: Index): Path { Down(P1(x), x.l3) }
  function P3(x: Index): Path { Down(P2(x), x.l2) }

  lemma {:induction false} PrefixPaths(x: Index)
    requires Indices(x)
    ensures IsPath(P1(x)) && IsPath(P2(x)) && IsPath(P3(x))
    ensures Depth(P1(x)) == 1 && Depth(P2(x)) == 2 && Depth(P3(x)) == 3
  {
    assert IsPath(Root) && Depth(Root) == 0;
    assert IsPath(P1(x)) && Depth(P1(x)) == 1;
    assert IsPath(P2(x)) && Depth(P2(x)) == 2;
  }

  /** The leaf a walk reaches, said through the tables at its three prefixes. */
  function LeafVia(mem: Memory, root: nat, x: Index): Leaf {
    match NodeAt(mem, root, P3(x))
    case Some(f1) => if Present(Word(mem, f1, x.l1)) then Small(Word(mem, f1, x.l1)) else NoLeaf
    case None =>
      match NodeAt(mem, root, P2(x))
      case Some(f2) => if Present(Word(mem, f2, x.l2)) then Mid(Word(mem, f2, x.l2)) else NoLeaf
      case None =>
        match NodeAt(mem, root, P1(x))
        case Some(f3) => if Present(Word(mem, f3, x.l3)) then Giant(Word(mem, f3, x.l3)) else NoLeaf
        case None => NoLeaf
  }

  lemma {:induction false} WalkIsLeafVia(mem: Memory, root: nat, x: Index)
    ensures Walk(mem, root, x) == LeafVia(mem, root, x)
  {
    hide Present, Large, Phys, Word;
    assert NodeAt(mem, root, Root) == Some(root);
    var n1 := NodeAt(mem, root, P1(x));
    var n2 := NodeAt(mem, root, P2(x));
    assert n1 == if Present(Word(mem, root, x.l4)) then Some(Phys(Word(mem, root, x.l4))) else None;
  }

  // ---- writes

  /** q goes through entry i of the table at p. */
  predicate Through(q: Path, p: Path, i: nat) {
    match q
    case Root => false
    case Down(r, j) => (r == p && j == i) || Through(r, p, i)
  }

  /** Writing one entry of a table leaves every node whose path avoids that entry. */
  lemma {:induction false} WriteAvoids(mem: Memory, root: nat, p: Path, f: nat, i: nat, w: nat, q: Path)
    requires Tree(mem, root) && Is(mem, root, p, f) && i < 512 && Table(mem, f) && IsPath(q) && !Through(q, p, i)
    ensures NodeAt(Put(mem, f, i, w), root, q) == NodeAt(mem, root, q)
  {
    hide Present, Large, Phys;
    match q
    case Root =>
    case Down(r, j) =>
      WriteAvoids(mem, root, p, f, i, w, r);
      var n := NodeAt(mem, root, r);
      if n != None && n.value == f {
        assert Is(mem, root, r, f);
      }
  }

  /** Writing memory that is not a table changes no node. */
  lemma {:induction false} WriteOutside(mem: Memory, root: nat, g: nat, t: seq<nat>, q: Path)
    requires !IsNode(mem, root, g) && IsPath(q)
    ensures NodeAt(mem[g := t], root, q) == NodeAt(mem, root, q)
  {
    hide Present, Large, Phys;
    match q
    case Root =>
    case Down(r, j) =>
      WriteOutside(mem, root, g, t, r);
      var n := NodeAt(mem, root, r);
      if n != None {
        assert Is(mem, root, r, n.value);
      }
  }

  /** mem with the table t placed in frame a and linked from entry i of the table at f. */
  function Linked(mem: Memory, f: nat, i: nat, a: nat, t: seq<nat>, w: nat): Memory
  {
    Put(mem[a := t], f, i, w)
  }

  /** Frame a, so far no table, can be linked with word w from entry i of the table f at p, which links nothing yet. */
  ghost predicate Linkable(mem: Memory, root: nat, p: Path, f: nat, i: nat, a: nat, t: seq<nat>, w: nat) {
    && Tree(mem, root) && Is(mem, root, p, f) && Depth(p) < 3 && i < 512
    && NodeAt(mem, root, Down(p, i)) == None
    && !IsNode(mem, root, a) && |t| == 512
    && Present(w) && !Large(w) && Phys(w) == a
    && (Depth(p) == 2 || forall j :: 0 <= j < 512 ==> !Present(t[j]))
  }

  /** Linking a table adds that one node and moves no other. */
  lemma {:induction false} LinkNodes(mem: Memory, root: nat, p: Path, f: nat, i: nat, a: nat, t: seq<nat>, w: nat, q: Path)
    requires Linkable(mem, root, p, f, i, a, t, w) && IsPath(q)
    ensures NodeAt(Linked(mem, f, i, a, t, w), root, q) == if q == Down(p, i) then Some(a) else NodeAt(mem, root, q)
  {
    hide Present, Large, Phys;
    assert Table(mem, f) && f != a;
    match q
    case Root =>
    case Down(r, j) =>
      LinkNodes(mem, root, p, f, i, a, t, w, r);
      var n := NodeAt(mem, root, r);
      if r != Down(p, i) && n != None {
        assert Is(mem, root, r, n.value);
      }
  }

  lemma {:induction false} LinkTree(mem: Memory, root: nat, p: Path, f: nat, i: nat, a: nat, t: seq<nat>, w: nat)
    requires Linkable(mem, root, p, f, i, a, t, w)
    ensures Tree(Linked(mem, f, i, a, t, w), root)
    ensures forall g :: IsNode(Linked(mem, f, i, a, t, w), root, g) <==> IsNode(mem, root, g) || g == a
  {
    hide Present, Large, Phys, NodeAt;
    assert Table(mem, f) && f != a;
    var m := Linked(mem, f, i, a, t, w);
    forall q, g
      ensures Is(m, root, q, g) <==> Is(mem, root, q, g) || (q == Down(p, i) && g == a)
    {
      if IsPath(q) {
        LinkNodes(mem, root, p, f, i, a, t, w, q);
      }
    }
    forall q, g | Is(m, root, q, g)
      ensures Table(m, g)
    {
      assert Is(mem, root, q, g) ==> Table(mem, g);
    }
    assert Is(m, root, Down(p, i), a);
    forall g
      ensures IsNode(m, root, g) <==> IsNode(mem, root, g) || g == a
    {
      if IsNode(mem, root, g) {
        var q :| Is(mem, root, q, g);
        assert Is(m, root, q, g);
      }
    }
  }

  /** Linking a fresh empty table where nothing was present changes no walk. */
  lemma {:induction false} LinkEmptyWalks(mem: Memory, root: nat, p: Path, f: nat, i: nat, a: nat, t: seq<nat>, w: nat, x: Index)
    requires Linkable(mem, root, p, f, i, a, t, w) && Indices(x)
    requires !Present(Word(mem, f, i)) && forall j :: 0 <= j < 512 ==> !Present(t[j])
    ensures Walk(Linked(mem, f, i, a, t, w), root, x) == Walk(mem, root, x)
  {
    hide Present, Large, Phys, NodeAt;
    assert Table(mem, f) && f != a;
    var m := Linked(mem, f, i, a, t, w);
    WalkIsLeafVia(mem, root, x);
    WalkIsLeafVia(m, root, x);
    PrefixPaths(x);
    LinkNodes(mem, root, p, f, i, a, t, w, P1(x));
    LinkNodes(mem, root, p, f, i, a, t, w, P2(x));
    LinkNodes(mem, root, p, f, i, a, t, w, P3(x));
    SameLeafWords(mem, root, p, f, x);
    NoneBelow(mem, root, x);
    NeverNode(mem, root, a, x);
  }

  lemma {:induction false} NeverNode(mem: Memory, root: nat, a: nat, x: Index)
    requires !IsNode(mem, root, a) && Indices(x)
    ensures NodeAt(mem, root, P1(x)) != Some(a) && NodeAt(mem, root, P2(x)) != Some(a) && NodeAt(mem, root, P3(x)) != Some(a)
  {
    hide NodeAt;
    PrefixPaths(x);
    assert !Is(mem, root, P1(x), a) && !Is(mem, root, P2(x), a) && !Is(mem, root, P3(x), a);
  }

  /** The table reached at each prefix of a walk is that prefix's own. */
  lemma {:induction false} SameLeafWords(mem: Memory, root: nat, p: Path, f: nat, x: Index)
    requires Tree(mem, root) && Is(mem, root, p, f) && Indices(x)
    ensures NodeAt(mem, root, P1(x)) == Some(f) <==> p == P1(x)
    ensures NodeAt(mem, root, P2(x)) == Some(f) <==> p == P2(x)
    ensures NodeAt(mem, root, P3(x)) == Some(f) <==> p == P3(x)
  {
    hide NodeAt;
    PrefixPaths(x);
    assert Is(mem, root, P1(x), f) <==> NodeAt(mem, root, P1(x)) == Some(f);
    assert Is(mem, root, P2(x), f) <==> NodeAt(mem, root, P2(x)) == Some(f);
    assert Is(mem, root, P3(x), f) <==> NodeAt(mem, root, P3(x)) == Some(f);
  }

  lemma {:induction false} NoneBelow(mem: Memory, root: nat, x: Index)
    ensures NodeAt(mem, root, P1(x)) == None ==> NodeAt(mem, root, P2(x)) == None
    ensures NodeAt(mem, root, P2(x)) == None ==> NodeAt(mem, root, P3(x)) == None
  {
    hide Present, Large, Phys, Word;
  }

  // ---- splitting a 2 MiB entry

  /** pde & VMM_HUGE2M_BASE_MASK. */
  function HugeBase(e: nat): nat { Phys(e) / 0x20_0000 * 0x20_0000 }

  function SplitChild(e: nat, j: nat): nat {
    PageEntry(HugeBase(e) + j * 4096, PermOf(e))
  }

  function SplitTable(e: nat): seq<nat> {
    seq(512, j requires 0 <= j < 512 => SplitChild(e, j))
  }

  lemma {:induction false} SplitChildDecodes(e: nat, j: nat)
    requires j < 512
    ensures Present(SplitChild(e, j)) && PermOf(SplitChild(e, j)) == PermOf(e)
    ensures Phys(SplitChild(e, j)) == HugeBase(e) + j * 4096
  {
    hide Present, Large, PermOf, PageEntry;
    EntryDecodes(HugeBase(e) + j * 4096, PermOf(e));
    PhysAligned(HugeBase(e) + j * 4096);
    BaseFits(e, j);
  }

  lemma {:induction false} BaseFits(e: nat, j: nat)
    requires j < 512
    ensures (HugeBase(e) + j * 4096) % 4096 == 0 && HugeBase(e) + j * 4096 < 0x10_0000_0000_0000
  {
    PhysAligned(e);
    var b := Phys(e) / 0x20_0000;
    Quotient(4096, b * 512 + j, 0, b * 0x20_0000 + j * 4096);
  }

  lemma {:induction false} SmallMeaning(e: nat, v: nat)
    ensures Or(Phys(e), v % 4096) == Phys(e) + v % 4096
  {
    hide Phys, Or, Aligned;
    PhysAligned(e);
    assert Pow2(12) == 4096;
    OrAdds(Phys(e), v % 4096, 12);
  }

  lemma {:induction false} MidMeaning(e: nat, v: nat)
    requires Phys(e) % 0x20_0000 == 0
    ensures Or(Phys(e), v % 0x20_0000) == Phys(e) + v % 0x20_0000
  {
    hide Phys, Or, Aligned;
    Pow2Product(12, 9);
    assert Pow2(12) == 4096 && Pow2(9) == 512;
    AlignedIsMultiple(Phys(e), 21);
    OrAdds(Phys(e), v % 0x20_0000, 21);
  }

  lemma {:induction false} OffsetDigits(v: nat)
    ensures v % 0x20_0000 == v / 4096 % 512 * 4096 + v % 4096
  {
    var q := v / 4096;
    var h := q / 512;
    Quotient(0x20_0000, h, q % 512 * 4096 + v % 4096, v);
  }

  /** For an aligned 2 MiB entry every address reads the same through the split table. */
  lemma {:induction false} SplitMeans(e: nat, v: nat)
    requires Phys(e) % 0x20_0000 == 0
    ensures Meaning(Small(SplitTable(e)[IndexOf(v).l1]), v) == Meaning(Mid(e), v)
  {
    hide Present, Large, Phys, PermOf, Or, SplitChild;
    var j := IndexOf(v).l1;
    SplitChildDecodes(e, j);
    SmallMeaning(SplitChild(e, j), v);
    MidMeaning(e, v);
    OffsetDigits(v);
  }

  /** Splitting preserves the meaning of every address exactly when bits 12..20 of the entry are zero. */
  lemma {:induction false} SplitExact(e: nat)
    ensures (forall v: nat :: Meaning(Small(SplitTable(e)[IndexOf(v).l1]), v) == Meaning(Mid(e), v))
            <==> Phys(e) % 0x20_0000 == 0
  {
    if Phys(e) % 0x20_0000 == 0 {
      forall v: nat
        ensures Meaning(Small(SplitTable(e)[IndexOf(v).l1]), v) == Meaning(Mid(e), v)
      {
        SplitMeans(e, v);
      }
    } else {
      SplitMoves(e);
    }
  }

  /** With any of bits 12..20 set, address 0 of the page already reads differently. */
  lemma {:induction false} SplitMoves(e: nat)
    requires Phys(e) % 0x20_0000 != 0
    ensures Meaning(Small(SplitTable(e)[IndexOf(0).l1]), 0) != Meaning(Mid(e), 0)
  {
    hide Present, Large, Phys, PermOf, SplitChild;
    SplitChildDecodes(e, 0);
    SmallMeaning(SplitChild(e, 0), 0);
  }

  /** After a split the walks through the entry end at the children; all other walks are unchanged. */
  lemma {:induction false} SplitWalks(mem: Memory, root: nat, p: Path, f: nat, i: nat, a: nat, t: seq<nat>, w: nat, x: Index)
    requires Linkable(mem, root, p, f, i, a, t, w) && Indices(x) && Depth(p) == 2
    requires Present(Word(mem, f, i)) && Large(Word(mem, f, i)) && forall j :: 0 <= j < 512 ==> Present(t[j])
    ensures P2(x) == p && x.l2 == i ==> Walk(mem, root, x) == Mid(Word(mem, f, i))
    ensures Walk(Linked(mem, f, i, a, t, w), root, x)
         == if P2(x) == p && x.l2 == i then Small(t[x.l1]) else Walk(mem, root, x)
  {
    hide Present, Large, Phys, NodeAt;
    assert Table(mem, f) && f != a;
    var m := Linked(mem, f, i, a, t, w);
    WalkIsLeafVia(mem, root, x);
    WalkIsLeafVia(m, root, x);
    PrefixPaths(x);
    LinkNodes(mem, root, p, f, i, a, t, w, P1(x));
    LinkNodes(mem, root, p, f, i, a, t, w, P2(x));
    LinkNodes(mem, root, p, f, i, a, t, w, P3(x));
    SameLeafWords(mem, root, p, f, x);
    NeverNode(mem, root, a, x);
  }

  // ---- writing a 4 KiB entry

  lemma {:induction false} DeepEnough(q: Path, p: Path, i: nat)
    requires IsPath(q) && Depth(p) == 3
    ensures !Through(q, p, i)
  {
    match q
    case Root =>
    case Down(r, j) => DeepEnough(r, p, i);
  }

  /** A write to a lowest-level table moves no table and changes only the walk through that entry. */
  lemma {:induction false} LeafWriteWalks(mem: Memory, root: nat, p: Path, f: nat, i: nat, w: nat, x: Index)
    requires Tree(mem, root) && Is(mem, root, p, f) && Depth(p) == 3 && i < 512 && Indices(x) && Table(mem, f)
    ensures Walk(Put(mem, f, i, w), root, x)
         == if P3(x) == p && x.l1 == i then (if Present(w) then Small(w) else NoLeaf) else Walk(mem, root, x)
    ensures P3(x) == p ==> Walk(mem, root, x) == if Present(Word(mem, f, x.l1)) then Small(Word(mem, f, x.l1)) else NoLeaf
  {
    hide Present, Large, Phys, NodeAt;
    var m := Put(mem, f, i, w);
    WalkIsLeafVia(mem, root, x);
    WalkIsLeafVia(m, root, x);
    PrefixPaths(x);
    DeepEnough(P1(x), p, i);
    DeepEnough(P2(x), p, i);
    DeepEnough(P3(x), p, i);
    WriteAvoids(mem, root, p, f, i, w, P1(x));
    WriteAvoids(mem, root, p, f, i, w, P2(x));
    WriteAvoids(mem, root, p, f, i, w, P3(x));
    SameLeafWords(mem, root, p, f, x);
  }

  lemma {:induction false} LeafWriteTree(mem: Memory, root: nat, p: Path, f: nat, i: nat, w: nat)
    requires Tree(mem, root) && Is(mem, root, p, f) && Depth(p) == 3 && i < 512 && Table(mem, f)
    ensures Tree(Put(mem, f, i, w), root)
    ensures forall q, g :: Is(Put(mem, f, i, w), root, q, g) <==> Is(mem, root, q, g)
    ensures forall g :: IsNode(Put(mem, f, i, w), root, g) <==> IsNode(mem, root, g)
  {
    hide Present, Large, Phys, NodeAt;
    var m := Put(mem, f, i, w);
    forall q, g
      ensures Is(m, root, q, g) <==> Is(mem, root, q, g)
    {
      if IsPath(q) {
        DeepEnough(q, p, i);
        WriteAvoids(mem, root, p, f, i, w, q);
      }
    }
  }

  /** What a walk reads, level by level from the bits of the address: the frame of a 4 KiB, an aligned 2 MiB or an aligned
      1 GiB entry, plus the offset into it. */
  lemma {:induction false} QueryReads(mem: Memory, root: nat, v: nat, e4: nat, e3: nat, e2: nat, e1: nat)
    requires e4 == Word(mem, root, v / 0x80_0000_0000 % 512) && Present(e4)
    requires e3 == Word(mem, Phys(e4), v / 0x4000_0000 % 512)
    requires e2 == Word(mem, Phys(e3), v / 0x20_0000 % 512)
    requires e1 == Word(mem, Phys(e2), v / 0x1000 % 512)
    ensures Present(e3) && Large(e3) && Phys(e3) % 0x4000_0000 == 0 ==>
              Query(mem, root, v) == Some(Mapping(Phys(e3) + v % 0x4000_0000, PermOf(e3)))
    ensures Present(e3) && !Large(e3) && Present(e2) && Large(e2) && Phys(e2) % 0x20_0000 == 0 ==>
              Query(mem, root, v) == Some(Mapping(Phys(e2) + v % 0x20_0000, PermOf(e2)))
    ensures Present(e3) && !Large(e3) && Present(e2) && !Large(e2) && Present(e1) ==>
              Query(mem, root, v) == Some(Mapping(Phys(e1) + v % 0x1000, PermOf(e1)))
    ensures !Present(e3) || (!Large(e3) && (!Present(e2) || (!Large(e2) && !Present(e1)))) ==> Query(mem, root, v) == None
  {
    hide Present, Large, Phys, PermOf, Or, Word;
    if Phys(e3) % 0x4000_0000 == 0 {
      GiantMeaning(e3, v);
    }
    if Phys(e2) % 0x20_0000 == 0 {
      MidMeaning(e2, v);
    }
    SmallMeaning(e1, v);
  }

  lemma {:induction false} GiantMeaning(e: nat, v: nat)
    requires Phys(e) % 0x4000_0000 == 0
    ensures Or(Phys(e), v % 0x4000_0000) == Phys(e) + v % 0x4000_0000
  {
    hide Phys, Or, Aligned;
    Pow2Product(15, 15);
    assert Pow2(15) == 0x8000;
    AlignedIsMultiple(Phys(e), 30);
    OrAdds(Phys(e), v % 0x4000_0000, 30);
  }
}
