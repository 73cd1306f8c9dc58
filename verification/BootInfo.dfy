/** The Multiboot2 boot information that boot/efi/x86_64/uefi_stub.c writes and kernel/arch/x86_64/boot/multiboot2.c
    reads: the bytes, the two walks over them, and the region the scan picks. */
module BootInfo {
  import opened Options
  import opened Words
  import opened BootBytes

  /** The fields of an EFI memory descriptor that the stub uses. */
  datatype Descriptor = Descriptor(kind: U32, start: U64, pages: U64)

  datatype Screen = Screen(
    address: U64, pitch: U32, width: U32, height: U32, bpp: Byte,
    redPosition: Byte, redSize: Byte, greenPosition: Byte, greenSize: Byte, bluePosition: Byte, blueSize: Byte)

  // ---- What the stub reads

  lemma {:induction false} Read4(mem: Memory, a: nat)
    ensures Read(mem, a, 4) < 0x1_0000_0000
  {
    assert Read(mem, a + 3, 1) < 256;
    assert Read(mem, a + 2, 2) < 0x1_0000;
    assert Read(mem, a + 1, 3) < 0x100_0000;
  }

  lemma {:induction false} Read8(mem: Memory, a: nat)
    ensures Read(mem, a, 8) < 0x1_0000_0000_0000_0000
  {
    Read4(mem, a + 4);
    assert Read(mem, a + 3, 5) < 0x100_0000_0000;
    assert Read(mem, a + 2, 6) < 0x1_0000_0000_0000;
    assert Read(mem, a + 1, 7) < 0x100_0000_0000_0000;
  }

  /** The descriptor at address a: type, start and page count, 0, 8 and 24 bytes into it. */
  function DescriptorAt(mem: Memory, a: nat): Descriptor {
    Read4(mem, a);
    Read8(mem, a + 8);
    Read8(mem, a + 24);
    Descriptor(Read(mem, a, 4), Read(mem, a + 8, 8), Read(mem, a + 24, 8))
  }

  /** n descriptors at the firmware's stride, which may exceed the size of the fields known here. */
  function Descriptors(mem: Memory, base: nat, stride: nat, n: nat): (ds: seq<Descriptor>)
    ensures |ds| == n && forall i {:trigger ds[i]} :: 0 <= i < n ==> ds[i] == DescriptorAt(mem, base + i * stride)
  {
    seq(n, i requires 0 <= i < n => DescriptorAt(mem, base + i * stride))
  }

  /** The memory map that the firmware left: none for a null pointer or a zero stride. */
  function MemoryMap(mem: Memory, base: nat, size: nat, stride: nat): Option<seq<Descriptor>> {
    if base == 0 || stride == 0 then None else Some(Descriptors(mem, base, stride, size / stride))
  }

  // ---- What the stub writes

  function RegionType(kind: U32): U32 {
    if kind in {1, 2, 3, 4, 7} then 1
    else if kind == 9 then 3
    else if kind == 10 then 4
    else if kind == 8 then 5
    else 2
  }

  function Length(d: Descriptor): U64 {
    d.pages * 4096 % 0x1_0000_0000_0000_0000
  }

  predicate Available(d: Descriptor) {
    RegionType(d.kind) == 1
  }

  function Entry(d: Descriptor): (s: seq<Byte>)
    ensures |s| == 24
  {
    Bytes(d.start, 8) + (Bytes(Length(d), 8) + (Bytes(RegionType(d.kind), 4) + Bytes(0, 4)))
  }

  function Entries(ds: seq<Descriptor>): (s: seq<Byte>)
    ensures |s| == 24 * |ds|
  {
    if ds == [] then [] else Entry(ds[0]) + Entries(ds[1..])
  }

  function MmapHead(n: nat): (s: seq<Byte>)
    ensures |s| == 16
  {
    Bytes(6, 4) + (Bytes(16 + 24 * n, 4) + (Bytes(24, 4) + Bytes(0, 4)))
  }

  /** The framebuffer tag of 38 bytes. */
  function ScreenTag(f: Screen): (s: seq<Byte>)
    ensures |s| == 38
  {
    Bytes(8, 4) + (Bytes(38, 4) + (Bytes(f.address, 8) + (Bytes(f.pitch, 4) + (Bytes(f.width, 4) + (Bytes(f.height, 4)
    + (Bytes(f.bpp, 1) + (Bytes(1, 1) + (Bytes(0, 2) + ColorFields(f)))))))))
  }

  function ColorFields(f: Screen): (s: seq<Byte>)
    ensures |s| == 6
  {
    Bytes(f.redPosition, 1) + (Bytes(f.redSize, 1) + (Bytes(f.greenPosition, 1) + (Bytes(f.greenSize, 1)
    + (Bytes(f.bluePosition, 1) + Bytes(f.blueSize, 1)))))
  }

  /** The tag with the padding up to the next multiple of 8. */
  function ScreenPart(screen: Option<Screen>): (s: seq<Byte>)
    ensures |s| == if screen.Some? then 40 else 0
  {
    if screen.None? then [] else ScreenTag(screen.value) + Bytes(0, 2)
  }

  function EndTag(): (s: seq<Byte>)
    ensures |s| == 8
  {
    Bytes(0, 4) + Bytes(8, 4)
  }

  function TotalSize(n: nat, screen: Option<Screen>): nat {
    8 + (16 + 24 * n) + (if screen.Some? then 40 else 0) + 8
  }

  function Image(ds: seq<Descriptor>, screen: Option<Screen>): (s: seq<Byte>)
    ensures |s| == TotalSize(|ds|, screen)
  {
    (Bytes(TotalSize(|ds|, screen), 4) + Bytes(0, 4)) + (MmapHead(|ds|) + (Entries(ds) + (ScreenPart(screen) + EndTag())))
  }

  /** The stub's status: 6 without a memory map, 7 for an empty one, 8 when the result does not fit, else 0. */
  function BuildStatus(ds: Option<seq<Descriptor>>, screen: Option<Screen>, capacity: nat): nat {
    if ds.None? then 6
    else if ds.value == [] then 7
    else if 16 + 24 * |ds.value| > 0xFFFF_FFFF then 8
    else if TotalSize(|ds.value|, screen) > 0xFFFF_FFFF || TotalSize(|ds.value|, screen) > capacity then 8
    else 0
  }

  // ---- What the kernel reads

  /** Spins stands for a walk that makes no progress and never ends. */
  datatype Outcome<T> = Found(value: T) | Missing | Spins

  /** 32-bit rounding up to a multiple of 8. */
  function Align8(v: U32): U32 {
    (v + 7) % 0x1_0000_0000 / 8 * 8
  }

  datatype Region = Region(base: nat, size: nat)

  function Better(mem: Memory, p: nat, best: Region): Region {
    if Read(mem, p + 16, 4) == 1 && Read(mem, p + 8, 8) > best.size then Region(Read(mem, p, 8), Read(mem, p + 8, 8))
    else best
  }

  function Scan(mem: Memory, p: nat, stop: nat, stride: nat, best: Region): Region
    requires stride > 0
    decreases stop + stride - p
  {
    if p + stride > stop then best else Scan(mem, p + stride, stop, stride, Better(mem, p, best))
  }

  function TagType(mem: Memory, cursor: nat): nat { Read(mem, cursor, 4) }

  /** The tag's size field. */
  function TagSize(mem: Memory, cursor: nat): (n: U32) {
    Read4(mem, cursor + 4);
    Read(mem, cursor + 4, 4)
  }

  predicate HasEntries(mem: Memory, cursor: nat) {
    TagType(mem, cursor) == 6 && TagSize(mem, cursor) >= 16
  }

  function AfterTag(mem: Memory, cursor: nat, best: Region): Region {
    var stride := Read(mem, cursor + 8, 4);
    if HasEntries(mem, cursor) && stride > 0 then Scan(mem, cursor + 16, cursor + TagSize(mem, cursor), stride, best) else best
  }

  function Best(best: Region): Outcome<Region> {
    if best.size == 0 then Missing else Found(best)
  }

  function WalkRegions(mem: Memory, cursor: nat, end: nat, best: Region): Outcome<Region>
    decreases end + 8 - cursor
  {
    if cursor + 8 > end then Best(best)
    else if TagSize(mem, cursor) < 8 then Missing
    else
      var next := cursor + Align8(TagSize(mem, cursor));
      if next > end then Missing
      else if TagType(mem, cursor) == 0 then Best(best)
      else if HasEntries(mem, cursor) && Read(mem, cursor + 8, 4) < 24 then Missing
      else if next == cursor then Spins
      else WalkRegions(mem, next, end, AfterTag(mem, cursor, best))
  }

  /** multiboot2_find_largest_available_region. */
  function FindRegion(mem: Memory, info: nat): Outcome<Region> {
    if info == 0 || Read(mem, info, 4) < 8 then Missing
    else WalkRegions(mem, info + 8, info + Read(mem, info, 4), Region(0, 0))
  }

  /** What the kernel learns about the screen: its fields and the framebuffer type. */
  datatype Framebuffer = Framebuffer(
    address: nat, pitch: nat, width: nat, height: nat, bpp: nat, kind: nat, colors: seq<nat>)

  function ReadColors(mem: Memory, a: nat): seq<nat> {
    [Read(mem, a, 1), Read(mem, a + 1, 1), Read(mem, a + 2, 1), Read(mem, a + 3, 1), Read(mem, a + 4, 1), Read(mem, a + 5, 1)]
  }

  function ReadFramebuffer(mem: Memory, c: nat): Outcome<Framebuffer> {
    var kind := Read(mem, c + 29, 1);
    if kind == 1 && TagSize(mem, c) < 38 then Missing
    else Found(Framebuffer(Read(mem, c + 8, 8), Read(mem, c + 16, 4), Read(mem, c + 20, 4), Read(mem, c + 24, 4),
                           Read(mem, c + 28, 1), kind, if kind == 1 then ReadColors(mem, c + 32) else [0, 0, 0, 0, 0, 0]))
  }

  function WalkScreens(mem: Memory, cursor: nat, end: nat): Outcome<Framebuffer>
    decreases end + 8 - cursor
  {
    if cursor + 8 > end then Missing
    else if TagSize(mem, cursor) < 8 then Missing
    else
      var next := cursor + Align8(TagSize(mem, cursor));
      if next > end then Missing
      else if TagType(mem, cursor) == 0 then Missing
      else if TagType(mem, cursor) == 8 && TagSize(mem, cursor) >= 32 then ReadFramebuffer(mem, cursor)
      else if next == cursor then Spins
      else WalkScreens(mem, next, end)
  }

  /** multiboot2_find_framebuffer. */
  function FindFramebuffer(mem: Memory, info: nat): Outcome<Framebuffer> {
    if info == 0 || Read(mem, info, 4) < 8 then Missing
    else WalkScreens(mem, info + 8, info + Read(mem, info, 4))
  }

  // ---- The first largest region

  function Pick(d: Descriptor, best: Region): Region {
    if Available(d) && Length(d) > best.size then Region(d.start, Length(d)) else best
  }

  function PickAll(ds: seq<Descriptor>, best: Region): Region {
    if ds == [] then best else PickAll(ds[1..], Pick(ds[0], best))
  }

  /** Descriptor k is available, no available one is longer, and no earlier one is as long. */
  predicate FirstLargest(ds: seq<Descriptor>, k: nat)
    requires k < |ds|
  {
    && Available(ds[k])
    && (forall j :: 0 <= j < |ds| && Available(ds[j]) ==> Length(ds[j]) <= Length(ds[k]))
    && (forall j :: 0 <= j < k && Available(ds[j]) ==> Length(ds[j]) < Length(ds[k]))
  }

  lemma {:induction false} PickedLast(ds: seq<Descriptor>, d: Descriptor, best: Region)
    ensures PickAll(ds + [d], best) == Pick(d, PickAll(ds, best))
    decreases |ds|
  {
    if ds == [] {
      assert (ds + [d])[1..] == [];
    } else {
      assert (ds + [d])[1..] == ds[1..] + [d];
      PickedLast(ds[1..], d, Pick(ds[0], best));
    }
  }

  /** The scan's result is the first largest available descriptor, or nothing when none has a positive length. */
  lemma {:induction false} PickExact(ds: seq<Descriptor>)
    ensures var r := PickAll(ds, Region(0, 0));
            if r.size == 0 then r == Region(0, 0) && forall j :: 0 <= j < |ds| && Available(ds[j]) ==> Length(ds[j]) == 0
            else exists k: nat :: k < |ds| && FirstLargest(ds, k) && r == Region(ds[k].start, Length(ds[k]))
    decreases |ds|
  {
    hide Pick, PickAll, Length, RegionType;
    if ds == [] {
      PickNone(Region(0, 0));
    } else {
      var n := |ds| - 1;
      var p := ds[..n];
      assert ds == p + [ds[n]];
      PickExact(p);
      PickedLast(p, ds[n], Region(0, 0));
      PickStep(ds, p, n);
    }
  }

  lemma {:induction false} PickNone(best: Region)
    ensures PickAll([], best) == best
  {
  }

  lemma {:induction false} PickStep(ds: seq<Descriptor>, p: seq<Descriptor>, n: nat)
    requires n < |ds| && p == ds[..n] && n + 1 == |ds|
    requires var r := PickAll(p, Region(0, 0));
             if r.size == 0 then r == Region(0, 0) && forall j :: 0 <= j < |p| && Available(p[j]) ==> Length(p[j]) == 0
             else exists k: nat :: k < |p| && FirstLargest(p, k) && r == Region(p[k].start, Length(p[k]))
    ensures var r := Pick(ds[n], PickAll(p, Region(0, 0)));
            if r.size == 0 then r == Region(0, 0) && forall j :: 0 <= j < |ds| && Available(ds[j]) ==> Length(ds[j]) == 0
            else exists k: nat :: k < |ds| && FirstLargest(ds, k) && r == Region(ds[k].start, Length(ds[k]))
  {
    hide PickAll, Length, RegionType;
    var q := PickAll(p, Region(0, 0));
    assert forall j :: 0 <= j < n ==> p[j] == ds[j];
    if Available(ds[n]) && Length(ds[n]) > q.size {
      assert FirstLargest(ds, n);
    } else if q.size != 0 {
      var k: nat :| k < |p| && FirstLargest(p, k) && q == Region(p[k].start, Length(p[k]));
      assert FirstLargest(ds, k);
    }
  }
}
