/** The layouts on both sides of the stub, field by field: the firmware's memory descriptors that it reads and the
    Multiboot2 information that it writes. */
module BootLayout {
  import opened Arith
  import opened Options
  import opened Words
  import opened BootBytes
  import opened BootInfo
  import opened BootRoundTrip

  // ---- The firmware's side

  /** EFI_MEMORY_DESCRIPTOR: five fields after the type and its padding. */
  datatype Firmware = Firmware(kind: U32, padding: U32, start: U64, mapped: U64, pages: U64, attribute: U64)

  function FirmwareBytes(f: Firmware): seq<Byte> {
    Bytes(f.kind, 4) + (Bytes(f.padding, 4) + (Bytes(f.start, 8) + (Bytes(f.mapped, 8) + (Bytes(f.pages, 8) + Bytes(f.attribute, 8)))))
  }

  lemma {:induction false} DescriptorRead(mem: Memory, a: nat, f: Firmware)
    requires Loaded(mem, a, FirmwareBytes(f))
    ensures DescriptorAt(mem, a) == Descriptor(f.kind, f.start, f.pages)
  {
    hide Bytes, Read, Loaded, Fits;
    Fit(f.kind);
    Fit(f.padding);
    Fit(f.start);
    Fit(f.mapped);
    Fit(f.pages);
    var s5 := Bytes(f.pages, 8) + Bytes(f.attribute, 8);
    var s4 := Bytes(f.mapped, 8) + s5;
    var s3 := Bytes(f.start, 8) + s4;
    ReadsFields(mem, a, f.kind, 4, Bytes(f.padding, 4) + s3);
    ReadsFields(mem, a + 4, f.padding, 4, s3);
    ReadsFields(mem, a + 8, f.start, 8, s4);
    ReadsFields(mem, a + 16, f.mapped, 8, s5);
    ReadsFields(mem, a + 24, f.pages, 8, Bytes(f.attribute, 8));
  }

  /** Every descriptor of the firmware's map is read back, in order, whatever its stride; bytes after the last whole one
      are ignored. */
  lemma {:induction false} FirmwareMapRead(mem: Memory, base: nat, size: nat, stride: nat, fs: seq<Firmware>)
    requires base != 0 && stride > 0 && |fs| * stride <= size < |fs| * stride + stride
    requires forall i {:trigger fs[i]} :: 0 <= i < |fs| ==> Loaded(mem, base + i * stride, FirmwareBytes(fs[i]))
    ensures var ds := MemoryMap(mem, base, size, stride);
            && ds.Some? && |ds.value| == |fs|
            && forall i {:trigger ds.value[i]} :: 0 <= i < |fs| ==> ds.value[i] == Descriptor(fs[i].kind, fs[i].start, fs[i].pages)
  {
    hide Loaded, FirmwareBytes, DescriptorAt;
    Quotient(stride, |fs|, size - |fs| * stride, size);
    var ds := Descriptors(mem, base, stride, size / stride);
    forall i {:trigger ds[i]} | 0 <= i < |fs| ensures ds[i] == Descriptor(fs[i].kind, fs[i].start, fs[i].pages) {
      DescriptorRead(mem, base + i * stride, fs[i]);
    }
  }

  // ---- The kernel's side

  /** The stub succeeds exactly when there is a non-empty map and header, map tag, framebuffer tag and end tag fit the
      buffer and 32 bits; otherwise it tells the three cases apart. */
  lemma {:induction false} StatusExact(ds: Option<seq<Descriptor>>, screen: Option<Screen>, capacity: nat)
    ensures BuildStatus(ds, screen, capacity)
            == if ds.None? then 6
               else if |ds.value| == 0 then 7
               else
                 var total := 32 + 24 * |ds.value| + if screen.Some? then 40 else 0;
                 if total <= capacity && total < 0x1_0000_0000 then 0 else 8
  {
  }

  /** A Multiboot2 memory map entry: base, length, type and zero. */
  predicate EntryLaidOut(mem: Memory, p: nat, d: Descriptor) {
    && Read(mem, p, 8) == d.start
    && Read(mem, p + 8, 8) == d.pages * 4096 % 0x1_0000_0000_0000_0000
    && Read(mem, p + 16, 4) == (match d.kind
                                case 1 => 1 case 2 => 1 case 3 => 1 case 4 => 1 case 7 => 1   // given up to the kernel
                                case 8 => 5                                                  // unusable
                                case 9 => 3                                                  // ACPI tables
                                case 10 => 4                                                 // ACPI non-volatile
                                case _ => 2)                                                 // reserved
    && Read(mem, p + 20, 4) == 0
  }

  /** A direct-colour Multiboot2 framebuffer tag. */
  predicate ScreenLaidOut(mem: Memory, q: nat, f: Screen) {
    && Read(mem, q, 4) == 8 && Read(mem, q + 4, 4) == 38
    && Read(mem, q + 8, 8) == f.address && Read(mem, q + 16, 4) == f.pitch
    && Read(mem, q + 20, 4) == f.width && Read(mem, q + 24, 4) == f.height
    && Read(mem, q + 28, 1) == f.bpp && Read(mem, q + 29, 1) == 1
    && Read(mem, q + 32, 1) == f.redPosition && Read(mem, q + 33, 1) == f.redSize
    && Read(mem, q + 34, 1) == f.greenPosition && Read(mem, q + 35, 1) == f.greenSize
    && Read(mem, q + 36, 1) == f.bluePosition && Read(mem, q + 37, 1) == f.blueSize
  }

  lemma {:induction false} EntryFields(mem: Memory, p: nat, d: Descriptor)
    requires Loaded(mem, p, Entry(d))
    ensures EntryLaidOut(mem, p, d)
  {
    hide Bytes, Read, Loaded, Fits;
    Fit(d.start);
    Fit(Length(d));
    Fit(RegionType(d.kind));
    Fit(0);
    ReadsFields(mem, p, d.start, 8, Bytes(Length(d), 8) + (Bytes(RegionType(d.kind), 4) + Bytes(0, 4)));
    ReadsFields(mem, p + 8, Length(d), 8, Bytes(RegionType(d.kind), 4) + Bytes(0, 4));
    ReadsFields(mem, p + 16, RegionType(d.kind), 4, Bytes(0, 4));
    ReadsBack(mem, p + 20, 0, 4);
  }

  lemma {:induction false} EntryAt(mem: Memory, p: nat, ds: seq<Descriptor>, k: nat)
    requires Loaded(mem, p, Entries(ds)) && k < |ds|
    ensures EntryLaidOut(mem, p + 24 * k, ds[k])
    decreases k
  {
    hide Loaded, Entry, EntryLaidOut;
    LoadedSplit(mem, p, Entry(ds[0]), Entries(ds[1..]));
    if k == 0 {
      EntryFields(mem, p, ds[0]);
    } else {
      EntryAt(mem, p + 24, ds[1..], k - 1);
    }
  }

  lemma {:induction false} ScreenFields(mem: Memory, q: nat, f: Screen)
    requires Loaded(mem, q, ScreenTag(f))
    ensures ScreenLaidOut(mem, q, f)
  {
    hide Loaded, Read, ScreenTag;
    ScreenReads(mem, q, f);
  }

  /** What the stub leaves behind, read at fixed offsets: the header, the memory map tag with one entry for each
      descriptor, the framebuffer tag when there is one, and the end tag. */
  lemma {:induction false} ImageLayout(
      mem: Memory, info: nat, ds: seq<Descriptor>, screen: Option<Screen>, capacity: nat, rest: seq<Byte>)
    requires BuildStatus(Some(ds), screen, capacity) == 0 && Loaded(mem, info, Image(ds, screen) + rest)
    ensures var n := |ds|;
            var (q, size) := (info + 24 + 24 * n, 32 + 24 * n + if screen.Some? then 40 else 0);
            && Read(mem, info, 4) == size && Read(mem, info + size - 8, 4) == 0 && Read(mem, info + size - 4, 4) == 8
            && Read(mem, info + 8, 4) == 6 && Read(mem, info + 12, 4) == 16 + 24 * n && Read(mem, info + 16, 4) == 24
            && (forall k: nat :: k < n ==> EntryLaidOut(mem, info + 24 + 24 * k, ds[k]))
            && (screen.Some? ==> ScreenLaidOut(mem, q, screen.value))
  {
    hide Loaded, Read, Bytes, Fits, MmapHead, Entries, ScreenTag, EndTag, EntryLaidOut, ScreenLaidOut;
    LoadedSplit(mem, info, Image(ds, screen), rest);
    var total := TotalSize(|ds|, screen);
    var tail := ScreenPart(screen) + EndTag();
    LoadedSplit(mem, info, Bytes(total, 4) + Bytes(0, 4), MmapHead(|ds|) + (Entries(ds) + tail));
    Fit(total);
    ReadsFields(mem, info, total, 4, Bytes(0, 4));
    LoadedSplit(mem, info + 8, MmapHead(|ds|), Entries(ds) + tail);
    LoadedSplit(mem, info + 24, Entries(ds), tail);
    HeadReads(mem, info + 8, |ds|);
    forall k: nat | k < |ds| ensures EntryLaidOut(mem, info + 24 + 24 * k, ds[k]) {
      EntryAt(mem, info + 24, ds, k);
    }
    var q := info + 24 + 24 * |ds|;
    LoadedSplit(mem, q, ScreenPart(screen), EndTag());
    EndReads(mem, q + |ScreenPart(screen)|);
    if screen.Some? {
      LoadedSplit(mem, q, ScreenTag(screen.value), Bytes(0, 2));
      ScreenFields(mem, q, screen.value);
    }
  }
}
