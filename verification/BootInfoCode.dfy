/** The stub's builder filling its buffer in place, and the kernel's cursor loops over it. */
module BootInfoCode {
  import opened Options
  import opened Words
  import opened BootBytes
  import opened BootInfo

  // ---- gnuos_build_multiboot2_info

  method WriteEntry(buf: array<Byte>, at: nat, d: Descriptor)
    requires at + 24 <= buf.Length
    modifies buf
    ensures buf[..] == Patch(old(buf[..]), at, Entry(d))
  {
    hide Bytes, Patch;
    ghost var b := buf[..];
    ghost var (s1, s2, s3, s4) := (Bytes(d.start, 8), Bytes(Length(d), 8), Bytes(RegionType(d.kind), 4), Bytes(0, 4));
    Store(buf, at, d.start, 8);
    Store(buf, at + 8, Length(d), 8);
    PatchAfter(b, at, s1, s2);
    Store(buf, at + 16, RegionType(d.kind), 4);
    PatchAfter(b, at, s1 + s2, s3);
    Store(buf, at + 20, 0, 4);
    PatchAfter(b, at, s1 + s2 + s3, s4);
    assert s1 + s2 + s3 + s4 == Entry(d);
  }

  lemma {:induction false} EntriesNext(ds: seq<Descriptor>, k: nat)
    requires k < |ds|
    ensures Entries(ds[..k + 1]) == Entries(ds[..k]) + Entry(ds[k])
    decreases k
  {
    hide Entry;
    if k == 0 {
      assert ds[..1][1..] == [] && ds[..0] == [];
    } else {
      assert ds[..k + 1][1..] == ds[1..][..k] && ds[..k][1..] == ds[1..][..k - 1];
      EntriesNext(ds[1..], k - 1);
    }
  }

  method WriteEntries(buf: array<Byte>, at: nat, mem: Memory, base: nat, stride: nat, n: nat)
    requires at + 24 * n <= buf.Length
    modifies buf
    ensures buf[..] == Patch(old(buf[..]), at, Entries(Descriptors(mem, base, stride, n)))
  {
    hide Patch, Entry, Entries, DescriptorAt;
    ghost var b, ds := buf[..], Descriptors(mem, base, stride, n);
    NoEntries();
    PatchNothing(b, at);
    for i := 0 to n
      invariant buf[..] == Patch(b, at, Entries(ds[..i]))
    {
      WriteEntry(buf, at + 24 * i, DescriptorAt(mem, base + i * stride));
      PatchAfter(b, at, Entries(ds[..i]), Entry(ds[i]));
      EntriesNext(ds, i);
    }
    assert ds[..|ds|] == ds;
  }

  lemma {:induction false} NoEntries()
    ensures Entries([]) == []
  {
  }

  method WriteWords(buf: array<Byte>, at: nat, n0: nat, n1: nat)
    requires at + 8 <= buf.Length
    modifies buf
    ensures buf[..] == Patch(old(buf[..]), at, Bytes(n0, 4) + Bytes(n1, 4))
  {
    hide Bytes, Patch;
    ghost var b := buf[..];
    Store(buf, at, n0, 4);
    Store(buf, at + 4, n1, 4);
    PatchAfter(b, at, Bytes(n0, 4), Bytes(n1, 4));
  }

  method WriteMapHead(buf: array<Byte>, at: nat, n: nat)
    requires at + 16 <= buf.Length
    modifies buf
    ensures buf[..] == Patch(old(buf[..]), at, MmapHead(n))
  {
    hide Bytes, Patch;
    ghost var b := buf[..];
    WriteWords(buf, at, 6, 16 + 24 * n);
    WriteWords(buf, at + 8, 24, 0);
    PatchAfter(b, at, Bytes(6, 4) + Bytes(16 + 24 * n, 4), Bytes(24, 4) + Bytes(0, 4));
    assert (Bytes(6, 4) + Bytes(16 + 24 * n, 4)) + (Bytes(24, 4) + Bytes(0, 4)) == MmapHead(n);
  }

  method WriteColors(buf: array<Byte>, at: nat, f: Screen)
    requires at + 6 <= buf.Length
    modifies buf
    ensures buf[..] == Patch(old(buf[..]), at, ColorFields(f))
  {
    hide Bytes, Patch;
    ghost var b := buf[..];
    ghost var (s1, s2, s3) := (Bytes(f.redPosition, 1), Bytes(f.redSize, 1), Bytes(f.greenPosition, 1));
    ghost var (s4, s5, s6) := (Bytes(f.greenSize, 1), Bytes(f.bluePosition, 1), Bytes(f.blueSize, 1));
    Store(buf, at, f.redPosition, 1);
    Store(buf, at + 1, f.redSize, 1);
    PatchAfter(b, at, s1, s2);
    Store(buf, at + 2, f.greenPosition, 1);
    PatchAfter(b, at, s1 + s2, s3);
    Store(buf, at + 3, f.greenSize, 1);
    PatchAfter(b, at, s1 + s2 + s3, s4);
    Store(buf, at + 4, f.bluePosition, 1);
    PatchAfter(b, at, s1 + s2 + s3 + s4, s5);
    Store(buf, at + 5, f.blueSize, 1);
    PatchAfter(b, at, s1 + s2 + s3 + s4 + s5, s6);
    assert s1 + s2 + s3 + s4 + s5 + s6 == ColorFields(f);
  }

  method WriteScreen(buf: array<Byte>, at: nat, f: Screen)
    requires at + 38 <= buf.Length
    modifies buf
    ensures buf[..] == Patch(old(buf[..]), at, ScreenTag(f))
  {
    hide Bytes, Patch, ColorFields;
    ghost var b := buf[..];
    ghost var (s1, s2, s3) := (Bytes(8, 4) + Bytes(38, 4), Bytes(f.address, 8), Bytes(f.pitch, 4) + Bytes(f.width, 4));
    ghost var (s4, s5, s6, s7) := (Bytes(f.height, 4), Bytes(f.bpp, 1), Bytes(1, 1), Bytes(0, 2));
    WriteWords(buf, at, 8, 38);
    Store(buf, at + 8, f.address, 8);
    PatchAfter(b, at, s1, s2);
    WriteWords(buf, at + 16, f.pitch, f.width);
    PatchAfter(b, at, s1 + s2, s3);
    Store(buf, at + 24, f.height, 4);
    PatchAfter(b, at, s1 + s2 + s3, s4);
    Store(buf, at + 28, f.bpp, 1);
    PatchAfter(b, at, s1 + s2 + s3 + s4, s5);
    Store(buf, at + 29, 1, 1);
    PatchAfter(b, at, s1 + s2 + s3 + s4 + s5, s6);
    Store(buf, at + 30, 0, 2);
    PatchAfter(b, at, s1 + s2 + s3 + s4 + s5 + s6, s7);
    WriteColors(buf, at + 32, f);
    PatchAfter(b, at, s1 + s2 + s3 + s4 + s5 + s6 + s7, ColorFields(f));
    assert s1 + s2 + s3 + s4 + s5 + s6 + s7 + ColorFields(f) == ScreenTag(f);
  }

  function Zeros(n: nat): seq<Byte> { seq(n, _ => 0) }

  lemma {:induction false} ZeroBytes(k: nat)
    ensures Bytes(0, k) == Zeros(k)
  {
    if k > 0 {
      ZeroBytes(k - 1);
    }
  }

  method Clear(buf: array<Byte>)
    modifies buf
    ensures buf[..] == Zeros(buf.Length)
  {
    for i := 0 to buf.Length
      invariant forall j :: 0 <= j < i ==> buf[j] == 0
    {
      buf[i] := 0;
    }
  }

  /** The two bytes after the framebuffer tag are left as the clearing made them. */
  lemma {:induction false} Padded(n: nat, at: nat, s: seq<Byte>)
    requires at + |s| + 2 <= n
    ensures Patch(Zeros(n), at, s + Bytes(0, 2)) == Patch(Zeros(n), at, s)
  {
    hide Bytes;
    ZeroBytes(2);
  }

  lemma {:induction false} Finished(n: nat, s: seq<Byte>)
    requires |s| <= n
    ensures Patch(Zeros(n), 0, s) == s + Zeros(n - |s|)
  {
  }

  /** Fails without touching the buffer, or leaves exactly the image followed by zeros. */
  method Build(buf: array<Byte>, mem: Memory, base: nat, size: nat, stride: nat, screen: Option<Screen>)
    returns (status: nat)
    modifies buf
    ensures var ds := MemoryMap(mem, base, size, stride);
            && status == BuildStatus(ds, screen, buf.Length)
            && (status != 0 ==> buf[..] == old(buf[..]))
            && (status == 0 ==> buf[..] == Image(ds.value, screen) + Zeros(buf.Length - |Image(ds.value, screen)|))
  {
    hide Patch, Bytes, Entries, MmapHead, ScreenTag, EndTag, Zeros, Descriptors;
    if base == 0 || stride == 0 {
      return 6;
    }
    var n := size / stride;
    if n == 0 {
      return 7;
    }
    var mapSize := 16 + 24 * n;
    if mapSize > 0xFFFF_FFFF {
      return 8;
    }
    var total := TotalSize(n, screen);
    if total > 0xFFFF_FFFF || total > buf.Length {
      return 8;
    }
    Clear(buf);
    ghost var ds := Descriptors(mem, base, stride, n);
    ghost var (z, m) := (Zeros(buf.Length), MmapHead(n) + Entries(ds));
    WriteEntries(buf, 24, mem, base, stride, n);
    WriteMapHead(buf, 8, n);
    PatchBefore(z, 8, MmapHead(n), Entries(ds));
    WriteTail(buf, 8 + mapSize, screen, m);
    WriteWords(buf, 0, total, 0);
    PatchBefore(z, 0, Bytes(total, 4) + Bytes(0, 4), m + (ScreenPart(screen) + EndTag()));
    assert m + (ScreenPart(screen) + EndTag()) == MmapHead(n) + (Entries(ds) + (ScreenPart(screen) + EndTag()));
    Finished(buf.Length, Image(ds, screen));
    status := 0;
  }

  /** The optional framebuffer tag and the end tag, behind the memory map m written at 8. */
  method WriteTail(buf: array<Byte>, at: nat, screen: Option<Screen>, ghost m: seq<Byte>)
    requires at == 8 + |m| && at + |ScreenPart(screen)| + 8 <= buf.Length && buf[..] == Patch(Zeros(buf.Length), 8, m)
    modifies buf
    ensures buf[..] == Patch(Zeros(buf.Length), 8, m + (ScreenPart(screen) + EndTag()))
  {
    hide Patch, Bytes, ScreenTag, Zeros;
    ghost var z := Zeros(buf.Length);
    var cursor := at;
    if screen.Some? {
      WriteScreen(buf, cursor, screen.value);
      PatchAfter(z, 8, m, ScreenTag(screen.value));
      Padded(buf.Length, 8, m + ScreenTag(screen.value));
      assert m + ScreenTag(screen.value) + Bytes(0, 2) == m + ScreenPart(screen);
      cursor := cursor + 40;
    } else {
      assert m + ScreenPart(screen) == m;
    }
    WriteWords(buf, cursor, 0, 8);
    PatchAfter(z, 8, m + ScreenPart(screen), EndTag());
    assert m + ScreenPart(screen) + EndTag() == m + (ScreenPart(screen) + EndTag());
  }

  // ---- multiboot2_find_largest_available_region and multiboot2_find_framebuffer

  method ScanEntries(mem: Memory, start: nat, stop: nat, stride: nat, first: Region) returns (best: Region)
    requires stride > 0
    ensures best == Scan(mem, start, stop, stride, first)
  {
    hide Read;
    best := first;
    var p := start;
    while p + stride <= stop
      invariant Scan(mem, p, stop, stride, best) == Scan(mem, start, stop, stride, first)
      decreases stop - p
    {
      if Read(mem, p + 16, 4) == 1 && Read(mem, p + 8, 8) > best.size {
        best := Region(Read(mem, p, 8), Read(mem, p + 8, 8));
      }
      p := p + stride;
    }
  }

  method FindLargestRegion(mem: Memory, info: nat) returns (r: Outcome<Region>)
    ensures r == FindRegion(mem, info)
  {
    hide Read, Scan, TagType, TagSize;
    if info == 0 || Read(mem, info, 4) < 8 {
      return Missing;
    }
    var cursor, end := info + 8, info + Read(mem, info, 4);
    var best := Region(0, 0);
    while cursor + 8 <= end
      invariant WalkRegions(mem, cursor, end, best) == FindRegion(mem, info)
      decreases end - cursor
    {
      if TagSize(mem, cursor) < 8 {
        return Missing;
      }
      var next := cursor + Align8(TagSize(mem, cursor));
      if next > end {
        return Missing;
      }
      if TagType(mem, cursor) == 0 {
        break;
      }
      if TagType(mem, cursor) == 6 && TagSize(mem, cursor) >= 16 {
        var stride := Read(mem, cursor + 8, 4);
        if stride < 24 {
          return Missing;
        }
        best := ScanEntries(mem, cursor + 16, cursor + TagSize(mem, cursor), stride, best);
      }
      if next == cursor {
        return Spins;
      }
      cursor := next;
    }
    r := if best.size == 0 then Missing else Found(best);
  }

  method FindScreen(mem: Memory, info: nat) returns (r: Outcome<Framebuffer>)
    ensures r == FindFramebuffer(mem, info)
  {
    hide Read, TagType, TagSize, ReadColors;
    if info == 0 || Read(mem, info, 4) < 8 {
      return Missing;
    }
    var cursor, end := info + 8, info + Read(mem, info, 4);
    while cursor + 8 <= end
      invariant WalkScreens(mem, cursor, end) == FindFramebuffer(mem, info)
      decreases end - cursor
    {
      if TagSize(mem, cursor) < 8 {
        return Missing;
      }
      var next := cursor + Align8(TagSize(mem, cursor));
      if next > end {
        return Missing;
      }
      if TagType(mem, cursor) == 0 {
        break;
      }
      if TagType(mem, cursor) == 8 && TagSize(mem, cursor) >= 32 {
        var kind := Read(mem, cursor + 29, 1);
        var colors := [0, 0, 0, 0, 0, 0];
        if kind == 1 {
          if 38 > TagSize(mem, cursor) {
            return Missing;
          }
          colors := ReadColors(mem, cursor + 32);
        }
        return Found(Framebuffer(Read(mem, cursor + 8, 8), Read(mem, cursor + 16, 4), Read(mem, cursor + 20, 4),
                                 Read(mem, cursor + 24, 4), Read(mem, cursor + 28, 1), kind, colors));
      }
      if next == cursor {
        return Spins;
      }
      cursor := next;
    }
    r := Missing;
  }
}
