/** Parsing what the stub built gives back the framebuffer and the first largest available region. */
module BootRoundTrip {
  import opened Options
  import opened Words
  import opened BootBytes
  import opened BootInfo

  lemma {:induction false} EntryReads(mem: Memory, p: nat, d: Descriptor, best: Region)
    requires Loaded(mem, p, Entry(d))
    ensures Better(mem, p, best) == Pick(d, best)
  {
    hide Bytes, Read, Loaded, Fits, Length, RegionType;
    Fit(d.start);
    Fit(Length(d));
    Fit(RegionType(d.kind));
    ReadsFields(mem, p, d.start, 8, Bytes(Length(d), 8) + (Bytes(RegionType(d.kind), 4) + Bytes(0, 4)));
    ReadsFields(mem, p + 8, Length(d), 8, Bytes(RegionType(d.kind), 4) + Bytes(0, 4));
    ReadsFields(mem, p + 16, RegionType(d.kind), 4, Bytes(0, 4));
  }

  lemma {:induction false} ScanReads(mem: Memory, p: nat, stop: nat, ds: seq<Descriptor>, best: Region)
    requires Loaded(mem, p, Entries(ds)) && stop == p + 24 * |ds|
    ensures Scan(mem, p, stop, 24, best) == PickAll(ds, best)
    decreases |ds|
  {
    hide Loaded, Entry, Better, Pick;
    if ds != [] {
      LoadedSplit(mem, p, Entry(ds[0]), Entries(ds[1..]));
      EntryReads(mem, p, ds[0], best);
      ScanReads(mem, p + 24, stop, ds[1..], Pick(ds[0], best));
    }
  }

  lemma {:induction false} HeadReads(mem: Memory, c: nat, n: nat)
    requires Loaded(mem, c, MmapHead(n)) && 16 + 24 * n <= 0xFFFF_FFFF
    ensures TagType(mem, c) == 6 && TagSize(mem, c) == 16 + 24 * n && Read(mem, c + 8, 4) == 24
  {
    hide Bytes, Read, Loaded, Fits;
    Fit(6);
    Fit(16 + 24 * n);
    Fit(24);
    ReadsFields(mem, c, 6, 4, Bytes(16 + 24 * n, 4) + (Bytes(24, 4) + Bytes(0, 4)));
    ReadsFields(mem, c + 4, 16 + 24 * n, 4, Bytes(24, 4) + Bytes(0, 4));
    ReadsFields(mem, c + 8, 24, 4, Bytes(0, 4));
  }

  lemma {:induction false} EndReads(mem: Memory, c: nat)
    requires Loaded(mem, c, EndTag())
    ensures TagType(mem, c) == 0 && TagSize(mem, c) == 8
  {
    hide Bytes, Read, Loaded, Fits;
    Fit(0);
    Fit(8);
    ReadsFields(mem, c, 0, 4, Bytes(8, 4));
    ReadsBack(mem, c + 4, 8, 4);
  }

  lemma {:induction false} ColorsRead(mem: Memory, a: nat, f: Screen)
    requires Loaded(mem, a, ColorFields(f))
    ensures ReadColors(mem, a) == [f.redPosition, f.redSize, f.greenPosition, f.greenSize, f.bluePosition, f.blueSize]
  {
    hide Bytes, Read, Loaded, Fits;
    Fit(f.redPosition);
    Fit(f.redSize);
    Fit(f.greenPosition);
    Fit(f.greenSize);
    Fit(f.bluePosition);
    Fit(f.blueSize);
    var s5 := Bytes(f.bluePosition, 1) + Bytes(f.blueSize, 1);
    var s4 := Bytes(f.greenSize, 1) + s5;
    var s3 := Bytes(f.greenPosition, 1) + s4;
    var s2 := Bytes(f.redSize, 1) + s3;
    ReadsFields(mem, a, f.redPosition, 1, s2);
    ReadsFields(mem, a + 1, f.redSize, 1, s3);
    ReadsFields(mem, a + 2, f.greenPosition, 1, s4);
    ReadsFields(mem, a + 3, f.greenSize, 1, s5);
    ReadsFields(mem, a + 4, f.bluePosition, 1, Bytes(f.blueSize, 1));
    ReadsBack(mem, a + 5, f.blueSize, 1);
  }

  /** The framebuffer record the kernel should end up with. */
  function Seen(f: Screen): Framebuffer {
    Framebuffer(f.address, f.pitch, f.width, f.height, f.bpp, 1,
                [f.redPosition, f.redSize, f.greenPosition, f.greenSize, f.bluePosition, f.blueSize])
  }

  lemma {:induction false} ScreenReads(mem: Memory, c: nat, f: Screen)
    requires Loaded(mem, c, ScreenTag(f))
    ensures TagType(mem, c) == 8 && TagSize(mem, c) == 38 && ReadFramebuffer(mem, c) == Found(Seen(f))
  {
    hide Bytes, Read, Loaded, Fits, ColorFields, ReadColors;
    Fit(8);
    Fit(38);
    Fit(f.address);
    Fit(f.pitch);
    Fit(f.width);
    Fit(f.height);
    Fit(f.bpp);
    Fit(1);
    Fit(0);
    var s9 := Bytes(0, 2) + ColorFields(f);
    var s8 := Bytes(1, 1) + s9;
    var s7 := Bytes(f.bpp, 1) + s8;
    var s6 := Bytes(f.height, 4) + s7;
    var s5 := Bytes(f.width, 4) + s6;
    var s4 := Bytes(f.pitch, 4) + s5;
    var s3 := Bytes(f.address, 8) + s4;
    var s2 := Bytes(38, 4) + s3;
    ReadsFields(mem, c, 8, 4, s2);
    ReadsFields(mem, c + 4, 38, 4, s3);
    ReadsFields(mem, c + 8, f.address, 8, s4);
    ReadsFields(mem, c + 16, f.pitch, 4, s5);
    ReadsFields(mem, c + 20, f.width, 4, s6);
    ReadsFields(mem, c + 24, f.height, 4, s7);
    ReadsFields(mem, c + 28, f.bpp, 1, s8);
    ReadsFields(mem, c + 29, 1, 1, s9);
    ReadsFields(mem, c + 30, 0, 2, ColorFields(f));
    ColorsRead(mem, c + 32, f);
  }

  /** The part after the memory map: the optional framebuffer tag, then the end tag. */
  lemma {:induction false} TailReads(mem: Memory, c: nat, end: nat, screen: Option<Screen>, best: Region)
    requires Loaded(mem, c, ScreenPart(screen) + EndTag()) && c + |ScreenPart(screen)| + 8 == end
    ensures WalkRegions(mem, c, end, best) == Best(best)
    ensures WalkScreens(mem, c, end) == if screen.Some? then Found(Seen(screen.value)) else Missing
  {
    hide Loaded, Read, ScreenTag, EndTag, TagSize, TagType, Best, ReadFramebuffer;
    LoadedSplit(mem, c, ScreenPart(screen), EndTag());
    var e := c + |ScreenPart(screen)|;
    EndReads(mem, e);
    if screen.Some? {
      LoadedSplit(mem, c, ScreenTag(screen.value), Bytes(0, 2));
      ScreenReads(mem, c, screen.value);
      assert Align8(38) == 40;
    }
  }

  lemma {:induction false} MapReads(mem: Memory, c: nat, end: nat, ds: seq<Descriptor>, best: Region)
    requires Loaded(mem, c, MmapHead(|ds|)) && Loaded(mem, c + 16, Entries(ds)) && 16 + 24 * |ds| <= 0xFFFF_FFFF - 7
    requires c + 16 + 24 * |ds| <= end
    ensures WalkRegions(mem, c, end, best) == WalkRegions(mem, c + 16 + 24 * |ds|, end, PickAll(ds, best))
    ensures WalkScreens(mem, c, end) == WalkScreens(mem, c + 16 + 24 * |ds|, end)
  {
    hide Loaded, Read, MmapHead, Entries, Scan, PickAll, TagSize, TagType, Align8;
    HeadReads(mem, c, |ds|);
    ScanReads(mem, c + 16, c + 16 + 24 * |ds|, ds, best);
    WholeWords(2 + 3 * |ds|);
  }

  lemma {:induction false} WholeWords(n: nat)
    requires 8 * n <= 0xFFFF_FFFF - 7
    ensures Align8(8 * n) == 8 * n
  {
  }

  /** For every memory map and optional framebuffer that fits: the kernel finds the first largest available region, or
      none when no available one has a positive length, and exactly the framebuffer that was given, or none. */
  lemma {:induction false} RoundTrip(
      mem: Memory, info: nat, ds: seq<Descriptor>, screen: Option<Screen>, capacity: nat, rest: seq<Byte>)
    requires info != 0 && BuildStatus(Some(ds), screen, capacity) == 0 && Loaded(mem, info, Image(ds, screen) + rest)
    ensures FindRegion(mem, info) == Best(PickAll(ds, Region(0, 0)))
    ensures FindFramebuffer(mem, info) == if screen.Some? then Found(Seen(screen.value)) else Missing
  {
    hide Loaded, Read, Bytes, Fits, MmapHead, Entries, ScreenPart, EndTag, WalkRegions, WalkScreens, PickAll, Best;
    LoadedSplit(mem, info, Image(ds, screen), rest);
    var total := TotalSize(|ds|, screen);
    var tail := ScreenPart(screen) + EndTag();
    LoadedSplit(mem, info, Bytes(total, 4) + Bytes(0, 4), MmapHead(|ds|) + (Entries(ds) + tail));
    Fit(total);
    ReadsFields(mem, info, total, 4, Bytes(0, 4));
    var c := info + 8;
    LoadedSplit(mem, c, MmapHead(|ds|), Entries(ds) + tail);
    LoadedSplit(mem, c + 16, Entries(ds), tail);
    MapReads(mem, c, info + total, ds, Region(0, 0));
    TailReads(mem, c + 16 + 24 * |ds|, info + total, screen, PickAll(ds, Region(0, 0)));
  }

  /** Boot and loader code and data and conventional memory: the kinds that the firmware gives up to the kernel. */
  predicate Usable(d: Descriptor) {
    d.kind in {1, 2, 3, 4, 7}
  }

  /** Descriptor k is usable, no usable one is longer, and no earlier one is as long; lengths are in bytes, cut to 64
      bits. */
  predicate LargestUsable(ds: seq<Descriptor>, k: nat)
    requires k < |ds|
  {
    var size := ds[k].pages * 4096 % 0x1_0000_0000_0000_0000;
    && Usable(ds[k])
    && (forall j :: 0 <= j < |ds| && Usable(ds[j]) ==> ds[j].pages * 4096 % 0x1_0000_0000_0000_0000 <= size)
    && (forall j :: 0 <= j < k && Usable(ds[j]) ==> ds[j].pages * 4096 % 0x1_0000_0000_0000_0000 < size)
  }

  /** The region found is the first largest usable descriptor of the map, and none is found exactly when no usable one has
      a length. */
  lemma {:induction false} RegionFound(
      mem: Memory, info: nat, ds: seq<Descriptor>, screen: Option<Screen>, capacity: nat, rest: seq<Byte>)
    requires info != 0 && BuildStatus(Some(ds), screen, capacity) == 0 && Loaded(mem, info, Image(ds, screen) + rest)
    ensures match FindRegion(mem, info)
            case Found(r) =>
              exists k: nat :: k < |ds| && LargestUsable(ds, k)
                               && r == Region(ds[k].start, ds[k].pages * 4096 % 0x1_0000_0000_0000_0000) && r.size > 0
            case Missing => forall j :: 0 <= j < |ds| && Usable(ds[j]) ==> ds[j].pages * 4096 % 0x1_0000_0000_0000_0000 == 0
            case Spins => false
  {
    hide Loaded, Image, BuildStatus, PickAll, FindRegion, FindFramebuffer;
    RoundTrip(mem, info, ds, screen, capacity, rest);
    PickExact(ds);
    assert forall d: Descriptor :: Available(d) <==> Usable(d);
    assert forall d: Descriptor :: Length(d) == d.pages * 4096 % 0x1_0000_0000_0000_0000;
    var r := PickAll(ds, Region(0, 0));
    if r.size != 0 {
      var k: nat :| k < |ds| && FirstLargest(ds, k) && r == Region(ds[k].start, Length(ds[k]));
      assert LargestUsable(ds, k);
    }
  }

  // ---- Arbitrary bytes: when the walk ends

  /** Rounding a size of at least 8 up to a multiple of 8 wraps to zero exactly above 2^32 - 8. */
  lemma {:induction false} Stalls(v: U32)
    requires v >= 8
    ensures Align8(v) == 0 <==> v > 0xFFFF_FFF8
    ensures Align8(v) == 0 || v <= Align8(v) < v + 8
  {
  }

  /** The two walks: for the largest region and for the framebuffer. */
  datatype Search = ForRegion | ForScreen

  /** The walk goes on from the tag at c: the tag lies inside, is no end tag, and neither ends nor fails the search. */
  predicate GoesOn(w: Search, mem: Memory, c: nat, end: nat) {
    && c + 8 <= end && TagSize(mem, c) >= 8 && c + Align8(TagSize(mem, c)) <= end && TagType(mem, c) != 0
    && match w
       case ForRegion => HasEntries(mem, c) ==> Read(mem, c + 8, 4) >= 24
       case ForScreen => TagType(mem, c) == 8 ==> TagSize(mem, c) < 32
  }

  /** The walk from cursor comes to address c, by tags whose rounded sizes do not wrap. */
  predicate Reaches(w: Search, mem: Memory, cursor: nat, end: nat, c: nat)
    decreases end + 8 - cursor
  {
    cursor == c
    || (GoesOn(w, mem, cursor, end) && TagSize(mem, cursor) <= 0xFFFF_FFF8
        && Reaches(w, mem, cursor + Align8(TagSize(mem, cursor)), end, c))
  }

  /** Some tag that the walk comes to and goes on from has a size above 2^32 - 8. */
  ghost predicate MeetsHugeTag(w: Search, mem: Memory, cursor: nat, end: nat) {
    exists c: nat :: Reaches(w, mem, cursor, end, c) && GoesOn(w, mem, c, end) && TagSize(mem, c) > 0xFFFF_FFF8
  }

  lemma {:induction false} MeetsNext(w: Search, mem: Memory, cursor: nat, end: nat)
    ensures var (size, next) := (TagSize(mem, cursor), cursor + Align8(TagSize(mem, cursor)));
            MeetsHugeTag(w, mem, cursor, end)
            <==> GoesOn(w, mem, cursor, end) && (size > 0xFFFF_FFF8 || MeetsHugeTag(w, mem, next, end))
  {
    hide TagSize, GoesOn, Align8;
    var (size, next) := (TagSize(mem, cursor), cursor + Align8(TagSize(mem, cursor)));
    if GoesOn(w, mem, cursor, end) {
      if size > 0xFFFF_FFF8 {
        assert Reaches(w, mem, cursor, end, cursor);
      } else if MeetsHugeTag(w, mem, next, end) {
        var c: nat :| Reaches(w, mem, next, end, c) && GoesOn(w, mem, c, end) && TagSize(mem, c) > 0xFFFF_FFF8;
        assert Reaches(w, mem, cursor, end, c);
      }
    }
  }

  /** Over any bytes the search for a region never ends if and only if it meets a tag of size above 2^32 - 8. */
  lemma {:induction false} RegionWalkSpins(mem: Memory, cursor: nat, end: nat, best: Region)
    ensures WalkRegions(mem, cursor, end, best).Spins? <==> MeetsHugeTag(ForRegion, mem, cursor, end)
    decreases end + 8 - cursor
  {
    hide TagSize, TagType, Read, HasEntries, AfterTag, Align8, MeetsHugeTag;
    MeetsNext(ForRegion, mem, cursor, end);
    if GoesOn(ForRegion, mem, cursor, end) {
      Stalls(TagSize(mem, cursor));
      if TagSize(mem, cursor) <= 0xFFFF_FFF8 {
        RegionWalkSpins(mem, cursor + Align8(TagSize(mem, cursor)), end, AfterTag(mem, cursor, best));
      }
    }
  }

  /** The same for the framebuffer search, which stops at the first framebuffer tag. */
  lemma {:induction false} ScreenWalkSpins(mem: Memory, cursor: nat, end: nat)
    ensures WalkScreens(mem, cursor, end).Spins? <==> MeetsHugeTag(ForScreen, mem, cursor, end)
    decreases end + 8 - cursor
  {
    hide TagSize, TagType, Read, ReadColors, Align8, MeetsHugeTag;
    MeetsNext(ForScreen, mem, cursor, end);
    if GoesOn(ForScreen, mem, cursor, end) {
      Stalls(TagSize(mem, cursor));
      if TagSize(mem, cursor) <= 0xFFFF_FFF8 {
        ScreenWalkSpins(mem, cursor + Align8(TagSize(mem, cursor)), end);
      }
    }
  }

  /** Exactly when the two parsers fail to return, for any memory and any address. */
  lemma {:induction false} ParsersSpin(mem: Memory, info: nat)
    ensures var (start, end) := (info + 8, info + Read(mem, info, 4));
            && (FindRegion(mem, info).Spins?
                <==> info != 0 && start <= end && MeetsHugeTag(ForRegion, mem, start, end))
            && (FindFramebuffer(mem, info).Spins?
                <==> info != 0 && start <= end && MeetsHugeTag(ForScreen, mem, start, end))
  {
    hide Read, WalkRegions, WalkScreens, MeetsHugeTag;
    RegionWalkSpins(mem, info + 8, info + Read(mem, info, 4), Region(0, 0));
    ScreenWalkSpins(mem, info + 8, info + Read(mem, info, 4));
  }

  /** A walk ends when the tags it comes to, and no other bytes, have sizes of at most 2^32 - 8. */
  lemma {:induction false} WalksEnd(w: Search, mem: Memory, cursor: nat, end: nat, best: Region)
    requires forall c: nat :: Reaches(w, mem, cursor, end, c) ==> TagSize(mem, c) <= 0xFFFF_FFF8
    ensures w == ForRegion ==> !WalkRegions(mem, cursor, end, best).Spins?
    ensures w == ForScreen ==> !WalkScreens(mem, cursor, end).Spins?
  {
    hide TagSize, GoesOn, Reaches, WalkRegions, WalkScreens;
    RegionWalkSpins(mem, cursor, end, best);
    ScreenWalkSpins(mem, cursor, end);
  }

  /** Such a tag at c, wherever the walk comes to it: a region search spins unless the tag is a memory map with entries
      under 24 bytes, a framebuffer search unless it is a framebuffer tag. */
  lemma {:induction false} HugeTagSpins(mem: Memory, cursor: nat, end: nat, best: Region, c: nat)
    requires c + 8 <= end && TagSize(mem, c) > 0xFFFF_FFF8 && TagType(mem, c) != 0
    ensures Reaches(ForRegion, mem, cursor, end, c) && (TagType(mem, c) != 6 || Read(mem, c + 8, 4) >= 24)
            ==> WalkRegions(mem, cursor, end, best).Spins?
    ensures Reaches(ForScreen, mem, cursor, end, c) && TagType(mem, c) != 8 ==> WalkScreens(mem, cursor, end).Spins?
  {
    hide TagSize, TagType, Read, Reaches, WalkRegions, WalkScreens, Align8;
    Stalls(TagSize(mem, c));
    RegionWalkSpins(mem, cursor, end, best);
    ScreenWalkSpins(mem, cursor, end);
  }
}
