/** The two parsers over arbitrary bytes: what they return, in terms of the tags that the walk comes to. */
module BootWalks {
  import opened Words
  import opened BootBytes
  import opened BootInfo
  import opened BootRoundTrip

  // ---- The entries of one memory map tag

  function Place(p: nat, stride: nat, i: nat): nat {
    p + i * stride
  }

  lemma {:induction false} PlaceNext(p: nat, stride: nat, i: nat)
    ensures Place(p + stride, stride, i) == Place(p, stride, i + 1) >= p + stride
  {
    assert (i + 1) * stride == i * stride + stride;
  }

  /** Entry i lies before the stop and is marked available. */
  predicate Offered(mem: Memory, p: nat, stop: nat, stride: nat, i: nat) {
    Place(p, stride, i) + stride <= stop && Read(mem, Place(p, stride, i) + 16, 4) == 1
  }

  function EntryRegion(mem: Memory, e: nat): Region {
    Region(Read(mem, e, 8), Read(mem, e + 8, 8))
  }

  /** The scan ends with what it began with or with an available entry, and no available entry is longer. */
  lemma {:induction false} ScanExact(mem: Memory, p: nat, stop: nat, stride: nat, best: Region)
    requires stride > 0
    ensures var r := Scan(mem, p, stop, stride, best);
            && r.size >= best.size
            && (forall i: nat :: Offered(mem, p, stop, stride, i) ==> EntryRegion(mem, Place(p, stride, i)).size <= r.size)
            && (r == best || exists i: nat :: Offered(mem, p, stop, stride, i) && r == EntryRegion(mem, Place(p, stride, i)))
    decreases stop + stride - p
  {
    hide Read, Place;
    assert Place(p, stride, 0) == p by { PlaceFirst(p, stride); }
    if p + stride <= stop {
      var next := Better(mem, p, best);
      ScanExact(mem, p + stride, stop, stride, next);
      var r := Scan(mem, p + stride, stop, stride, next);
      forall i: nat | Offered(mem, p, stop, stride, i) ensures EntryRegion(mem, Place(p, stride, i)).size <= r.size {
        if i > 0 {
          PlaceNext(p, stride, i - 1);
          assert Offered(mem, p + stride, stop, stride, i - 1);
        }
      }
      if r != next {
        var i: nat :| Offered(mem, p + stride, stop, stride, i) && r == EntryRegion(mem, Place(p + stride, stride, i));
        PlaceNext(p, stride, i);
        assert Offered(mem, p, stop, stride, i + 1);
      } else if r != best {
        assert Offered(mem, p, stop, stride, 0);
      }
    } else {
      forall i: nat | Offered(mem, p, stop, stride, i) ensures false {
        if i > 0 {
          PlaceNext(p, stride, i - 1);
        }
      }
    }
  }

  lemma {:induction false} PlaceFirst(p: nat, stride: nat)
    ensures Place(p, stride, 0) == p
  {
  }

  // ---- The search for a region

  /** Entry i of the memory map tag at c is available: entries start 16 bytes into the tag, at the stride it gives. */
  predicate OfferedBy(mem: Memory, c: nat, i: nat) {
    && Read(mem, c, 4) == 6 && Read(mem, c + 4, 4) >= 16
    && Offered(mem, c + 16, c + Read(mem, c + 4, 4), Read(mem, c + 8, 4), i)
  }

  function RegionOf(mem: Memory, c: nat, i: nat): Region {
    EntryRegion(mem, Place(c + 16, Read(mem, c + 8, 4), i))
  }

  /** The tag at c makes the region search fail: shorter than a tag header, past the end, or a memory map with entries too
      short for their fields. */
  predicate Malformed(mem: Memory, c: nat, end: nat) {
    var size := TagSize(mem, c);
    && c + 8 <= end
    && (size < 8 || c + Align8(size) > end || (Read(mem, c, 4) == 6 && size >= 16 && Read(mem, c + 8, 4) < 24))
  }

  ghost predicate MeetsMalformed(mem: Memory, cursor: nat, end: nat) {
    exists c: nat :: Reaches(ForRegion, mem, cursor, end, c) && Malformed(mem, c, end)
  }

  /** The walk comes to the tag at c and goes on past it. */
  predicate Passes(mem: Memory, cursor: nat, end: nat, c: nat) {
    Reaches(ForRegion, mem, cursor, end, c) && GoesOn(ForRegion, mem, c, end)
  }

  lemma {:induction false} TagScanned(mem: Memory, c: nat, end: nat, best: Region)
    requires GoesOn(ForRegion, mem, c, end)
    ensures var r := AfterTag(mem, c, best);
            && r.size >= best.size
            && (forall i: nat :: OfferedBy(mem, c, i) ==> RegionOf(mem, c, i).size <= r.size)
            && (r == best || exists i: nat :: OfferedBy(mem, c, i) && r == RegionOf(mem, c, i))
  {
    hide Read, Align8, Scan, Offered, EntryRegion, Place;
    if HasEntries(mem, c) {
      var (p, stop, stride) := (c + 16, c + TagSize(mem, c), Read(mem, c + 8, 4));
      ScanExact(mem, p, stop, stride, best);
      var r := Scan(mem, p, stop, stride, best);
      if r != best {
        var i: nat :| Offered(mem, p, stop, stride, i) && r == EntryRegion(mem, Place(p, stride, i));
        assert OfferedBy(mem, c, i);
      }
    }
  }

  /** No available entry of any tag passed is larger. */
  ghost predicate NoneLarger(mem: Memory, cursor: nat, end: nat, size: nat) {
    forall c: nat, i: nat {:trigger Passes(mem, cursor, end, c), OfferedBy(mem, c, i)} ::
      Passes(mem, cursor, end, c) && OfferedBy(mem, c, i) ==> RegionOf(mem, c, i).size <= size
  }

  ghost predicate Offers(mem: Memory, cursor: nat, end: nat, r: Region) {
    exists c: nat, i: nat {:trigger Passes(mem, cursor, end, c), OfferedBy(mem, c, i)} ::
      Passes(mem, cursor, end, c) && OfferedBy(mem, c, i) && r == RegionOf(mem, c, i)
  }

  lemma {:induction false} PassesOn(mem: Memory, cursor: nat, end: nat, c: nat)
    requires GoesOn(ForRegion, mem, cursor, end) && TagSize(mem, cursor) <= 0xFFFF_FFF8
    ensures Passes(mem, cursor, end, c) <==> c == cursor || Passes(mem, cursor + Align8(TagSize(mem, cursor)), end, c)
  {
    hide GoesOn, TagSize, Align8;
  }

  lemma {:induction false} MalformedOn(mem: Memory, cursor: nat, end: nat)
    requires GoesOn(ForRegion, mem, cursor, end) && TagSize(mem, cursor) <= 0xFFFF_FFF8
    ensures MeetsMalformed(mem, cursor, end) <==> MeetsMalformed(mem, cursor + Align8(TagSize(mem, cursor)), end)
  {
    hide Read, Align8;
    var next := cursor + Align8(TagSize(mem, cursor));
    assert !Malformed(mem, cursor, end);
    if MeetsMalformed(mem, next, end) {
      var c: nat :| Reaches(ForRegion, mem, next, end, c) && Malformed(mem, c, end);
      assert Reaches(ForRegion, mem, cursor, end, c);
    }
  }

  /** One tag passed: what the rest of the walk offers, and what this tag does, is what the walk offers. */
  lemma {:induction false} OffersOn(mem: Memory, cursor: nat, end: nat, best: Region, r: Region)
    requires GoesOn(ForRegion, mem, cursor, end) && TagSize(mem, cursor) <= 0xFFFF_FFF8
    requires var (next, b) := (cursor + Align8(TagSize(mem, cursor)), AfterTag(mem, cursor, best));
             b.size <= r.size && NoneLarger(mem, next, end, r.size) && (r == b || Offers(mem, next, end, r))
    ensures best.size <= r.size && NoneLarger(mem, cursor, end, r.size) && (r == best || Offers(mem, cursor, end, r))
  {
    hide Passes, OfferedBy, RegionOf, AfterTag, GoesOn, TagSize, Align8;
    TagScanned(mem, cursor, end, best);
    var (next, b) := (cursor + Align8(TagSize(mem, cursor)), AfterTag(mem, cursor, best));
    forall c: nat ensures Passes(mem, cursor, end, c) <==> c == cursor || Passes(mem, next, end, c) {
      PassesOn(mem, cursor, end, c);
    }
    if r != b {
      var c: nat, i: nat :| Passes(mem, next, end, c) && OfferedBy(mem, c, i) && r == RegionOf(mem, c, i);
      assert Passes(mem, cursor, end, c);
    } else if b != best {
      var i: nat :| OfferedBy(mem, cursor, i) && b == RegionOf(mem, cursor, i);
      assert Passes(mem, cursor, end, cursor);
    }
  }

  lemma {:induction false} StopsHere(mem: Memory, cursor: nat, end: nat, size: nat)
    requires !GoesOn(ForRegion, mem, cursor, end)
    ensures NoneLarger(mem, cursor, end, size)
    ensures MeetsMalformed(mem, cursor, end) <==> Malformed(mem, cursor, end)
  {
    hide GoesOn, Malformed;
    assert Reaches(ForRegion, mem, cursor, end, cursor);
  }

  /** A region found is the one the walk began with or an available entry of a tag passed, and no available entry of any
      tag passed is larger; no region is found exactly when a malformed tag is met or nothing has a length. */
  lemma {:induction false} RegionWalkExact(mem: Memory, cursor: nat, end: nat, best: Region)
    ensures match WalkRegions(mem, cursor, end, best)
            case Found(r) =>
              && r.size > 0 && best.size <= r.size && !MeetsMalformed(mem, cursor, end)
              && NoneLarger(mem, cursor, end, r.size) && (r == best || Offers(mem, cursor, end, r))
            case Missing => MeetsMalformed(mem, cursor, end) || (best.size == 0 && NoneLarger(mem, cursor, end, 0))
            case Spins => true
    decreases end + 8 - cursor
  {
    hide TagSize, AfterTag, Align8, MeetsMalformed, NoneLarger, Offers, Read;
    if GoesOn(ForRegion, mem, cursor, end) {
      var size := TagSize(mem, cursor);
      Stalls(size);
      if size <= 0xFFFF_FFF8 {
        var (next, b) := (cursor + Align8(size), AfterTag(mem, cursor, best));
        RegionWalkExact(mem, next, end, b);
        MalformedOn(mem, cursor, end);
        match WalkRegions(mem, next, end, b) {
          case Found(r) => OffersOn(mem, cursor, end, best, r);
          case Missing =>
            if !MeetsMalformed(mem, next, end) {
              OffersOn(mem, cursor, end, best, b);
            }
          case Spins =>
        }
      }
    } else {
      StopsHere(mem, cursor, end, best.size);
    }
  }

  /** multiboot2_find_largest_available_region over any bytes: what it finds is an available entry that the walk came to,
      none of those is larger, and it fails exactly for want of a header, at a malformed tag, or when no available entry
      has a length. */
  lemma {:induction false} FoundInBytes(mem: Memory, info: nat)
    ensures var (start, end) := (info + 8, info + Read(mem, info, 4));
            match FindRegion(mem, info)
            case Found(r) =>
              && info != 0 && start <= end && r.size > 0 && !MeetsMalformed(mem, start, end)
              && Offers(mem, start, end, r) && NoneLarger(mem, start, end, r.size)
            case Missing => info == 0 || end < start || MeetsMalformed(mem, start, end) || NoneLarger(mem, start, end, 0)
            case Spins => true
  {
    hide Read, WalkRegions, MeetsMalformed, NoneLarger, Offers;
    RegionWalkExact(mem, info + 8, info + Read(mem, info, 4), Region(0, 0));
  }

  // ---- The search for the framebuffer

  /** The tag at c is a framebuffer tag within the information, long enough for what it says it holds. */
  predicate IsScreen(mem: Memory, c: nat, end: nat) {
    && c + 8 <= end && c + Align8(TagSize(mem, c)) <= end && Read(mem, c, 4) == 8
    && TagSize(mem, c) >= if Read(mem, c + 29, 1) == 1 then 38 else 32
  }

  /** The fields of a framebuffer tag; the colour fields count for direct colour only. */
  predicate Describes(mem: Memory, c: nat, f: Framebuffer) {
    && f.address == Read(mem, c + 8, 8) && f.pitch == Read(mem, c + 16, 4)
    && f.width == Read(mem, c + 20, 4) && f.height == Read(mem, c + 24, 4)
    && f.bpp == Read(mem, c + 28, 1) && f.kind == Read(mem, c + 29, 1) && |f.colors| == 6
    && forall i :: 0 <= i < 6 ==> f.colors[i] == if f.kind == 1 then Read(mem, c + 32 + i, 1) else 0
  }

  ghost predicate MeetsScreen(mem: Memory, cursor: nat, end: nat, f: Framebuffer) {
    exists c: nat :: Reaches(ForScreen, mem, cursor, end, c) && IsScreen(mem, c, end) && Describes(mem, c, f)
  }

  /** A framebuffer is found if and only if the walk comes to a framebuffer tag, and it is the one described there. */
  lemma {:induction false} ScreenWalkExact(mem: Memory, cursor: nat, end: nat, f: Framebuffer)
    ensures WalkScreens(mem, cursor, end) == Found(f) <==> MeetsScreen(mem, cursor, end, f)
    decreases end + 8 - cursor
  {
    hide TagSize, Align8, Read, Describes, ReadFramebuffer;
    assert Reaches(ForScreen, mem, cursor, end, cursor);
    if cursor + 8 <= end && 8 <= TagSize(mem, cursor) && cursor + Align8(TagSize(mem, cursor)) <= end
       && TagType(mem, cursor) == 8 && TagSize(mem, cursor) >= 32 {
      ScreenHere(mem, cursor, end, f);
    }
    if GoesOn(ForScreen, mem, cursor, end) {
      var size := TagSize(mem, cursor);
      Stalls(size);
      if size <= 0xFFFF_FFF8 {
        var next := cursor + Align8(size);
        ScreenWalkExact(mem, next, end, f);
        if MeetsScreen(mem, next, end, f) {
          var c: nat :| Reaches(ForScreen, mem, next, end, c) && IsScreen(mem, c, end) && Describes(mem, c, f);
          assert Reaches(ForScreen, mem, cursor, end, c);
        }
      }
    }
  }

  lemma {:induction false} ScreenHere(mem: Memory, c: nat, end: nat, f: Framebuffer)
    requires c + 8 <= end && TagSize(mem, c) >= 8 && c + Align8(TagSize(mem, c)) <= end
    requires TagType(mem, c) == 8 && TagSize(mem, c) >= 32
    ensures ReadFramebuffer(mem, c) == Found(f) <==> IsScreen(mem, c, end) && Describes(mem, c, f)
  {
    hide Read, Align8;
    if Describes(mem, c, f) {
      assert f.colors == if f.kind == 1 then ReadColors(mem, c + 32) else [0, 0, 0, 0, 0, 0];
    }
  }

  /** multiboot2_find_framebuffer over any bytes. */
  lemma {:induction false} ScreenInBytes(mem: Memory, info: nat, f: Framebuffer)
    ensures var (start, end) := (info + 8, info + Read(mem, info, 4));
            FindFramebuffer(mem, info) == Found(f) <==> info != 0 && start <= end && MeetsScreen(mem, start, end, f)
  {
    hide Read, WalkScreens, MeetsScreen;
    ScreenWalkExact(mem, info + 8, info + Read(mem, info, 4), f);
  }
}
