/** Little-endian fields in memory and in a buffer. */
module BootBytes {
  import opened Words

  /** The contents of every address. */
  type Memory = nat -> Byte

  function Bytes(n: nat, k: nat): (s: seq<Byte>)
    ensures |s| == k
    decreases k, n
  {
    if k == 0 then [] else [n % 256] + Bytes(n / 256, k - 1)
  }

  function Read(mem: Memory, a: nat, k: nat): nat
    decreases k, a
  {
    if k == 0 then 0 else mem(a) + 256 * Read(mem, a + 1, k - 1)
  }

  /** n is representable in k bytes. */
  predicate Fits(n: nat, k: nat)
    decreases k, n
  {
    if k == 0 then n == 0 else Fits(n / 256, k - 1)
  }

  lemma {:induction false} Fit(n: nat)
    ensures n < 256 ==> Fits(n, 1)
    ensures n < 0x1_0000 ==> Fits(n, 2)
    ensures n < 0x1_0000_0000 ==> Fits(n, 4)
    ensures n < 0x1_0000_0000_0000_0000 ==> Fits(n, 8)
  {
    hide Fits;
    var n1 := n / 256;
    var n2 := n1 / 256;
    var n3 := n2 / 256;
    var n4 := n3 / 256;
    var n5 := n4 / 256;
    var n6 := n5 / 256;
    var n7 := n6 / 256;
    var n8 := n7 / 256;
    FitsStep(n, 1); FitsStep(n1, 0);
    FitsStep(n, 2); FitsStep(n1, 1); FitsStep(n2, 0);
    FitsStep(n, 4); FitsStep(n1, 3); FitsStep(n2, 2); FitsStep(n3, 1); FitsStep(n4, 0);
    FitsStep(n, 8); FitsStep(n1, 7); FitsStep(n2, 6); FitsStep(n3, 5); FitsStep(n4, 4); FitsStep(n5, 3); FitsStep(n6, 2);
    FitsStep(n7, 1); FitsStep(n8, 0);
  }

  lemma {:induction false} FitsStep(n: nat, k: nat)
    ensures Fits(n, k) <==> if k == 0 then n == 0 else Fits(n / 256, k - 1)
  {
  }

  /** Memory holds s from address a on. */
  predicate Loaded(mem: Memory, a: nat, s: seq<Byte>)
    decreases |s|
  {
    s == [] || (mem(a) == s[0] && Loaded(mem, a + 1, s[1..]))
  }

  lemma {:induction false} LoadedSplit(mem: Memory, a: nat, s: seq<Byte>, t: seq<Byte>)
    ensures Loaded(mem, a, s + t) <==> Loaded(mem, a, s) && Loaded(mem, a + |s|, t)
    decreases |s|
  {
    if s == [] {
      assert s + t == t;
    } else {
      assert (s + t)[1..] == s[1..] + t;
      LoadedSplit(mem, a + 1, s[1..], t);
    }
  }

  /** Reading back what was stored. */
  lemma {:induction false} ReadsBack(mem: Memory, a: nat, n: nat, k: nat)
    requires Loaded(mem, a, Bytes(n, k)) && Fits(n, k)
    ensures Read(mem, a, k) == n
    decreases k
  {
    if k > 0 {
      var s := Bytes(n, k);
      assert s[1..] == Bytes(n / 256, k - 1);
      ReadsBack(mem, a + 1, n / 256, k - 1);
    }
  }

  lemma {:induction false} ReadsFields(mem: Memory, a: nat, n: nat, k: nat, rest: seq<Byte>)
    requires Loaded(mem, a, Bytes(n, k) + rest) && Fits(n, k)
    ensures Read(mem, a, k) == n && Loaded(mem, a + k, rest)
  {
    hide Bytes, Fits, Read, Loaded;
    LoadedSplit(mem, a, Bytes(n, k), rest);
    ReadsBack(mem, a, n, k);
  }

  // ---- Writing into a buffer

  function Patch(b: seq<Byte>, at: nat, s: seq<Byte>): (r: seq<Byte>)
    requires at + |s| <= |b|
    ensures |r| == |b|
  {
    b[..at] + s + b[at + |s|..]
  }

  lemma {:induction false} PatchAfter(b: seq<Byte>, at: nat, s: seq<Byte>, t: seq<Byte>)
    requires at + |s| + |t| <= |b|
    ensures Patch(Patch(b, at, s), at + |s|, t) == Patch(b, at, s + t)
  {
  }

  lemma {:induction false} PatchBefore(b: seq<Byte>, at: nat, s: seq<Byte>, t: seq<Byte>)
    requires at + |s| + |t| <= |b|
    ensures Patch(Patch(b, at + |s|, t), at, s) == Patch(b, at, s + t)
  {
  }

  lemma {:induction false} BytesNext(n: nat, k: nat)
    requires k > 0
    ensures Bytes(n, k) == [n % 256] + Bytes(n / 256, k - 1)
  {
  }

  lemma {:induction false} PatchNothing(b: seq<Byte>, at: nat)
    requires at <= |b|
    ensures Patch(b, at, []) == b
  {
  }

  method StoreByte(buf: array<Byte>, at: nat, x: Byte)
    requires at < buf.Length
    modifies buf
    ensures buf[..] == Patch(old(buf[..]), at, [x])
  {
    buf[at] := x;
  }

  method Store(buf: array<Byte>, at: nat, n: nat, k: nat)
    requires at + k <= buf.Length
    modifies buf
    ensures buf[..] == Patch(old(buf[..]), at, Bytes(n, k))
  {
    hide Bytes, Patch;
    ghost var b, s := buf[..], Bytes(n, k);
    var i, v := 0, n;
    PatchNothing(b, at);
    while i < k
      invariant i <= k && Bytes(v, k - i) == s[i..] && buf[..] == Patch(b, at, s[..i])
    {
      BytesNext(v, k - i);
      PatchAfter(b, at, s[..i], [v % 256]);
      assert s[..i + 1] == s[..i] + [v % 256];
      StoreByte(buf, at + i, v % 256);
      v := v / 256;
      i := i + 1;
    }
    assert s[..k] == s;
  }
}
