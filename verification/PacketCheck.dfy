/** IPacket: the checksum a packet carries in its first four bytes, and what check accepts. */
module PacketCheck {
  import opened Crc32

  const MIN: nat := 16
  const MAX: nat := 4096

  /** The size field. */
  function SizeOf(d: seq<bv8>): nat
    requires |d| >= MIN
  {
    d[4] as nat + 256 * d[5] as nat
  }

  /** The packet is as long as it says, and says a size in range. */
  predicate InRange(d: seq<bv8>) {
    |d| >= MIN && MIN <= SizeOf(d) <= MAX && SizeOf(d) <= |d|
  }

  predicate Checks(d: seq<bv8>) {
    InRange(d) && Load32(d[..4]) == BitCrc(d[4..SizeOf(d)])
  }

  /** A 32-bit store on a little-endian machine. */
  function Store32(w: bv32): (p: seq<bv8>)
    ensures |p| == 4
  {
    [(w & 0xFF) as bv8, ((w >> 8) & 0xFF) as bv8, ((w >> 16) & 0xFF) as bv8, (w >> 24) as bv8]
  }

  lemma StoreLoads(w: bv32)
    ensures Load32(Store32(w)) == w
  {
  }

  lemma LoadInjective(p: seq<bv8>, q: seq<bv8>)
    requires |p| == |q| == 4 && Load32(p) == Load32(q)
    ensures p == q
  {
    hide Load32;
    assert p == [p[0], p[1], p[2], p[3]] && q == [q[0], q[1], q[2], q[3]];
    LoadBytes(p[0], p[1], p[2], p[3], q[0], q[1], q[2], q[3]);
  }

  lemma LoadBytes(a: bv8, b: bv8, c: bv8, d: bv8, e: bv8, f: bv8, g: bv8, h: bv8)
    requires Load32([a, b, c, d]) == Load32([e, f, g, h])
    ensures a == e && b == f && c == g && d == h
  {
  }

  lemma SizeKept(d: seq<bv8>, e: seq<bv8>)
    requires |e| == |d| >= MIN && e[4..] == d[4..]
    ensures SizeOf(e) == SizeOf(d)
  {
    assert e[4] == e[4..][0] == d[4] && e[5] == e[4..][1] == d[5];
  }

  lemma Sealed(d: seq<bv8>, e: seq<bv8>, n: bv32)
    requires InRange(d) && |e| == |d| && n == BitCrc(d[4..SizeOf(d)]) && e[..4] == Store32(n) && e[4..] == d[4..]
    ensures Checks(e)
  {
    StoreLoads(n);
    SizeKept(d, e);
    hide BitCrc, Load32, Store32, SizeOf;
    assert e[4..SizeOf(d)] == e[4..][..SizeOf(d) - 4] == d[4..SizeOf(d)];
  }

  class IPacket {
    const data: array<bv8>

    ghost predicate Valid()
      reads this
    {
      data.Length >= MIN
    }

    constructor (n: nat)
      requires n >= MIN
      ensures Valid() && fresh(data) && data.Length == n
    {
      data := new bv8[n];
    }

    function Size(): nat
      requires Valid()
      reads this, data
    {
      data[4] as nat + 256 * data[5] as nat
    }

    method Put(at: nat, x: seq<bv8>)
      requires at + |x| <= data.Length
      modifies data
      ensures data[..at] == old(data[..at]) && data[at..at + |x|] == x && data[at + |x|..] == old(data[at + |x|..])
    {
      for i := 0 to |x|
        invariant data[..at] == old(data[..at]) && data[at..at + i] == x[..i] && data[at + i..] == old(data[at + i..])
      {
        data[at + i] := x[i];
        assert x[..i + 1] == x[..i] + [x[i]];
        assert data[at..at + i + 1] == data[at..at + i] + [x[i]];
        assert old(data[at + i + 1..]) == old(data[at + i..])[1..];
        assert data[at + i + 1..] == data[at + i..][1..];
      }
      assert x[..|x|] == x;
    }

    /** update: the stamp and then the checksum of everything behind it are written, unless the size is out of range. */
    method Update(stamp: seq<bv8>) returns (ok: bool)
      requires Valid() && |stamp| == 8 && (MIN <= Size() <= MAX ==> Size() <= data.Length)
      modifies data
      ensures ok <==> MIN <= old(Size()) <= MAX
      ensures !ok ==> data[..] == old(data[..])
      ensures ok ==> Checks(data[..]) && data[8..16] == stamp && data[4..8] == old(data[4..8]) && data[16..] == old(data[16..])
    {
      var size := Size();
      if size > MAX || size < MIN {
        return false;
      }
      hide BitCrc, Load32, Store32;
      Put(8, stamp);
      Seal(size);
      assert data[8..16] == data[4..][4..12] && data[4..8] == data[4..][..4] && data[16..] == data[4..][12..];
      return true;
    }

    /** The checksum is computed and stored. */
    method Seal(size: nat)
      requires Valid() && size == Size() && MIN <= size <= MAX && size <= data.Length
      modifies data
      ensures Checks(data[..]) && data[4..] == old(data[4..])
    {
      hide BitCrc, Load32, Store32, Checks;
      ghost var d := data[..];
      var n := Crc(data[4..size], 4);
      Put(0, Store32(n));
      Sealed(d, data[..], n);
    }

    /** check. */
    method Check() returns (ok: bool)
      requires Valid() && (MIN <= Size() <= MAX ==> Size() <= data.Length)
      ensures ok <==> Checks(data[..])
    {
      hide BitCrc, Load32;
      var size := Size();
      if size > MAX || size < MIN {
        return false;
      }
      var n := Crc(data[4..size], 4);
      assert data[..][4..size] == data[4..size] && data[..][..4] == data[..4];
      if n != Load32(data[..4]) {
        return false;
      }
      return true;
    }
  }

  // ---------- What check rejects ----------

  lemma NotInjective(a: bv32, b: bv32)
    requires Not(a) == Not(b)
    ensures a == b
  {
  }

  /** Corruption of the covered bytes within 32 consecutive bits is rejected, if the size field still says the same. */
  lemma BurstRejected(d: seq<bv8>, e: seq<bv8>, pre: seq<bool>, a: seq<bool>, b: seq<bool>, post: seq<bool>)
    requires Checks(d) && |e| == |d| && e[..4] == d[..4] && SizeOf(e) == SizeOf(d)
    requires |a| == |b| <= 32 && a != b
    requires BitsOf(d[4..SizeOf(d)]) == pre + a + post && BitsOf(e[4..SizeOf(d)]) == pre + b + post
    ensures !Checks(e)
  {
    BurstDetected(ONES, pre, a, b, post);
    hide BitFold, Load32, BitsOf, Not;
    if Checks(e) { NotInjective(BitFold(ONES, pre + a + post), BitFold(ONES, pre + b + post)); }
  }

  lemma {:induction false} BitsOfAppend(p: seq<bv8>, q: seq<bv8>)
    ensures BitsOf(p + q) == BitsOf(p) + BitsOf(q)
  {
    hide ByteBits;
    if p == [] {
      assert p + q == q && [] + BitsOf(q) == BitsOf(q);
    } else {
      assert (p + q)[1..] == p[1..] + q;
      BitsOfAppend(p[1..], q);
    }
  }

  lemma ByteBitsInjective(a: bv8, b: bv8)
    requires ByteBits(a) == ByteBits(b)
    ensures a == b
  {
    assert forall i :: 0 <= i < 8 ==> ByteBits(a)[i] == ByteBits(b)[i];
    assert ByteBits(a)[0] == ByteBits(b)[0] && ByteBits(a)[1] == ByteBits(b)[1] && ByteBits(a)[2] == ByteBits(b)[2];
    assert ByteBits(a)[3] == ByteBits(b)[3] && ByteBits(a)[4] == ByteBits(b)[4] && ByteBits(a)[5] == ByteBits(b)[5];
  }

  lemma {:induction false} BitsOfInjective(p: seq<bv8>, q: seq<bv8>)
    requires |p| == |q| && BitsOf(p) == BitsOf(q)
    ensures p == q
  {
    hide ByteBits;
    if p != [] {
      assert BitsOf(p)[..8] == ByteBits(p[0]) && BitsOf(p)[8..] == BitsOf(p[1..]);
      assert BitsOf(q)[..8] == ByteBits(q[0]) && BitsOf(q)[8..] == BitsOf(q[1..]);
      ByteBitsInjective(p[0], q[0]);
      BitsOfInjective(p[1..], q[1..]);
      assert p == [p[0]] + p[1..] && q == [q[0]] + q[1..];
    }
  }

  /** Corruption of up to four consecutive covered bytes is rejected, if the size field still says the same. */
  lemma WindowRejected(d: seq<bv8>, e: seq<bv8>, i: nat, n: nat)
    requires Checks(d) && |e| == |d| && SizeOf(e) == SizeOf(d)
    requires n <= 4 && 4 <= i && i + n <= SizeOf(d) && d[i..i + n] != e[i..i + n]
    requires forall j :: 0 <= j < |d| && !(i <= j < i + n) ==> e[j] == d[j]
    ensures !Checks(e)
  {
    hide BitsOf, BitCrc, Load32;
    var s := SizeOf(d);
    var p, x, y, q := d[4..i], d[i..i + n], e[i..i + n], d[i + n..s];
    WindowParts(d, e, i, n, s);
    BitsOfAppend(p + x, q);
    BitsOfAppend(p + y, q);
    BitsOfAppend(p, x);
    BitsOfAppend(p, y);
    BitsSize(x);
    BitsSize(y);
    if BitsOf(x) == BitsOf(y) { BitsOfInjective(x, y); }
    BurstRejected(d, e, BitsOf(p), BitsOf(x), BitsOf(y), BitsOf(q));
  }

  lemma BitsSize(p: seq<bv8>)
    ensures |BitsOf(p)| == 8 * |p|
  {
  }

  lemma WindowParts(d: seq<bv8>, e: seq<bv8>, i: nat, n: nat, s: nat)
    requires |e| == |d| && 4 <= i && i + n <= s <= |d| && forall j :: 0 <= j < |d| && !(i <= j < i + n) ==> e[j] == d[j]
    ensures d[4..s] == (d[4..i] + d[i..i + n]) + d[i + n..s] && e[4..s] == (d[4..i] + e[i..i + n]) + d[i + n..s] && e[..4] == d[..4]
  {
  }

  /** Any corruption of the checksum field alone is rejected. */
  lemma FieldRejected(d: seq<bv8>, e: seq<bv8>)
    requires Checks(d) && |e| == |d| && e[4..] == d[4..] && e[..4] != d[..4]
    ensures !Checks(e)
  {
    hide BitCrc, Load32;
    assert forall j :: 4 <= j < |d| ==> e[j] == e[4..][j - 4] == d[j];
    assert e[4..SizeOf(d)] == d[4..SizeOf(d)];
    if Checks(e) { LoadInjective(d[..4], e[..4]); }
  }
}
