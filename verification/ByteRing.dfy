/** RingBufferBase: one thread sends bytes, one receives them; and the overlapped I/O descriptors over the same ring. */
module ByteRing {
  import opened Bits
  import opened Ring

  newtype byte = x: int | 0 <= x < 256

  // ---------- Batches in one or two parts ----------

  /** dbuf: where a batch of bytes lies in the buffer; the second part starts at slot 0 or is absent. */
  datatype Segs = Segs(buf0: nat, len0: nat, len1: nat)

  /** The descriptors for sz bytes from position p. */
  function SegsFor<T>(r: Ring<T>, p: nat, sz: nat): Segs {
    if sz + p > Mask(r) && p <= |r.buf| then Segs(p, Mask(r) + 1 - p, sz + p - Mask(r) - 1) else Segs(p, sz, 0)
  }

  /** The bytes the descriptors denote. */
  function Denoted<T>(buf: seq<T>, d: Segs): seq<T>
    requires d.buf0 + d.len0 <= |buf| && d.len1 <= |buf|
  {
    buf[d.buf0..d.buf0 + d.len0] + buf[..d.len1]
  }

  /** The j-th byte the descriptors denote is the one in the j-th slot from p on. */
  ghost predicate DenotesSlot<T>(r: Ring<T>, p: nat, d: Segs, j: nat)
    requires d.buf0 + d.len0 <= |r.buf| && d.len1 <= |r.buf| && j < d.len0 + d.len1
  {
    Slot(r, Fold(p + j, |r.buf|)) && Denoted(r.buf, d)[j] == r.buf[Fold(p + j, |r.buf|)]
  }

  /** Descriptors for sz bytes from p denote the sz slots of the ring from p on, in order. */
  lemma SegsAreSlots<T>(r: Ring<T>, p: nat, sz: nat)
    requires Slot(r, p) && sz < |r.buf|
    ensures var d := SegsFor(r, p, sz);
      && d.buf0 + d.len0 <= |r.buf| && d.len1 <= |r.buf| && d.len0 + d.len1 == sz
      && forall j: nat :: j < sz ==> DenotesSlot(r, p, d, j)
  {
    var d := SegsFor(r, p, sz);
    forall j: nat | j < sz ensures DenotesSlot(r, p, d, j) {
      if j < d.len0 { assert r.buf[d.buf0..d.buf0 + d.len0][j] == r.buf[p + j]; } else { assert r.buf[..d.len1][j - d.len0] == r.buf[j - d.len0]; }
    }
  }

  /** The segments of the next sz bytes hold just those. */
  lemma SegsAreContents<T>(r: Ring<T>, sz: nat)
    requires Shape(r) && sz <= |Contents(r)|
    ensures var d := SegsFor(r, r.head, sz);
      d.buf0 + d.len0 <= |r.buf| && d.len1 <= |r.buf| && Denoted(r.buf, d) == Contents(r)[..sz]
  {
    hide Contents, IsPow2;
    ContentsAt(r);
    SegsAreSlots(r, r.head, sz);
    var d := SegsFor(r, r.head, sz);
    forall j | 0 <= j < sz ensures Denoted(r.buf, d)[j] == Contents(r)[j] {
      assert DenotesSlot(r, r.head, d, j);
      assert At(r, j) == Fold(r.head + j, |r.buf|);
    }
  }

  /** Free segments share no slot with the contents. */
  lemma SegsAreFree<T>(r: Ring<T>, sz: nat, j: nat, i: nat)
    requires Shape(r) && j < sz && sz + Used(r) < |r.buf| && i < Used(r)
    ensures Fold(r.rear + j, |r.buf|) != At(r, i)
  {
    hide IsPow2;
  }

  /** buf2 is the buffer with the batch x written from rear on. */
  ghost predicate BatchWritten<T>(r: Ring<T>, buf2: seq<T>, x: seq<T>) {
    && |buf2| == |r.buf|
    && Written(r.(buf := buf2), x, |x|)
    && forall i :: 0 <= i < Used(r) && Slot(r, At(r, i)) ==> buf2[At(r, i)] == r.buf[At(r, i)]
  }

  lemma BatchAppended<T>(r: Ring<T>, buf2: seq<T>, x: seq<T>, e: int)
    requires Shape(r) && Used(r) + |x| < |r.buf| && BatchWritten(r, buf2, x) && e == Fold(r.rear + |x|, |r.buf|)
    ensures Shape(Ring(buf2, r.head, e)) && Contents(Ring(buf2, r.head, e)) == Contents(r) + x
  {
    var r2 := r.(buf := buf2);
    SameWhereUsed(r, r2);
    hide Contents, IsPow2;
    AdvanceRear(r2, x, e);
  }

  lemma SameWhereUsed<T>(r: Ring<T>, r2: Ring<T>)
    requires Shape(r) && |r2.buf| == |r.buf| && r2.head == r.head && r2.rear == r.rear
    requires forall i :: 0 <= i < Used(r) && Slot(r, At(r, i)) ==> r2.buf[At(r, i)] == r.buf[At(r, i)]
    ensures Shape(r2) && Contents(r2) == Contents(r)
  {
    hide Contents, IsPow2, At;
    ContentsAt(r);
    ContentsAt(r2);
    forall i | 0 <= i < Used(r) ensures Contents(r2)[i] == Contents(r)[i] { SameAt(r, r2, i); }
  }

  /** mem with x copied to offset at. */
  function Copied<T>(mem: seq<T>, at: nat, x: seq<T>): (m: seq<T>)
    requires at + |x| <= |mem|
    ensures |m| == |mem|
  {
    mem[..at] + x + mem[at + |x|..]
  }

  lemma CopiedMore<T>(mem: seq<T>, at: nat, x: seq<T>, b: T)
    requires at + |x| < |mem|
    ensures Copied(mem, at, x)[at + |x| := b] == Copied(mem, at, x + [b])
  {
  }

  /** The one or two memcpy calls of send. */
  function SentInto<T>(r: Ring<T>, x: seq<T>): seq<T>
    requires Slot(r, r.rear) && |x| < |r.buf|
  {
    var kn := r.rear + |x| - Mask(r) - 1;
    if kn > 0 then Copied(Copied(r.buf, r.rear, x[..|x| - kn]), 0, x[|x| - kn..]) else Copied(r.buf, r.rear, x)
  }

  lemma SentIsWritten<T>(r: Ring<T>, x: seq<T>)
    requires Shape(r) && Used(r) + |x| < |r.buf|
    ensures BatchWritten(r, SentInto(r, x), x)
  {
    hide IsPow2;
    var b := SentInto(r, x);
    forall j: nat | j < |x| ensures StandsAt(r.(buf := b), j, x[j]) {}
    forall i | 0 <= i < Used(r) && Slot(r, At(r, i)) ensures b[At(r, i)] == r.buf[At(r, i)] {}
  }

  // ---------- The buffer, used by one thread at a time ----------

  class RingBuffer {
    const pBuffer: array<byte>
    var rd_pos: int
    var wr_pos: int

    ghost function State(): Ring<byte>
      reads this, pBuffer
    {
      Ring(pBuffer[..], rd_pos, wr_pos)
    }

    ghost predicate Valid()
      reads this, pBuffer
    {
      Shape(State())
    }

    ghost function Bytes(): seq<byte>
      requires Valid()
      reads this, pBuffer
    {
      Contents(State())
    }

    /** reset, with a capacity that is a power of two. */
    constructor (k: nat)
      requires IsPow2(k)
      ensures Valid() && fresh(pBuffer) && pBuffer.Length == k && Bytes() == []
    {
      pBuffer := new byte[k];
      rd_pos, wr_pos := 0, 0;
    }

    method RdFree() returns (n: nat)
      requires Valid()
      ensures n == |Bytes()|
    {
      hide Contents, IsPow2, And;
      Folds(State());
      UsedBounds(State());
      n := And(wr_pos - rd_pos, pBuffer.Length - 1);
      assert n == Pos(State(), wr_pos - rd_pos);
    }

    method WrFree() returns (n: nat)
      requires Valid()
      ensures |Bytes()| + n == pBuffer.Length - 1
    {
      hide Contents, IsPow2, And;
      Folds(State());
      UsedBounds(State());
      n := And(rd_pos - wr_pos - 1, pBuffer.Length - 1);
      assert n == Pos(State(), rd_pos - wr_pos - 1);
    }

    /** The next kp bytes, in one or two parts. */
    method CopyOut(kp: nat) returns (p: seq<byte>)
      requires Valid() && kp <= |Bytes()|
      ensures p == Bytes()[..kp]
    {
      ghost var r := State();
      UsedBounds(r);
      SegsAreContents(r, kp);
      hide Contents, IsPow2;
      var kn := rd_pos + kp - pBuffer.Length;
      if kn > 0 {
        p := pBuffer[rd_pos..rd_pos + (kp - kn)] + pBuffer[..kn];
      } else {
        p := pBuffer[rd_pos..rd_pos + kp];
      }
    }

    /** peek: up to n bytes, which stay in the buffer. */
    method Peek(n: nat) returns (p: seq<byte>)
      requires Valid()
      ensures p == Bytes()[..if |Bytes()| > n then n else |Bytes()|]
    {
      var kp := RdFree();
      if kp > n {
        kp := n;
      } else if kp == 0 {
        return [];
      }
      p := CopyOut(kp);
    }

    /** recv: up to n bytes, which leave the buffer. */
    method Recv(n: nat) returns (p: seq<byte>)
      requires Valid()
      modifies this`rd_pos
      ensures Valid()
      ensures p == old(Bytes())[..if |old(Bytes())| > n then n else |old(Bytes())|]
      ensures Bytes() == old(Bytes())[|p|..]
    {
      hide Contents, IsPow2, And;
      ghost var r := State();
      var kp := RdFree();
      if kp == 0 {
        return [];
      }
      if kp > n {
        kp := n;
      }
      p := CopyOut(kp);
      UsedBounds(r);
      BatchSlots(r, r.head, kp);
      AdvanceHead(r, kp, BatchEnd(r, r.head, kp));
      var kn := rd_pos + kp - pBuffer.Length;
      if kn > 0 {
        rd_pos := kn;
      } else {
        rd_pos := And(kn, pBuffer.Length - 1);
      }
      assert State() == r.(head := BatchEnd(r, r.head, kp));
    }

    method Memcpy(at: nat, x: seq<byte>)
      requires at + |x| <= pBuffer.Length
      modifies pBuffer
      ensures pBuffer[..] == Copied(old(pBuffer[..]), at, x)
    {
      ghost var was := pBuffer[..];
      assert was == Copied(was, at, x[..0]);
      hide Copied;
      for i := 0 to |x|
        invariant pBuffer[..] == Copied(was, at, x[..i])
      {
        ghost var before := pBuffer[..];
        CopiedMore(was, at, x[..i], x[i]);
        pBuffer[at + i] := x[i];
        assert pBuffer[..] == before[at + i := x[i]];
        assert x[..i + 1] == x[..i] + [x[i]];
      }
      assert x[..|x|] == x;
    }

    /** send: all of p or nothing. */
    method Send(p: seq<byte>) returns (n: nat)
      requires Valid()
      modifies this`wr_pos, pBuffer
      ensures Valid()
      ensures n == if |old(Bytes())| + |p| <= pBuffer.Length - 1 then |p| else 0
      ensures Bytes() == if |old(Bytes())| + |p| <= pBuffer.Length - 1 then old(Bytes()) + p else old(Bytes())
    {
      hide Contents, IsPow2, And, BatchWritten, Copied;
      ghost var r := State();
      var kp := WrFree();
      if kp < |p| {
        return 0;
      }
      UsedBounds(r);
      BatchSlots(r, r.rear, |p|);
      SentIsWritten(r, p);
      var kn := wr_pos + |p| - pBuffer.Length;
      if kn > 0 {
        Memcpy(wr_pos, p[..|p| - kn]);
        Memcpy(0, p[|p| - kn..]);
        wr_pos := kn;
      } else {
        Memcpy(wr_pos, p);
        wr_pos := And(kn, pBuffer.Length - 1);
      }
      assert pBuffer[..] == SentInto(r, p);
      BatchAppended(r, SentInto(r, p), p, BatchEnd(r, r.rear, |p|));
      return |p|;
    }

    /** The length prefix of the next packet: two bytes, low byte first. */
    ghost function Prefix(): int
      requires Valid() && |Bytes()| >= 2
      reads this, pBuffer
    {
      Bytes()[0] as int + 256 * Bytes()[1] as int
    }

    /** packet(): is a whole packet in the buffer? The length prefix counts itself. */
    method HasPacket() returns (ok: bool)
      requires Valid()
      ensures ok <==> |Bytes()| >= 2 && Prefix() <= |Bytes()|
    {
      var h := Peek(2);
      if |h| != 2 {
        return false;
      }
      var kp := RdFree();
      return h[0] as int + 256 * h[1] as int <= kp;
    }

    /** packet(p, n): take the next packet if it is complete and n bytes are enough for it; size is 0 if it is
        not complete, and minus the size needed if n is too small. */
    method Packet(n: nat) returns (size: int, p: seq<byte>)
      requires Valid()
      modifies this`rd_pos
      ensures Valid()
      ensures |old(Bytes())| < 2 || old(Prefix()) > |old(Bytes())| ==> size == 0 && Bytes() == old(Bytes())
      ensures |old(Bytes())| >= 2 && n < old(Prefix()) <= |old(Bytes())| ==> size == -old(Prefix()) && Bytes() == old(Bytes())
      ensures |old(Bytes())| >= 2 && old(Prefix()) <= |old(Bytes())| && old(Prefix()) <= n ==>
        size == old(Prefix()) && p == old(Bytes())[..size] && Bytes() == old(Bytes())[size..]
    {
      p := [];
      var h := Peek(2);
      if |h| != 2 {
        return 0, p;
      }
      size := h[0] as int + 256 * h[1] as int;
      var kp := RdFree();
      if size > kp {
        return 0, p;
      }
      if n < size {
        return -size, p;
      }
      p := Recv(size);
      size := |p|;
    }

    method Rewind()
      requires Valid()
      modifies this`rd_pos, this`wr_pos
      ensures Valid() && Bytes() == []
    {
      wr_pos, rd_pos := 0, 0;
    }

    method RdFlip(n: nat)
      requires Valid() && n <= |Bytes()|
      modifies this`rd_pos
      ensures Valid() && Bytes() == old(Bytes())[n..]
    {
      hide Contents, IsPow2, And;
      ghost var r := State();
      UsedBounds(r);
      MaskFolds(rd_pos + n, pBuffer.Length);
      AdvanceHead(r, n, Fold(r.head + n, pBuffer.Length));
      rd_pos := And(rd_pos + n, pBuffer.Length - 1);
      assert State() == r.(head := Fold(r.head + n, pBuffer.Length));
    }

    /** The n bytes that were put into the free space behind the contents become contents. */
    method WrFlip(n: nat, ghost x: seq<byte>)
      requires Valid() && |x| == n && |Bytes()| + n < pBuffer.Length && Written(State(), x, n)
      modifies this`wr_pos
      ensures Valid() && Bytes() == old(Bytes()) + x
    {
      hide Contents, IsPow2, And;
      ghost var r := State();
      UsedBounds(r);
      MaskFolds(wr_pos + n, pBuffer.Length);
      AdvanceRear(r, x, Fold(r.rear + n, pBuffer.Length));
      wr_pos := And(wr_pos + n, pBuffer.Length - 1);
      assert State() == r.(rear := Fold(r.rear + n, pBuffer.Length));
    }
  }
}
