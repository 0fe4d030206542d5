/**
  Q2Packet: cutting a byte stream that arrives in arbitrary chunks into packets. Parse says what a
  stream means; the class keeps a partial packet between chunks and is proved to report just that.
 */
module Q2Packet {

  newtype byte = x: int | 0 <= x < 256

  const MIN: nat := 16
  const MAX: nat := 4096

  /** Alignment of packets in the buffer: sizeof(void*). */
  const WORD: nat := 8

  // ---------- What a stream means ----------

  /** The size field of a packet header. */
  function Size(s: seq<byte>): nat
    requires |s| >= MIN
  {
    s[4] as nat + 256 * s[5] as nat
  }

  /** The bytes a packet occupies: never less than a header. */
  function Cut(s: seq<byte>): nat
    requires |s| >= MIN
  {
    if Size(s) > MIN then Size(s) else MIN
  }

  /** rest: the partial packet left over; bad: a size above MAX was met, and rest is its header. */
  datatype Parsed = Parsed(packets: seq<seq<byte>>, rest: seq<byte>, bad: bool)

  function Parse(s: seq<byte>): Parsed
    decreases |s|
  {
    if |s| < MIN then Parsed([], s, false)
    else if Size(s) > MAX then Parsed([], s[..MIN], true)
    else if Cut(s) > |s| then Parsed([], s, false)
    else Prepend([s[..Cut(s)]], Parse(s[Cut(s)..]))
  }

  function Prepend(ps: seq<seq<byte>>, r: Parsed): Parsed {
    r.(packets := ps + r.packets)
  }

  /** What may be left over: nothing more to cut off. */
  predicate IsRest(r: seq<byte>) {
    |r| < MIN || (Cut(r) > |r| && Size(r) <= MAX) || (|r| == MIN && Size(r) > MAX)
  }

  lemma SameHeader(a: seq<byte>, b: seq<byte>)
    requires |a| >= MIN && |b| >= MIN && a[..MIN] == b[..MIN]
    ensures Size(a) == Size(b) && Cut(a) == Cut(b)
  {
    assert a[4] == a[..MIN][4] == b[4] && a[5] == a[..MIN][5] == b[5];
  }

  lemma {:induction false} RestIsRest(s: seq<byte>)
    ensures IsRest(Parse(s).rest) && |Parse(s).rest| < MAX
    ensures Parse(s).bad <==> |Parse(s).rest| >= MIN && Size(Parse(s).rest) > MAX
    decreases |s|
  {
    if |s| >= MIN {
      if Size(s) > MAX { SameHeader(s, s[..MIN]); } else if Cut(s) <= |s| { RestIsRest(s[Cut(s)..]); }
    }
  }

  /** A leftover parses to itself. */
  lemma RestParses(r: seq<byte>)
    requires IsRest(r)
    ensures Parse(r).packets == [] && Parse(r).rest == r
  {
    if |r| == MIN { assert r[..MIN] == r; }
  }

  /** Parsing a and then b with what a left over is parsing a and b together. */
  lemma {:induction false} ParseSplit(a: seq<byte>, b: seq<byte>)
    ensures Parse(a + b) == Prepend(Parse(a).packets, Parse(Parse(a).rest + b))
    decreases |a|
  {
    if |a| < MIN {
    } else {
      assert (a + b)[..MIN] == a[..MIN];
      SameHeader(a + b, a);
      if Size(a) > MAX {
        assert (a[..MIN] + b)[..MIN] == a[..MIN];
        SameHeader(a, a[..MIN] + b);
      } else if Cut(a) <= |a| {
        var c := Cut(a);
        assert (a + b)[..c] == a[..c] && (a + b)[c..] == a[c..] + b;
        ParseSplit(a[c..], b);
        PrependTwice([a[..c]], Parse(a[c..]).packets, Parse(Parse(a[c..]).rest + b));
      }
    }
  }

  lemma PrependTwice(ps: seq<seq<byte>>, qs: seq<seq<byte>>, r: Parsed)
    ensures Prepend(ps, Prepend(qs, r)) == Prepend(ps + qs, r)
  {
    assert ps + (qs + r.packets) == ps + qs + r.packets;
  }

  /** Feeding chunks one after the other, keeping the leftover in between. */
  function Feed(r: seq<byte>, chunks: seq<seq<byte>>): Parsed
    decreases |chunks|
  {
    if chunks == [] then Parse(r)
    else var p := Parse(r + chunks[0]); Prepend(p.packets, Feed(p.rest, chunks[1..]))
  }

  function Concat(chunks: seq<seq<byte>>): seq<byte> {
    if chunks == [] then [] else chunks[0] + Concat(chunks[1..])
  }

  /** However a stream is cut into chunks, the packets reported, the leftover and the verdict are the same. */
  lemma {:induction false} ChunkingIndependent(r: seq<byte>, chunks: seq<seq<byte>>)
    ensures Feed(r, chunks) == Parse(r + Concat(chunks))
    decreases |chunks|
  {
    if chunks == [] {
      assert r + [] == r;
    } else {
      var p := Parse(r + chunks[0]);
      ChunkingIndependent(p.rest, chunks[1..]);
      ParseSplit(r + chunks[0], Concat(chunks[1..]));
      assert r + Concat(chunks) == r + chunks[0] + Concat(chunks[1..]);
    }
  }

  predicate WellFormed(p: seq<byte>) {
    MIN <= |p| <= MAX && Size(p) == |p|
  }

  lemma FirstComesBack(p: seq<byte>, rest: seq<byte>)
    requires WellFormed(p)
    ensures Parse(p + rest) == Prepend([p], Parse(rest))
  {
    var s := p + rest;
    assert s[..MIN] == p[..MIN];
    SameHeader(s, p);
    assert s[..|p|] == p && s[|p|..] == rest;
  }

  /** A stream of well-formed packets comes back as those packets. */
  lemma {:induction false} PacketsComeBack(ps: seq<seq<byte>>, tail: seq<byte>)
    requires forall i :: 0 <= i < |ps| ==> WellFormed(ps[i])
    requires IsRest(tail) && (|tail| >= MIN ==> Size(tail) <= MAX)
    ensures Parse(Concat(ps) + tail) == Parsed(ps, tail, false)
    decreases |ps|
  {
    if ps == [] {
      assert [] + tail == tail;
      RestParses(tail);
    } else {
      assert Concat(ps) + tail == ps[0] + (Concat(ps[1..]) + tail);
      hide Parse, Concat, IsRest, WellFormed;
      FirstComesBack(ps[0], Concat(ps[1..]) + tail);
      PacketsComeBack(ps[1..], tail);
      assert [ps[0]] + ps[1..] == ps;
    }
  }

  /** Every packet reported is as long as its header says, or a header long if that says less. */
  lemma {:induction false} PacketsAsSaid(s: seq<byte>)
    ensures forall i :: 0 <= i < |Parse(s).packets| ==>
      var p := Parse(s).packets[i]; MIN <= |p| <= MAX && |p| == if Size(p) > MIN then Size(p) else MIN
    decreases |s|
  {
    if |s| >= MIN && Size(s) <= MAX && Cut(s) <= |s| {
      var c, t := Cut(s), s[Cut(s)..];
      PacketsAsSaid(t);
      assert s[..c][..MIN] == s[..MIN];
      SameHeader(s[..c], s);
      assert Parse(s).packets == [s[..c]] + Parse(t).packets;
    }
  }

  /** No byte is dropped or made up: the packets and what is left over are the stream, up to the first size above MAX,
      whose header is left over. */
  lemma {:induction false} NothingDropped(s: seq<byte>)
    ensures Concat(Parse(s).packets) + Parse(s).rest <= s
    ensures !Parse(s).bad ==> Concat(Parse(s).packets) + Parse(s).rest == s
    decreases |s|
  {
    if |s| >= MIN && Size(s) <= MAX && Cut(s) <= |s| {
      var c, t := Cut(s), s[Cut(s)..];
      NothingDropped(t);
      var ps := Parse(t).packets;
      assert Parse(s).packets[0] == s[..c] && Parse(s).packets[1..] == ps;
      assert Concat(Parse(s).packets) + Parse(t).rest == s[..c] + (Concat(ps) + Parse(t).rest);
      assert s == s[..c] + t;
    } else {
      assert [] + Parse(s).rest == Parse(s).rest;
    }
  }

  /** A header with a size above MAX ends it there. */
  lemma BadAtOnce(h: seq<byte>, rest: seq<byte>)
    requires |h| == MIN && Size(h) > MAX
    ensures Parse(h + rest) == Parsed([], h, true)
  {
    assert (h + rest)[..MIN] == h && h[..MIN] == h;
    SameHeader(h + rest, h);
  }

  /** A size above MAX is reported at once and ever after, whatever else arrives. */
  lemma BadIsForever(r: seq<byte>, b: seq<byte>)
    requires IsRest(r) && Parse(r).bad
    ensures Parse(r + b) == Parsed([], r, true)
  {
    RestIsRest(r);
    RestParses(r);
    assert (r + b)[..MIN] == r[..MIN] && r[..MIN] == r;
    SameHeader(r + b, r);
  }

  // ---------- How much buffer it takes ----------

  function AlignUp(x: nat): nat {
    (x + (WORD - 1)) / WORD * WORD
  }

  /** How far the buffer is filled by stream s laid out from offset off, each packet aligned. */
  function HighWater(off: nat, s: seq<byte>): nat
    decreases |s|
  {
    if |s| < MIN then off + |s|
    else if Size(s) > MAX then off + MIN
    else if Cut(s) > |s| then off + |s|
    else HighWater(AlignUp(off + Cut(s)), s[Cut(s)..])
  }

  /** What packets take in the buffer, each padded. */
  function PaddedSum(ps: seq<seq<byte>>): nat {
    if ps == [] then 0 else AlignUp(|ps[0]|) + PaddedSum(ps[1..])
  }

  /** The buffer holds the packets of the stream, padded, and what is left over. */
  lemma {:induction false} HighWaterIs(off: nat, s: seq<byte>)
    requires off % WORD == 0
    ensures HighWater(off, s) == off + Needs(s)
    decreases |s|
  {
    hide AlignUp, Size;
    if |s| >= MIN && Size(s) <= MAX && Cut(s) <= |s| {
      var t := s[Cut(s)..];
      AlignAdds(off, Cut(s));
      HighWaterIs(AlignUp(off + Cut(s)), t);
      assert Parse(s).packets[0] == s[..Cut(s)] && Parse(s).packets[1..] == Parse(t).packets;
    }
  }

  /** The buffer a stream needs: its packets, each padded, and what is left over. */
  function Needs(s: seq<byte>): nat {
    PaddedSum(Parse(s).packets) + |Parse(s).rest|
  }

  lemma AlignAdds(off: nat, n: nat)
    requires off % WORD == 0
    ensures AlignUp(off + n) == off + AlignUp(n) && AlignUp(off + n) % WORD == 0
  {
  }

  lemma AlignBounds(x: nat)
    ensures x <= AlignUp(x) && AlignUp(AlignUp(x)) == AlignUp(x)
    ensures AlignUp(x) <= 2 * MAX <==> x <= 2 * MAX
    ensures x % WORD == 0 ==> AlignUp(x) == x
  {
  }

  /** Packets that need no padding take no more than the bytes they came in. */
  lemma {:induction false} SizesAdd(s: seq<byte>)
    ensures (forall i :: 0 <= i < |Parse(s).packets| ==> |Parse(s).packets[i]| % WORD == 0)
              ==> Needs(s) <= |s|
    decreases |s|
  {
    hide AlignUp, Size;
    if |s| >= MIN && Size(s) <= MAX && Cut(s) <= |s| {
      var t := s[Cut(s)..];
      SizesAdd(t);
      AlignBounds(Cut(s));
      assert Parse(s).packets[0] == s[..Cut(s)] && Parse(s).packets[1..] == Parse(t).packets;
      if forall i :: 0 <= i < |Parse(s).packets| ==> |Parse(s).packets[i]| % WORD == 0 {
        forall i | 0 <= i < |Parse(t).packets| ensures |Parse(t).packets[i]| % WORD == 0 { assert Parse(s).packets[i + 1] == Parse(t).packets[i]; }
      }
    }
  }

  /** Sizes that are multiples of the word size are the simplest case in which twice MAX is enough. */
  lemma TwiceMaxIsEnough(r: seq<byte>, p: seq<byte>)
    requires IsRest(r) && |p| <= MAX
    requires forall i :: 0 <= i < |Parse(r + p).packets| ==> |Parse(r + p).packets[i]| % WORD == 0
    ensures Needs(r + p) < 2 * MAX
  {
    RestIsRest(r);
    RestParses(r);
    SizesAdd(r + p);
  }

  /** k packets of 17 bytes, the least size that is padded. */
  function Small(): seq<byte> {
    [0, 0, 0, 0, 17, 0, 0, 0, 0, 0, 0, 0, 0, 0, 0, 0, 0]
  }

  function Smalls(k: nat): (s: seq<byte>)
    ensures |s| == 17 * k
  {
    if k == 0 then [] else Small() + Smalls(k - 1)
  }

  lemma SmallFront(k: nat)
    requires k > 0
    ensures Size(Smalls(k)) == 17 && Cut(Smalls(k)) == 17 && Smalls(k)[17..] == Smalls(k - 1)
  {
    hide Size;
    var s := Smalls(k);
    assert s == Small() + Smalls(k - 1);
    assert s[..MIN] == Small()[..MIN];
    SameHeader(s, Small());
    assert Size(Small()) == 17 by { SizeOfSmall(); }
  }

  lemma SizeOfSmall()
    ensures Size(Small()) == 17
  {
  }

  function LongRest(): (r: seq<byte>)
    ensures |r| == 4095 && Size(r) == 4096
  {
    seq(4095, i => if i == 5 then 16 else 0)
  }

  lemma LongKept()
    ensures Parse(LongRest()) == Parsed([], LongRest(), false) && Needs(LongRest()) == 4095
  {
  }

  lemma LongThenSmalls(k: nat)
    ensures var t := Parse(LongRest() + ([0] + Smalls(k)));
      |t.packets| == k + 1 && t.rest == [] && PaddedSum(t.packets) == 4096 + 24 * k
  {
    hide Smalls, Small, LongRest, Size;
    var r := LongRest();
    var s := r + ([0] + Smalls(k));
    assert s[..MIN] == r[..MIN];
    SameHeader(s, r);
    assert s[4096..] == Smalls(k);
    SmallsParse(k);
    hide Parse;
    PaddedFirst(s[..4096], Parse(Smalls(k)).packets);
    assert Parse(s) == Prepend([s[..4096]], Parse(Smalls(k))) by { FirstCut(s); }
  }

  lemma FirstCut(s: seq<byte>)
    requires |s| >= MIN && Size(s) <= MAX && Cut(s) <= |s|
    ensures Parse(s) == Prepend([s[..Cut(s)]], Parse(s[Cut(s)..]))
  {
  }

  lemma PaddedFirst(p: seq<byte>, ps: seq<seq<byte>>)
    ensures PaddedSum([p] + ps) == AlignUp(|p|) + PaddedSum(ps)
  {
    assert ([p] + ps)[1..] == ps;
  }

  lemma {:induction false} SmallsParse(k: nat)
    ensures |Parse(Smalls(k)).packets| == k && Parse(Smalls(k)).rest == [] && PaddedSum(Parse(Smalls(k)).packets) == 24 * k
  {
    hide Smalls, Small, Parse, PaddedSum, AlignUp;
    if k == 0 {
      NoSmalls();
    } else {
      OneSmallOff(k);
      SmallsParse(k - 1);
      PaddedFirst(Smalls(k)[..17], Parse(Smalls(k - 1)).packets);
      assert AlignUp(17) == 24 by { PaddedSmall(); }
    }
  }

  lemma NoSmalls()
    ensures Parse(Smalls(0)) == Parsed([], [], false) && PaddedSum([]) == 0
  {
  }

  lemma PaddedSmall()
    ensures AlignUp(17) == 24
  {
  }

  lemma OneSmallOff(k: nat)
    requires k > 0
    ensures Parse(Smalls(k)) == Prepend([Smalls(k)[..17]], Parse(Smalls(k - 1)))
  {
    SmallFront(k);
    hide Smalls, Small, Size, Cut, Parse;
    FirstCut(Smalls(k));
  }

  // ---------- The buffer ----------

  /** The packets out stand in mem at the offsets ap, below q1. */
  ghost predicate Laid(mem: seq<byte>, ap: seq<nat>, out: seq<seq<byte>>, q1: nat) {
    && |ap| == |out|
    && forall i :: 0 <= i < |ap| ==> ap[i] + |out[i]| <= q1 && q1 <= |mem| && mem[ap[i]..ap[i] + |out[i]|] == out[i]
  }

  /** Writing from q1 on leaves what is laid out alone. */
  lemma StillLaid(mem: seq<byte>, mem2: seq<byte>, ap: seq<nat>, out: seq<seq<byte>>, q1: nat)
    requires Laid(mem, ap, out, q1) && |mem2| == |mem| && q1 <= |mem| && mem2[..q1] == mem[..q1]
    ensures Laid(mem2, ap, out, q1)
  {
    forall i | 0 <= i < |ap| ensures mem2[ap[i]..ap[i] + |out[i]|] == out[i] {
      assert mem2[ap[i]..ap[i] + |out[i]|] == mem2[..q1][ap[i]..ap[i] + |out[i]|];
      assert mem[ap[i]..ap[i] + |out[i]|] == mem[..q1][ap[i]..ap[i] + |out[i]|];
    }
  }

  /** mem with x written from offset at on. */
  function Written(mem: seq<byte>, at: nat, x: seq<byte>): (r: seq<byte>)
    requires at + |x| <= |mem|
    ensures |r| == |mem|
  {
    mem[..at] + x + mem[at + |x|..]
  }

  lemma NoneWritten(mem: seq<byte>, at: nat)
    requires at <= |mem|
    ensures Written(mem, at, []) == mem
  {
  }

  lemma WrittenMore(mem: seq<byte>, at: nat, x: seq<byte>, b: byte)
    requires at + |x| < |mem|
    ensures Written(mem, at, x)[at + |x| := b] == Written(mem, at, x + [b])
  {
  }

  lemma WrittenParts(mem: seq<byte>, q1: nat, at: nat, x: seq<byte>)
    requires q1 <= at && at + |x| <= |mem|
    ensures Written(mem, at, x)[q1..at + |x|] == mem[q1..at] + x
    ensures Written(mem, at, x)[..q1] == mem[..q1]
  {
  }

  /** The state of update's loop: out is cut off already, and what stands from q1 to q2 is either one header
      or a partial packet; with the input still to come it means what is left of stream s. */
  ghost predicate Midway(s: seq<byte>, mem: seq<byte>, q1: nat, q2: nat, left: seq<byte>, out: seq<seq<byte>>) {
    && q1 <= q2 <= |mem| && q2 - q1 >= MIN
    && Parse(s) == Prepend(out, Parse(mem[q1..q2] + left))
    && (q2 - q1 == MIN || (Cut(mem[q1..q2]) > q2 - q1 && Size(mem[q1..q2]) <= MAX))
    && HighWater(q1, mem[q1..q2] + left) == HighWater(0, s) <= |mem|
  }

  /** The header in the buffer is the header of what is left of the stream. */
  lemma MidwayHeader(s: seq<byte>, mem: seq<byte>, q1: nat, q2: nat, left: seq<byte>, out: seq<seq<byte>>)
    requires Midway(s, mem, q1, q2, left, out)
    ensures q1 <= q2 <= |mem| && q2 - q1 >= MIN
    ensures Size(mem[q1..q2] + left) == Size(mem[q1..q2]) && Cut(mem[q1..q2] + left) == Cut(mem[q1..q2])
    ensures q2 - q1 <= Cut(mem[q1..q2])
    ensures Size(mem[q1..q2]) <= q2 - q1 ==> q2 - q1 == MIN
  {
    assert (mem[q1..q2] + left)[..MIN] == mem[q1..q2][..MIN];
    SameHeader(mem[q1..q2] + left, mem[q1..q2]);
  }

  /** A size above MAX. */
  lemma MidwayBad(s: seq<byte>, mem: seq<byte>, q1: nat, q2: nat, left: seq<byte>, out: seq<seq<byte>>)
    requires Midway(s, mem, q1, q2, left, out) && Size(mem[q1..q2]) > q2 - q1 && Size(mem[q1..q2]) > MAX
    ensures Parse(s) == Parsed(out, mem[q1..q2], true) && HighWater(0, s) == q2
  {
    MidwayHeader(s, mem, q1, q2, left, out);
    assert (mem[q1..q2] + left)[..MIN] == mem[q1..q2];
    assert out + [] == out;
  }

  /** The packet is not complete yet. */
  lemma MidwayPartial(s: seq<byte>, mem: seq<byte>, q1: nat, q2: nat, left: seq<byte>, out: seq<seq<byte>>)
    requires Midway(s, mem, q1, q2, left, out) && Size(mem[q1..q2]) <= MAX && Size(mem[q1..q2]) > q2 - q1 + |left|
    ensures q2 + |left| == HighWater(0, s) <= |mem|
    ensures Parse(s) == Parsed(out, mem[q1..q2] + left, false)
  {
    MidwayHeader(s, mem, q1, q2, left, out);
    assert out + [] == out;
  }

  /** The packet is complete after n more bytes: it is the next one of the stream. */
  lemma MidwayCut(s: seq<byte>, mem: seq<byte>, q1: nat, q2: nat, left: seq<byte>, out: seq<seq<byte>>, n: nat)
    requires Midway(s, mem, q1, q2, left, out) && Size(mem[q1..q2]) <= MAX && n <= |left| && q2 - q1 + n == Cut(mem[q1..q2])
    ensures q2 + n <= |mem| && AlignUp(q2 + n) <= |mem|
    ensures Parse(s) == Prepend(out + [mem[q1..q2] + left[..n]], Parse(left[n..]))
    ensures HighWater(AlignUp(q2 + n), left[n..]) == HighWater(0, s) <= |mem|
  {
    MidwayHeader(s, mem, q1, q2, left, out);
    var x := mem[q1..q2] + left;
    var c := Cut(x);
    assert x[..c] == mem[q1..q2] + left[..n] && x[c..] == left[n..];
    HighWaterLeast(AlignUp(q2 + n), left[n..]);
    PrependTwice(out, [x[..c]], Parse(x[c..]));
  }

  lemma NextHeader(s: seq<byte>, mem: seq<byte>, q1: nat, left: seq<byte>, out: seq<seq<byte>>)
    requires q1 <= |mem| && |left| >= MIN && Parse(s) == Prepend(out, Parse(left)) && HighWater(q1, left) == HighWater(0, s) <= |mem|
    ensures q1 + MIN <= |mem| && Midway(s, Written(mem, q1, left[..MIN]), q1, q1 + MIN, left[MIN..], out)
    ensures Written(mem, q1, left[..MIN])[..q1] == mem[..q1]
  {
    HighWaterLeast(q1, left);
    WrittenParts(mem, q1, q1, left[..MIN]);
    assert Written(mem, q1, left[..MIN])[q1..q1 + MIN] == left[..MIN];
    assert left[..MIN] + left[MIN..] == left;
  }

  lemma LastHeader(s: seq<byte>, mem: seq<byte>, q1: nat, left: seq<byte>, out: seq<seq<byte>>)
    requires q1 <= |mem| && |left| < MIN && Parse(s) == Prepend(out, Parse(left)) && HighWater(q1, left) == HighWater(0, s) <= |mem|
    ensures q1 + |left| == HighWater(0, s) <= |mem| && Parse(s) == Parsed(out, mem[q1..q1] + left, false)
  {
    assert out + [] == out && mem[q1..q1] + left == left;
  }

  /** A kept partial packet with at least a header is ready for the loop. */
  lemma Entered(s: seq<byte>, mem: seq<byte>, q2: nat, p: seq<byte>)
    requires q2 <= |mem| && IsRest(mem[0..q2]) && s == mem[0..q2] + p && HighWater(0, s) <= |mem|
    ensures q2 >= MIN ==> Midway(s, mem, 0, q2, p[0..], [])
  {
    assert p[0..] == p && [] + Parse(s).packets == Parse(s).packets;
  }

  lemma ShortParses(s: seq<byte>)
    requires |s| < MIN
    ensures Parse(s) == Parsed([], s, false)
  {
  }

  lemma NothingLaid(mem: seq<byte>)
    ensures Laid(mem, [], [], 0)
  {
  }

  lemma OneMoreLaid(mem: seq<byte>, ap: seq<nat>, out: seq<seq<byte>>, q1: nat, x: seq<byte>)
    requires Laid(mem, ap, out, q1) && q1 + |x| <= |mem| && mem[q1..q1 + |x|] == x && AlignUp(q1 + |x|) <= |mem|
    ensures Laid(mem, ap + [q1], out + [x], AlignUp(q1 + |x|))
  {
  }

  lemma {:induction false} HighWaterLeast(off: nat, s: seq<byte>)
    ensures HighWater(off, s) >= off && (|s| >= MIN ==> HighWater(off, s) >= off + MIN) && (|s| < MIN ==> HighWater(off, s) == off + |s|)
    decreases |s|
  {
    if |s| >= MIN && Size(s) <= MAX && Cut(s) <= |s| { HighWaterLeast(AlignUp(off + Cut(s)), s[Cut(s)..]); }
  }

  class Buffer {
    const pk: array<byte>
    /** Offsets of the cached packets. */
    var ap: seq<nat>
    var q1: nat
    var q2: nat
    /** The cached packets. */
    ghost var packets: seq<seq<byte>>
    /** How far the last chunk's data reaches: every byte it wrote lies below. */
    ghost var peak: nat

    ghost predicate Valid()
      reads this, pk
    {
      && q1 <= q2 <= pk.Length && IsRest(pk[q1..q2])
      && Laid(pk[..], ap, packets, q1) && (q1 == 0 ==> ap == [])
    }

    /** The partial data kept for the next chunk. */
    ghost function Held(): seq<byte>
      requires Valid()
      reads this, pk
    {
      pk[q1..q2]
    }

    constructor (size: nat)
      ensures Valid() && fresh(pk) && pk.Length == size && packets == [] && Held() == []
    {
      pk := new byte[size](_ => 0);
      ap, q1, q2, packets, peak := [], 0, 0, [], 0;
    }

    /** done: drop the cached packets and move the partial data to the front. */
    method Done()
      requires Valid()
      modifies this, pk
      ensures Valid() && packets == [] && ap == [] && q1 == 0 && Held() == old(Held()) && peak == q2
    {
      if q1 == 0 {
        packets, peak := [], q2;
        return;
      }
      ap, packets := [], [];
      q2 := q2 - q1;
      MoveDown(q1, q2);
      q1, peak := 0, q2;
      assert pk[0..q2] == old(Held());
    }

    /** n bytes from offset q go to the front, one after the other. */
    method MoveDown(q: nat, n: nat)
      requires 0 < q && q + n <= pk.Length
      modifies pk
      ensures pk[..n] == old(pk[q..q + n])
    {
      ghost var held := pk[q..q + n];
      for i := 0 to n
        invariant pk[..i] == held[..i]
        invariant pk[q + i..q + n] == held[i..]
      {
        assert pk[q + i] == pk[q + i..q + n][0] == held[i];
        assert pk[q + i + 1..q + n] == held[i + 1..];
        pk[i] := pk[q + i];
        assert pk[..i + 1] == pk[..i] + [held[i]] == held[..i + 1];
      }
      assert held[..n] == held;
    }

    /** memcpy of n input bytes from position k to offset at of the buffer. */
    method Copy(at: nat, p: seq<byte>, k: nat, n: nat)
      requires at + n <= pk.Length && k + n <= |p|
      modifies this`peak, pk
      ensures pk[..] == Written(old(pk[..]), at, p[k..k + n])
      ensures peak == if n == 0 || old(peak) >= at + n then old(peak) else at + n
    {
      hide Written;
      CopyBytes(at, p, k, n);
      if n > 0 && peak < at + n { peak := at + n; }
    }

    method CopyBytes(at: nat, p: seq<byte>, k: nat, n: nat)
      requires at + n <= pk.Length && k + n <= |p|
      modifies pk
      ensures pk[..] == Written(old(pk[..]), at, p[k..k + n])
    {
      ghost var was := pk[..];
      NoneWritten(was, at);
      hide Written;
      assert p[k..k + 0] == [];
      for i := 0 to n
        invariant pk[..] == Written(was, at, p[k..k + i])
      {
        ghost var before := pk[..];
        WrittenMore(was, at, p[k..k + i], p[k + i]);
        pk[at + i] := p[k + i];
        assert pk[..] == before[at + i := p[k + i]];
        assert p[k..k + i + 1] == p[k..k + i] + [p[k + i]];
      }
    }

    /** update: ok is false for a chunk above MAX, which changes nothing, or once the stream is bad. */
    method Update(p: seq<byte>) returns (ok: bool)
      requires Valid() && (0 < |p| <= MAX ==> Needs(Held() + p) <= pk.Length)
      modifies this, pk
      ensures Valid()
      ensures p == [] || |p| > MAX ==> ok == (p == []) && Held() == old(Held()) && packets == old(packets) && ap == old(ap)
      ensures 0 < |p| <= MAX ==> Parse(old(Held()) + p) == Parsed(packets, Held(), !ok)
      ensures 0 < |p| <= MAX ==> peak <= Needs(old(Held()) + p) <= AlignUp(peak)
      ensures 0 < |p| <= MAX ==> (peak <= 2 * MAX <==> Needs(old(Held()) + p) <= 2 * MAX)
    {
      if |p| == 0 {
        return true;
      }
      if |p| > MAX {
        return false;
      }
      hide Laid, Written, Parse, HighWater;
      ghost var r, s := Held(), Held() + p;
      Done();
      HighWaterLeast(0, s);
      HighWaterIs(0, s);
      AlignBounds(q2);
      hide AlignUp;
      Entered(s, pk[..], q2, p);
      if q2 >= MIN {
        ok := Cutting(p, 0, s);
        AlignBounds(peak);
        return;
      }
      var nl := MIN - q2;
      if |p| < nl {
        ShortParses(s);
        assert p[0..] == p;
        KeepRest(p, 0, s);
        AlignBounds(peak);
        return true;
      }
      FillHeader(p, nl, s);
      ok := Cutting(p, nl, s);
      AlignBounds(peak);
    }

    /** The first nl bytes of the input complete the header. */
    method FillHeader(p: seq<byte>, nl: nat, ghost s: seq<byte>)
      requires q1 == 0 && q2 + nl == MIN && nl <= |p| && MIN <= pk.Length && s == pk[0..q2] + p && HighWater(0, s) <= pk.Length
      requires 0 < nl && peak == q2
      modifies this`q2, this`peak, pk
      ensures Midway(s, pk[..], q1, q2, p[nl..], []) && peak == q2
    {
      hide Written, Parse, HighWater;
      ghost var mem := pk[..];
      Copy(q2, p, 0, nl);
      WrittenParts(mem, 0, q2, p[0..nl]);
      q2 := MIN;
      assert mem[0..MIN - nl] + p[0..nl] + p[nl..] == s;
      assert [] + Parse(s).packets == Parse(s).packets;
    }

    /** The input left over is appended to the partial packet. */
    method KeepRest(p: seq<byte>, k: nat, ghost s: seq<byte>)
      requires k <= |p| && q1 <= q2 && q2 + (|p| - k) <= pk.Length
      requires Laid(pk[..], ap, packets, q1) && (q1 == 0 ==> ap == [])
      requires Parse(s) == Parsed(packets, pk[q1..q2] + p[k..], false)
      requires peak <= q2 <= AlignUp(peak)
      modifies this`q2, this`peak, pk
      ensures Valid() && Parse(s) == Parsed(packets, Held(), false)
      ensures q2 == old(q2) + (|p| - k) && peak <= q2 <= AlignUp(peak)
    {
      AlignBounds(q2 + (|p| - k));
      hide AlignUp;
      hide Laid, Written, Parse, IsRest;
      ghost var mem := pk[..];
      assert p[k..k + (|p| - k)] == p[k..];
      Copy(q2, p, k, |p| - k);
      WrittenParts(mem, q1, q2, p[k..]);
      StillLaid(mem, pk[..], ap, packets, q1);
      assert mem[q1..q2] == old(pk[q1..q2]);
      q2 := q2 + (|p| - k);
      assert pk[q1..q2] == pk[..][q1..q2];
      RestIsRest(s);
    }

    /** The packet at q1 is completed by the next more bytes of the input and cached. */
    method CutPacket(p: seq<byte>, k: nat, more: nat, ghost s: seq<byte>)
      requires k + more <= |p| && Midway(s, pk[..], q1, q2, p[k..], packets)
      requires Laid(pk[..], ap, packets, q1)
      requires Size(pk[..][q1..q2]) <= MAX && q2 - q1 + more == Cut(pk[..][q1..q2]) && peak == q2
      modifies this, pk
      ensures peak <= q2 <= AlignUp(peak)
      ensures q1 == q2 && 0 < q1 <= pk.Length && Laid(pk[..], ap, packets, q1)
      ensures Parse(s) == Prepend(packets, Parse(p[k + more..])) && HighWater(q1, p[k + more..]) == HighWater(0, s) <= pk.Length
    {
      hide Laid, Written, Parse, HighWater, AlignUp;
      ghost var x, left := pk[..][q1..q2] + p[k..][..more], p[k..];
      MidwayCut(s, pk[..], q1, q2, left, packets, more);
      assert left[more..] == p[k + more..];
      hide Midway;
      CopyMore(p, k, more);
      OneMoreLaid(pk[..], ap, packets, q1, x);
      AlignBounds(q2);
      ap := ap + [q1];
      packets := packets + [x];
      q2 := AlignUp(q2);
      q1 := q2;
    }

    /** The next more bytes of the input stand behind the partial packet, and the cached packets are untouched. */
    method CopyMore(p: seq<byte>, k: nat, more: nat)
      requires k + more <= |p| && q1 <= q2 && q2 + more <= pk.Length && peak == q2
      requires Laid(pk[..], ap, packets, q1)
      modifies this`q2, this`peak, pk
      ensures q2 == old(q2) + more && peak == q2 && Laid(pk[..], ap, packets, q1)
      ensures pk[..][q1..q2] == old(pk[..][q1..q2]) + p[k..][..more]
    {
      hide Laid, Written;
      ghost var mem := pk[..];
      assert p[k..][..more] == p[k..k + more];
      Copy(q2, p, k, more);
      WrittenParts(mem, q1, q2, p[k..k + more]);
      StillLaid(mem, pk[..], ap, packets, q1);
      q2 := q2 + more;
    }

    /** The loop of update. */
    method Cutting(p: seq<byte>, k0: nat, ghost s: seq<byte>) returns (ok: bool)
      requires k0 <= |p| && q1 == 0 && ap == [] && packets == [] && Midway(s, pk[..], q1, q2, p[k0..], [])
      requires peak == q2
      modifies this, pk
      ensures Valid() && Parse(s) == Parsed(packets, Held(), !ok)
      ensures q2 == HighWater(0, s) && peak <= q2 <= AlignUp(peak)
    {
      hide Midway, Laid, Written, Parse, HighWater, IsRest, AlignUp;
      var k := k0;
      NothingLaid(pk[..]);
      while true
        invariant k <= |p| && Midway(s, pk[..], q1, q2, p[k..], packets)
        invariant Laid(pk[..], ap, packets, q1) && (q1 == 0 ==> ap == []) && peak == q2
        decreases |p| - k
      {
        AlignBounds(peak);
        MidwayHeader(s, pk[..], q1, q2, p[k..], packets);
        var szReal := pk[q1 + 4] as nat + 256 * pk[q1 + 5] as nat;
        assert szReal == Size(pk[..][q1..q2]);
        if szReal > q2 - q1 && szReal > MAX {
          MidwayBad(s, pk[..], q1, q2, p[k..], packets);
          RestIsRest(s);
          assert pk[..][q1..q2] == pk[q1..q2];
          return false;
        }
        if szReal > q2 - q1 + (|p| - k) {
          MidwayPartial(s, pk[..], q1, q2, p[k..], packets);
          assert p[k..][..|p| - k] == p[k..];
          KeepRest(p, k, s);
          return true;
        }
        var more := if szReal > q2 - q1 then szReal - (q2 - q1) else 0;
        CutPacket(p, k, more, s);
        k := k + more;
        if |p| - k < MIN {
          LastHeader(s, pk[..], q1, p[k..], packets);
          KeepRest(p, k, s);
          return true;
        }
        NextHeader(s, pk[..], q1, p[k..], packets);
        ghost var mem := pk[..];
        assert p[k..][..MIN] == p[k..k + MIN] && p[k..][MIN..] == p[k + MIN..];
        Copy(q2, p, k, MIN);
        StillLaid(mem, pk[..], ap, packets, q1);
        q2 := q2 + MIN;
        k := k + MIN;
      }
    }
  }

  /** With sizes that need padding twice MAX is not always enough: a fresh buffer keeps all but one byte of a
      packet of 4096 bytes, well within twice MAX; that byte and 240 packets of 17 bytes then need 9856. */
  method PaddingNeedsMore() returns (b: Buffer)
    ensures fresh(b) && b.Valid() && |b.packets| == 241 && b.Held() == []
    ensures b.peak > 2 * MAX
  {
    hide Smalls, Small, LongRest, Parse, PaddedSum;
    b := new Buffer(3 * MAX);
    var r, p := LongRest(), [0] + Smalls(240);
    LongKept();
    assert b.Held() + r == r;
    var ok := b.Update(r);
    assert b.Held() == r && b.peak <= 2 * MAX;
    LongThenSmalls(240);
    ok := b.Update(p);
  }
}
