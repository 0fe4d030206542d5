/**
  CRC-32: the bitwise definition behind section 8 of RFC 1952, the table built at compile time, the
  loop that takes four bytes at a time, and which corruptions of a message the checksum detects.
 */
module Crc32 {

  const POLY: bv32 := 0xEDB88320

  // ---------- Bitwise definition ----------

  function Xor(a: bv32, b: bv32): bv32 {
    a ^ b
  }

  /** One division step on the register. */
  function Shift1(c: bv32): bv32 {
    if Low(c) then Xor(Half(c), POLY) else Half(c)
  }

  predicate Low(c: bv32) {
    c & 1 == 1
  }

  function Half(c: bv32): bv32 {
    c >> 1
  }

  function ShiftN(c: bv32, n: nat): bv32
    decreases n
  {
    if n == 0 then c else ShiftN(Shift1(c), n - 1)
  }

  function Bit(b: bool): bv32 {
    if b then 1 else 0
  }

  /** The register after the bits of a message, first bit first. */
  function BitFold(c: bv32, bits: seq<bool>): bv32
    decreases |bits|
  {
    if bits == [] then c else BitFold(Shift1(Xor(c, Bit(bits[0]))), bits[1..])
  }

  /** Bits of a byte, least significant first. */
  function ByteBits(b: bv8): (r: seq<bool>)
    ensures |r| == 8
  {
    [b & 1 == 1, b & 2 == 2, b & 4 == 4, b & 8 == 8, b & 16 == 16, b & 32 == 32, b & 64 == 64, b & 128 == 128]
  }

  function BitsOf(p: seq<bv8>): (r: seq<bool>)
    ensures |r| == 8 * |p|
  {
    if p == [] then [] else ByteBits(p[0]) + BitsOf(p[1..])
  }

  function Not(c: bv32): bv32 {
    !c
  }

  const ONES: bv32 := 0xFFFF_FFFF

  /** The bitwise checksum of a message. */
  function BitCrc(p: seq<bv8>): bv32 {
    Not(BitFold(ONES, BitsOf(p)))
  }

  lemma {:induction false} BitFoldAppend(c: bv32, a: seq<bool>, b: seq<bool>)
    ensures BitFold(c, a + b) == BitFold(BitFold(c, a), b)
    decreases |a|
  {
    hide Shift1, Xor, Bit;
    if a == [] {
      assert a + b == b;
    } else {
      assert (a + b)[1..] == a[1..] + b;
      BitFoldAppend(Shift1(Xor(c, Bit(a[0]))), a[1..], b);
    }
  }

  lemma {:induction false} ShiftNAdd(c: bv32, m: nat, n: nat)
    ensures ShiftN(c, m + n) == ShiftN(ShiftN(c, m), n)
    decreases m
  {
    hide Shift1;
    if m > 0 { ShiftNAdd(Shift1(c), m - 1, n); }
  }

  // ---------- Facts about words ----------

  /** w << 1. */
  function Up(w: bv32): bv32 {
    w << 1
  }

  predicate TopClear(w: bv32) {
    w & 0x8000_0000 == 0
  }

  lemma XorSwap(a: bv32, b: bv32, c: bv32)
    ensures Xor(Xor(a, b), c) == Xor(Xor(a, c), b) && Xor(Xor(a, b), c) == Xor(a, Xor(b, c))
  {
  }

  lemma XorCancel(a: bv32, b: bv32, c: bv32)
    ensures Xor(a, b) == Xor(a, c) ==> b == c
    ensures Xor(b, a) == Xor(c, a) ==> b == c
  {
  }

  lemma XorZero(c: bv32)
    ensures Xor(c, 0) == c
  {
  }

  lemma LowOver(x: bv32, v: bv32)
    ensures Low(Xor(x, Up(v))) == Low(x)
  {
  }

  lemma HalfOver(x: bv32, v: bv32)
    requires TopClear(v)
    ensures Half(Xor(x, Up(v))) == Xor(Half(x), v)
  {
  }

  /** What lies above the low bit passes through one step unchanged. */
  lemma ShiftXor(x: bv32, v: bv32)
    requires TopClear(v)
    ensures Shift1(Xor(x, Up(v))) == Xor(Shift1(x), v)
  {
    hide Low, Half, Xor, Up, TopClear;
    LowOver(x, v);
    HalfOver(x, v);
    XorSwap(Half(x), v, POLY);
  }

  lemma ShiftInjective(a: bv32, b: bv32)
    requires Shift1(a) == Shift1(b)
    ensures a == b
  {
  }

  /** The register determines what it was n steps before. */
  lemma {:induction false} ShiftNInjective(a: bv32, b: bv32, n: nat)
    requires ShiftN(a, n) == ShiftN(b, n)
    ensures a == b
    decreases n
  {
    hide Shift1;
    if n > 0 {
      ShiftNInjective(Shift1(a), Shift1(b), n - 1);
      ShiftInjective(a, b);
    }
  }

  // ---------- Up to 32 bits at once ----------

  /** The bits as a word, first bit least significant. */
  function Word(bits: seq<bool>): bv32 {
    if bits == [] then 0 else Xor(Bit(bits[0]), Up(Word(bits[1..])))
  }

  /** w has no bits outside m. */
  predicate Within(w: bv32, m: bv32) {
    w | m == m
  }

  function OneMore(m: bv32): bv32 {
    (m << 1) | 1
  }

  /** The n low bits. */
  function LowMask(n: nat): bv32 {
    if n == 0 then 0 else OneMore(LowMask(n - 1))
  }

  lemma MaskStep(w: bv32, m: bv32, b: bool)
    requires Within(w, m)
    ensures Within(Xor(Bit(b), Up(w)), OneMore(m))
  {
    UpWithin(w, m);
    hide Within, OneMore, Xor, Up;
    BitWithin(Up(w), OneMore(m), b);
  }

  lemma UpWithin(w: bv32, m: bv32)
    requires Within(w, m)
    ensures Within(Up(w), OneMore(m)) && Within(1, OneMore(m))
  {
  }

  lemma BitWithin(w: bv32, m: bv32, b: bool)
    requires Within(w, m) && Within(1, m)
    ensures Within(Xor(Bit(b), w), m)
  {
    if b {
      XorWithin(w, m);
    } else {
      XorZero(w);
      XorComm(w, 0);
    }
  }

  lemma XorWithin(w: bv32, m: bv32)
    requires Within(w, m) && Within(1, m)
    ensures Within(Xor(1, w), m)
  {
  }

  lemma XorComm(a: bv32, b: bv32)
    ensures Xor(a, b) == Xor(b, a)
  {
  }

  lemma ZeroWithin(m: bv32)
    ensures Within(0, m)
  {
  }

  lemma {:induction false} WordFits(bits: seq<bool>)
    ensures Within(Word(bits), LowMask(|bits|))
    decreases |bits|
  {
    hide Within, OneMore, Xor, Up, Bit;
    if bits == [] {
      ZeroWithin(0);
    } else {
      WordFits(bits[1..]);
      MaskStep(Word(bits[1..]), LowMask(|bits| - 1), bits[0]);
    }
  }

  lemma SubmaskStep(a: bv32, b: bv32)
    requires Within(a, b)
    ensures Within(OneMore(a), OneMore(b))
  {
  }

  lemma {:induction false} MaskGrows(m: nat, n: nat)
    requires m <= n
    ensures Within(LowMask(m), LowMask(n))
    decreases m
  {
    hide Within, OneMore;
    if m == 0 {
      ZeroWithin(LowMask(n));
    } else {
      MaskGrows(m - 1, n - 1);
      SubmaskStep(LowMask(m - 1), LowMask(n - 1));
    }
  }

  lemma Mask31()
    ensures LowMask(31) == 0x7FFF_FFFF
  {
    assert LowMask(8) == 0xFF;
    assert LowMask(16) == 0xFFFF;
    assert LowMask(24) == 0xFF_FFFF;
  }

  lemma ClearTop(w: bv32, m: bv32)
    requires Within(w, m) && Within(m, 0x7FFF_FFFF)
    ensures TopClear(w)
  {
  }

  lemma ShortWord(bits: seq<bool>)
    requires |bits| <= 31
    ensures TopClear(Word(bits))
  {
    hide Word, LowMask, Within, TopClear;
    WordFits(bits);
    MaskGrows(|bits|, 31);
    Mask31();
    ClearTop(Word(bits), LowMask(|bits|));
  }

  /** Up to 32 message bits can be xored into the register at once before it steps. */
  lemma {:induction false} FoldIsWord(c: bv32, bits: seq<bool>)
    requires |bits| <= 32
    ensures BitFold(c, bits) == ShiftN(Xor(c, Word(bits)), |bits|)
    decreases |bits|
  {
    hide Shift1, Xor, Up, Bit, TopClear;
    if bits == [] {
      XorZero(c);
    } else {
      var x, v := Xor(c, Bit(bits[0])), Word(bits[1..]);
      FoldIsWord(Shift1(x), bits[1..]);
      ShortWord(bits[1..]);
      ShiftXor(x, v);
      XorSwap(c, Bit(bits[0]), Up(v));
    }
  }

  lemma LastBit(b1: bool, b2: bool, w1: bv32, w2: bv32)
    requires TopClear(w1) && TopClear(w2)
    requires Xor(Bit(b1), Up(w1)) == Xor(Bit(b2), Up(w2))
    ensures b1 == b2 && w1 == w2
  {
  }

  lemma {:induction false} WordInjective(a: seq<bool>, b: seq<bool>)
    requires |a| == |b| <= 32 && Word(a) == Word(b)
    ensures a == b
    decreases |a|
  {
    hide Xor, Up, Bit, TopClear;
    if a != [] {
      ShortWord(a[1..]);
      ShortWord(b[1..]);
      LastBit(a[0], b[0], Word(a[1..]), Word(b[1..]));
      WordInjective(a[1..], b[1..]);
      assert a == [a[0]] + a[1..] && b == [b[0]] + b[1..];
    }
  }

  // ---------- What the checksum detects ----------

  lemma {:induction false} FoldInjective(c: bv32, d: bv32, bits: seq<bool>)
    requires BitFold(c, bits) == BitFold(d, bits)
    ensures c == d
    decreases |bits|
  {
    hide Shift1, Xor, Bit;
    if bits != [] {
      var b := Bit(bits[0]);
      FoldInjective(Shift1(Xor(c, b)), Shift1(Xor(d, b)), bits[1..]);
      ShiftInjective(Xor(c, b), Xor(d, b));
      XorCancel(b, c, d);
    }
  }

  /** Messages that differ only within 32 consecutive bits have different registers, whatever comes before and after. */
  lemma BurstDetected(c: bv32, pre: seq<bool>, a: seq<bool>, b: seq<bool>, post: seq<bool>)
    requires |a| == |b| <= 32 && a != b
    ensures BitFold(c, pre + a + post) != BitFold(c, pre + b + post)
  {
    hide BitFold, ShiftN, Word, Xor;
    var d := BitFold(c, pre);
    BitFoldAppend(c, pre + a, post);
    BitFoldAppend(c, pre + b, post);
    BitFoldAppend(c, pre, a);
    BitFoldAppend(c, pre, b);
    FoldIsWord(d, a);
    FoldIsWord(d, b);
    if BitFold(c, pre + a + post) == BitFold(c, pre + b + post) {
      FoldInjective(BitFold(d, a), BitFold(d, b), post);
      ShiftNInjective(Xor(d, Word(a)), Xor(d, Word(b)), |a|);
      XorCancel(d, Word(a), Word(b));
      WordInjective(a, b);
    }
  }

  // ---------- The table ----------

  /** crc32_table_helper<n, m>: num and crc. */
  function HelperNum(n: bv32, m: nat): bv32 {
    if m == 0 then n else Half(HelperNum(n, m - 1))
  }

  function HelperCrc(n: bv32, m: nat): bv32 {
    if m == 0 then 0
    else
      var c1 := HelperCrc(n, m - 1);
      var tmp := if Low(c1) then Xor(Half(c1), POLY) else Half(c1);
      if Low(HelperNum(n, m - 1)) then Xor(tmp, POLY) else tmp
  }

  lemma LowXor(c: bv32, n: bv32)
    ensures Low(Xor(c, n)) <==> Low(c) != Low(n)
  {
  }

  lemma HalfXor(c: bv32, n: bv32)
    ensures Half(Xor(c, n)) == Xor(Half(c), Half(n))
  {
  }

  lemma XorTwice(a: bv32, b: bv32)
    ensures Xor(Xor(a, b), b) == a
  {
  }

  lemma TwoParts(c: bv32, n: bv32)
    ensures Shift1(Xor(c, n)) == Xor(if Low(n) then Xor(Shift1(c), POLY) else Shift1(c), Half(n))
  {
    hide Low, Half, Xor;
    LowXor(c, n);
    HalfXor(c, n);
    XorSwap(Half(c), Half(n), POLY);
    XorTwice(Half(c), POLY);
  }

  /** The helper keeps the unused bits of its index apart from the register: together they are the bitwise steps. */
  lemma {:induction false} HelperIs(n: bv32, m: nat)
    ensures ShiftN(n, m) == Xor(HelperCrc(n, m), HelperNum(n, m))
    decreases m
  {
    hide Low, Half, Xor;
    if m == 0 {
      XorZero(n);
      XorComm(n, 0);
    } else {
      HelperIs(n, m - 1);
      ShiftNAdd(n, m - 1, 1);
      TwoParts(HelperCrc(n, m - 1), HelperNum(n, m - 1));
    }
  }

  lemma NumRunsOut(n: bv32)
    requires n <= 0xFF
    ensures HelperNum(n, 8) == 0
  {
    assert HelperNum(n, 0) <= 0xFF;
    assert HelperNum(n, 1) <= 0x7F;
    assert HelperNum(n, 2) <= 0x3F;
    assert HelperNum(n, 3) <= 0x1F;
    assert HelperNum(n, 4) <= 0xF;
    assert HelperNum(n, 5) <= 7;
    assert HelperNum(n, 6) <= 3;
    assert HelperNum(n, 7) <= 1;
  }

  function Table(n: bv32): bv32 {
    HelperCrc(n, 8)
  }

  /** Each entry of the table is its index run through eight steps: the table of section 8 of RFC 1952. */
  lemma TableIs(n: bv32)
    requires n <= 0xFF
    ensures Table(n) == ShiftN(n, 8)
  {
    HelperIs(n, 8);
    NumRunsOut(n);
    hide Xor, HelperCrc, HelperNum, ShiftN;
    XorZero(HelperCrc(n, 8));
  }

  // ---------- Bytes and words ----------

  function UpN(v: bv32, n: nat): bv32 {
    if n == 0 then v else Up(UpN(v, n - 1))
  }

  lemma {:induction false} ShiftXorN(x: bv32, v: bv32, n: nat)
    requires forall k: nat :: k < n ==> TopClear(UpN(v, k))
    ensures ShiftN(Xor(x, UpN(v, n)), n) == Xor(ShiftN(x, n), v)
    decreases n
  {
    hide Shift1, Xor, Up, TopClear;
    if n > 0 {
      ShiftXor(x, UpN(v, n - 1));
      ShiftXorN(Shift1(x), v, n - 1);
    }
  }

  lemma Room(v: bv32)
    requires v <= 0xFF_FFFF
    ensures forall k: nat :: k < 8 ==> TopClear(UpN(v, k))
  {
    assert TopClear(UpN(v, 0)) && TopClear(UpN(v, 1)) && TopClear(UpN(v, 2)) && TopClear(UpN(v, 3));
    assert TopClear(UpN(v, 4)) && TopClear(UpN(v, 5)) && TopClear(UpN(v, 6)) && TopClear(UpN(v, 7));
  }

  function LowByte(c: bv32): bv32 {
    c & 0xFF
  }

  function Rest(c: bv32): (r: bv32)
    ensures r <= 0xFF_FFFF
  {
    c >> 8
  }

  /** One turn of the table loop. */
  function StepByte(c: bv32, b: bv32): bv32 {
    Xor(Table(Xor(LowByte(c), b)), Rest(c))
  }

  lemma SplitByte(c: bv32, b: bv32)
    requires b <= 0xFF
    ensures Xor(c, b) == Xor(Xor(LowByte(c), b), UpN(Rest(c), 8)) && Xor(LowByte(c), b) <= 0xFF
  {
    UpEight(Rest(c));
    hide UpN;
  }

  /** v << 8. */
  function Up8(v: bv32): bv32 {
    v << 8
  }

  lemma UpEight(v: bv32)
    ensures UpN(v, 8) == Up8(v)
  {
    hide Up, Up8;
    assert UpN(v, 2) == Up(UpN(v, 1)) == Up(Up(v));
    assert UpN(v, 4) == Up(UpN(v, 3)) == Up(Up(UpN(v, 2)));
    assert UpN(v, 6) == Up(UpN(v, 5)) == Up(Up(UpN(v, 4)));
    assert UpN(v, 8) == Up(UpN(v, 7)) == Up(Up(UpN(v, 6)));
    EightUps(v);
  }

  lemma EightUps(v: bv32)
    ensures Up(Up(Up(Up(Up(Up(Up(Up(v)))))))) == Up8(v)
  {
  }

  /** A turn of the table loop is eight steps of the register with the byte xored in. */
  lemma StepByteIs(c: bv32, b: bv32)
    requires b <= 0xFF
    ensures StepByte(c, b) == ShiftN(Xor(c, b), 8)
  {
    hide Xor, LowByte, Rest, UpN, Table, ShiftN, TopClear;
    SplitByte(c, b);
    TableIs(Xor(LowByte(c), b));
    Room(Rest(c));
    ShiftXorN(Xor(LowByte(c), b), Rest(c), 8);
  }

  function Byte(b: bv8): (r: bv32)
    ensures r <= 0xFF
  {
    b as bv32
  }

  function ByteFold(c: bv32, p: seq<bv8>): bv32
    decreases |p|
  {
    if p == [] then c else ByteFold(StepByte(c, Byte(p[0])), p[1..])
  }

  lemma WordCons(b: bool, rest: seq<bool>)
    ensures Word([b] + rest) == Xor(Bit(b), Up(Word(rest)))
  {
    assert ([b] + rest)[1..] == rest;
  }

  lemma WordOfByte(b: bv8)
    ensures Word(ByteBits(b)) == Byte(b)
  {
    hide Xor, Up, Bit, Byte, ByteBits, Word;
    var x := ByteBits(b);
    forall i | 0 <= i < 8 ensures Word(x[i..]) == Xor(Bit(x[i]), Up(Word(x[i + 1..]))) {
      WordCons(x[i], x[i + 1..]);
      assert x[i..] == [x[i]] + x[i + 1..];
    }
    assert x[0..] == x && x[8..] == [];
    NoWord();
    assert Word(x[6..]) == Xor(Bit(x[6]), Up(Xor(Bit(x[7]), Up(0))));
    assert Word(x[4..]) == Xor(Bit(x[4]), Up(Xor(Bit(x[5]), Up(Word(x[6..])))));
    assert Word(x[2..]) == Xor(Bit(x[2]), Up(Xor(Bit(x[3]), Up(Word(x[4..])))));
    assert Word(x[0..]) == Xor(Bit(x[0]), Up(Xor(Bit(x[1]), Up(Word(x[2..])))));
    Horner(b, x);
  }

  lemma NoWord()
    ensures Word([]) == 0
  {
  }

  lemma Horner(b: bv8, x: seq<bool>)
    requires x == ByteBits(b)
    ensures Xor(Bit(x[0]), Up(Xor(Bit(x[1]), Up(Xor(Bit(x[2]), Up(Xor(Bit(x[3]),
              Up(Xor(Bit(x[4]), Up(Xor(Bit(x[5]), Up(Xor(Bit(x[6]), Up(Xor(Bit(x[7]), Up(0)))))))))))))))) == Byte(b)
  {
  }

  /** The table loop computes the bitwise register. */
  lemma {:induction false} ByteFoldIsBitFold(c: bv32, p: seq<bv8>)
    ensures ByteFold(c, p) == BitFold(c, BitsOf(p))
    decreases |p|
  {
    hide StepByte, Byte, BitFold, ShiftN, Word, Xor, ByteBits;
    if p == [] {
      EmptyFold(c);
    } else {
      ByteFoldIsBitFold(StepByte(c, Byte(p[0])), p[1..]);
      BitFoldAppend(c, ByteBits(p[0]), BitsOf(p[1..]));
      FoldIsWord(c, ByteBits(p[0]));
      WordOfByte(p[0]);
      StepByteIs(c, Byte(p[0]));
    }
  }

  // ---------- The check value ----------

  function EightTurns(x: bv32): bv32 {
    Shift1(Shift1(Shift1(Shift1(Shift1(Shift1(Shift1(Shift1(x))))))))
  }

  lemma EightIs(x: bv32)
    ensures ShiftN(x, 8) == EightTurns(x)
  {
    hide Shift1;
    var x2 := Shift1(Shift1(x));
    var x4 := Shift1(Shift1(x2));
    var x6 := Shift1(Shift1(x4));
    assert ShiftN(x6, 2) == EightTurns(x);
    assert ShiftN(x4, 4) == ShiftN(x6, 2);
    assert ShiftN(x2, 6) == ShiftN(x4, 4);
  }

  lemma OneByteMore(c: bv32, p: seq<bv8>)
    requires p != []
    ensures BitFold(c, BitsOf(p)) == BitFold(EightTurns(Xor(c, Byte(p[0]))), BitsOf(p[1..]))
  {
    hide EightTurns, ByteBits, BitFold, ShiftN, Word, Xor, Byte;
    BitFoldAppend(c, ByteBits(p[0]), BitsOf(p[1..]));
    FoldIsWord(c, ByteBits(p[0]));
    WordOfByte(p[0]);
    EightIs(Xor(c, Byte(p[0])));
  }

  /** The customary check value: the checksum of the digits 1 to 9. */
  lemma CheckValue()
    ensures BitCrc([49, 50, 51, 52, 53, 54, 55, 56, 57]) == 0xCBF4_3926
  {
    CheckTurns();
    hide EightTurns, BitFold, ByteBits, Xor, Byte;
    var p: seq<bv8> := [49, 50, 51, 52, 53, 54, 55, 56, 57];
    OneByteMore(0xFFFF_FFFF, p[0..]);
    OneByteMore(0x7C23_1048, p[1..]);
    OneByteMore(0xB0AC_BB32, p[2..]);
    OneByteMore(0x77B7_9C2D, p[3..]);
    OneByteMore(0x641C_1F5C, p[4..]);
    OneByteMore(0x340A_C5E3, p[5..]);
    OneByteMore(0xF68D_2C9E, p[6..]);
    OneByteMore(0xAFFC_9660, p[7..]);
    OneByteMore(0x651F_2550, p[8..]);
    assert p[0..] == p && p[9..] == [];
    assert p[0..][1..] == p[1..] && p[1..][1..] == p[2..] && p[2..][1..] == p[3..] && p[3..][1..] == p[4..] && p[4..][1..] == p[5..] && p[5..][1..] == p[6..] && p[6..][1..] == p[7..] && p[7..][1..] == p[8..] && p[8..][1..] == p[9..];
    assert BitFold(0x340B_C6D9, []) == 0x340B_C6D9 by { NoBits(0x340B_C6D9); }
    assert Not(0x340B_C6D9) == 0xCBF4_3926;
  }

  lemma NoBits(c: bv32)
    ensures BitFold(c, []) == c
  {
  }

  lemma CheckTurns()
    ensures EightTurns(Xor(0xFFFF_FFFF, Byte(49))) == 0x7C23_1048
    ensures EightTurns(Xor(0x7C23_1048, Byte(50))) == 0xB0AC_BB32
    ensures EightTurns(Xor(0xB0AC_BB32, Byte(51))) == 0x77B7_9C2D
    ensures EightTurns(Xor(0x77B7_9C2D, Byte(52))) == 0x641C_1F5C
    ensures EightTurns(Xor(0x641C_1F5C, Byte(53))) == 0x340A_C5E3
    ensures EightTurns(Xor(0x340A_C5E3, Byte(54))) == 0xF68D_2C9E
    ensures EightTurns(Xor(0xF68D_2C9E, Byte(55))) == 0xAFFC_9660
    ensures EightTurns(Xor(0xAFFC_9660, Byte(56))) == 0x651F_2550
    ensures EightTurns(Xor(0x651F_2550, Byte(57))) == 0x340B_C6D9
  {
  }

  lemma EmptyFold(c: bv32)
    ensures BitFold(c, []) == c
  {
  }

  lemma {:induction false} ByteFoldAppend(c: bv32, a: seq<bv8>, b: seq<bv8>)
    ensures ByteFold(c, a + b) == ByteFold(ByteFold(c, a), b)
    decreases |a|
  {
    hide StepByte, Byte;
    if a == [] {
      assert a + b == b;
    } else {
      assert (a + b)[1..] == a[1..] + b;
      ByteFoldAppend(StepByte(c, Byte(a[0])), a[1..], b);
    }
  }

  /** A 32-bit load on a little-endian machine. */
  function Load32(p: seq<bv8>): bv32
    requires |p| == 4
  {
    Byte(p[0]) | (Byte(p[1]) << 8) | (Byte(p[2]) << 16) | (Byte(p[3]) << 24)
  }

  /** One turn of the word loop. */
  function StepWord(c: bv32, w: bv32): bv32 {
    StepByte(StepByte(StepByte(StepByte(Xor(c, w), 0), 0), 0), 0)
  }

  lemma LoadParts(p: seq<bv8>)
    requires |p| == 4
    ensures var v2 := Xor(Byte(p[2]), UpN(Byte(p[3]), 8)); var v1 := Xor(Byte(p[1]), UpN(v2, 8));
      v2 <= 0xFF_FFFF && v1 <= 0xFF_FFFF && Load32(p) == Xor(Byte(p[0]), UpN(v1, 8))
  {
    hide UpN, Up8, Byte, Xor, Load32;
    var b0, b1, b2, b3 := Byte(p[0]), Byte(p[1]), Byte(p[2]), Byte(p[3]);
    UpEight(b3);
    TwoLoaded(b2, b3);
    var v2 := Xor(b2, UpN(b3, 8));
    UpEight(v2);
    ThreeLoaded(b1, v2);
    UpEight(Xor(b1, UpN(v2, 8)));
    FourLoaded(p);
  }

  lemma TwoLoaded(b2: bv32, b3: bv32)
    requires b2 <= 0xFF && b3 <= 0xFF
    ensures Xor(b2, Up8(b3)) <= 0xFFFF
  {
  }

  lemma ThreeLoaded(b1: bv32, v2: bv32)
    requires b1 <= 0xFF && v2 <= 0xFFFF
    ensures Xor(b1, Up8(v2)) <= 0xFF_FFFF && v2 <= 0xFF_FFFF
  {
  }

  lemma FourLoaded(p: seq<bv8>)
    requires |p| == 4
    ensures Load32(p) == Xor(Byte(p[0]), Up8(Xor(Byte(p[1]), Up8(Xor(Byte(p[2]), Up8(Byte(p[3])))))))
  {
  }

  /** Xoring in a byte and what lies above it is a byte step, with the rest left over. */
  lemma PeelByte(c: bv32, b: bv32, v: bv32)
    requires b <= 0xFF && v <= 0xFF_FFFF
    ensures StepByte(Xor(c, Xor(b, UpN(v, 8))), 0) == Xor(StepByte(c, b), v)
  {
    hide Xor, UpN, ShiftN, StepByte, TopClear;
    StepByteIs(Xor(c, Xor(b, UpN(v, 8))), 0);
    XorZero(Xor(c, Xor(b, UpN(v, 8))));
    XorSwap(c, b, UpN(v, 8));
    Room(v);
    ShiftXorN(Xor(c, b), v, 8);
    StepByteIs(c, b);
  }

  /** A word at a time is four bytes at a time. */
  lemma StepWordIs(c: bv32, p: seq<bv8>)
    requires |p| == 4
    ensures StepWord(c, Load32(p)) == ByteFold(c, p)
  {
    hide Xor, UpN, StepByte, Byte, Load32;
    LoadParts(p);
    var v2 := Xor(Byte(p[2]), UpN(Byte(p[3]), 8));
    var v1 := Xor(Byte(p[1]), UpN(v2, 8));
    var c1 := StepByte(c, Byte(p[0]));
    var c2 := StepByte(c1, Byte(p[1]));
    var c3 := StepByte(c2, Byte(p[2]));
    PeelByte(c, Byte(p[0]), v1);
    PeelByte(c1, Byte(p[1]), v2);
    PeelByte(c2, Byte(p[2]), Byte(p[3]));
    LastByte(c3, Byte(p[3]));
    FourBytes(c, p);
  }

  lemma LastByte(c: bv32, b: bv32)
    requires b <= 0xFF
    ensures StepByte(Xor(c, b), 0) == StepByte(c, b)
  {
    hide Xor, ShiftN, StepByte;
    StepByteIs(Xor(c, b), 0);
    XorZero(Xor(c, b));
    StepByteIs(c, b);
  }

  lemma FourBytes(c: bv32, p: seq<bv8>)
    requires |p| == 4
    ensures ByteFold(c, p) == StepByte(StepByte(StepByte(StepByte(c, Byte(p[0])), Byte(p[1])), Byte(p[2])), Byte(p[3]))
  {
    hide StepByte, Byte;
    var q1, q2, q3 := [p[1], p[2], p[3]], [p[2], p[3]], [p[3]];
    assert p[1..] == q1 && q1[1..] == q2 && q2[1..] == q3 && q3[1..] == [];
    var c1 := StepByte(c, Byte(p[0]));
    var c2 := StepByte(c1, Byte(p[1]));
    assert ByteFold(c, p) == ByteFold(c1, q1) == ByteFold(c2, q2);
    var c3 := StepByte(c2, Byte(p[2]));
    assert ByteFold(c2, q2) == ByteFold(c3, q3) == ByteFold(StepByte(c3, Byte(p[3])), []);
  }

  // ---------- The loops ----------

  lemma {:induction false} ByteFoldSnoc(c: bv32, p: seq<bv8>, i: nat)
    requires i < |p|
    ensures ByteFold(c, p[..i + 1]) == StepByte(ByteFold(c, p[..i]), Byte(p[i]))
  {
    assert p[..i + 1] == p[..i] + [p[i]];
    ByteFoldAppend(c, p[..i], [p[i]]);
    OneByte(ByteFold(c, p[..i]), p[i]);
  }

  lemma OneByte(c: bv32, b: bv8)
    ensures ByteFold(c, [b]) == StepByte(c, Byte(b))
  {
    hide StepByte, Byte;
    assert [b][1..] == [];
  }

  /** The bytes from position i up to j go through the byte loop. */
  method ByteLoop(c0: bv32, p: seq<bv8>, i: nat, j: nat) returns (c: bv32)
    requires i <= j <= |p|
    ensures c == ByteFold(c0, p[i..j])
  {
    hide StepByte, Byte, ByteFold;
    c := c0;
    NoBytes(c0);
    assert p[i..i] == [];
    for k := i to j
      invariant c == ByteFold(c0, p[i..k])
    {
      ByteFoldSnoc(c0, p[i..j], k - i);
      assert p[i..j][..k - i] == p[i..k] && p[i..j][..k - i + 1] == p[i..k + 1];
      c := StepByte(c, Byte(p[k]));
    }
  }

  lemma NoBytes(c: bv32)
    ensures ByteFold(c, []) == c
  {
  }

  /** The body of Crc32Gen::update and crc32 for a message that stands at address k0: a prefix up to a word
      boundary, whole words, and what is left. */
  method Loops(c0: bv32, p: seq<bv8>, k0: nat) returns (c: bv32)
    ensures c == ByteFold(c0, p)
  {
    hide StepByte, Byte, ByteFold, StepWord, Load32;
    var k3 := k0 + |p|;
    var k1 := (k0 + 3) / 4 * 4;
    var k2 := k3 / 4 * 4;
    assert p[0..|p|] == p;
    if k2 > k1 {
      c := ByteLoop(c0, p, 0, k1 - k0);
      var k := k1;
      while k < k2
        invariant k1 <= k <= k2 && k % 4 == 0
        invariant c == ByteFold(c0, p[..k - k0])
      {
        var i := k - k0;
        StepWordIs(c, p[i..i + 4]);
        ByteFoldAppend(c0, p[..i], p[i..i + 4]);
        assert p[..i] + p[i..i + 4] == p[..i + 4];
        c := StepWord(c, Load32(p[i..i + 4]));
        k := k + 4;
      }
      ByteFoldAppend(c0, p[..k2 - k0], p[k2 - k0..|p|]);
      assert p[..k2 - k0] + p[k2 - k0..|p|] == p;
      c := ByteLoop(c, p, k2 - k0, |p|);
    } else {
      c := ByteLoop(c0, p, 0, |p|);
    }
  }

  /** crc32: for every start address and length, the bitwise checksum. */
  method Crc(p: seq<bv8>, k0: nat) returns (r: bv32)
    ensures r == BitCrc(p)
  {
    hide ByteFold, BitFold, BitsOf, Not;
    var c := Loops(ONES, p, k0);
    ByteFoldIsBitFold(ONES, p);
    r := Not(c);
  }

  class Crc32Gen {
    var crc: bv32
    /** What was fed in since the last result. */
    ghost var fed: seq<bv8>

    ghost predicate Valid()
      reads this
    {
      crc == ByteFold(ONES, fed)
    }

    constructor ()
      ensures Valid() && fed == []
    {
      crc, fed := ONES, [];
      new;
      NoBytes(ONES);
    }

    method Update(p: seq<bv8>, k0: nat)
      requires Valid()
      modifies this
      ensures Valid() && fed == old(fed) + p
    {
      hide ByteFold;
      crc := Loops(crc, p, k0);
      ByteFoldAppend(ONES, fed, p);
      fed := fed + p;
    }

    /** done: the checksum of everything fed in, however it was split; then start again. */
    method Done() returns (t: bv32)
      requires Valid()
      modifies this
      ensures t == BitCrc(old(fed)) && Valid() && fed == []
    {
      hide ByteFold, BitFold, BitsOf, Not;
      ByteFoldIsBitFold(ONES, fed);
      NoBytes(ONES);
      t := Not(crc);
      crc, fed := ONES, [];
    }
  }
}
