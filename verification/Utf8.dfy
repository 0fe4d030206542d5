/** Conversion between 16-bit units and UTF-8: the two loops undo each other on every sequence of units. */
module Utf8 {

  // ---------- One unit ----------

  /** Conversion to unsigned char. */
  function Low(x: bv16): bv8 {
    (x & 0xFF) as bv8
  }

  function Cont(code: bv16): bv8 {
    Low((code | 0x80) & 0xBF)
  }

  function Lead2(code: bv16): bv8 {
    Low((code >> 6) | 0xC0)
  }

  function Lead3(code: bv16): bv8 {
    Low((code >> 12) | 0xE0)
  }

  function Shift6(code: bv16): bv16 {
    code >> 6
  }

  /** The bytes the encoder writes for one unit. */
  function Encode1(code: bv16): (r: seq<bv8>)
    ensures 1 <= |r| <= 3
  {
    if code < 0x80 then [Low(code)]
    else if code < 0x800 then [Lead2(code), Cont(code)]
    else [Lead3(code), Cont(Shift6(code)), Cont(code)]
  }

  /** How many bytes the decoder takes for a lead byte. */
  function Taken(uc: bv8): (n: nat)
    ensures 1 <= n <= 4
  {
    if uc < 0xC0 then 1 else if uc < 0xE0 then 2 else if uc < 0xF0 then 3 else 4
  }

  /** uc & 0x3F, as the 32-bit int the sums are computed in. The lead byte is masked like the others. */
  function Six(b: bv8): bv32 {
    (b & 0x3F) as bv32
  }

  /** Conversion to uint16_t. */
  function Cut(x: bv32): bv16 {
    (x & 0xFFFF) as bv16
  }

  function Sum2(a: bv8, b: bv8): bv32 {
    (Six(a) << 6) + Six(b)
  }

  function Sum3(a: bv8, b: bv8, c: bv8): bv32 {
    (Six(a) << 12) + (Six(b) << 6) + Six(c)
  }

  function Sum4(a: bv8, b: bv8, c: bv8, d: bv8): bv32 {
    (Six(a) << 18) + (Six(b) << 12) + (Six(c) << 6) + Six(d)
  }

  function Wide(b: bv8): bv16 {
    b as bv16
  }

  /** The unit the decoder stores for the bytes at the front of p. */
  function Decode1(p: seq<bv8>): bv16
    requires p != [] && Taken(p[0]) <= |p|
  {
    if p[0] < 0xC0 then Wide(p[0])
    else if p[0] < 0xE0 then Cut(Sum2(p[0], p[1]))
    else if p[0] < 0xF0 then Cut(Sum3(p[0], p[1], p[2]))
    else Cut(Sum4(p[0], p[1], p[2], p[3]))
  }

  lemma One(u: bv16)
    requires u < 0x80
    ensures Wide(Low(u)) == u && Low(u) < 0x80
  {
  }

  lemma Two(u: bv16)
    requires 0x80 <= u < 0x800
    ensures Cut(Sum2(Lead2(u), Cont(u))) == u && 0xC0 <= Lead2(u) < 0xE0
  {
  }

  /** Cutting to 16 bits removes the lead bit that the mask 0x3F lets through. */
  lemma Three(u: bv16)
    requires 0x800 <= u
    ensures Sum3(Lead3(u), Cont(Shift6(u)), Cont(u)) == 0x2_0000 + u as bv32
    ensures Cut(Sum3(Lead3(u), Cont(Shift6(u)), Cont(u))) == u && 0xE0 <= Lead3(u) < 0xF0
  {
  }

  lemma OneComesBack(u: bv16)
    ensures Taken(Encode1(u)[0]) == |Encode1(u)| && Decode1(Encode1(u)) == u
  {
    hide Low, Lead2, Lead3, Cont, Shift6, Sum2, Sum3, Cut, Wide;
    if u < 0x80 { One(u); } else if u < 0x800 { Two(u); } else { Three(u); }
  }

  // ---------- The standard ----------

  /** The octet layouts of section 3 of RFC 3629 for numbers below 2^16, each with the range it is used for. */
  predicate Layout1(u: bv16, a: bv8) {
    a & 0x80 == 0 && Wide(a) == u
  }

  predicate Layout2(u: bv16, a: bv8, b: bv8) {
    && 0x80 <= u < 0x800 && a & 0xE0 == 0xC0 && b & 0xC0 == 0x80
    && (Wide(a & 0x1F) << 6) | Wide(b & 0x3F) == u
  }

  predicate Layout3(u: bv16, a: bv8, b: bv8, c: bv8) {
    && 0x800 <= u && a & 0xF0 == 0xE0 && b & 0xC0 == 0x80 && c & 0xC0 == 0x80
    && (Wide(a & 0x0F) << 12) | (Wide(b & 0x3F) << 6) | Wide(c & 0x3F) == u
  }

  predicate Rfc3629(u: bv16, p: seq<bv8>) {
    || (|p| == 1 && Layout1(u, p[0]))
    || (|p| == 2 && Layout2(u, p[0], p[1]))
    || (|p| == 3 && Layout3(u, p[0], p[1], p[2]))
  }

  lemma Layout1Is(u: bv16, a: bv8)
    ensures Layout1(u, a) <==> u < 0x80 && a == Low(u)
  {
  }

  lemma Layout2Is(u: bv16, a: bv8, b: bv8)
    ensures Layout2(u, a, b) <==> 0x80 <= u < 0x800 && a == Lead2(u) && b == Cont(u)
  {
  }

  lemma Layout3Is(u: bv16, a: bv8, b: bv8, c: bv8)
    ensures Layout3(u, a, b, c) <==> 0x800 <= u && a == Lead3(u) && b == Cont(Shift6(u)) && c == Cont(u)
  {
    if Layout3(u, a, b, c) { Layout3Only(u, a, b, c); }
    Layout3Fits(u);
    hide Layout3, Lead3, Cont, Shift6;
  }

  lemma Layout3Only(u: bv16, a: bv8, b: bv8, c: bv8)
    requires Layout3(u, a, b, c)
    ensures a == Lead3(u) && b == Cont(Shift6(u)) && c == Cont(u)
  {
  }

  lemma Layout3Fits(u: bv16)
    ensures 0x800 <= u ==> Layout3(u, Lead3(u), Cont(Shift6(u)), Cont(u))
  {
  }

  /** The encoder writes what the standard says, and nothing else fits the standard. */
  lemma EncodesByStandard(u: bv16, p: seq<bv8>)
    ensures Rfc3629(u, p) <==> p == Encode1(u)
  {
    hide Layout1, Layout2, Layout3, Low, Lead2, Lead3, Cont, Shift6;
    if |p| == 1 { Layout1Is(u, p[0]); }
    if |p| == 2 { Layout2Is(u, p[0], p[1]); }
    if |p| == 3 { Layout3Is(u, p[0], p[1], p[2]); }
  }

  // ---------- Sequences ----------

  function Encode(us: seq<bv16>): (r: seq<bv8>)
    ensures |r| <= 3 * |us|
  {
    if us == [] then [] else Encode1(us[0]) + Encode(us[1..])
  }

  /** No lead byte asks for more bytes than there are. */
  predicate Whole(p: seq<bv8>)
    decreases |p|
  {
    p == [] || (Taken(p[0]) <= |p| && Whole(p[Taken(p[0])..]))
  }

  function Decode(p: seq<bv8>): (r: seq<bv16>)
    requires Whole(p)
    ensures |r| <= |p|
    decreases |p|
  {
    if p == [] then [] else [Decode1(p)] + Decode(p[Taken(p[0])..])
  }

  /** The decoder looks no further than the bytes it takes. */
  lemma FrontOnly(e: seq<bv8>, rest: seq<bv8>)
    requires e != [] && Taken(e[0]) == |e|
    ensures Decode1(e + rest) == Decode1(e)
  {
    hide Cut, Sum2, Sum3, Sum4, Wide;
  }

  /** Decoding undoes encoding, for every sequence of 16-bit units, surrogates included. */
  lemma {:induction false} RoundTrip(us: seq<bv16>)
    ensures Whole(Encode(us)) && Decode(Encode(us)) == us
    decreases |us|
  {
    hide Encode1, Decode1, Taken;
    if us != [] {
      var e, rest := Encode1(us[0]), Encode(us[1..]);
      RoundTrip(us[1..]);
      OneComesBack(us[0]);
      FrontOnly(e, rest);
      assert (e + rest)[|e|..] == rest && (e + rest)[0] == e[0];
      assert us == [us[0]] + us[1..];
    }
  }

  // ---------- The loops ----------

  /** The bytes of one unit are written at pa. */
  method PutUnit(buf: array<bv8>, pa: nat, code: bv16) returns (pa2: nat)
    requires pa + 3 <= buf.Length
    modifies buf
    ensures pa2 == pa + |Encode1(code)| && buf[pa..pa2] == Encode1(code) && buf[..pa] == old(buf[..pa])
  {
    hide Low, Lead2, Lead3, Cont, Shift6;
    if code < 0x80 {
      buf[pa] := Low(code);
      pa2 := pa + 1;
    } else if code < 0x800 {
      buf[pa + 1] := Cont(code);
      buf[pa] := Lead2(code);
      pa2 := pa + 2;
    } else {
      buf[pa + 2] := Cont(code);
      buf[pa + 1] := Cont(Shift6(code));
      buf[pa] := Lead3(code);
      pa2 := pa + 3;
    }
  }

  lemma EncodeNext(done: seq<bv8>, pw: seq<bv16>, k: nat)
    requires k < |pw|
    ensures done + Encode(pw[k..]) == (done + Encode1(pw[k])) + Encode(pw[k + 1..])
  {
    hide Encode1;
    assert pw[k..][0] == pw[k] && pw[k..][1..] == pw[k + 1..];
    Assoc(done, Encode1(pw[k]), Encode(pw[k + 1..]));
  }

  lemma Assoc<T>(a: seq<T>, b: seq<T>, c: seq<T>)
    ensures a + (b + c) == (a + b) + c
  {
  }

  lemma NothingLeft(done: seq<bv8>, pw: seq<bv16>)
    ensures done + Encode(pw[|pw|..]) == done && Encode(pw[0..]) == Encode(pw) && [] + Encode(pw) == Encode(pw)
  {
    assert pw[0..] == pw && pw[|pw|..] == [];
  }

  /** unicode_to_utf8: four bytes of room for each unit are enough. */
  method UnicodeToUtf8(pw: seq<bv16>) returns (dst: seq<bv8>)
    ensures dst == Encode(pw)
  {
    hide Encode1, Encode;
    var buf := new bv8[|pw| * 4];
    var pa := 0;
    NothingLeft([], pw);
    for k := 0 to |pw|
      invariant pa <= 3 * k
      invariant buf[..pa] + Encode(pw[k..]) == Encode(pw)
    {
      EncodeNext(buf[..pa], pw, k);
      ghost var done := buf[..pa];
      var pa2 := PutUnit(buf, pa, pw[k]);
      assert buf[..pa2] == done + Encode1(pw[k]);
      pa := pa2;
    }
    NothingLeft(buf[..pa], pw);
    dst := buf[..pa];
  }

  lemma SameFirst(p: seq<bv8>, q: seq<bv8>)
    requires p != [] && Taken(p[0]) <= |p|
    ensures (p + q)[0] == p[0] && (p + q)[Taken(p[0])..] == p[Taken(p[0])..] + q && Decode1(p + q) == Decode1(p)
  {
    hide Decode1, Taken;
    var c, r := p[..Taken(p[0])], p[Taken(p[0])..];
    assert c + r == p && c + (r + q) == p + q && c[0] == p[0];
    FrontOnly(c, r);
    FrontOnly(c, r + q);
  }

  lemma DecodeFirst(p: seq<bv8>)
    requires p != []
    ensures Whole(p) <==> Taken(p[0]) <= |p| && Whole(p[Taken(p[0])..])
    ensures Whole(p) ==> Decode(p) == [Decode1(p)] + Decode(p[Taken(p[0])..])
  {
    hide Decode1, Taken;
  }

  /** Behind whole characters, the rest decides. */
  lemma {:induction false} WholeAdd(p: seq<bv8>, q: seq<bv8>)
    requires Whole(p)
    ensures Whole(p + q) <==> Whole(q)
    ensures Whole(q) ==> Decode(p + q) == Decode(p) + Decode(q)
    decreases |p|
  {
    hide Decode1, Taken, Whole, Decode;
    if p == [] {
      assert p + q == q;
      NothingMore();
    } else {
      DecodeFirst(p);
      DecodeFirst(p + q);
      SameFirst(p, q);
      var r := p[Taken(p[0])..];
      WholeAdd(r, q);
      if Whole(q) { Assoc([Decode1(p)], Decode(r), Decode(q)); }
    }
  }

  /** One character more: it is the input's if it ends within ln, and otherwise the input was cut inside it. */
  lemma DecodeNext(mem: seq<bv8>, k: nat, ln: nat)
    requires k < ln && ln + 3 <= |mem| && Whole(mem[..k])
    ensures k < k + Taken(mem[k]) <= |mem| && k + Taken(mem[k]) <= ln + 3
    ensures Whole(mem[..k + Taken(mem[k])]) && Decode(mem[..k + Taken(mem[k])]) == Decode(mem[..k]) + [Decode1(mem[k..])]
    ensures k + Taken(mem[k]) > ln ==> !Whole(mem[..ln])
  {
    var n := Taken(mem[k]);
    assert 1 <= n <= 4;
    hide Decode1, Taken, Whole, Decode;
    var c := mem[k..k + n];
    OneCharacter(c);
    Slices(mem, k, k + n);
    FrontOnly(c, mem[k + n..]);
    WholeAdd(mem[..k], c);
    if k + n > ln {
      Slices(mem, k, ln);
      DecodeFirst(mem[k..ln]);
      WholeAdd(mem[..k], mem[k..ln]);
    }
  }

  lemma Slices<T>(m: seq<T>, i: nat, j: nat)
    requires i < j <= |m|
    ensures m[..i] + m[i..j] == m[..j] && m[i..j] + m[j..] == m[i..] && m[i..j][0] == m[i]
  {
  }

  lemma OneCharacter(c: seq<bv8>)
    requires c != [] && Taken(c[0]) == |c|
    ensures Whole(c) && Decode(c) == [Decode1(c)]
  {
    hide Decode1, Taken;
    assert c[|c|..] == [];
  }

  /** utf8_to_unicode on the first ln bytes of mem: one unit of room for each byte is enough. far is how far it
      reads: beyond its input exactly when that ends inside a character, and then what follows is decoded with it. */
  method Utf8ToUnicode(mem: seq<bv8>, ln: nat) returns (dst: seq<bv16>, far: nat)
    requires ln + 3 <= |mem|
    ensures ln <= far <= ln + 3 && Whole(mem[..far]) && dst == Decode(mem[..far]) && |dst| <= ln
    ensures far > ln <==> !Whole(mem[..ln])
  {
    hide Decode1, Taken, Decode, Whole;
    var buf := new bv16[ln];
    var n := 0;
    far := 0;
    NothingMore();
    assert mem[..0] == [] && buf[..0] == [];
    while far < ln
      invariant n <= far <= ln + 3 && n <= ln && (far <= ln || !Whole(mem[..ln]))
      invariant Whole(mem[..far]) && buf[..n] == Decode(mem[..far])
      decreases ln - far
    {
      DecodeNext(mem, far, ln);
      ghost var done := buf[..n];
      buf[n] := Decode1(mem[far..]);
      assert buf[..n + 1] == done + [Decode1(mem[far..])];
      n := n + 1;
      far := far + Taken(mem[far]);
    }
    dst := buf[..n];
  }

  lemma NothingMore()
    ensures Whole([]) && Decode([]) == []
  {
  }

  // ---------- Other input ----------

  /** The octet layout of section 3 of RFC 3629 for numbers from 2^16 on. */
  predicate Layout4(u: bv32, a: bv8, b: bv8, c: bv8, d: bv8) {
    && 0x1_0000 <= u < 0x11_0000 && a & 0xF8 == 0xF0 && b & 0xC0 == 0x80 && c & 0xC0 == 0x80 && d & 0xC0 == 0x80
    && ((a & 0x07) as bv32 << 18) | ((b & 0x3F) as bv32 << 12) | ((c & 0x3F) as bv32 << 6) | (d & 0x3F) as bv32 == u
  }

  lemma FourSum(u: bv32, a: bv8, b: bv8, c: bv8, d: bv8)
    requires Layout4(u, a, b, c, d)
    ensures Cut(Sum4(a, b, c, d)) == Cut(u) && a >= 0xF0
  {
  }

  /** A number above 16 bits loses what does not fit, and a byte that begins no character stands for itself. */
  lemma OtherInput(p: seq<bv8>, u: bv32)
    requires p != []
    ensures |p| >= 4 && Layout4(u, p[0], p[1], p[2], p[3]) ==> Taken(p[0]) == 4 && Decode1(p) == Cut(u)
    ensures p[0] < 0xC0 ==> Taken(p[0]) == 1 && Decode1(p) == Wide(p[0])
  {
    hide Layout4, Cut, Sum2, Sum3, Sum4, Wide;
    if |p| >= 4 && Layout4(u, p[0], p[1], p[2], p[3]) { FourSum(u, p[0], p[1], p[2], p[3]); }
  }

  // ---------- 32-bit units ----------

  function Low32(x: bv32): bv8 {
    (x & 0xFF) as bv8
  }

  function Cont32(code: bv32): bv8 {
    Low32((code | 0x80) & 0xBF)
  }

  /** One 32-bit unit encoded and decoded again, without the final cut to 16 bits. */
  function ThereAndBack32(u: bv32): bv32
    requires u < 0x11_0000
  {
    if u < 0x80 then u
    else if u < 0x800 then Sum2(Low32((u >> 6) | 0xC0), Cont32(u))
    else if u < 0x1_0000 then Sum3(Low32((u >> 12) | 0xE0), Cont32(u >> 6), Cont32(u))
    else Sum4(Low32((u >> 18) | 0xF0), Cont32(u >> 12), Cont32(u >> 6), Cont32(u))
  }

  lemma Two32(u: bv32)
    requires 0x80 <= u < 0x800
    ensures Sum2(Low32((u >> 6) | 0xC0), Cont32(u)) == u
  {
  }

  lemma Three32(u: bv32)
    requires 0x800 <= u < 0x1_0000
    ensures Sum3(Low32((u >> 12) | 0xE0), Cont32(u >> 6), Cont32(u)) == u + 0x2_0000
  {
  }

  lemma Four32(u: bv32)
    requires 0x1_0000 <= u < 0x11_0000
    ensures Sum4(Low32((u >> 18) | 0xF0), Cont32(u >> 12), Cont32(u >> 6), Cont32(u)) == u + 0xC0_0000
  {
  }

  /** With 32-bit units the lead mask is not undone: a unit comes back exactly if it takes at most two bytes. */
  lemma Units32(u: bv32)
    requires u < 0x11_0000
    ensures ThereAndBack32(u) == u <==> u < 0x800
    ensures ThereAndBack32(u) == if u < 0x800 then u else if u < 0x1_0000 then u + 0x2_0000 else u + 0xC0_0000
  {
    hide Sum2, Sum3, Sum4, Low32, Cont32;
    if u < 0x80 {} else if u < 0x800 { Two32(u); } else if u < 0x1_0000 { Three32(u); } else { Four32(u); }
  }
}
