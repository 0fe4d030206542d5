/** arr_xt: an array of up to six dimensions stored in one run, its index arithmetic and resize. */
module ArrXt {

  const MAX_DIM: nat := 6

  /** Sizes and products are computed in size_t. */
  const WRAP: nat := 0x1_0000_0000_0000_0000

  // ---------- Arithmetic ----------

  function Mul(a: int, b: int): int {
    a * b
  }

  function Div(n: nat, d: nat): nat
    requires d > 0
  {
    n / d
  }

  function Mod(n: nat, d: nat): (r: nat)
    requires d > 0
    ensures r < d
  {
    n % d
  }

  lemma MulMono(a: nat, b: int, c: int)
    requires b <= c
    ensures Mul(a, b) <= Mul(a, c)
  {
  }

  lemma MulNext(a: int, b: int)
    ensures Mul(a, b + 1) == Mul(a, b) + a
  {
  }

  lemma MulSwap(a: int, b: int, c: int)
    ensures Mul(a, Mul(b, c)) == Mul(b, Mul(a, c)) && Mul(Mul(a, b), c) == Mul(a, Mul(b, c)) && Mul(a, b) == Mul(b, a)
  {
    assert a * (b * c) == (a * b) * c == (b * a) * c == b * (a * c);
  }

  lemma MulAdd(a: int, b: int, c: int)
    ensures Mul(a, b + c) == Mul(a, b) + Mul(a, c)
  {
  }

  lemma DivMod(n: nat, d: nat)
    requires d > 0
    ensures n == Mul(d, Div(n, d)) + Mod(n, d)
  {
  }

  /** Division with remainder has one answer. */
  lemma DivUnique(n: nat, d: nat, q: nat, r: nat)
    requires n == Mul(d, q) + r && r < d
    ensures Div(n, d) == q && Mod(n, d) == r
  {
    DivMod(n, d);
    hide Mul, Div, Mod;
    var p := Div(n, d);
    if p < q { MulMono(d, p + 1, q); MulNext(d, p); }
    if q < p { MulMono(d, q + 1, p); MulNext(d, q); }
  }

  // ---------- Index arithmetic ----------

  function Product(ds: seq<nat>): nat {
    if ds == [] then 1 else ProductStep(ds[0], Product(ds[1..]))
  }

  function ProductStep(d: nat, p: nat): nat {
    assert d * p >= 0;
    Mul(d, p)
  }

  /** k is an index tuple of shape ds. */
  predicate InShape(k: seq<nat>, ds: seq<nat>) {
    |k| == |ds| && forall i :: 0 <= i < |k| ==> k[i] < ds[i]
  }

  /** operator(): k0 + dims[0] * (k1 + dims[1] * (k2 + ...)). */
  function Offset(k: seq<nat>, ds: seq<nat>): nat
    requires |k| == |ds|
  {
    if k == [] then 0 else k[0] + ProductStep(ds[0], Offset(k[1..], ds[1..]))
  }

  predicate Divisible(ks: seq<nat>) {
    ks == [] || (ks[0] > 0 && Divisible(ks[1..]))
  }

  /** The tuple at an offset. */
  function Tuple(n: nat, ds: seq<nat>): (k: seq<nat>)
    requires Divisible(ds)
    ensures |k| == |ds|
    decreases |ds|
  {
    if ds == [] then [] else [Mod(n, ds[0])] + Tuple(Div(n, ds[0]), ds[1..])
  }

  lemma TailInShape(k: seq<nat>, ds: seq<nat>)
    requires InShape(k, ds) && k != []
    ensures |k| == |ds| && k[0] < ds[0] && InShape(k[1..], ds[1..])
  {
  }

  /** Offsets of tuples in shape stay below the number of elements. */
  lemma {:induction false} OffsetInside(k: seq<nat>, ds: seq<nat>)
    requires InShape(k, ds)
    ensures Offset(k, ds) < Product(ds)
    decreases |k|
  {
    hide Mul, InShape;
    if k == [] {
      EmptyShape(k, ds);
    } else {
      TailInShape(k, ds);
      OffsetInside(k[1..], ds[1..]);
      var o, p := Offset(k[1..], ds[1..]), Product(ds[1..]);
      MulMono(ds[0], o + 1, p);
      MulNext(ds[0], o);
    }
  }

  lemma EmptyShape(k: seq<nat>, ds: seq<nat>)
    requires InShape(k, ds) && k == []
    ensures ds == []
  {
  }

  /** Different tuples have different offsets: the tuple can be read back. */
  lemma {:induction false} TupleOfOffset(k: seq<nat>, ds: seq<nat>)
    requires InShape(k, ds)
    ensures Divisible(ds) && Tuple(Offset(k, ds), ds) == k
    decreases |k|
  {
    hide Mul, InShape, Div, Mod;
    if k == [] {
      EmptyShape(k, ds);
    } else {
      TailInShape(k, ds);
      TupleOfOffset(k[1..], ds[1..]);
      DivUnique(Offset(k, ds), ds[0], Offset(k[1..], ds[1..]), k[0]);
      assert k == [k[0]] + k[1..];
    }
  }

  lemma DivBound(n: nat, d: nat, p: nat)
    requires d > 0 && n < Mul(d, p)
    ensures Div(n, d) < p
  {
    hide Mul, Div, Mod;
    DivMod(n, d);
    if Div(n, d) >= p { MulMono(d, p, Div(n, d)); }
  }

  /** Every offset below the number of elements belongs to a tuple. */
  lemma {:induction false} OffsetOfTuple(n: nat, ds: seq<nat>)
    requires n < Product(ds) && Divisible(ds)
    ensures InShape(Tuple(n, ds), ds) && Offset(Tuple(n, ds), ds) == n
    decreases |ds|
  {
    hide Mul, Div, Mod;
    if ds != [] {
      DivBound(n, ds[0], Product(ds[1..]));
      DivMod(n, ds[0]);
      OffsetOfTuple(Div(n, ds[0]), ds[1..]);
      var t := Tuple(n, ds);
      assert t[1..] == Tuple(Div(n, ds[0]), ds[1..]);
    }
  }

  /** So indexing is a bijection between the tuples in shape and the offsets below their number. */
  lemma OffsetInjective(j: seq<nat>, k: seq<nat>, ds: seq<nat>)
    requires InShape(j, ds) && InShape(k, ds) && Offset(j, ds) == Offset(k, ds)
    ensures j == k
  {
    hide InShape, Offset, Tuple;
    TupleOfOffset(j, ds);
    TupleOfOffset(k, ds);
  }

  /** The first index runs fastest: raising index i by one moves on by the product of the extents before it. */
  lemma {:induction false} StrideIs(k: seq<nat>, ds: seq<nat>, i: nat)
    requires |k| == |ds| && i < |k|
    ensures Offset(k[i := k[i] + 1], ds) == Offset(k, ds) + Product(ds[..i])
    decreases i
  {
    hide Mul;
    var j := k[i := k[i] + 1];
    if i == 0 {
      assert j[1..] == k[1..] && ds[..0] == [];
    } else {
      StrideIs(k[1..], ds[1..], i - 1);
      assert j[1..] == k[1..][i - 1 := k[1..][i - 1] + 1];
      assert ds[..i][1..] == ds[1..][..i - 1] && ds[..i][0] == ds[0];
      MulAdd(ds[0], Offset(k[1..], ds[1..]), Product(ds[1..][..i - 1]));
    }
  }

  // ---------- The overflow test ----------

  /** k0*k1*...*k5 in size_t, multiplied from left to right. */
  function Wrapped(acc: nat, ks: seq<nat>): (r: nat)
    requires acc < WRAP
    ensures r < WRAP
    decreases |ks|
  {
    if ks == [] then acc else Wrapped(Mod(ProductStep(acc, ks[0]), WRAP), ks[1..])
  }

  /** n/k1/k2/... */
  function Divided(n: nat, ks: seq<nat>): nat
    requires Divisible(ks)
    decreases |ks|
  {
    if ks == [] then n else Divided(Div(n, ks[0]), ks[1..])
  }

  lemma ModMul(a: nat, b: nat, w: nat)
    requires w > 0
    ensures Mod(ProductStep(Mod(a, w), b), w) == Mod(ProductStep(a, b), w)
  {
    hide Mul, Div, Mod;
    var q, r := Div(a, w), Mod(a, w);
    DivMod(a, w);
    MulSwap(a, b, 0);
    MulSwap(r, b, 0);
    MulAdd(b, Mul(w, q), r);
    MulSwap(b, w, q);
    var x, t := ProductStep(r, b), ProductStep(b, q);
    DivMod(x, w);
    MulAdd(w, t, Div(x, w));
    DivUnique(ProductStep(a, b), w, t + Div(x, w), Mod(x, w));
  }

  lemma {:induction false} WrappedIs(acc: nat, ks: seq<nat>)
    requires acc < WRAP
    ensures Wrapped(acc, ks) == Mod(ProductStep(acc, Product(ks)), WRAP)
    decreases |ks|
  {
    hide Mul, Div, Mod;
    if ks == [] {
      MulOne(acc);
      SmallMod(acc);
    } else {
      var p := Product(ks[1..]);
      WrappedIs(Mod(ProductStep(acc, ks[0]), WRAP), ks[1..]);
      ModMul(ProductStep(acc, ks[0]), p, WRAP);
      MulSwap(acc, ks[0], p);
    }
  }

  lemma MulOne(a: int)
    ensures Mul(a, 1) == a && Mul(1, a) == a
  {
  }

  lemma SmallMod(n: nat)
    requires n < WRAP
    ensures Mod(n, WRAP) == n
  {
  }

  lemma {:induction false} DividedAtMost(n: nat, ks: seq<nat>)
    requires Divisible(ks)
    ensures ProductStep(Divided(n, ks), Product(ks)) <= n
    decreases |ks|
  {
    hide Mul, Div, Mod;
    if ks == [] {
      MulOne(n);
    } else {
      var q, p := Div(n, ks[0]), Product(ks[1..]);
      DividedAtMost(q, ks[1..]);
      var d := Divided(q, ks[1..]);
      MulMono(ks[0], Mul(d, p), q);
      MulSwap(d, ks[0], p);
      DivMod(n, ks[0]);
    }
  }

  lemma {:induction false} DividedExactly(k: nat, ks: seq<nat>)
    requires Divisible(ks)
    ensures Divided(ProductStep(k, Product(ks)), ks) == k
    decreases |ks|
  {
    hide Mul, Div, Mod;
    if ks == [] {
      MulOne(k);
    } else {
      var p := Product(ks[1..]);
      MulSwap(k, ks[0], p);
      DivUnique(ProductStep(k, Product(ks)), ks[0], ProductStep(k, p), 0);
      DividedExactly(k, ks[1..]);
    }
  }

  lemma PositiveFactors(a: nat, b: nat)
    ensures Mul(a, b) > 0 <==> a > 0 && b > 0
  {
  }

  lemma {:induction false} ZeroProduct(ks: seq<nat>)
    ensures Product(ks) > 0 <==> Divisible(ks)
  {
    hide Mul;
    if ks != [] {
      ZeroProduct(ks[1..]);
      PositiveFactors(ks[0], Product(ks[1..]));
    }
  }

  /** _newsize. */
  function NewSize(ks: seq<nat>): nat
    requires ks != []
  {
    Wrapped(Mod(ks[0], WRAP), ks[1..])
  }

  /** The wrapped size is the true size modulo 2^64, and the divisions of the test are by numbers other than zero. */
  lemma NewSizeIs(ks: seq<nat>)
    requires ks != []
    ensures NewSize(ks) == Mod(Product(ks), WRAP)
    ensures NewSize(ks) > 0 ==> Divisible(ks[1..])
  {
    hide Mul, Div, Mod;
    WrappedIs(Mod(ks[0], WRAP), ks[1..]);
    ModMul(ks[0], Product(ks[1..]), WRAP);
    ZeroProduct(ks);
    SmallMod(0);
  }

  /** The test resize makes before it allocates. */
  predicate Rejected(ks: seq<nat>)
    requires ks != []
  {
    NewSize(ks) > 0 && Divisible(ks[1..]) && ks[0] != Divided(NewSize(ks), ks[1..])
  }

  /** It rejects a shape exactly if its true size overflows and does not wrap to zero. */
  lemma RejectedIff(ks: seq<nat>)
    requires ks != []
    ensures Rejected(ks) <==> Product(ks) >= WRAP && Product(ks) % WRAP != 0
  {
    NewSizeIs(ks);
    ModIs(Product(ks));
    hide Mul, Div, Mod;
    if NewSize(ks) > 0 {
      DividedAtMost(NewSize(ks), ks[1..]);
      if Product(ks) < WRAP {
        SmallMod(Product(ks));
        DividedExactly(ks[0], ks[1..]);
      }
    }
  }

  lemma ModIs(n: nat)
    ensures Mod(n, WRAP) == n % WRAP
  {
  }

  /** Six dimensions of 2^16, 2^16, 2^16, 2^16, 1 and 1 wrap to zero and pass the test. */
  lemma WrapsToZero(ks: seq<nat>)
    requires ks == [0x1_0000, 0x1_0000, 0x1_0000, 0x1_0000, 1, 1]
    ensures Product(ks) == WRAP && !Rejected(ks)
  {
    assert ks[5..][1..] == [];
    assert Product(ks[5..]) == 1;
    assert ks[4..][1..] == ks[5..] && ks[3..][1..] == ks[4..] && ks[2..][1..] == ks[3..] && ks[1..][1..] == ks[2..];
    assert Product(ks[4..]) == 1;
    assert Product(ks[3..]) == 0x1_0000;
    assert Product(ks[2..]) == 0x1_0000_0000;
    assert Product(ks[1..]) == 0x1_0000_0000_0000;
    RejectedIff(ks);
  }

  // ---------- The array ----------

  function Min(a: nat, b: nat): nat {
    if b < a then b else a
  }

  /** The elements of an array of shape ds. */
  ghost predicate Fits<T>(a: seq<T>, ds: seq<nat>) {
    |ds| == MAX_DIM && |a| == Product(ds)
  }

  /** The element at tuple k. */
  function At<T>(a: seq<T>, ds: seq<nat>, k: seq<nat>): T
    requires Fits(a, ds) && InShape(k, ds)
  {
    OffsetInside(k, ds);
    a[Offset(k, ds)]
  }

  /** Tuple k has in b of shape es the element it has in a of shape ds. */
  ghost predicate SameAt<T>(a: seq<T>, ds: seq<nat>, b: seq<T>, es: seq<nat>, k: seq<nat>)
    requires Fits(a, ds) && Fits(b, es)
  {
    InShape(k, ds) && InShape(k, es) ==> At(b, es, k) == At(a, ds, k)
  }

  /** Every tuple of both shapes that starts with pre is copied from a to b, and c is b where it does not. */
  ghost predicate CopiedUnder<T>(a: seq<T>, ds: seq<nat>, c: seq<T>, b: seq<T>, es: seq<nat>, pre: seq<nat>)
    requires Fits(a, ds) && Fits(b, es) && Fits(c, es)
  {
    && (forall k: seq<nat> :: pre <= k ==> SameAt(a, ds, b, es, k))
    && (forall k: seq<nat> :: !(pre <= k) ==> SameAt(c, es, b, es, k))
  }

  /** pre are indices of the outer loops, each below both extents. */
  predicate Indices(pre: seq<nat>, ds: seq<nat>, es: seq<nat>) {
    |pre| <= |ds| == |es| && forall i :: 0 <= i < |pre| ==> pre[i] < ds[i] && pre[i] < es[i]
  }

  lemma OneCopied<T>(a: seq<T>, ds: seq<nat>, c: seq<T>, es: seq<nat>, pre: seq<nat>)
    requires Fits(a, ds) && Fits(c, es) && Indices(pre, ds, es) && |pre| == MAX_DIM
    ensures |pre| == |es| == |ds| && Offset(pre, es) < |c| && Offset(pre, ds) < |a|
    ensures CopiedUnder(a, ds, c, c[Offset(pre, es) := a[Offset(pre, ds)]], es, pre)
  {
    WholeTuple(pre, ds, es);
    OffsetInside(pre, ds);
    OffsetInside(pre, es);
    hide Offset, InShape, Product, SameAt;
    var b := c[Offset(pre, es) := a[Offset(pre, ds)]];
    forall k: seq<nat> | pre <= k ensures SameAt(a, ds, b, es, k) { OneUnder(a, ds, c, es, pre, k); }
    forall k: seq<nat> | !(pre <= k) ensures SameAt(c, es, b, es, k) { OneBeside(c, es, pre, a[Offset(pre, ds)], k); }
  }

  lemma OneUnder<T>(a: seq<T>, ds: seq<nat>, c: seq<T>, es: seq<nat>, pre: seq<nat>, k: seq<nat>)
    requires Fits(a, ds) && Fits(c, es) && InShape(pre, ds) && InShape(pre, es) && pre <= k
    requires Offset(pre, es) < |c| && Offset(pre, ds) < |a|
    ensures SameAt(a, ds, c[Offset(pre, es) := a[Offset(pre, ds)]], es, k)
  {
    hide Offset, Product;
    if InShape(k, es) { LongestIs(k, pre, es); }
  }

  lemma OneBeside<T>(c: seq<T>, es: seq<nat>, pre: seq<nat>, v: T, k: seq<nat>)
    requires Fits(c, es) && InShape(pre, es) && !(pre <= k) && Offset(pre, es) < |c|
    ensures SameAt(c, es, c[Offset(pre, es) := v], es, k)
  {
    hide Offset, Product;
    if InShape(k, es) {
      OffsetInside(k, es);
      OtherOffset(k, pre, es);
    }
  }

  lemma WholeTuple(pre: seq<nat>, ds: seq<nat>, es: seq<nat>)
    requires Indices(pre, ds, es) && |pre| == |ds|
    ensures InShape(pre, ds) && InShape(pre, es)
  {
  }

  lemma LongestIs(k: seq<nat>, pre: seq<nat>, es: seq<nat>)
    requires pre <= k && InShape(k, es) && |pre| == |es|
    ensures k == pre
  {
  }

  lemma OtherOffset(k: seq<nat>, pre: seq<nat>, es: seq<nat>)
    requires InShape(k, es) && InShape(pre, es) && k != pre
    ensures |k| == |es| && |pre| == |es| && Offset(k, es) != Offset(pre, es)
  {
    if Offset(k, es) == Offset(pre, es) { OffsetInjective(k, pre, es); }
  }

  /** Copied so far under pre: the tuples whose next index is below i. */
  ghost predicate CopiedBelow<T>(a: seq<T>, ds: seq<nat>, c: seq<T>, b: seq<T>, es: seq<nat>, pre: seq<nat>, i: nat)
    requires Fits(a, ds) && Fits(b, es) && Fits(c, es) && |pre| < MAX_DIM
  {
    && (forall k: seq<nat> :: Under(k, pre, i) ==> SameAt(a, ds, b, es, k))
    && (forall k: seq<nat> :: !Under(k, pre, i) ==> SameAt(c, es, b, es, k))
  }

  predicate Under(k: seq<nat>, pre: seq<nat>, i: nat) {
    pre <= k && |k| > |pre| && k[|pre|] < i
  }

  lemma NothingCopied<T>(a: seq<T>, ds: seq<nat>, c: seq<T>, es: seq<nat>, pre: seq<nat>)
    requires Fits(a, ds) && Fits(c, es) && |pre| < MAX_DIM
    ensures CopiedBelow(a, ds, c, c, es, pre, 0)
  {
  }

  lemma MoreCopied<T>(a: seq<T>, ds: seq<nat>, c: seq<T>, b: seq<T>, b2: seq<T>, es: seq<nat>, pre: seq<nat>, i: nat)
    requires Fits(a, ds) && Fits(b, es) && Fits(b2, es) && Fits(c, es) && |pre| < MAX_DIM
    requires CopiedBelow(a, ds, c, b, es, pre, i) && CopiedUnder(a, ds, b, b2, es, pre + [i])
    ensures CopiedBelow(a, ds, c, b2, es, pre, i + 1)
  {
    hide Offset, InShape, Fits;
    forall k: seq<nat> ensures Under(k, pre, i + 1) <==> Under(k, pre, i) || pre + [i] <= k { Nested(k, pre, i); }
    hide Under;
    forall k: seq<nat> | Under(k, pre, i + 1) ensures SameAt(a, ds, b2, es, k) {
      if !(pre + [i] <= k) { SameTwice(a, ds, b, b2, es, k); }
    }
    forall k: seq<nat> | !Under(k, pre, i + 1) ensures SameAt(c, es, b2, es, k) {
      SameTwice(c, es, b, b2, es, k);
    }
  }

  lemma Nested(k: seq<nat>, pre: seq<nat>, i: nat)
    ensures Under(k, pre, i + 1) <==> Under(k, pre, i) || pre + [i] <= k
  {
    if pre + [i] <= k { assert k[|pre|] == (pre + [i])[|pre|]; assert pre <= pre + [i]; }
    if pre <= k && |k| > |pre| && k[|pre|] == i { assert k[..|pre| + 1] == pre + [i]; }
  }

  lemma SameTwice<T>(a: seq<T>, ds: seq<nat>, b: seq<T>, b2: seq<T>, es: seq<nat>, k: seq<nat>)
    requires Fits(a, ds) && Fits(b, es) && Fits(b2, es) && SameAt(a, ds, b, es, k) && SameAt(b, es, b2, es, k)
    ensures SameAt(a, ds, b2, es, k)
  {
  }

  lemma AllCopied<T>(a: seq<T>, ds: seq<nat>, c: seq<T>, b: seq<T>, es: seq<nat>, pre: seq<nat>)
    requires Fits(a, ds) && Fits(b, es) && Fits(c, es) && |pre| < MAX_DIM
    requires CopiedBelow(a, ds, c, b, es, pre, Min(ds[|pre|], es[|pre|]))
    ensures CopiedUnder(a, ds, c, b, es, pre)
  {
    var n := Min(ds[|pre|], es[|pre|]);
    forall k: seq<nat> | pre <= k ensures SameAt(a, ds, b, es, k) {
      if InShape(k, ds) && InShape(k, es) { assert Under(k, pre, n); }
    }
    forall k: seq<nat> | !(pre <= k) ensures SameAt(c, es, b, es, k) { assert !Under(k, pre, n); }
  }

  class Arr<T(0)> {
    var impl: array<T>
    var dims: seq<nat>

    ghost predicate Valid()
      reads this, impl
    {
      Fits(impl[..], dims)
    }

    constructor ()
      ensures Valid() && fresh(impl) && dims == [0, 0, 0, 0, 0, 0]
    {
      impl, dims := new T[0], [0, 0, 0, 0, 0, 0];
    }

    /** The nested copying loops, one for each dimension. */
    static method CopyFrom(src: array<T>, ds: seq<nat>, dst: array<T>, es: seq<nat>, pre: seq<nat>)
      requires Fits(src[..], ds) && Fits(dst[..], es) && src != dst && Indices(pre, ds, es)
      modifies dst
      ensures CopiedUnder(src[..], ds, old(dst[..]), dst[..], es, pre)
      decreases MAX_DIM - |pre|
    {
      hide CopiedUnder, CopiedBelow, Offset, Product;
      ghost var c := dst[..];
      if |pre| == MAX_DIM {
        OneCopied(src[..], ds, c, es, pre);
        dst[Offset(pre, es)] := src[Offset(pre, ds)];
        return;
      }
      NothingCopied(src[..], ds, c, es, pre);
      for i := 0 to Min(ds[|pre|], es[|pre|])
        invariant CopiedBelow(src[..], ds, c, dst[..], es, pre, i)
      {
        ghost var b := dst[..];
        CopyFrom(src, ds, dst, es, pre + [i]);
        MoreCopied(src[..], ds, c, b, dst[..], es, pre, i);
      }
      AllCopied(src[..], ds, c, dst[..], es, pre);
    }

    /** resize: false where the source raises XBadAlloc, which changes nothing. A shape whose size does not overflow
        is taken, and every tuple of both shapes keeps its element; a shape whose size wraps to zero leaves an
        array without elements. */
    method Resize(ks: seq<nat>, maxSize: nat) returns (ok: bool)
      requires Valid() && |ks| == MAX_DIM
      modifies this
      ensures ok <==> !(Product(ks) >= WRAP && Product(ks) % WRAP != 0) && Product(ks) % WRAP <= maxSize
      ensures !ok ==> impl == old(impl) && dims == old(dims)
      ensures ok ==> dims == ks && fresh(impl)
      ensures ok && Product(ks) < WRAP ==> Valid() && impl.Length == Product(ks)
      ensures ok && Product(ks) < WRAP ==> forall k: seq<nat> :: SameAt(old(impl[..]), old(dims), impl[..], ks, k)
      ensures ok && Product(ks) >= WRAP ==> impl.Length == 0
    {
      NewSizeIs(ks);
      ModIs(Product(ks));
      RejectedIff(ks);
      if Product(ks) < WRAP { SmallMod(Product(ks)); }
      hide Product, NewSize, Wrapped, Divided, CopiedUnder, SameAt, Rejected;
      var n := NewSize(ks);
      if Rejected(ks) || n > maxSize {
        return false;
      }
      var tmp := new T[n];
      if n == 0 {
        NoElements(old(impl[..]), old(dims), tmp[..], ks);
        impl, dims := tmp, ks;
        return true;
      }
      CopyFrom(impl, dims, tmp, ks, []);
      impl, dims := tmp, ks;
      return true;
    }
  }

  lemma NoElements<T>(a: seq<T>, ds: seq<nat>, b: seq<T>, es: seq<nat>)
    requires Fits(a, ds) && b == []
    ensures Fits(b, es) ==> forall k: seq<nat> :: SameAt(a, ds, b, es, k)
  {
    if Fits(b, es) {
      forall k: seq<nat> ensures !InShape(k, es) { if InShape(k, es) { OffsetInside(k, es); } }
    }
  }
}
