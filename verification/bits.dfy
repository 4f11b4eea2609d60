/** Digits of a fixed width as bit strings, most significant bit first. */
module BitStrings {

  function Pow2(n: nat): nat {
    if n == 0 then 1 else 2 * Pow2(n - 1)
  }

  /** The `width` low bits of `v`. */
  function Bits(v: nat, width: nat): (bs: seq<bool>)
    ensures |bs| == width
    decreases width
  {
    if width == 0 then [] else Bits(v / 2, width - 1) + [v % 2 == 1]
  }

  function Value(bs: seq<bool>): nat {
    if bs == [] then 0
    else 2 * Value(bs[..|bs| - 1]) + (if bs[|bs| - 1] then 1 else 0)
  }

  /** The digits written one after the other. */
  function Unpack(ds: seq<nat>, width: nat): seq<bool> {
    if ds == [] then []
    else Unpack(ds[..|ds| - 1], width) + Bits(ds[|ds| - 1], width)
  }

  /** The digits read from the front; a rest shorter than a digit is dropped. */
  function Pack(bs: seq<bool>, width: nat): seq<nat>
    requires width > 0
  {
    if |bs| < width then []
    else [Value(bs[..width])] + Pack(bs[width..], width)
  }

  /** What `Pack` drops. */
  function Rest(bs: seq<bool>, width: nat): seq<bool>
    requires width > 0
  {
    if |bs| < width then bs else Rest(bs[width..], width)
  }

  function Zeros(n: nat): (bs: seq<bool>)
    ensures |bs| == n && forall i :: 0 <= i < n ==> !bs[i]
  {
    seq(n, _ => false)
  }

  predicate Digits(ds: seq<nat>, width: nat) {
    forall i :: 0 <= i < |ds| ==> ds[i] < Pow2(width)
  }

  // ---- One digit ----

  lemma {:induction false} ValueOfBits(v: nat, width: nat)
    requires v < Pow2(width)
    ensures Value(Bits(v, width)) == v
  {
    if width > 0 {
      ValueOfBits(v / 2, width - 1);
      assert Bits(v, width)[..width - 1] == Bits(v / 2, width - 1);
    }
  }

  lemma {:induction false} BitsOfValue(bs: seq<bool>)
    ensures Value(bs) < Pow2(|bs|) && Bits(Value(bs), |bs|) == bs
  {
    if bs != [] {
      var n := |bs| - 1;
      BitsOfValue(bs[..n]);
      assert Value(bs) / 2 == Value(bs[..n]);
      assert bs == bs[..n] + [bs[n]];
    }
  }

  lemma {:induction false} Pow2Positive(n: nat)
    ensures Pow2(n) > 0
  {
    if n > 0 { Pow2Positive(n - 1); }
  }

  lemma SmallPowers()
    ensures Pow2(4) == 16 && Pow2(5) == 32 && Pow2(8) == 256
  {
    assert Pow2(2) == 4 && Pow2(6) == 64;
  }

  /** Shifting in a digit appends its bits. */
  lemma {:induction false} BitsAppend(a: nat, n: nat, b: nat, m: nat)
    requires b < Pow2(m)
    ensures Bits(a * Pow2(m) + b, n + m) == Bits(a, n) + Bits(b, m)
    decreases m
  {
    if m == 0 {
      assert Bits(a, n) + [] == Bits(a, n);
    } else {
      var v := a * Pow2(m) + b;
      assert v == 2 * (a * Pow2(m - 1)) + b;
      assert v / 2 == a * Pow2(m - 1) + b / 2 && v % 2 == b % 2;
      BitsAppend(a, n, b / 2, m - 1);
      assert Bits(a, n) + Bits(b, m) == (Bits(a, n) + Bits(b / 2, m - 1)) + [b % 2 == 1];
    }
  }

  /** `v << n`. */
  function Shl(v: nat, n: nat): nat {
    v * Pow2(n)
  }

  /** `v >> n`. */
  function Shr(v: nat, n: nat): nat
    decreases n
  {
    if n == 0 then v else Shr(v / 2, n - 1)
  }

  /** The low bits are those of the shifted value, then the ones shifted out. */
  lemma {:induction false} BitsShr(v: nat, n: nat, m: nat)
    ensures Bits(v, n + m) == Bits(Shr(v, m), n) + Bits(v, m)
    decreases m
  {
    if m == 0 {
      assert Bits(v, n) + [] == Bits(v, n);
    } else {
      BitsShr(v / 2, n, m - 1);
    }
  }

  /** `v & (2^n - 1)`. */
  function Mask(v: nat, n: nat): nat {
    Pow2Positive(n);
    v % Pow2(n)
  }

  /** Masking keeps the low bits. */
  lemma BitsMask(v: nat, n: nat)
    ensures Mask(v, n) < Pow2(n)
    ensures Bits(Mask(v, n), n) == Bits(v, n)
  {
    hide Bits, Pow2;
    Pow2Positive(n);
    var p := Pow2(n);
    assert v == (v / p) * p + v % p;
    BitsAppend(v / p, 0, v % p, n);
    assert |Bits(v / p, 0)| == 0;
    assert Bits(v / p, 0) + Bits(v % p, n) == Bits(v % p, n);
  }

  lemma {:induction false} Pow2Bound(n: nat, m: nat)
    requires n <= m
    ensures Pow2(n) <= Pow2(m)
    decreases m
  {
    if n < m {
      Pow2Bound(n, m - 1);
    }
  }

  // ---- Digit strings ----

  lemma {:induction false} UnpackConcat(a: seq<nat>, b: seq<nat>, width: nat)
    ensures Unpack(a + b, width) == Unpack(a, width) + Unpack(b, width)
    decreases |b|
  {
    hide Bits;
    if b == [] {
      assert a + b == a;
      assert Unpack(a, width) + [] == Unpack(a, width);
    } else {
      var n := |b| - 1;
      UnpackConcat(a, b[..n], width);
      assert (a + b)[..|a + b| - 1] == a + b[..n];
      assert (a + b)[|a + b| - 1] == b[n];
      assert Unpack(a, width) + Unpack(b, width) == (Unpack(a, width) + Unpack(b[..n], width)) + Bits(b[n], width);
    }
  }

  lemma UnpackOne(d: nat, width: nat)
    ensures Unpack([d], width) == Bits(d, width)
  {
    assert [d][..0] == [];
    assert [] + Bits(d, width) == Bits(d, width);
  }

  lemma {:induction false} UnpackLength(ds: seq<nat>, width: nat)
    ensures |Unpack(ds, width)| == |ds| * width
  {
    if ds != [] {
      var n := |ds| - 1;
      UnpackLength(ds[..n], width);
      assert |ds| * width == n * width + width;
    }
  }

  lemma PackCons(d: nat, tail: seq<bool>, width: nat)
    requires width > 0 && d < Pow2(width)
    ensures Pack(Bits(d, width) + tail, width) == [d] + Pack(tail, width)
  {
    hide Bits, Value, Pow2;
    var bs := Bits(d, width) + tail;
    assert bs[..width] == Bits(d, width) && bs[width..] == tail;
    ValueOfBits(d, width);
  }

  /** Reading back what was written, whatever short rest follows. */
  lemma {:induction false} PackUnpack(ds: seq<nat>, width: nat, rest: seq<bool>)
    requires width > 0 && Digits(ds, width) && |rest| < width
    ensures Pack(Unpack(ds, width) + rest, width) == ds
    decreases |ds|
  {
    hide Bits, Value;
    if ds == [] {
      assert [] + rest == rest;
    } else {
      hide Unpack, Pack, Pow2;
      assert ds == [ds[0]] + ds[1..];
      UnpackConcat([ds[0]], ds[1..], width);
      UnpackOne(ds[0], width);
      var tail := Unpack(ds[1..], width) + rest;
      assert Unpack(ds, width) + rest == Bits(ds[0], width) + tail;
      PackCons(ds[0], tail, width);
      PackUnpack(ds[1..], width, rest);
    }
  }

  /** Writing back what was read gives the bits but a rest shorter than a digit. */
  lemma {:induction false} UnpackPack(bs: seq<bool>, width: nat)
    requires width > 0
    ensures Digits(Pack(bs, width), width)
    ensures bs == Unpack(Pack(bs, width), width) + Rest(bs, width) && |Rest(bs, width)| < width
    decreases |bs|
  {
    hide Bits, Value;
    if |bs| < width {
      assert [] + bs == bs;
    } else {
      var d, tail := Value(bs[..width]), bs[width..];
      assert Pack(bs, width) == [d] + Pack(tail, width) && Rest(bs, width) == Rest(tail, width);
      hide Unpack, Pack, Rest, Pow2;
      UnpackPack(tail, width);
      BitsOfValue(bs[..width]);
      UnpackConcat([d], Pack(tail, width), width);
      UnpackOne(d, width);
      assert bs == bs[..width] + tail;
    }
  }
}
