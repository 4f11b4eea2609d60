/** CRC16-XModem (tools/agent-tx/src/base32.rs). A `u16` is its string of 16
    bits, most significant first, so shifts move positions and xor is
    position by position. */
module Crc {
  import opened BitStrings

  type Bits16 = bs: seq<bool> | |bs| == 16 witness Zeros(16)

  const ZERO: Bits16 := Zeros(16)

  /** The polynomial 0x1021: bits 12, 5 and 0. */
  const POLYNOMIAL: Bits16 :=
    [false, false, false, true, false, false, false, false, false, false, true, false, false, false, false, true]

  lemma PolynomialValue(v: nat)
    requires v == 0x1021
    ensures Bits(v, 16) == POLYNOMIAL
  {
    hide Bits, Pow2;
    TwoBytes(v);
    TwoNibbles(v / 256);
    TwoNibbles(v % 256);
    Nibble(v / 256 / 16);
    Nibble(v / 256 % 16);
    Nibble(v % 256 / 16);
    Nibble(v % 256 % 16);
  }

  lemma TwoBytes(v: nat)
    ensures Bits(v, 16) == Bits(v / 256, 8) + Bits(v % 256, 8)
  {
    hide Bits, Pow2;
    SmallPowers();
    BitsAppend(v / 256, 8, v % 256, 8);
  }

  lemma TwoNibbles(v: nat)
    ensures Bits(v, 8) == Bits(v / 16, 4) + Bits(v % 16, 4)
  {
    hide Bits, Pow2;
    SmallPowers();
    BitsAppend(v / 16, 4, v % 16, 4);
  }

  lemma TwoZeros()
    ensures Bits(0, 2) == [false, false]
  {
    assert Bits(0, 1) == [false];
  }

  lemma Nibble(v: nat)
    requires v < 4
    ensures Bits(v, 4) == [false, false, v / 2 == 1, v % 2 == 1]
  {
    TwoZeros();
    assert v / 2 / 2 == 0 && v / 2 % 2 == v / 2;
    assert Bits(v / 2, 3) == Bits(0, 2) + [v / 2 == 1];
  }

  function Xor(a: seq<bool>, b: seq<bool>): (r: seq<bool>)
    requires |a| == |b|
    ensures |r| == |a| && forall i :: 0 <= i < |a| ==> r[i] == (a[i] != b[i])
  {
    seq(|a|, i requires 0 <= i < |a| => a[i] != b[i])
  }

  function ShiftLeft(a: Bits16): Bits16 {
    a[1..] + [false]
  }

  /** One shift of the register. */
  function Shift(crc: Bits16): Bits16 {
    if crc[0] then Xor(ShiftLeft(crc), POLYNOMIAL) else ShiftLeft(crc)
  }

  /** One message bit into the register. */
  function Feed(crc: Bits16, bit: bool): Bits16 {
    Shift(crc[0 := crc[0] != bit])
  }

  /** The register after the bits of a message. */
  function CrcBits(crc: Bits16, bs: seq<bool>): Bits16 {
    if bs == [] then crc else Feed(CrcBits(crc, bs[..|bs| - 1]), bs[|bs| - 1])
  }

  /** The checksum of a byte string: its bits through a zero register. */
  function Checksum(data: seq<nat>): Bits16 {
    CrcBits(ZERO, Unpack(data, 8))
  }

  // ---- The byte loop ----

  function Shifts(crc: Bits16, n: nat): Bits16 {
    if n == 0 then crc else Shift(Shifts(crc, n - 1))
  }

  /** Bits mixed in at the top of the register: `crc ^ (u16::from(b) << 8)` for
      the eight bits of a byte. */
  function MixIn(crc: Bits16, bs: seq<bool>): Bits16
    requires |bs| <= 16
  {
    Xor(crc, bs + Zeros(16 - |bs|))
  }

  /** While bits mixed in at once are shifted out, the remaining ones stay on top
      of the register that was fed the first `n` one by one. */
  lemma {:induction false} MixedAhead(crc: Bits16, bs: seq<bool>, n: nat)
    requires n <= |bs| <= 16
    ensures Shifts(MixIn(crc, bs), n) == Xor(CrcBits(crc, bs[..n]), bs[n..] + Zeros(16 - |bs| + n))
  {
    if n == 0 {
      assert bs[0..] == bs && bs[..0] == [];
    } else {
      MixedAhead(crc, bs, n - 1);
      var r := CrcBits(crc, bs[..n - 1]);
      assert bs[..n][..n - 1] == bs[..n - 1];
      var ahead := bs[n - 1..] + Zeros(16 - |bs| + n - 1);
      MixedShift(r, ahead);
      assert ahead[0] == bs[n - 1];
      assert ahead[1..] + [false] == bs[n..] + Zeros(16 - |bs| + n);
    }
  }

  lemma MixedShift(r: Bits16, ahead: Bits16)
    ensures Shift(Xor(r, ahead)) == Xor(Feed(r, ahead[0]), ahead[1..] + [false])
  {
    var left, right := Shift(Xor(r, ahead)), Xor(Feed(r, ahead[0]), ahead[1..] + [false]);
    assert forall i :: 0 <= i < 16 ==> left[i] == right[i];
  }

  /** The loops of `crc16_xmodem` compute the bit-serial checksum. */
  method Crc16(data: seq<nat>) returns (crc: Bits16)
    ensures crc == Checksum(data)
  {
    hide Bits, Shift, Feed, MixIn;
    crc := ZERO;
    for k := 0 to |data|
      invariant crc == Checksum(data[..k])
    {
      ghost var before := crc;
      crc := MixIn(crc, Bits(data[k], 8));
      ghost var mixed := crc;
      for n := 0 to 8
        invariant crc == Shifts(mixed, n)
      {
        crc := Shift(crc);
      }
      ByteDone(before, data, k);
    }
    assert data[..|data|] == data;
  }

  lemma ByteDone(before: Bits16, data: seq<nat>, k: nat)
    requires k < |data| && before == Checksum(data[..k])
    ensures Shifts(MixIn(before, Bits(data[k], 8)), 8) == Checksum(data[..k + 1])
  {
    hide Shift, Feed, Bits;
    var bs := Bits(data[k], 8);
    MixedAhead(before, bs, 8);
    assert bs[..8] == bs;
    var r := CrcBits(before, bs);
    assert Xor(r, bs[8..] + Zeros(16)) == r;
    assert data[..k + 1][..k] == data[..k];
    CrcConcat(ZERO, Unpack(data[..k], 8), bs);
  }

  lemma {:induction false} CrcConcat(crc: Bits16, a: seq<bool>, b: seq<bool>)
    ensures CrcBits(crc, a + b) == CrcBits(CrcBits(crc, a), b)
    decreases |b|
  {
    hide Feed;
    if b == [] {
      assert a + b == a;
    } else {
      var n := |b| - 1;
      assert (a + b)[..|a + b| - 1] == a + b[..n];
      CrcConcat(crc, a, b[..n]);
    }
  }

  // ---- Linearity ----

  lemma FeedLinear(a: Bits16, b: Bits16, x: bool, y: bool)
    ensures Feed(Xor(a, b), x != y) == Xor(Feed(a, x), Feed(b, y))
  {
    var left, right := Feed(Xor(a, b), x != y), Xor(Feed(a, x), Feed(b, y));
    assert forall i :: 0 <= i < 16 ==> left[i] == right[i];
  }

  /** The checksum of a difference is the difference of the checksums. */
  lemma {:induction false} CrcLinear(a: Bits16, b: Bits16, x: seq<bool>, y: seq<bool>)
    requires |x| == |y|
    ensures CrcBits(Xor(a, b), Xor(x, y)) == Xor(CrcBits(a, x), CrcBits(b, y))
    decreases |x|
  {
    hide Feed;
    if x != [] {
      var n := |x| - 1;
      CrcLinear(a, b, x[..n], y[..n]);
      assert Xor(x, y)[..n] == Xor(x[..n], y[..n]);
      FeedLinear(CrcBits(a, x[..n]), CrcBits(b, y[..n]), x[n], y[n]);
    }
  }

  // ---- Short bursts are never missed ----

  lemma ShiftKeepsNonzero(a: Bits16)
    ensures Feed(a, false) == ZERO <==> a == ZERO
  {
    var r := Feed(a, false);
    assert a[0 := a[0] != false] == a;
    assert r[15] == a[0];
    if a != ZERO {
      var i :| 0 <= i < 16 && a[i] != ZERO[i];
      if !a[0] {
        assert r[i - 1] == a[i];
      }
    } else {
      assert forall i :: 0 <= i < 16 ==> r[i] == ZERO[i];
    }
  }

  /** Zeros after a difference do not hide it; zeros before make none. */
  lemma {:induction false} ZerosKeep(crc: Bits16, n: nat)
    ensures CrcBits(crc, Zeros(n)) == ZERO <==> crc == ZERO
  {
    hide Feed;
    if n > 0 {
      assert Zeros(n)[..n - 1] == Zeros(n - 1);
      ZerosKeep(crc, n - 1);
      ShiftKeepsNonzero(CrcBits(crc, Zeros(n - 1)));
    }
  }

  lemma {:induction false} ShiftsKeepNonzero(a: Bits16, n: nat)
    ensures Shifts(a, n) == ZERO <==> a == ZERO
  {
    if n > 0 {
      ShiftsKeepNonzero(a, n - 1);
      var b := Shifts(a, n - 1);
      assert b[0 := b[0] != false] == b;
      ShiftKeepsNonzero(b);
      hide Shift;
    }
  }

  lemma MixedZero(e: seq<bool>)
    requires |e| <= 16
    ensures MixIn(ZERO, e) == ZERO <==> e == Zeros(|e|)
  {
    var mixed := MixIn(ZERO, e);
    assert forall i :: 0 <= i < |e| ==> mixed[i] == e[i];
    assert forall i :: |e| <= i < 16 ==> !mixed[i];
  }

  /** No nonzero burst of at most 16 bits vanishes in the register. */
  lemma ShortBurst(e: seq<bool>)
    requires |e| <= 16
    ensures CrcBits(ZERO, e) == ZERO <==> e == Zeros(|e|)
  {
    hide Shift, Feed, CrcBits, Shifts, MixIn;
    var n := |e|;
    MixedAhead(ZERO, e, n);
    assert e[..n] == e && e[n..] == [];
    assert Xor(CrcBits(ZERO, e), [] + Zeros(16)) == CrcBits(ZERO, e);
    ShiftsKeepNonzero(MixIn(ZERO, e), n);
    MixedZero(e);
  }

  /** Different bursts leave different registers. */
  lemma BurstsDiffer(e: seq<bool>, f: seq<bool>)
    requires |e| == |f| <= 16 && CrcBits(ZERO, e) == CrcBits(ZERO, f)
    ensures e == f
  {
    hide CrcBits;
    CrcLinear(ZERO, ZERO, e, f);
    assert Xor(ZERO, ZERO) == ZERO && Xor(CrcBits(ZERO, e), CrcBits(ZERO, f)) == ZERO;
    ShortBurst(Xor(e, f));
    assert forall i :: 0 <= i < |e| ==> (e[i] != f[i]) == Xor(e, f)[i] == Zeros(|e|)[i];
  }

  lemma LeadingZeros(n: nat, e: seq<bool>)
    ensures CrcBits(ZERO, Zeros(n) + e) == CrcBits(ZERO, e)
  {
    hide Feed;
    CrcConcat(ZERO, Zeros(n), e);
    ZerosKeep(ZERO, n);
  }

  // ---- Four bits at a time ----

  /** The register one bit later: the top bit and the bit fed go to the bottom and
      into the two taps, the rest moves up. */
  lemma FeedAt(r: Bits16, x: bool)
    ensures var f := r[0] != x;
      Feed(r, x) == [r[1], r[2], r[3], r[4] != f, r[5], r[6], r[7], r[8], r[9], r[10], r[11] != f,
                     r[12], r[13], r[14], r[15], f]
  {
    var f := r[0] != x;
    var fed := [r[1], r[2], r[3], r[4] != f, r[5], r[6], r[7], r[8], r[9], r[10], r[11] != f, r[12], r[13], r[14], r[15], f];
    assert forall i :: 0 <= i < 16 ==> Feed(r, x)[i] == fed[i];
  }

  lemma TwoBits(r: Bits16, x: bool, y: bool)
    ensures var f, g := r[0] != x, r[1] != y;
      Feed(Feed(r, x), y) == [r[2], r[3], r[4] != f, r[5] != g, r[6], r[7], r[8], r[9], r[10], r[11] != f, r[12] != g,
                              r[13], r[14], r[15], f, g]
  {
    hide Feed;
    FeedAt(r, x);
    FeedAt(Feed(r, x), y);
  }

  /** Four bits later. */
  function FedNibble(r: Bits16, a: bool, b: bool, c: bool, d: bool): Bits16 {
    var f, g, h, i := r[0] != a, r[1] != b, r[2] != c, r[3] != d;
    [r[4] != f, r[5] != g, r[6] != h, r[7] != i, r[8], r[9], r[10],
     r[11] != f, r[12] != g, r[13] != h, r[14] != i, r[15], f, g, h, i]
  }

  lemma NibbleStep(r: Bits16, a: bool, b: bool, c: bool, d: bool)
    ensures Feed(Feed(Feed(Feed(r, a), b), c), d) == FedNibble(r, a, b, c, d)
  {
    hide Feed;
    TwoBits(r, a, b);
    TwoBits(Feed(Feed(r, a), b), c, d);
  }

  lemma CrcOne(crc: Bits16, bs: seq<bool>, x: bool)
    ensures CrcBits(crc, bs + [x]) == Feed(CrcBits(crc, bs), x)
  {
    hide Feed;
    assert (bs + [x])[..|bs|] == bs;
  }

  lemma CrcNibble(crc: Bits16, bs: seq<bool>, a: bool, b: bool, c: bool, d: bool)
    ensures CrcBits(crc, bs + [a, b, c, d]) == FedNibble(CrcBits(crc, bs), a, b, c, d)
  {
    hide Feed, CrcBits, FedNibble;
    assert bs + [a, b, c, d] == bs + [a] + [b] + [c] + [d];
    CrcOne(crc, bs, a);
    CrcOne(crc, bs + [a], b);
    CrcOne(crc, bs + [a] + [b], c);
    CrcOne(crc, bs + [a] + [b] + [c], d);
    NibbleStep(CrcBits(crc, bs), a, b, c, d);
  }
}
