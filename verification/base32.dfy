/** The base-32 codec of tools/agent-tx/src/base32.rs (section 6 of RFC 4648,
    without padding): bit-accumulator loops, and what they compute. */
module Base32 {
  import opened Types
  import opened BitStrings

  const B32: string := "ABCDEFGHIJKLMNOPQRSTUVWXYZ234567"

  predicate InAlphabet(c: char) {
    'A' <= c <= 'Z' || '2' <= c <= '7'
  }

  function CharOf(d: nat): (c: char)
    requires d < 32
    ensures InAlphabet(c)
  {
    if d < 26 then ('A' as int + d) as char else ('2' as int + (d - 26)) as char
  }

  function DigitOf(c: char): (d: nat)
    requires InAlphabet(c)
    ensures d < 32 && CharOf(d) == c
  {
    if 'A' <= c <= 'Z' then c as int - 'A' as int else c as int - '2' as int + 26
  }

  /** The closed forms are the alphabet table. */
  lemma AlphabetTable(d: nat)
    requires d < 32
    ensures |B32| == 32 && B32[d] == CharOf(d) && DigitOf(CharOf(d)) == d
  {
  }

  predicate AllInAlphabet(s: string) {
    forall i :: 0 <= i < |s| ==> InAlphabet(s[i])
  }

  function DigitsOf(s: string): (ds: seq<nat>)
    requires AllInAlphabet(s)
    ensures |ds| == |s| && forall i :: 0 <= i < |s| ==> ds[i] == DigitOf(s[i])
  {
    seq(|s|, i requires 0 <= i < |s| => DigitOf(s[i]))
  }

  predicate Below(ds: seq<nat>, bound: nat) {
    forall i :: 0 <= i < |ds| ==> ds[i] < bound
  }

  function CharsOf(ds: seq<nat>): (s: string)
    requires Below(ds, 32)
    ensures |s| == |ds| && AllInAlphabet(s) && forall i :: 0 <= i < |ds| ==> s[i] == CharOf(ds[i])
  {
    seq(|ds|, i requires 0 <= i < |ds| => CharOf(ds[i]))
  }

  /** Everything before the first padding character. */
  function Unpadded(s: string): string {
    if s == [] || s[0] == '=' then [] else [s[0]] + Unpadded(s[1..])
  }

  // ---- What the codec computes ----

  /** Five bits a character, read as bytes; left-over bits are dropped. */
  function Decoded(s: string): Option<seq<nat>> {
    var body := Unpadded(s);
    if AllInAlphabet(body) then Some(Pack(Unpack(DigitsOf(body), 5), 8)) else None
  }

  function Padding(n: nat): (k: nat)
    ensures k < 5 && (n + k) % 5 == 0
  {
    (5 - n % 5) % 5
  }

  /** The bits of the bytes, filled up with zeros, five to a character. */
  function Encoded(data: seq<nat>): (s: string)
    ensures AllInAlphabet(s)
  {
    var bits := Unpack(data, 8);
    PackBelow(bits + Zeros(Padding(|bits|)), 5);
    CharsOf(Pack(bits + Zeros(Padding(|bits|)), 5))
  }

  lemma PackBelow(bs: seq<bool>, width: nat)
    requires width == 5 || width == 8
    ensures Below(Pack(bs, width), if width == 5 then 32 else 256)
  {
    SmallPowers();
    UnpackPack(bs, width);
  }

  // ---- Round trips ----

  lemma {:induction false} UnpaddedWhole(s: string)
    requires AllInAlphabet(s)
    ensures Unpadded(s) == s
  {
    if s != [] {
      UnpaddedWhole(s[1..]);
    }
  }

  lemma DigitsOfChars(ds: seq<nat>)
    requires Below(ds, 32)
    ensures DigitsOf(CharsOf(ds)) == ds
  {
    forall i | 0 <= i < |ds| ensures DigitsOf(CharsOf(ds))[i] == ds[i] {
      AlphabetTable(ds[i]);
    }
  }

  lemma CharsOfDigits(s: string)
    requires AllInAlphabet(s)
    ensures Below(DigitsOf(s), 32) && CharsOf(DigitsOf(s)) == s
  {
  }

  /** Decoding undoes encoding, for every byte string. */
  lemma DecodeEncode(data: seq<nat>)
    requires Below(data, 256)
    ensures Decoded(Encoded(data)) == Some(data)
  {
    SmallPowers();
    hide Unpack, Pack, Rest, Pow2, Unpadded, CharOf, DigitOf;
    var bits := Unpack(data, 8);
    var padding := Zeros(Padding(|bits|));
    var padded := bits + padding;
    var ds := Pack(padded, 5);
    PackBelow(padded, 5);
    UnpackPack(padded, 5);
    NoRest(padded, 5);
    UnpaddedWhole(CharsOf(ds));
    DigitsOfChars(ds);
    assert Unpack(ds, 5) == padded;
    PackUnpack(data, 8, padding);
  }

  /** A padding character ends the input: what follows is not even looked at. */
  lemma {:induction false} PaddingEnds(t: string, rest: string)
    requires AllInAlphabet(t)
    ensures Unpadded(t + "=" + rest) == t && Decoded(t + "=" + rest) == Decoded(t)
  {
    UnpaddedWhole(t);
    UnpaddedStops(t, rest);
    hide Unpack, Pack, Unpadded;
  }

  lemma {:induction false} UnpaddedStops(t: string, rest: string)
    requires AllInAlphabet(t)
    ensures Unpadded(t + "=" + rest) == t
  {
    var all := t + "=" + rest;
    if t != [] {
      assert all[0] == t[0] && all[1..] == t[1..] + "=" + rest;
      UnpaddedStops(t[1..], rest);
    }
  }

  /** A foreign character with no padding before it. */
  predicate ForeignAt(s: string, i: nat) {
    i < |s| && !InAlphabet(s[i]) && s[i] != '=' && forall j :: 0 <= j < i ==> s[j] != '='
  }

  /** Decoding fails exactly on one of those. */
  lemma FailsExactly(s: string)
    ensures Decoded(s).None? <==> exists i: nat :: ForeignAt(s, i)
  {
    hide InAlphabet, Unpack, Pack;
    var body := Unpadded(s);
    UnpaddedIsPrefix(s);
    forall i: nat | ForeignAt(s, i) ensures !AllInAlphabet(body) {
      assert i < |body| && body[i] == s[i];
    }
    if Decoded(s).None? {
      var i: nat :| i < |body| && !InAlphabet(body[i]);
      assert ForeignAt(s, i);
    }
  }

  lemma {:induction false} UnpaddedIsPrefix(s: string)
    ensures Unpadded(s) <= s && '=' !in Unpadded(s) && (|Unpadded(s)| < |s| ==> s[|Unpadded(s)|] == '=')
  {
    if s != [] && s[0] != '=' {
      UnpaddedIsPrefix(s[1..]);
      assert s == [s[0]] + s[1..];
    }
  }

  /** What is decoded are the bits of the characters but for fewer than eight left
      over at the end; what is encoded, those of the bytes but for fewer than five
      zeros added. */
  lemma DecodedBits(t: string)
    requires AllInAlphabet(t)
    ensures Decoded(t).Some? && Unpack(Decoded(t).value, 8) <= Unpack(DigitsOf(t), 5)
    ensures |Unpack(DigitsOf(t), 5)| - |Unpack(Decoded(t).value, 8)| < 8
  {
    hide Unpack, Pack;
    UnpaddedWhole(t);
    UnpackPack(Unpack(DigitsOf(t), 5), 8);
  }

  lemma EncodedBits(data: seq<nat>)
    ensures exists n: nat :: n < 5 && Unpack(DigitsOf(Encoded(data)), 5) == Unpack(data, 8) + Zeros(n)
  {
    SmallPowers();
    hide Unpack, Pack, Rest, Pow2, CharOf, DigitOf;
    var bits := Unpack(data, 8);
    var n := Padding(|bits|);
    PackBelow(bits + Zeros(n), 5);
    UnpackPack(bits + Zeros(n), 5);
    NoRest(bits + Zeros(n), 5);
    DigitsOfChars(Pack(bits + Zeros(n), 5));
    assert Unpack(DigitsOf(Encoded(data)), 5) == bits + Zeros(n);
  }

  lemma {:induction false} NoRest(bs: seq<bool>, width: nat)
    requires (width == 5 && |bs| % 5 == 0) || (width == 8 && |bs| % 8 == 0)
    ensures Rest(bs, width) == []
    decreases |bs|
  {
    if |bs| >= width {
      NoRest(bs[width..], width);
    }
  }

  /** Encoding undoes decoding where no bits are left over. */
  lemma EncodeDecode(s: string)
    requires AllInAlphabet(s) && |s| * 5 % 8 == 0
    ensures Decoded(s).Some? && Below(Decoded(s).value, 256) && Encoded(Decoded(s).value) == s
    ensures Unpack(Decoded(s).value, 8) == Unpack(DigitsOf(s), 5)
  {
    SmallPowers();
    hide Unpack, Pack, Rest, Pow2, Unpadded, CharOf, DigitOf;
    UnpaddedWhole(s);
    CharsOfDigits(s);
    var ds := DigitsOf(s);
    var bits := Unpack(ds, 5);
    UnpackLength(ds, 5);
    var data := Pack(bits, 8);
    PackBelow(bits, 8);
    UnpackPack(bits, 8);
    NoRest(bits, 8);
    assert Unpack(data, 8) == bits;
    assert Zeros(Padding(|bits|)) == [];
    assert bits + [] == bits;
    PackUnpack(ds, 5, []);
  }

  // ---- The loops ----

  /** The position of a character in the alphabet table, by a scan. */
  method Position(c: char) returns (p: Option<nat>)
    ensures p == if InAlphabet(c) then Some(DigitOf(c)) else None
  {
    for i := 0 to |B32|
      invariant forall j :: 0 <= j < i ==> B32[j] != c
    {
      if B32[i] == c {
        AlphabetTable(i);
        return Some(i);
      }
    }
    if InAlphabet(c) {
      AlphabetTable(DigitOf(c));
    }
    return None;
  }

  lemma {:induction false} UnpaddedPrefix(s: string, k: nat)
    requires k <= |s| && (forall i :: 0 <= i < k ==> s[i] != '=') && (k == |s| || s[k] == '=')
    ensures Unpadded(s) == s[..k]
  {
    if k > 0 {
      UnpaddedPrefix(s[1..], k - 1);
    }
  }

  lemma {:induction false} UnpaddedReaches(s: string, k: nat)
    requires k < |s| && forall i :: 0 <= i <= k ==> s[i] != '='
    ensures k < |Unpadded(s)| && Unpadded(s)[k] == s[k]
  {
    if k > 0 {
      UnpaddedReaches(s[1..], k - 1);
    }
  }

  /** The accumulator holds the bits read but not yet written. */
  ghost predicate InFlight(read: seq<bool>, out: seq<nat>, width: nat, acc: nat, bits: nat) {
    read == Unpack(out, width) + Bits(acc, bits)
  }

  /** Reading a digit of `w` bits: shift it in. */
  lemma ShiftIn(read: seq<bool>, out: seq<nat>, width: nat, acc: nat, bits: nat, d: nat, w: nat)
    requires InFlight(read, out, width, acc, bits) && d < Pow2(w)
    ensures InFlight(read + Bits(d, w), out, width, Shl(acc, w) + d, bits + w)
  {
    hide Bits, Pow2, Unpack;
    BitsAppend(acc, bits, d, w);
  }

  /** Writing a digit: take the top `width` bits in flight. */
  lemma ShiftOut(read: seq<bool>, out: seq<nat>, width: nat, acc: nat, bits: nat)
    requires InFlight(read, out, width, acc, bits + width)
    ensures Mask(Shr(acc, bits), width) < Pow2(width)
    ensures InFlight(read, out + [Mask(Shr(acc, bits), width)], width, acc, bits)
  {
    hide Bits, Pow2, Unpack, Shr, Mask;
    var d := Mask(Shr(acc, bits), width);
    BitsShr(acc, width, bits);
    BitsMask(Shr(acc, bits), width);
    UnpackConcat(out, [d], width);
    UnpackOne(d, width);
  }

  lemma MaskInFlight(read: seq<bool>, out: seq<nat>, width: nat, acc: nat, bits: nat)
    requires InFlight(read, out, width, acc, bits) && bits < 8
    ensures Mask(acc, bits) < 128
    ensures InFlight(read, out, width, Mask(acc, bits), bits)
  {
    hide Bits, Unpack, Mask;
    BitsMask(acc, bits);
    Pow2Bound(bits, 7);
    assert Pow2(7) == 128 by { assert Pow2(3) == 8; }
  }

  /** Write every whole digit in flight, then mask the accumulator. */
  method WriteDigits(acc0: nat, bits0: nat, width: nat, ghost read: seq<bool>, ghost out: seq<nat>)
    returns (ds: seq<nat>, acc: nat, bits: nat)
    requires 0 < width <= 8 && InFlight(read, out, width, acc0, bits0)
    ensures Below(ds, Pow2(width)) && bits < width && acc < 128
    ensures InFlight(read, out + ds, width, acc, bits)
  {
    hide Bits, Pow2, Unpack, Shr, InFlight, Mask;
    ds, acc, bits := [], acc0, bits0;
    assert out + [] == out;
    while bits >= width
      invariant Below(ds, Pow2(width)) && InFlight(read, out + ds, width, acc, bits)
    {
      bits := bits - width;
      ShiftOut(read, out + ds, width, acc, bits);
      assert out + ds + [Mask(Shr(acc, bits), width)] == out + (ds + [Mask(Shr(acc, bits), width)]);
      ds := ds + [Mask(Shr(acc, bits), width)];
    }
    MaskInFlight(read, out + ds, width, acc, bits);
    acc := Mask(acc, bits);
  }

  /** Read one digit of `w` bits and write every whole digit of `width` bits;
      the 32-bit accumulator never overflows. */
  method Feed(d: nat, w: nat, acc0: nat, bits0: nat, width: nat, ghost read: seq<bool>, ghost out: seq<nat>)
    returns (ds: seq<nat>, acc: nat, bits: nat)
    requires (w == 5 && width == 8 && d < 32) || (w == 8 && width == 5 && d < 256)
    requires acc0 < 128 && InFlight(read, out, width, acc0, bits0)
    ensures Below(ds, if width == 8 then 256 else 32) && bits < width && acc < 128
    ensures InFlight(read + Bits(d, w), out + ds, width, acc, bits)
  {
    SmallPowers();
    hide Bits, Pow2, Unpack, Shr, InFlight, Mask, Shl;
    ShlBound(acc0);
    ShiftIn(read, out, width, acc0, bits0, d, w);
    var shifted := Shl(acc0, w) + d;
    assert shifted <= U32_MAX;
    ds, acc, bits := WriteDigits(shifted, bits0 + w, width, read + Bits(d, w), out);
  }

  /** Base-32 decoding: five bits in a character, eight out a byte. */
  method Decode(input: string) returns (result: Option<seq<nat>>)
    ensures result == Decoded(input)
  {
    hide Pack, Unpack, Bits, Unpadded, InFlight, DigitOf, CharOf, InAlphabet;
    var acc: nat, bits: nat, out: seq<nat> := 0, 0, [];
    var k := 0;
    EmptyDecode(input);
    while k < |input| && input[k] != '='
      invariant k <= |input| && Decoding(input, k, out, acc, bits)
    {
      var p := Position(input[k]);
      if p.None? {
        UnpaddedReaches(input, k);
        return None;
      }
      acc, bits, out := DecodeCharacter(input, k, p.value, out, acc, bits);
      k := k + 1;
    }
    UnpaddedPrefix(input, k);
    SmallPowers();
    PackUnpack(out, 8, Bits(acc, bits));
    assert Unpack(DigitsOf(input[..k]), 5) == Unpack(out, 8) + Bits(acc, bits) by { LandInFlight(input, k, out, acc, bits); }
    return Some(out);
  }

  /** After `k` characters, `out` holds the whole bytes and the rest is in flight. */
  ghost predicate Decoding(input: string, k: nat, out: seq<nat>, acc: nat, bits: nat) {
    && k <= |input| && (forall i :: 0 <= i < k ==> input[i] != '=')
    && AllInAlphabet(input[..k])
    && bits < 8 && acc < 128 && Below(out, 256)
    && InFlight(Unpack(DigitsOf(input[..k]), 5), out, 8, acc, bits)
  }

  lemma EmptyDecode(input: string)
    ensures Decoding(input, 0, [], 0, 0)
  {
    EmptyInFlight();
    assert input[..0] == [] && DigitsOf([]) == [];
  }

  lemma LandInFlight(input: string, k: nat, out: seq<nat>, acc: nat, bits: nat)
    requires Decoding(input, k, out, acc, bits)
    ensures Unpack(DigitsOf(input[..k]), 5) == Unpack(out, 8) + Bits(acc, bits)
  {
  }

  method DecodeCharacter(input: string, k: nat, d: nat, out0: seq<nat>, acc0: nat, bits0: nat)
    returns (acc: nat, bits: nat, out: seq<nat>)
    requires k < |input| && input[k] != '=' && InAlphabet(input[k]) && d == DigitOf(input[k])
    requires Decoding(input, k, out0, acc0, bits0)
    ensures Decoding(input, k + 1, out, acc, bits)
  {
    hide Bits, Unpack, InFlight, CharOf, InAlphabet;
    NextDigit(input, k);
    var bytes;
    bytes, acc, bits := Feed(d, 5, acc0, bits0, 8, Unpack(DigitsOf(input[..k]), 5), out0);
    out := out0 + bytes;
  }

  /** The accumulator stays far below 32 bits. */
  lemma ShlBound(acc: nat)
    requires acc < 128
    ensures Shl(acc, 5) < 0x1000 && Shl(acc, 8) < 0x8000
  {
    SmallPowers();
  }

  lemma EmptyInFlight()
    ensures InFlight(Unpack([], 5), [], 8, 0, 0) && InFlight(Unpack([], 8), [], 5, 0, 0)
  {
  }

  lemma NextDigit(s: string, k: nat)
    requires k < |s| && AllInAlphabet(s[..k]) && InAlphabet(s[k])
    ensures AllInAlphabet(s[..k + 1])
    ensures Unpack(DigitsOf(s[..k + 1]), 5) == Unpack(DigitsOf(s[..k]), 5) + Bits(DigitOf(s[k]), 5)
  {
    hide Bits, DigitOf;
    var ds := DigitsOf(s[..k + 1]);
    assert ds[..k] == DigitsOf(s[..k]);
  }

  /** Base-32 encoding: eight bits in a byte, five out a character. */
  method Encode(data: seq<nat>) returns (out: string)
    requires Below(data, 256)
    ensures out == Encoded(data)
  {
    hide *;
    var acc: nat, bits: nat := 0, 0;
    out := "";
    ghost var ds: seq<nat> := [];
    EmptyEncode(data);
    for k := 0 to |data|
      invariant Encoding(data, k, ds, out, acc, bits)
    {
      acc, bits, out, ds := EncodeByte(data, k, ds, out, acc, bits);
    }
    out := LastCharacter(data, ds, out, acc, bits);
  }

  /** After `k` bytes, `out` spells the digits `ds` and the rest is in flight. */
  ghost predicate Encoding(data: seq<nat>, k: nat, ds: seq<nat>, out: string, acc: nat, bits: nat) {
    && k <= |data| && bits < 5 && acc < 128 && Below(ds, 32) && out == CharsOf(ds)
    && InFlight(Unpack(data[..k], 8), ds, 5, acc, bits)
  }

  lemma EmptyEncode(data: seq<nat>)
    ensures Encoding(data, 0, [], "", 0, 0)
  {
    EmptyInFlight();
    assert data[..0] == [];
  }

  method EncodeByte(data: seq<nat>, k: nat, ghost ds0: seq<nat>, out0: string, acc0: nat, bits0: nat)
    returns (acc: nat, bits: nat, out: string, ghost ds: seq<nat>)
    requires k < |data| && Below(data, 256) && Encoding(data, k, ds0, out0, acc0, bits0)
    ensures Encoding(data, k + 1, ds, out, acc, bits)
  {
    hide Bits, Unpack, InFlight, CharOf;
    NextByte(data, k);
    var quintets;
    quintets, acc, bits := Feed(data[k], 8, acc0, bits0, 5, Unpack(data[..k], 8), ds0);
    var chars := Letters(quintets);
    ds, out := ds0 + quintets, out0 + chars;
  }

  /** A rest of fewer than five bits is filled up with zeros. */
  method LastCharacter(data: seq<nat>, ghost ds0: seq<nat>, out0: string, acc: nat, bits: nat) returns (out: string)
    requires Encoding(data, |data|, ds0, out0, acc, bits)
    ensures out == Encoded(data)
  {
    hide Bits, Unpack, Encoded, Mask, Shl;
    assert data[..|data|] == data;
    if bits > 0 {
      FillUp(Unpack(data, 8), ds0, acc, bits);
      var d := Mask(Shl(acc, 5 - bits), 5);
      var chars := Letters([d]);
      out := out0 + chars;
      FinishEncode(data, ds0 + [d], bits);
    } else {
      NothingLeft(Unpack(data, 8), ds0, acc);
      out := out0;
      FinishEncode(data, ds0, bits);
    }
  }

  /** The characters of digits, from the alphabet table. */
  method Letters(ds: seq<nat>) returns (s: string)
    requires Below(ds, 32)
    ensures s == CharsOf(ds)
  {
    s := "";
    for i := 0 to |ds|
      invariant s == CharsOf(ds)[..i]
    {
      AlphabetTable(ds[i]);
      s := s + [B32[ds[i]]];
    }
  }

  lemma NextByte(data: seq<nat>, k: nat)
    requires k < |data|
    ensures Unpack(data[..k + 1], 8) == Unpack(data[..k], 8) + Bits(data[k], 8)
  {
    hide Bits;
    assert data[..k + 1][..k] == data[..k];
  }

  /** Shifting in zeros completes the last character. */
  lemma FillUp(read: seq<bool>, ds: seq<nat>, acc: nat, bits: nat)
    requires InFlight(read, ds, 5, acc, bits) && 0 < bits < 5
    ensures Mask(Shl(acc, 5 - bits), 5) < 32
    ensures read + Zeros(5 - bits) == Unpack(ds + [Mask(Shl(acc, 5 - bits), 5)], 5)
  {
    SmallPowers();
    hide Bits, Pow2, Unpack, Mask, Shl;
    Pow2Positive(5 - bits);
    ShiftIn(read, ds, 5, acc, bits, 0, 5 - bits);
    ZeroBits(5 - bits);
    var v := Shl(acc, 5 - bits);
    BitsMask(v, 5);
    UnpackConcat(ds, [Mask(v, 5)], 5);
    UnpackOne(Mask(v, 5), 5);
  }

  lemma NothingLeft(read: seq<bool>, ds: seq<nat>, acc: nat)
    requires InFlight(read, ds, 5, acc, 0)
    ensures read + Zeros(0) == Unpack(ds, 5)
  {
  }

  lemma {:induction false} ZeroBits(n: nat)
    ensures Bits(0, n) == Zeros(n)
  {
    if n > 0 {
      ZeroBits(n - 1);
      assert Zeros(n) == Zeros(n - 1) + [false];
    }
  }

  lemma PaddingIs(n: nat, k: nat, m: nat)
    requires n + k == m * 5 && k < 5
    ensures Padding(n) == k
  {
    assert n == 5 * m - k;
    assert k > 0 ==> n == 5 * (m - 1) + (5 - k) && n % 5 == 5 - k;
    assert k == 0 ==> n % 5 == 0;
  }

  lemma FinishEncode(data: seq<nat>, ds: seq<nat>, bits: nat)
    requires bits < 5 && Below(ds, 32)
    requires Unpack(data, 8) + Zeros(if bits > 0 then 5 - bits else 0) == Unpack(ds, 5)
    ensures CharsOf(ds) == Encoded(data)
  {
    SmallPowers();
    hide Bits, Pow2, Unpack, Pack;
    var read := Unpack(data, 8);
    UnpackLength(data, 8);
    UnpackLength(ds, 5);
    var k := if bits > 0 then 5 - bits else 0;
    assert |read| + k == |ds| * 5;
    assert Padding(|read|) == k by { PaddingIs(|read|, k, |ds|); }
    PackUnpack(ds, 5, []);
    assert Unpack(ds, 5) + [] == Unpack(ds, 5);
  }
}
