/** StrKey encoding and validation (tools/agent-tx/src/strkey.rs, SEP-0023): a
    version byte and a 32-byte key with a little-endian CRC16, in base 32. */
module StrKey {
  import opened BitStrings
  import opened Crc
  import Base32

  const VER_ACCOUNT: nat := 6 * 8
  const VER_CONTRACT: nat := 2 * 8
  const VER_SECRET: nat := 0x90
  const STRKEY_LEN: nat := 56

  datatype KeyKind = ContractKey | AccountKey | RecipientKey | SecretKey

  datatype KeyError =
    | Empty
    | Lowercase(index: nat)
    | OutsideAlphabet(index: nat)
    | WrongLength(found: nat)
    | NotBase32
    | WrongSize(bytes: nat)
    | BadChecksum
    | WrongKind(version: nat)

  datatype KeyResult = Ok(version: nat, key: seq<nat>) | Err(error: KeyError)

  function Versions(kind: KeyKind): seq<nat> {
    match kind
    case ContractKey => [VER_CONTRACT]
    case AccountKey => [VER_ACCOUNT]
    case RecipientKey => [VER_ACCOUNT, VER_CONTRACT]
    case SecretKey => [VER_SECRET]
  }

  /** The leading character carries the top five bits of the version byte. */
  function PrefixFor(version: nat): char
    requires version < 256
  {
    Base32.CharOf(version / 8)
  }

  // ---- Encoding ----

  /** The checksum of a body, low byte first. */
  function ChecksumBytes(body: seq<nat>): (r: seq<nat>)
    ensures |r| == 2
  {
    var crc := Checksum(body);
    [Value(crc[8..]), Value(crc[..8])]
  }

  function Envelope(version: nat, payload: seq<nat>): seq<nat> {
    var body := [version] + payload;
    body + ChecksumBytes(body)
  }

  function KeyString(version: nat, payload: seq<nat>): string {
    Base32.Encoded(Envelope(version, payload))
  }

  method EncodeKey(version: nat, payload: seq<nat>) returns (s: string)
    requires version < 256 && Base32.Below(payload, 256)
    ensures s == KeyString(version, payload)
  {
    var raw := [version] + payload;
    var crc := Crc16(raw);
    EnvelopeBelow(version, payload);
    assert [version] + payload + [Value(crc[8..])] + [Value(crc[..8])] == Envelope(version, payload);
    raw := raw + [Value(crc[8..])];
    raw := raw + [Value(crc[..8])];
    s := Base32.Encode(raw);
  }

  lemma EnvelopeBelow(version: nat, payload: seq<nat>)
    requires version < 256 && Base32.Below(payload, 256)
    ensures Base32.Below(Envelope(version, payload), 256)
  {
    SmallPowers();
    var crc := Checksum([version] + payload);
    BitsOfValue(crc[8..]);
    BitsOfValue(crc[..8]);
  }

  // ---- Decoding ----

  /** The first character outside the alphabet, if any. */
  function FirstBad(s: string, from: nat): (k: nat)
    requires from <= |s|
    ensures from <= k <= |s|
    ensures forall i :: from <= i < k ==> Base32.InAlphabet(s[i])
    ensures k < |s| ==> !Base32.InAlphabet(s[k])
    decreases |s| - from
  {
    if from == |s| || !Base32.InAlphabet(s[from]) then from else FirstBad(s, from + 1)
  }

  predicate ChecksumMatches(raw: seq<nat>)
    requires |raw| == 35
  {
    Checksum(raw[..33]) == Bits(raw[34], 8) + Bits(raw[33], 8)
  }

  /** The checks of `decode_strkey` in its order. */
  function DecodedKey(s: string): KeyResult {
    if s == "" then Err(Empty)
    else
      var bad := FirstBad(s, 0);
      if bad < |s| then
        (if 'a' <= s[bad] <= 'z' then Err(Lowercase(bad)) else Err(OutsideAlphabet(bad)))
      else if |s| != STRKEY_LEN then Err(WrongLength(|s|))
      else
        var raw := Base32.Decoded(s);
        if raw.None? then Err(NotBase32)
        else if |raw.value| != 35 then Err(WrongSize(|raw.value|))
        else if !ChecksumMatches(raw.value) then Err(BadChecksum)
        else Ok(raw.value[0], raw.value[1..33])
  }

  function ValidatedKey(kind: KeyKind, s: string): KeyResult {
    var r := DecodedKey(s);
    if r.Ok? && r.version !in Versions(kind) then Err(WrongKind(r.version)) else r
  }

  /** Validation as it runs: scan, decode, check, compare versions. */
  method ValidateKey(kind: KeyKind, s: string) returns (r: KeyResult)
    ensures r == ValidatedKey(kind, s)
  {
    if s == "" { return Err(Empty); }
    var bad := FirstBad(s, 0);
    if bad < |s| {
      return if 'a' <= s[bad] <= 'z' then Err(Lowercase(bad)) else Err(OutsideAlphabet(bad));
    }
    if |s| != STRKEY_LEN { return Err(WrongLength(|s|)); }
    var raw := Base32.Decode(s);
    if raw.None? { return Err(NotBase32); }
    if |raw.value| != 35 { return Err(WrongSize(|raw.value|)); }
    var expected := Crc16(raw.value[..33]);
    if expected != Bits(raw.value[34], 8) + Bits(raw.value[33], 8) { return Err(BadChecksum); }
    r := Ok(raw.value[0], raw.value[1..33]);
    if r.version !in Versions(kind) { return Err(WrongKind(r.version)); }
  }

  // ---- The 280 bits of a StrKey ----

  /** The checksum test, read off the bit string: the first 264 bits against the
      last 16, whose two bytes come low byte first. */
  predicate Matches(x: seq<bool>)
    requires |x| == 280
  {
    CrcBits(ZERO, x[..264]) == x[272..] + x[264..272]
  }

  lemma RawBits(raw: seq<nat>)
    requires |raw| == 35
    ensures |Unpack(raw, 8)| == 280
    ensures ChecksumMatches(raw) <==> Matches(Unpack(raw, 8))
  {
    hide Bits, CrcBits;
    UnpackLength(raw, 8);
    UnpackLength(raw[..33], 8);
    assert raw == raw[..33] + [raw[33], raw[34]];
    assert [raw[33], raw[34]] == [raw[33]] + [raw[34]];
    UnpackConcat(raw[..33], [raw[33], raw[34]], 8);
    UnpackConcat([raw[33]], [raw[34]], 8);
    UnpackOne(raw[33], 8);
    UnpackOne(raw[34], 8);
    hide Unpack;
    var x := Unpack(raw, 8);
    assert x == Unpack(raw[..33], 8) + (Bits(raw[33], 8) + Bits(raw[34], 8));
    assert x[..264] == Unpack(raw[..33], 8);
    assert x[264..272] == Bits(raw[33], 8) && x[272..] == Bits(raw[34], 8);
  }

  /** What decoding does to 56 characters of the alphabet. */
  lemma DecodedRaw(s: string)
    requires |s| == STRKEY_LEN && Base32.AllInAlphabet(s)
    ensures var raw := Base32.Decoded(s);
      && raw.Some? && |raw.value| == 35 && Base32.Below(raw.value, 256) && Base32.Encoded(raw.value) == s
      && Unpack(raw.value, 8) == Unpack(Base32.DigitsOf(s), 5) && |Unpack(raw.value, 8)| == 280
      && DecodedKey(s) == if Matches(Unpack(raw.value, 8)) then Ok(raw.value[0], raw.value[1..33]) else Err(BadChecksum)
  {
    hide Unpack, CrcBits, Bits;
    Base32.EncodeDecode(s);
    var raw := Base32.Decoded(s).value;
    UnpackLength(raw, 8);
    UnpackLength(Base32.DigitsOf(s), 5);
    assert 8 * |raw| == 280;
    RawBits(raw);
    assert FirstBad(s, 0) == |s|;
  }

  /** Only 56 characters of the alphabet are ever accepted. */
  lemma AcceptedShape(s: string)
    requires DecodedKey(s).Ok?
    ensures |s| == STRKEY_LEN && Base32.AllInAlphabet(s)
  {
    hide CrcBits, Unpack, Bits;
  }

  // ---- Encoding and decoding are inverse ----

  lemma EncodedLength(data: seq<nat>)
    requires |data| == 35
    ensures |Base32.Encoded(data)| == STRKEY_LEN
  {
    hide Unpack, Pack;
    var bits := Unpack(data, 8);
    UnpackLength(data, 8);
    assert bits + Zeros(0) == bits;
    UnpackPack(bits, 5);
    Base32.NoRest(bits, 5);
    UnpackLength(Pack(bits, 5), 5);
  }

  /** Decoding a key string gives back its version and key. */
  lemma DecodeKeyString(version: nat, payload: seq<nat>)
    requires version < 256 && |payload| == 32 && Base32.Below(payload, 256)
    ensures DecodedKey(KeyString(version, payload)) == Ok(version, payload)
  {
    hide Unpack, CrcBits, Bits, Matches, DecodedKey, ChecksumMatches, ChecksumBytes, Base32.Encoded, Base32.Decoded;
    var raw := Envelope(version, payload);
    EnvelopeBelow(version, payload);
    EnvelopeMatches(version, payload);
    Base32.DecodeEncode(raw);
    EncodedLength(raw);
    DecodedRaw(KeyString(version, payload));
    RawBits(raw);
    assert raw[0] == version && raw[1..33] == payload;
  }

  lemma EnvelopeMatches(version: nat, payload: seq<nat>)
    requires |payload| == 32
    ensures ChecksumMatches(Envelope(version, payload))
  {
    hide Unpack, CrcBits, Bits, Value;
    var raw := Envelope(version, payload);
    var body := [version] + payload;
    assert raw[..33] == body;
    var crc := Checksum(body);
    BitsOfValue(crc[8..]);
    BitsOfValue(crc[..8]);
    assert crc[..8] + crc[8..] == crc;
    assert raw[33] == Value(crc[8..]) && raw[34] == Value(crc[..8]);
  }

  /** An accepted string is the one string of its version and key, and starts
      with the prefix of its version. */
  lemma KeyStringOfDecoded(s: string)
    requires DecodedKey(s).Ok?
    ensures var r := DecodedKey(s);
      && r.version < 256 && |r.key| == 32 && Base32.Below(r.key, 256)
      && KeyString(r.version, r.key) == s && |s| == STRKEY_LEN && s[0] == PrefixFor(r.version)
  {
    hide Unpack, Matches, DecodedKey, Envelope, ChecksumMatches, Base32.Encoded, Base32.Decoded;
    AcceptedShape(s);
    DecodedRaw(s);
    var raw := Base32.Decoded(s).value;
    RawBits(raw);
    EnvelopeOfRaw(raw);
    FirstCharacter(s, raw);
  }

  lemma EnvelopeOfRaw(raw: seq<nat>)
    requires |raw| == 35 && Base32.Below(raw, 256) && ChecksumMatches(raw)
    ensures Envelope(raw[0], raw[1..33]) == raw
  {
    SmallPowers();
    hide Unpack, CrcBits, Bits, Pow2;
    var body := raw[..33];
    assert [raw[0]] + raw[1..33] == body;
    var crc := Checksum(body);
    assert crc[8..] == Bits(raw[33], 8) && crc[..8] == Bits(raw[34], 8);
    ValueOfBits(raw[33], 8);
    ValueOfBits(raw[34], 8);
    assert raw == body + [raw[33], raw[34]];
  }

  /** The first character is the top five bits of the first byte. */
  lemma FirstCharacter(s: string, raw: seq<nat>)
    requires s != "" && raw != [] && raw[0] < 256 && Base32.AllInAlphabet(s)
    requires Unpack(raw, 8) == Unpack(Base32.DigitsOf(s), 5)
    ensures s[0] == PrefixFor(raw[0])
  {
    hide Unpack, Bits, Pow2, Base32.DigitOf, Base32.CharOf;
    var ds := Base32.DigitsOf(s);
    FirstDigit(raw, 8);
    FirstDigit(ds, 5);
    TopFive(raw[0], ds[0]);
  }

  lemma FirstDigit(ds: seq<nat>, width: nat)
    requires ds != []
    ensures Bits(ds[0], width) <= Unpack(ds, width)
  {
    hide Unpack, Bits;
    assert ds == [ds[0]] + ds[1..];
    UnpackConcat([ds[0]], ds[1..], width);
    UnpackOne(ds[0], width);
  }

  lemma TopFive(b: nat, d: nat)
    requires b < 256 && d < 32 && Bits(d, 5) == Bits(b, 8)[..5]
    ensures d == b / 8
  {
    SmallPowers();
    assert Pow2(3) == 8;
    hide Bits, Pow2;
    BitsAppend(b / 8, 5, b % 8, 3);
    assert b == b / 8 * 8 + b % 8;
    ValueOfBits(d, 5);
    ValueOfBits(b / 8, 5);
  }

  /** Each version and key has exactly one accepted string. */
  lemma OneStringPerKey(s: string, s': string)
    requires DecodedKey(s).Ok? && DecodedKey(s) == DecodedKey(s')
    ensures s == s'
  {
    hide DecodedKey, KeyString;
    KeyStringOfDecoded(s);
    KeyStringOfDecoded(s');
  }

  /** The first two characters of an accepted string are its version byte: the
      first has the top five bits, the second the low three and two of the key. */
  lemma VersionCharacters(s: string)
    requires DecodedKey(s).Ok?
    ensures |s| == 56 && Base32.InAlphabet(s[0]) && Base32.InAlphabet(s[1])
    ensures DecodedKey(s).version == 8 * Base32.DigitOf(s[0]) + Base32.DigitOf(s[1]) / 4
  {
    hide Unpack, Matches, DecodedKey, Base32.Encoded, Base32.Decoded, Base32.DigitOf, Base32.CharOf;
    AcceptedShape(s);
    DecodedRaw(s);
    var raw, ds := Base32.Decoded(s).value, Base32.DigitsOf(s);
    FirstDigit(raw, 8);
    assert ds == [ds[0], ds[1]] + ds[2..];
    UnpackConcat([ds[0], ds[1]], ds[2..], 5);
    assert [ds[0], ds[1]] == [ds[0]] + [ds[1]];
    UnpackConcat([ds[0]], [ds[1]], 5);
    UnpackOne(ds[0], 5);
    UnpackOne(ds[1], 5);
    TopEight(raw[0], ds[0], ds[1], Unpack(raw, 8));
    hide Bits;
  }

  lemma TopThree(e: nat)
    requires e < 32
    ensures Bits(e, 5) == Bits(e / 4, 3) + Bits(e % 4, 2)
  {
    assert Pow2(2) == 4;
    hide Bits, Pow2;
    BitsAppend(e / 4, 3, e % 4, 2);
  }

  lemma Eightfold(d: nat)
    ensures d * Pow2(3) == 8 * d && Pow2(3) == 8
  {
  }

  lemma FiveAndThree(d: nat, f: nat)
    requires d < 32 && f < 8
    ensures Bits(8 * d + f, 8) == Bits(d, 5) + Bits(f, 3)
  {
    Eightfold(d);
    hide Bits, Pow2;
    BitsAppend(d, 5, f, 3);
  }

  lemma TopEight(b: nat, d: nat, e: nat, x: seq<bool>)
    requires b < 256 && d < 32 && e < 32 && |x| >= 10
    requires Bits(b, 8) <= x && Bits(d, 5) + Bits(e, 5) <= x
    ensures b == 8 * d + e / 4
  {
    SmallPowers();
    hide Bits, Pow2, Value;
    TopThree(e);
    FiveAndThree(d, e / 4);
    ValueOfBits(b, 8);
    ValueOfBits(8 * d + e / 4, 8);
    var eight, ten := Bits(d, 5) + Bits(e / 4, 3), Bits(d, 5) + Bits(e, 5);
    assert ten == eight + Bits(e % 4, 2);
    assert eight == ten[..8] == x[..8] && Bits(b, 8) == x[..8];
  }

  /** The letters a key of the kind may start with. */
  function Letters(kind: KeyKind): string {
    match kind
    case ContractKey => "C" case AccountKey => "G" case RecipientKey => "GC" case SecretKey => "S"
  }

  /** A well-formed StrKey is of the kind exactly when it starts with a letter of
      the kind and the low version bits in its second character are zero; the
      others are refused by their version. */
  lemma KindByCharacters(kind: KeyKind, s: string)
    requires DecodedKey(s).Ok?
    ensures |s| == 56
    ensures ValidatedKey(kind, s).Ok? <==> s[0] in Letters(kind) && s[1] in "ABCD"
    ensures ValidatedKey(kind, s) == if ValidatedKey(kind, s).Ok? then DecodedKey(s) else Err(WrongKind(DecodedKey(s).version))
  {
    hide DecodedKey;
    VersionCharacters(s);
    assert Base32.DigitOf('G') == 6 && Base32.DigitOf('C') == 2 && Base32.DigitOf('S') == 18;
    DigitsDiffer(s[0]);
    var d, e := Base32.DigitOf(s[0]), Base32.DigitOf(s[1]);
    assert s[1] in "ABCD" <==> e / 4 == 0;
    assert 8 * d + e / 4 == 48 <==> d == 6 && e / 4 == 0;
    assert 8 * d + e / 4 == 16 <==> d == 2 && e / 4 == 0;
    assert 8 * d + e / 4 == 144 <==> d == 18 && e / 4 == 0;
  }

  lemma DigitsDiffer(c: char)
    requires Base32.InAlphabet(c)
    ensures Base32.DigitOf(c) == 6 <==> c == 'G'
    ensures Base32.DigitOf(c) == 2 <==> c == 'C'
    ensures Base32.DigitOf(c) == 18 <==> c == 'S'
  {
  }

  /** A kind has nothing to do with strings that are no StrKeys at all. */
  lemma KindNeedsKey(kind: KeyKind, s: string)
    requires DecodedKey(s).Err?
    ensures ValidatedKey(kind, s) == DecodedKey(s)
  {
  }

  /** A character of the table the codec is given. */
  predicate InTable(c: char) {
    c in "ABCDEFGHIJKLMNOPQRSTUVWXYZ234567"
  }

  lemma TableIsAlphabet(c: char)
    ensures InTable(c) <==> Base32.InAlphabet(c)
  {
  }

  /** The first character outside the table stands at `k`. */
  predicate FirstOutside(s: string, k: nat) {
    k < |s| && !InTable(s[k]) && forall i :: 0 <= i < k ==> InTable(s[i])
  }

  lemma FirstBadIs(s: string, k: nat)
    ensures FirstOutside(s, k) <==> k == FirstBad(s, 0) < |s|
  {
    hide InTable, Base32.InAlphabet;
    forall c ensures InTable(c) <==> Base32.InAlphabet(c) { TableIsAlphabet(c); }
    var bad := FirstBad(s, 0);
    if FirstOutside(s, k) && bad < |s| {
      assert !(bad < k) && !(k < bad);
    }
  }

  /** Each refusal has exactly one cause: nothing to read, the first character
      outside the table, lower case or not, or a wrong length; 56 characters of
      the table are accepted or have a bad checksum. */
  lemma RefusedBecause(s: string)
    ensures DecodedKey(s) == Err(Empty) <==> s == ""
    ensures forall k: nat :: DecodedKey(s) == Err(Lowercase(k)) <==> FirstOutside(s, k) && 'a' <= s[k] <= 'z'
    ensures forall k: nat :: DecodedKey(s) == Err(OutsideAlphabet(k)) <==> FirstOutside(s, k) && !('a' <= s[k] <= 'z')
    ensures forall n: nat :: DecodedKey(s) == Err(WrongLength(n)) <==>
      n == |s| && n != 0 && n != 56 && forall i :: 0 <= i < |s| ==> InTable(s[i])
    ensures DecodedKey(s).Ok? || DecodedKey(s) == Err(BadChecksum) <==>
      |s| == 56 && forall i :: 0 <= i < 56 ==> InTable(s[i])
  {
    hide CrcBits, Unpack, Bits, Base32.InAlphabet, InTable, Base32.Decoded, ChecksumMatches, FirstOutside;
    forall c ensures InTable(c) <==> Base32.InAlphabet(c) { TableIsAlphabet(c); }
    forall k: nat ensures FirstOutside(s, k) <==> k == FirstBad(s, 0) < |s| { FirstBadIs(s, k); }
    if |s| == 56 && Base32.AllInAlphabet(s) {
      DecodedRaw(s);
    }
  }

  /** The strings accepted are exactly the encodings of a version byte and a key. */
  lemma AcceptedExactly(s: string)
    ensures DecodedKey(s).Ok? <==>
      exists version: nat, key :: version < 256 && |key| == 32 && Base32.Below(key, 256) && s == KeyString(version, key)
  {
    hide DecodedKey, KeyString;
    if DecodedKey(s).Ok? {
      KeyStringOfDecoded(s);
    } else if version: nat, key :| version < 256 && |key| == 32 && Base32.Below(key, 256) && s == KeyString(version, key) {
      DecodeKeyString(version, key);
    }
  }

  // ---- Wrong characters side by side ----

  /** The difference two strings make when they differ from bit `p` on by `e`. */
  function Burst(p: nat, e: seq<bool>): (x: seq<bool>)
    requires p + |e| <= 280
    ensures |x| == 280
  {
    Zeros(p) + e + Zeros(280 - p - |e|)
  }

  /** A burst within the body changes the checksum computed. */
  lemma BurstInBody(p: nat, e: seq<bool>)
    requires p + |e| <= 264 && |e| <= 16 && e != Zeros(|e|)
    ensures !Matches(Burst(p, e))
  {
    hide CrcBits;
    var x, rest := Burst(p, e), 264 - p - |e|;
    assert x[..264] == Zeros(p) + (e + Zeros(rest));
    LeadingZeros(p, e + Zeros(rest));
    CrcConcat(ZERO, e, Zeros(rest));
    ShortBurst(e);
    ZerosKeep(CrcBits(ZERO, e), rest);
    assert x[272..] + x[264..272] == ZERO;
  }

  /** A burst within the checksum changes what is found. */
  lemma BurstInChecksum(p: nat, e: seq<bool>)
    requires 264 <= p && p + |e| <= 280 && e != Zeros(|e|)
    ensures !Matches(Burst(p, e))
  {
    hide CrcBits;
    var x := Burst(p, e);
    assert x[..264] == Zeros(264);
    ZerosKeep(ZERO, 264);
    var found := x[272..] + x[264..272];
    var j :| 0 <= j < |e| && e[j] != Zeros(|e|)[j];
    assert x[p + j];
    assert found[if p + j >= 272 then p + j - 272 else p + j - 264 + 8] != ZERO[0];
  }

  /** What the test compares when the burst reaches across both. */
  lemma BurstAcross(p: nat, e: seq<bool>)
    requires p <= 264 <= p + |e| <= 280
    ensures var n := 264 - p;
      var found := (e[n..] + Zeros(16 + n - |e|))[8..] + (e[n..] + Zeros(16 + n - |e|))[..8];
      Matches(Burst(p, e)) <==> CrcBits(ZERO, e[..n]) == found
  {
    hide CrcBits;
    var x, n := Burst(p, e), 264 - p;
    assert x[..264] == Zeros(p) + e[..n];
    LeadingZeros(p, e[..n]);
    assert x[264..272] == (e[n..] + Zeros(16 + n - |e|))[..8];
    assert x[272..] == (e[n..] + Zeros(16 + n - |e|))[8..];
  }

  /** The fourteen body bits whose checksum is the one bit that the straddling
      character carries of it. */
  const HIDDEN: seq<bool> :=
    [false, true, false, false, false, true, true, false, false, false, true, false, true, false]

  const CARRIED: Bits16 :=
    [false, false, false, false, false, false, false, false, true, false, false, false, false, false, false, false]

  lemma HiddenCarried()
    ensures CrcBits(ZERO, HIDDEN) == CARRIED
  {
    hide CrcBits;
    var a := [false, false, false, true];
    var b := a + [false, false, false, true];
    var c := b + [true, false, false, false];
    assert Zeros(2) + HIDDEN == c + [true, false, true, false] && [] + a == a;
    LeadingZeros(2, HIDDEN);
    assert CrcBits(ZERO, []) == ZERO by { NothingFed(); }
    CrcNibble(ZERO, [], false, false, false, true);
    CrcNibble(ZERO, a, false, false, false, true);
    CrcNibble(ZERO, b, true, false, false, false);
    CrcNibble(ZERO, c, true, false, true, false);
  }

  lemma NothingFed()
    ensures CrcBits(ZERO, []) == ZERO
  {
  }

  lemma ZerosSplit(a: seq<bool>, b: seq<bool>)
    ensures a + b == Zeros(|a| + |b|) <==> a == Zeros(|a|) && b == Zeros(|b|)
  {
    var all := a + b;
    assert forall i :: 0 <= i < |a| ==> all[i] == a[i];
    assert forall i :: 0 <= i < |b| ==> all[|a| + i] == b[i];
  }

  /** Fourteen body bits and one of the checksum: one difference is missed. */
  lemma FourteenAndOne(e: seq<bool>)
    requires |e| == 15 && e != Zeros(15)
    ensures Matches(Burst(250, e)) <==> e == HIDDEN + [true]
  {
    hide CrcBits, Matches;
    BurstAcross(250, e);
    var body := e[..14];
    var found := (e[14..] + Zeros(15))[8..] + (e[14..] + Zeros(15))[..8];
    assert e == body + [e[14]];
    ZerosSplit(body, [e[14]]);
    HiddenCarried();
    if e[14] {
      assert found == CARRIED;
      if CrcBits(ZERO, body) == CARRIED {
        BurstsDiffer(body, HIDDEN);
      }
    } else {
      assert found == ZERO && [e[14]] == Zeros(1);
      ShortBurst(body);
    }
  }

  /** Nine body bits and six of the checksum: none is missed. */
  lemma NineAndSix(e: seq<bool>)
    requires |e| == 15 && Matches(Burst(255, e))
    ensures e == Zeros(15)
  {
    hide CrcBits, Matches;
    BurstAcross(255, e);
    var tail := e[9..] + Zeros(10);
    var found := tail[8..] + tail[..8];
    assert forall i :: 0 <= i < 8 ==> !found[i];
    NineBits(e[..9]);
    ShortBurst(e[..9]);
    assert forall i :: 0 <= i < 6 ==> e[9..][i] == tail[i] == found[8 + i] == ZERO[8 + i];
    assert e[9..] == Zeros(6) && e == e[..9] + e[9..];
    ZerosSplit(e[..9], e[9..]);
  }

  /** The register after one bit, after four more, and after the last four. */
  function AfterOne(a: bool): Bits16 {
    [false, false, false, a, false, false, false, false, false, false, a, false, false, false, false, a]
  }

  function AfterFive(a: bool, b: bool, c: bool, d: bool, i: bool): Bits16 {
    [b, c, d, i, false, false, a, b, c, d, i, a, b, c, d, i]
  }

  function AfterNine(a: bool, b: bool, c: bool, d: bool, i: bool, f: bool, g: bool, h: bool, j: bool): Bits16 {
    [f, g, a != h, b != j, c, d, i, a != f, b != g, c != h, d != j, i, f, g, h, j]
  }

  lemma FedOne(a: bool)
    ensures FedNibble(ZERO, false, false, false, a) == AfterOne(a)
  {
  }

  lemma FedFive(a: bool, b: bool, c: bool, d: bool, k: bool)
    ensures FedNibble(AfterOne(a), b, c, d, k) == AfterFive(a, b, c, d, a != k)
  {
    var r := AfterOne(a);
    assert !r[0] && !r[1] && !r[2] && r[3] == a && !r[4] && !r[5] && !r[6] && !r[7];
    assert !r[8] && !r[9] && r[10] == a && !r[11] && !r[12] && !r[13] && !r[14] && r[15] == a;
    hide AfterOne;
  }

  lemma FedNine(a: bool, b: bool, c: bool, d: bool, i: bool, l: bool, m: bool, n: bool, o: bool)
    ensures FedNibble(AfterFive(a, b, c, d, i), l, m, n, o) == AfterNine(a, b, c, d, i, b != l, c != m, d != n, i != o)
  {
    var r := AfterFive(a, b, c, d, i);
    assert r[0] == b && r[1] == c && r[2] == d && r[3] == i && !r[4] && !r[5] && r[6] == a && r[7] == b;
    assert r[8] == c && r[9] == d && r[10] == i && r[11] == a && r[12] == b && r[13] == c && r[14] == d && r[15] == i;
    hide AfterFive;
  }

  lemma ClearAfterNine(a: bool, b: bool, c: bool, d: bool, i: bool, f: bool, g: bool, h: bool, j: bool)
    requires var crc := AfterNine(a, b, c, d, i, f, g, h, j); (forall p :: 0 <= p < 8 ==> !crc[p]) && !crc[14] && !crc[15]
    ensures !a && !b && !c && !d && !i && !f && !g && !h && !j
  {
    var crc := AfterNine(a, b, c, d, i, f, g, h, j);
    assert !crc[0] && !crc[1] && !crc[2] && !crc[3] && !crc[4] && !crc[5] && !crc[6] && !crc[7];
  }

  /** Nine bits always reach beyond the six that the two characters carry. */
  lemma NineBits(e: seq<bool>)
    requires |e| == 9
    requires var crc := CrcBits(ZERO, e); (forall i :: 0 <= i < 8 ==> !crc[i]) && !crc[14] && !crc[15]
    ensures e == Zeros(9)
  {
    hide CrcBits, FedNibble, AfterOne, AfterFive, AfterNine;
    var a := [false, false, false, e[0]];
    var b := a + [e[1], e[2], e[3], e[4]];
    assert Zeros(3) + e == b + [e[5], e[6], e[7], e[8]] && [] + a == a;
    LeadingZeros(3, e);
    assert CrcBits(ZERO, []) == ZERO by { NothingFed(); }
    CrcNibble(ZERO, [], false, false, false, e[0]);
    CrcNibble(ZERO, a, e[1], e[2], e[3], e[4]);
    CrcNibble(ZERO, b, e[5], e[6], e[7], e[8]);
    FedOne(e[0]);
    FedFive(e[0], e[1], e[2], e[3], e[4]);
    var i := e[0] != e[4];
    FedNine(e[0], e[1], e[2], e[3], i, e[5], e[6], e[7], e[8]);
    ClearAfterNine(e[0], e[1], e[2], e[3], i, e[1] != e[5], e[2] != e[6], e[3] != e[7], i != e[8]);
  }

  /** Four body bits and eleven of the checksum: three differences are missed. */
  lemma FourAndEleven(e: seq<bool>)
    requires |e| == 15
    ensures Matches(Burst(260, e)) <==> e == Repeated(e[1], e[2])
  {
    hide CrcBits, Matches, Repeated;
    BurstAcross(260, e);
    assert e[..4] == [] + [e[0], e[1], e[2], e[3]];
    assert CrcBits(ZERO, []) == ZERO by { NothingFed(); }
    CrcNibble(ZERO, [], e[0], e[1], e[2], e[3]);
    var tail := e[4..] + Zeros(5);
    assert tail[8..] + tail[..8] == FoundOf(e);
    FourFed(e);
    hide FedNibble, FoundOf;
  }

  function FoundOf(e: seq<bool>): Bits16
    requires |e| == 15
  {
    [e[12], e[13], e[14], false, false, false, false, false, e[4], e[5], e[6], e[7], e[8], e[9], e[10], e[11]]
  }

  lemma FourFed(e: seq<bool>)
    requires |e| == 15
    ensures FedNibble(ZERO, e[0], e[1], e[2], e[3]) == FoundOf(e) <==> e == Repeated(e[1], e[2])
  {
    var crc := FedNibble(ZERO, e[0], e[1], e[2], e[3]);
    assert crc == [e[0], e[1], e[2], e[3], false, false, false, e[0], e[1], e[2], e[3], false, e[0], e[1], e[2], e[3]];
    if crc == FoundOf(e) {
      assert forall i :: 0 <= i < 16 ==> crc[i] == FoundOf(e)[i];
      assert crc[7] == FoundOf(e)[7] && crc[3] == FoundOf(e)[3];
      assert e == [e[0], e[1], e[2], e[3], e[4], e[5], e[6], e[7], e[8], e[9], e[10], e[11], e[12], e[13], e[14]];
    }
  }

  function Repeated(a: bool, b: bool): (e: seq<bool>)
    ensures |e| == 15
  {
    [false, a, b, false, a, b, false, false, false, a, b, false, false, a, b]
  }

  /** The differences in three characters from the `i`-th on that the checksum
      cannot see: one that ends, and three that begin, with the character that
      straddles body and checksum. */
  predicate Unseen(i: nat, e: seq<bool>)
    requires |e| == 15
  {
    (i == 50 && e == HIDDEN + [true]) || (i == 52 && e == Repeated(e[1], e[2]))
  }

  lemma ThreeSeen(i: nat, e: seq<bool>)
    requires i <= 53 && |e| == 15 && e != Zeros(15)
    ensures Matches(Burst(5 * i, e)) <==> Unseen(i, e)
  {
    hide Matches;
    if i < 50 { BurstInBody(5 * i, e); }
    else if i == 50 { FourteenAndOne(e); }
    else if i == 51 { if Matches(Burst(255, e)) { NineAndSix(e); } }
    else if i == 52 { FourAndEleven(e); }
    else { BurstInChecksum(265, e); }
  }

  /** What differs from a bit string that matches matches exactly if the
      difference does. */
  lemma MatchesLinear(x: seq<bool>, y: seq<bool>)
    requires |x| == |y| == 280 && Matches(x)
    ensures Matches(y) <==> Matches(Xor(x, y))
  {
    hide CrcBits;
    CrcLinear(ZERO, ZERO, x[..264], y[..264]);
    assert Xor(ZERO, ZERO) == ZERO;
    var d := Xor(x, y);
    assert d[..264] == Xor(x[..264], y[..264]);
    assert d[272..] + d[264..272] == Xor(x[272..] + x[264..272], y[272..] + y[264..272]);
    XorSame(x[272..] + x[264..272], CrcBits(ZERO, y[..264]), y[272..] + y[264..272]);
  }

  lemma XorSame(a: seq<bool>, b: seq<bool>, c: seq<bool>)
    requires |a| == |b| == |c|
    ensures Xor(a, b) == Xor(a, c) <==> b == c
  {
    if Xor(a, b) == Xor(a, c) {
      assert forall i :: 0 <= i < |a| ==> Xor(a, b)[i] == Xor(a, c)[i];
    }
  }

  /** `s'` differs from `s` in no character but `width` of them from `i` on. */
  predicate DiffersWithin(s: string, s': string, i: nat, width: nat) {
    && |s| == |s'| == STRKEY_LEN && i + width <= STRKEY_LEN && s != s'
    && forall j :: 0 <= j < STRKEY_LEN && !(i <= j < i + width) ==> s[j] == s'[j]
  }

  /** The bits by which three characters differ. */
  function Difference(s: string, s': string, i: nat): (e: seq<bool>)
    requires |s| == |s'| && i + 3 <= |s|
    requires Base32.AllInAlphabet(s) && Base32.AllInAlphabet(s')
    ensures |e| == 15
  {
    var a, b := Base32.DigitsOf(s)[i..i + 3], Base32.DigitsOf(s')[i..i + 3];
    UnpackLength(a, 5);
    UnpackLength(b, 5);
    Xor(Unpack(a, 5), Unpack(b, 5))
  }

  lemma DifferenceIsBurst(s: string, s': string, i: nat)
    requires DiffersWithin(s, s', i, 3) && Base32.AllInAlphabet(s) && Base32.AllInAlphabet(s')
    ensures var x, y := Unpack(Base32.DigitsOf(s), 5), Unpack(Base32.DigitsOf(s'), 5);
      |x| == |y| == 280 && Xor(x, y) == Burst(5 * i, Difference(s, s', i)) && x != y
  {
    hide Unpack, Pack, Pow2;
    var ds, ds' := Base32.DigitsOf(s), Base32.DigitsOf(s');
    var a, b, p, q := ds[..i], ds[i + 3..], ds[i..i + 3], ds'[i..i + 3];
    assert ds == a + (p + b) && ds' == a + (q + b);
    UnpackLength(p, 5);
    UnpackLength(q, 5);
    assert Difference(s, s', i) == Xor(Unpack(p, 5), Unpack(q, 5));
    hide Base32.DigitsOf, Difference;
    UnpackConcat(a, p + b, 5);
    UnpackConcat(a, q + b, 5);
    UnpackConcat(p, b, 5);
    UnpackConcat(q, b, 5);
    UnpackLength(a, 5);
    UnpackLength(b, 5);
    BurstShape(Unpack(a, 5), Unpack(p, 5), Unpack(q, 5), Unpack(b, 5), 5 * i);
    if Unpack(ds, 5) == Unpack(ds', 5) {
      SameDigits(s, s');
    }
  }

  lemma SameDigits(s: string, s': string)
    requires Base32.AllInAlphabet(s) && Base32.AllInAlphabet(s')
    requires Unpack(Base32.DigitsOf(s), 5) == Unpack(Base32.DigitsOf(s'), 5)
    ensures s == s'
  {
    SmallPowers();
    hide Unpack, Pack, Pow2;
    var ds, ds' := Base32.DigitsOf(s), Base32.DigitsOf(s');
    PackUnpack(ds, 5, []);
    PackUnpack(ds', 5, []);
    assert Unpack(ds, 5) + [] == Unpack(ds', 5) + [];
    assert ds == ds';
    assert forall j :: 0 <= j < |s| ==> Base32.CharOf(ds[j]) == s[j];
    assert forall j :: 0 <= j < |s'| ==> Base32.CharOf(ds'[j]) == s'[j];
  }

  lemma BurstShape(a: seq<bool>, p: seq<bool>, q: seq<bool>, b: seq<bool>, at: nat)
    requires |a| == at && |p| == |q| && |a| + |p| + |b| == 280
    ensures Xor(a + (p + b), a + (q + b)) == Burst(at, Xor(p, q))
  {
    var x, y, n := a + (p + b), a + (q + b), |p|;
    assert forall k :: 0 <= k < at ==> x[k] == y[k] == a[k];
    assert forall k :: at <= k < at + n ==> x[k] == p[k - at] && y[k] == q[k - at];
    assert forall k :: at + n <= k < 280 ==> x[k] == b[k - at - n] && y[k] == b[k - at - n];
  }

  /** Whatever is changed within three characters side by side of an accepted
      StrKey, it is noticed by the checksum, but for the four differences next to
      the straddling character that are exactly the ones accepted. */
  lemma ThreeAdjacentRejected(s: string, s': string, i: nat)
    requires DecodedKey(s).Ok? && DiffersWithin(s, s', i, 3) && Base32.AllInAlphabet(s')
    ensures Base32.AllInAlphabet(s)
    ensures if Unseen(i, Difference(s, s', i)) then DecodedKey(s').Ok? else DecodedKey(s') == Err(BadChecksum)
  {
    hide Unpack, DecodedKey, Matches, Base32.Decoded, Base32.Encoded, Base32.DigitsOf, Difference, Unseen;
    AcceptedShape(s);
    DecodedRaw(s);
    DecodedRaw(s');
    DifferenceIsBurst(s, s', i);
    var x, y, e := Unpack(Base32.DigitsOf(s), 5), Unpack(Base32.DigitsOf(s'), 5), Difference(s, s', i);
    assert e != Zeros(15) by { NonzeroBurst(x, y, 5 * i, e); }
    ThreeSeen(i, e);
    MatchesLinear(x, y);
  }

  lemma NonzeroBurst(x: seq<bool>, y: seq<bool>, p: nat, e: seq<bool>)
    requires |x| == |y| == 280 && x != y && p + |e| <= 280 && Xor(x, y) == Burst(p, e)
    ensures e != Zeros(|e|)
  {
    var j :| 0 <= j < 280 && x[j] != y[j];
    assert Burst(p, e)[j];
  }

  /** Two characters side by side, wherever they stand, can be changed in no way
      that goes unnoticed. */
  lemma TwoAdjacentRejected(s: string, s': string, i: nat)
    requires DecodedKey(s).Ok? && DiffersWithin(s, s', i, 2) && Base32.AllInAlphabet(s')
    ensures DecodedKey(s') == Err(BadChecksum)
  {
    hide Unpack, DecodedKey, Base32.DigitsOf;
    AcceptedShape(s);
    var from := if i <= 50 then i else if i <= 52 then 51 else 53;
    assert DiffersWithin(s, s', from, 3);
    ThreeAdjacentRejected(s, s', from);
    if from == 50 {
      ThirdIsSame(s, s', from);
      assert !Difference(s, s', from)[14] && (HIDDEN + [true])[14];
    }
    hide Difference;
  }

  /** Equal characters make no difference. */
  lemma ThirdIsSame(s: string, s': string, i: nat)
    requires |s| == |s'| && i + 3 <= |s| && s[i + 2] == s'[i + 2]
    requires Base32.AllInAlphabet(s) && Base32.AllInAlphabet(s')
    ensures !Difference(s, s', i)[14]
  {
    hide Bits;
    var a, b := Base32.DigitsOf(s)[i..i + 3], Base32.DigitsOf(s')[i..i + 3];
    assert a[2] == b[2];
    UnpackLength(a[..2], 5);
    UnpackLength(b[..2], 5);
    assert Unpack(a, 5) == Unpack(a[..2], 5) + Bits(a[2], 5) && Unpack(b, 5) == Unpack(b[..2], 5) + Bits(b[2], 5);
    hide Unpack;
  }

  /** Replacing any one character of an accepted StrKey by another character of
      the alphabet, wherever it stands, is noticed by the checksum. */
  lemma OneCharacterRejected(s: string, i: nat, c: char)
    requires DecodedKey(s).Ok? && i < STRKEY_LEN && Base32.InAlphabet(c)
    requires |s| == STRKEY_LEN && c != s[i]
    ensures DecodedKey(s[i := c]) == Err(BadChecksum)
  {
    hide DecodedKey;
    AcceptedShape(s);
    assert s[i := c][i] != s[i];
    TwoAdjacentRejected(s, s[i := c], if i < 55 then i else 54);
  }

  /** So is swapping two neighbours. */
  lemma SwapRejected(s: string, i: nat)
    requires DecodedKey(s).Ok? && |s| == STRKEY_LEN && i + 1 < STRKEY_LEN && s[i] != s[i + 1]
    ensures DecodedKey(s[i := s[i + 1]][i + 1 := s[i]]) == Err(BadChecksum)
  {
    hide DecodedKey;
    AcceptedShape(s);
    var s' := s[i := s[i + 1]][i + 1 := s[i]];
    assert s'[i] != s[i];
    TwoAdjacentRejected(s, s', i);
  }
}
