/** Bytes, hexadecimal text and the nonce spelling shared by the stratum server and the
    unlocker (stratum/miner.go:154-187, payouts/unlocker.go:113-123). */
module Hex {
  import opened Common

  type byte = b: int | 0 <= b < 256
  type uint32 = n: int | 0 <= n < TWO_TO_32

  function Digit(n: int): (c: char)
    requires 0 <= n < 16
    ensures IsLowerHex(c) && Value(c) == n
  {
    if n < 10 then '0' + n as char else 'a' + (n - 10) as char
  }

  predicate IsLowerHex(c: char) {
    '0' <= c <= '9' || 'a' <= c <= 'f'
  }

  predicate IsHex(c: char) {
    IsLowerHex(c) || 'A' <= c <= 'F'
  }

  function Value(c: char): (n: int)
    requires IsHex(c)
    ensures 0 <= n < 16
  {
    if c <= '9' then c as int - '0' as int
    else if c <= 'F' then c as int - 'A' as int + 10
    else c as int - 'a' as int + 10
  }

  /** hex.EncodeToString. */
  function Encode(bytes: seq<byte>): string {
    if bytes == [] then "" else EncodeByte(bytes[0]) + Encode(bytes[1..])
  }

  function EncodeByte(b: byte): (text: string)
    ensures |text| == 2 && IsLowerHex(text[0]) && IsLowerHex(text[1])
    ensures Value(text[0]) * 16 + Value(text[1]) == b
  {
    [Digit(b / 16), Digit(b % 16)]
  }

  /** The bytes hex.DecodeString returns; the callers drop its error, and then hold the bytes
      decoded before the first bad pair. */
  function Decode(text: string): seq<byte> {
    if |text| < 2 || !IsHex(text[0]) || !IsHex(text[1]) then []
    else [Pair(text[0], text[1])] + Decode(text[2..])
  }

  predicate AllLowerHex(text: string) {
    forall i | 0 <= i < |text| :: IsLowerHex(text[i])
  }

  lemma {:induction false} EncodeShape(bytes: seq<byte>)
    ensures |Encode(bytes)| == 2 * |bytes| && AllLowerHex(Encode(bytes))
  {
    if bytes != [] {
      EncodeShape(bytes[1..]);
    }
  }

  lemma {:induction false} DecodeEncode(bytes: seq<byte>)
    ensures Decode(Encode(bytes)) == bytes
  {
    if bytes != [] {
      DecodeEncode(bytes[1..]);
      assert Encode(bytes)[2..] == Encode(bytes[1..]);
      assert Encode(bytes)[..2] == EncodeByte(bytes[0]);
    }
  }

  /** Lower-case text of even length survives decoding and encoding. */
  lemma {:induction false} EncodeDecode(text: string)
    requires |text| % 2 == 0 && AllLowerHex(text)
    ensures Encode(Decode(text)) == text && |Decode(text)| == |text| / 2
  {
    hide EncodeByte;
    if text != [] {
      EncodeDecode(text[2..]);
      PairRoundTrip(text[0], text[1]);
      assert Decode(text) == [Pair(text[0], text[1])] + Decode(text[2..]);
      assert text == [text[0], text[1]] + text[2..];
    }
  }

  function Pair(high: char, low: char): byte
    requires IsHex(high) && IsHex(low)
  {
    Value(high) * 16 + Value(low)
  }

  lemma PairRoundTrip(high: char, low: char)
    requires IsLowerHex(high) && IsLowerHex(low)
    ensures EncodeByte(Pair(high, low)) == [high, low]
  {
    DigitValue(high);
    DigitValue(low);
    var b := Pair(high, low);
    assert b / 16 == Value(high) && b % 16 == Value(low);
  }

  lemma DigitValue(c: char)
    requires IsLowerHex(c)
    ensures Digit(Value(c)) == c
  {
  }

  /** ASCII strings.ToLower. */
  function ToLower(text: string): string
  {
    if text == "" then "" else [LowerChar(text[0])] + ToLower(text[1..])
  }

  function LowerChar(c: char): char {
    if 'A' <= c <= 'Z' then 'a' + (c - 'A') else c
  }

  /** Capital letters, and no other characters, change. */
  lemma {:induction false} ToLowerAt(text: string, i: nat)
    requires i < |text|
    ensures |ToLower(text)| == |text|
    ensures ToLower(text)[i] == if 65 <= text[i] as int <= 90 then (text[i] as int + 32) as char else text[i]
  {
    if |text| > 1 {
      ToLowerAt(text[1..], if i == 0 then 0 else i - 1);
    } else {
      assert ToLower(text[1..]) == "";
    }
  }

  /** Hexadecimal text means the same in either case. */
  lemma {:induction false} DecodeFoldsCase(text: string)
    ensures Decode(ToLower(text)) == Decode(text)
  {
    if |text| >= 2 {
      DecodeFoldsCase(text[2..]);
      assert text[1..][1..] == text[2..];
      assert ToLower(text) == [LowerChar(text[0])] + ([LowerChar(text[1])] + ToLower(text[2..]));
      assert ToLower(text)[2..] == ToLower(text[2..]);
    } else if |text| == 1 {
      assert ToLower(text[1..]) == "";
    }
  }

  /** strings.EqualFold on ASCII text. */
  predicate EqualFold(a: string, b: string) {
    ToLower(a) == ToLower(b)
  }

  lemma {:induction false} LowerFixed(text: string)
    requires AllLowerHex(text)
    ensures ToLower(text) == text
  {
    if text != "" {
      LowerFixed(text[1..]);
    }
  }

  // ------------------------------------------------------------------------------------------
  // The nonce: four bytes in the block, a uint32 in the daemon's header, hex text in Redis.

  function Horner(b3: int, b2: int, b1: int, b0: int): int {
    ((b3 * 256 + b2) * 256 + b1) * 256 + b0
  }

  /** The uint32 whose little-endian bytes are given (blocktemplate/block.go:127-135). */
  function FromLittleEndian(b: seq<byte>): uint32
    requires |b| == 4
  {
    Horner(b[3], b[2], b[1], b[0])
  }

  /** packU32 (blocktemplate/block.go:117-125). */
  function LittleEndian(n: uint32): (b: seq<byte>)
    ensures |b| == 4
  {
    [n % 256, n / 256 % 256, n / 256 / 256 % 256, n / 256 / 256 / 256]
  }

  function BigEndian(n: uint32): (b: seq<byte>)
    ensures |b| == 4
  {
    [n / 256 / 256 / 256, n / 256 / 256 % 256, n / 256 % 256, n % 256]
  }

  lemma LittleEndianRoundTrip(n: uint32)
    ensures FromLittleEndian(LittleEndian(n)) == n
    ensures Horner(BigEndian(n)[0], BigEndian(n)[1], BigEndian(n)[2], BigEndian(n)[3]) == n
  {
    hide EncodeByte;
    var q := n / 256;
    var r := q / 256;
    assert n == q * 256 + n % 256;
    assert q == r * 256 + q % 256;
    assert r == r / 256 * 256 + r % 256;
  }

  lemma Digits256(q: int, x: byte)
    ensures (q * 256 + x) / 256 == q && (q * 256 + x) % 256 == x
  {
  }

  lemma FromLittleEndianRoundTrip(b: seq<byte>)
    requires |b| == 4
    ensures LittleEndian(FromLittleEndian(b)) == b
  {
    var b1: int, b2: int, b3: int := b[1], b[2], b[3];
    Digits256(b3, b[2]);
    Digits256(b3 * 256 + b2, b[1]);
    Digits256((b3 * 256 + b2) * 256 + b1, b[0]);
  }

  lemma BigEndianInjective(n: uint32, m: uint32)
    ensures BigEndian(n) == BigEndian(m) <==> n == m
  {
    LittleEndianRoundTrip(n);
    LittleEndianRoundTrip(m);
  }

  /** `%x` with a minimum width, zero padded: digits from the most significant down. */
  function FormatHex(n: nat, width: nat): string
    decreases n, width
  {
    if n == 0 && width == 0 then ""
    else FormatHex(n / 16, if width == 0 then 0 else width - 1) + [Digit(n % 16)]
  }

  /** The two-character groups of the text in reverse order. */
  function ReversePairs(text: string): string {
    if |text| < 2 then "" else ReversePairs(text[2..]) + text[..2]
  }

  /** How unlockCandidates spells the nonce of a header. */
  function ChainNonceHex(nonce: uint32): string {
    ReversePairs(FormatHex(nonce, 8))
  }

  /** The loop of payouts/unlocker.go:116-121. */
  method SpellChainNonce(nonce: uint32) returns (text: string)
    ensures text == ChainNonceHex(nonce)
  {
    var hex := FormatHex(nonce, 8);
    FormatHexIsBigEndian(nonce);
    EncodeShape(BigEndian(nonce));
    text := "";
    assert hex[0..] == hex;
    for i := 0 to 4
      invariant ReversePairs(hex) == ReversePairs(hex[2 * i..]) + text
    {
      var pair := hex[2 * i..2 * i + 2];
      assert ReversePairs(hex[2 * i..]) == ReversePairs(hex[2 * i + 2..]) + pair by {
        assert hex[2 * i..][2..] == hex[2 * i + 2..];
        assert hex[2 * i..][..2] == pair;
      }
      text := pair + text;
    }
  }

  lemma FormatStep(n: nat, width: nat)
    requires width > 0
    ensures FormatHex(n, width) == FormatHex(n / 16, width - 1) + [Digit(n % 16)]
  {
  }

  lemma FormatByte(q: nat, x: byte, width: nat)
    requires width >= 2
    ensures FormatHex(q * 256 + x, width) == FormatHex(q, width - 2) + Encode([x])
  {
    var n := q * 256 + x;
    FormatStep(n, width);
    FormatStep(n / 16, width - 1);
    assert n / 16 == q * 16 + x / 16;
    assert n / 16 / 16 == q && n / 16 % 16 == x / 16 && n % 16 == x % 16;
    assert Encode([x]) == [Digit(x / 16), Digit(x % 16)];
  }

  lemma FormatTwoBytes(q: nat, x: byte, y: byte, width: nat)
    requires width >= 4
    ensures FormatHex((q * 256 + x) * 256 + y, width) == FormatHex(q, width - 4) + Encode([x, y])
  {
    hide EncodeByte, FormatHex, Encode;
    FormatByte(q, x, width - 2);
    var high := q * 256 + x;
    FormatByte(high, y, width);
    EncodeSnoc([x], y);
    assert [x] + [y] == [x, y];
    assert FormatHex(q, width - 4) + Encode([x]) + Encode([y]) == FormatHex(q, width - 4) + (Encode([x]) + Encode([y]));
  }

  lemma {:induction false} EncodeConcat(a: seq<byte>, b: seq<byte>)
    ensures Encode(a + b) == Encode(a) + Encode(b)
  {
    hide EncodeByte;
    if a == [] {
      assert a + b == b;
    } else {
      EncodeConcat(a[1..], b);
      assert (a + b)[1..] == a[1..] + b && (a + b)[0] == a[0];
      assert EncodeByte(a[0]) + (Encode(a[1..]) + Encode(b)) == EncodeByte(a[0]) + Encode(a[1..]) + Encode(b);
    }
  }

  lemma FormatBytes(b: seq<byte>, high: nat, n: nat)
    requires |b| == 4 && high == b[0] as int * 256 + b[1]
    requires n == (high * 256 + b[2]) * 256 + b[3]
    ensures FormatHex(n, 8) == Encode(b)
  {
    hide EncodeByte;
    var text := Encode(b[..2]);
    assert FormatHex(high, 4) == text by {
      FormatTwoBytes(0, b[0], b[1], 4);
      assert b[..2] == [b[0], b[1]];
    }
    FormatTwoBytes(high, b[2], b[3], 8);
    assert b[2..] == [b[2], b[3]];
    EncodeConcat(b[..2], b[2..]);
    assert b == b[..2] + b[2..];
  }

  lemma FormatHexIsBigEndian(n: uint32)
    ensures FormatHex(n, 8) == Encode(BigEndian(n))
  {
    LittleEndianRoundTrip(n);
    var b := BigEndian(n);
    FormatBytes(b, n / 256 / 256, n);
  }

  function Reverse(b: seq<byte>): (r: seq<byte>)
    ensures |r| == |b|
  {
    if b == [] then [] else Reverse(b[1..]) + [b[0]]
  }

  lemma {:induction false} EncodeSnoc(b: seq<byte>, x: byte)
    ensures Encode(b + [x]) == Encode(b) + Encode([x])
  {
    hide EncodeByte;
    if b == [] {
      assert b + [x] == [x];
    } else {
      EncodeSnoc(b[1..], x);
      assert (b + [x])[1..] == b[1..] + [x];
    }
  }

  /** Reversing pairs of hex digits is reversing bytes. */
  lemma {:induction false} ReversePairsIsReverse(b: seq<byte>)
    ensures ReversePairs(Encode(b)) == Encode(Reverse(b))
  {
    hide EncodeByte;
    if b != [] {
      ReversePairsIsReverse(b[1..]);
      EncodeSnoc(Reverse(b[1..]), b[0]);
      assert Encode(b)[2..] == Encode(b[1..]) && Encode(b)[..2] == Encode([b[0]]);
    }
  }

  /** The spelling of a header's nonce is the hex text of its bytes as they stand in the block. */
  lemma ChainNonceIsBlockBytes(nonce: uint32)
    ensures ChainNonceHex(nonce) == Encode(LittleEndian(nonce))
    ensures |ChainNonceHex(nonce)| == 8 && AllLowerHex(ChainNonceHex(nonce))
  {
    var b := BigEndian(nonce);
    FormatHexIsBigEndian(nonce);
    ReversePairsIsReverse(b);
    assert Reverse(b) == LittleEndian(nonce) by {
      assert b[1..][1..][1..] == [b[3]] && b[1..][1..] == [b[2], b[3]] && b[1..] == [b[1], b[2], b[3]];
      assert Reverse([b[3]]) == [b[3]];
      assert Reverse([b[2], b[3]]) == [b[3], b[2]];
      assert Reverse([b[1], b[2], b[3]]) == [b[3], b[2], b[1]];
    }
    EncodeShape(LittleEndian(nonce));
  }

  /** A nonce text as `^[0-9a-f]{8}$` accepts it (stratum/handlers.go:18). */
  predicate IsNonceText(text: string) {
    |text| == 8 && AllLowerHex(text)
  }

  /** The unlocker's nonce test holds exactly when the header carries the nonce whose four
      little-endian bytes the submitted text spells. */
  lemma NonceTestIsExact(text: string, nonce: uint32)
    requires IsNonceText(text)
    ensures |Decode(text)| == 4
    ensures EqualFold(text, ChainNonceHex(nonce)) <==> text == ChainNonceHex(nonce)
    ensures EqualFold(text, ChainNonceHex(nonce)) <==> nonce == FromLittleEndian(Decode(text))
  {
    EncodeDecode(text);
    ChainNonceIsBlockBytes(nonce);
    LowerFixed(text);
    LowerFixed(ChainNonceHex(nonce));
    FromLittleEndianRoundTrip(Decode(text));
    DecodeEncode(LittleEndian(nonce));
    LittleEndianRoundTrip(nonce);
  }
}
