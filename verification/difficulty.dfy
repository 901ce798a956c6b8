/** Share difficulty (util/util.go:13-64): a hash is read as a little-endian 256-bit number, its
    difficulty is a floor quotient, and miners are told a target cut down to 32 bits. */
module Difficulty {
  import opened Common
  import opened Hex
  import opened VarInt

  const TWO_TO_224: nat := 0x1_00000000_00000000_00000000_00000000_00000000_00000000_00000000
  const DIFF_1: nat := 0xFFFFFFFF_FFFFFFFF_FFFFFFFF_FFFFFFFF_FFFFFFFF_FFFFFFFF_FFFFFFFF_FFFFFFFF

  /** (*big.Int).SetBytes: big-endian. */
  function FromBytes(b: seq<byte>): nat {
    if b == [] then 0 else FromBytes(b[..|b| - 1]) * 256 + b[|b| - 1]
  }

  /** (*big.Int).Bytes: big-endian without leading zeros. */
  function ToBytes(n: nat): seq<byte> {
    if n == 0 then [] else ToBytes(n / 256) + [n % 256]
  }

  /** The number that a hash spells, least significant byte first. */
  function HashValue(b: seq<byte>): nat {
    if b == [] then 0 else b[0] + 256 * HashValue(b[1..])
  }

  /** reverse. */
  method ReverseBytes(src: seq<byte>) returns (dst: array<byte>)
    ensures fresh(dst) && dst[..] == Reverse(src)
  {
    dst := new byte[|src|](_ => 0);
    var i := |src|;
    while i > 0
      invariant 0 <= i <= |src|
      invariant forall k | i <= k < |src| :: dst[|src| - 1 - k] == src[k]
    {
      dst[|src| - i] := src[i - 1];
      i := i - 1;
    }
    forall k | 0 <= k < |src|
      ensures dst[..][k] == Reverse(src)[k]
    {
      ReverseAt(src, k);
      assert dst[|src| - 1 - (|src| - 1 - k)] == src[|src| - 1 - k];
    }
  }

  lemma {:induction false} ReverseAt(b: seq<byte>, k: nat)
    requires k < |b|
    ensures Reverse(b)[k] == b[|b| - 1 - k]
  {
    if k < |b| - 1 {
      ReverseAt(b[1..], k);
    }
  }

  /** Big-endian after reversing is little-endian. */
  lemma {:induction false} ReversedValue(b: seq<byte>)
    ensures FromBytes(Reverse(b)) == HashValue(b)
  {
    if b != [] {
      ReversedValue(b[1..]);
      var r := Reverse(b);
      assert r[..|r| - 1] == Reverse(b[1..]) && r[|r| - 1] == b[0];
    }
  }

  /** The difficulty of a hash; none for a hash of value 0. */
  function HashDifficulty(hash: seq<byte>): Option<nat> {
    if HashValue(hash) == 0 then None else Some(DIFF_1 / HashValue(hash))
  }

  /** GetHashDifficulty. */
  method GetHashDifficulty(hashBytes: seq<byte>) returns (diff: Option<nat>)
    ensures diff == HashDifficulty(hashBytes)
  {
    hide FromBytes, HashValue;
    var reversed := ReverseBytes(hashBytes);
    ReversedValue(hashBytes);
    var n := FromBytes(reversed[..]);
    diff := if n == 0 then None else Some(DIFF_1 / n);
  }

  /** The target as a number: the top 32 bits of the exact one. */
  function TargetWord(diff: nat): nat
    requires diff > 0
  {
    DIFF_1 / diff / TWO_TO_224
  }

  /** GetTargetHex; a difficulty of 0 is a division panic. */
  method GetTargetHex(diff: nat) returns (targetHex: string)
    requires diff > 0
    ensures 0 <= TargetWord(diff) < TWO_TO_32
    ensures targetHex == Encode(LittleEndian(TargetWord(diff)))
  {
    hide FromBytes, ToBytes, Encode, LittleEndian, BigEndian, Reverse;
    var q := DIFF_1 / diff;
    assert q <= DIFF_1 by { QuotientAtMost(DIFF_1, diff); }
    BytesFit(q, 32);
    var diffBuff := ToBytes(q);
    var padded := Zeros(32 - |diffBuff|) + diffBuff;
    ToBytesRoundTrip(q);
    PaddedValue(32 - |diffBuff|, diffBuff);
    TopFourBytes(padded);
    var buff := padded[0..4];
    var reversed := ReverseBytes(buff);
    ReverseFour(TargetWord(diff));
    targetHex := Encode(reversed[..]);
  }

  lemma QuotientAtMost(n: nat, d: nat)
    requires d > 0
    ensures 0 <= n / d <= n
  {
    QuotientTimes(n, d, n + 1);
    MulOrder(1, d, n + 1);
  }

  lemma MulOrder(a: int, b: int, p: nat)
    ensures a <= b ==> a * p <= b * p
  {
  }

  function Power256(i: nat): nat {
    if i == 0 then 1 else 256 * Power256(i - 1)
  }

  lemma Powers()
    ensures Power256(28) == TWO_TO_224 && Power256(32) == DIFF_1 + 1 && Power256(4) == TWO_TO_32
  {
    assert Power256(4) == TWO_TO_32;
    PowerSum(4, 4);
    PowerSum(8, 8);
    PowerSum(16, 8);
    PowerSum(24, 4);
    PowerSum(16, 16);
  }

  lemma Reassociate(a: int, b: int)
    ensures 256 * (a * b) == (256 * a) * b
  {
  }

  lemma {:induction false} PowerSum(i: nat, j: nat)
    ensures Power256(i + j) == Power256(i) * Power256(j)
  {
    if i > 0 {
      PowerSum(i - 1, j);
      var a, b := Power256(i - 1), Power256(j);
      Reassociate(a, b);
    }
  }

  lemma {:induction false} BytesFit(n: nat, k: nat)
    requires n < Power256(k) || (k == 32 && n <= DIFF_1)
    ensures |ToBytes(n)| <= k
    decreases k
  {
    if k == 32 {
      Powers();
    }
    if n > 0 && k > 0 {
      assert n < 256 * Power256(k - 1);
      BytesFit(n / 256, k - 1);
    }
  }

  lemma {:induction false} ToBytesRoundTrip(n: nat)
    ensures FromBytes(ToBytes(n)) == n
  {
    if n > 0 {
      ToBytesRoundTrip(n / 256);
      assert ToBytes(n)[..|ToBytes(n)| - 1] == ToBytes(n / 256);
    }
  }

  lemma {:induction false} PaddedValue(zeros: nat, b: seq<byte>)
    ensures FromBytes(Zeros(zeros) + b) == FromBytes(b)
    decreases zeros + |b|
  {
    var s := Zeros(zeros) + b;
    if b != [] {
      PaddedValue(zeros, b[..|b| - 1]);
      assert s[..|s| - 1] == Zeros(zeros) + b[..|b| - 1];
    } else if zeros > 0 {
      PaddedValue(zeros - 1, []);
      assert s[..|s| - 1] == Zeros(zeros - 1) + [];
    }
  }

  lemma {:induction false} FromBytesConcat(a: seq<byte>, b: seq<byte>)
    ensures FromBytes(a + b) == FromBytes(a) * Power256(|b|) + FromBytes(b)
    ensures FromBytes(b) < Power256(|b|)
    decreases |b|
  {
    hide FromBytes, Power256;
    if b == [] {
      assert a + b == a;
      NoBytes();
    } else {
      var c, last := b[..|b| - 1], b[|b| - 1];
      FromBytesConcat(a, c);
      assert (a + b)[..|a + b| - 1] == a + c;
      Rescale(FromBytes(a), Power256(|c|), FromBytes(c), last);
      LastByte(a + b);
      LastByte(b);
    }
  }

  lemma NoBytes()
    ensures FromBytes([]) == 0 && Power256(0) == 1
  {
  }

  lemma LastByte(b: seq<byte>)
    requires b != []
    ensures FromBytes(b) == FromBytes(b[..|b| - 1]) * 256 + b[|b| - 1]
    ensures Power256(|b|) == 256 * Power256(|b| - 1)
  {
  }

  lemma Rescale(x: nat, p: nat, c: nat, last: byte)
    ensures (x * p + c) * 256 + last == x * (256 * p) + (c * 256 + last)
    ensures c < p ==> c * 256 + last < 256 * p
  {
  }

  lemma DivideTop(x: nat, p: nat, y: nat)
    requires y < p
    ensures (x * p + y) / p == x
  {
    var q := (x * p + y) / p;
    assert q * p <= x * p + y < q * p + p;
    MulOrder(q + 1, x, p);
    MulOrder(x + 1, q, p);
  }

  lemma FourBytes(b: seq<byte>)
    requires |b| == 4
    ensures FromBytes(b) == Horner(b[0], b[1], b[2], b[3]) < TWO_TO_32
  {
    assert b[..3][..2] == b[..2] && b[..2][..1] == b[..1] && b[..1][..0] == [];
    assert FromBytes(b[..1]) == b[0];
    assert FromBytes(b[..2]) == FromBytes(b[..1]) * 256 + b[1];
    assert FromBytes(b[..3]) == FromBytes(b[..2]) * 256 + b[2];
  }

  /** The first four of 32 big-endian bytes are the value's top 32 bits. */
  lemma TopFourBytes(padded: seq<byte>)
    requires |padded| == 32
    ensures 0 <= FromBytes(padded) / TWO_TO_224 < TWO_TO_32
    ensures padded[0..4] == BigEndian(FromBytes(padded) / TWO_TO_224)
  {
    hide FromBytes, BigEndian;
    Powers();
    var top, low := padded[..4], padded[4..];
    assert padded == top + low;
    FromBytesConcat(top, low);
    DivideTop(FromBytes(top), TWO_TO_224, FromBytes(low));
    FourBytes(top);
    BigEndianOf(top);
  }

  lemma BigEndianOf(b: seq<byte>)
    requires |b| == 4
    ensures 0 <= Horner(b[0], b[1], b[2], b[3]) < TWO_TO_32
    ensures BigEndian(Horner(b[0], b[1], b[2], b[3])) == b
  {
    var b0: int, b1: int, b2: int := b[0], b[1], b[2];
    Digits256(b0, b[1]);
    Digits256(b0 * 256 + b1, b[2]);
    Digits256((b0 * 256 + b1) * 256 + b2, b[3]);
  }

  lemma ReverseFour(n: uint32)
    ensures Reverse(BigEndian(n)) == LittleEndian(n)
  {
    var b := BigEndian(n);
    forall k | 0 <= k < 4
      ensures Reverse(b)[k] == LittleEndian(n)[k]
    {
      ReverseAt(b, k);
    }
  }

  // ------------------------------------------------------------------------------------------
  // Soundness of the target

  /** n / a >= b, a * b <= n and n / b >= a say the same. */
  lemma QuotientSwap(n: nat, a: nat, b: nat)
    requires a > 0 && b > 0
    ensures n / a >= b <==> a <= n / b
  {
    QuotientTimes(n, a, b);
    QuotientTimes(n, b, a);
  }

  lemma QuotientTimes(n: nat, a: nat, b: nat)
    requires a > 0
    ensures n / a >= b <==> b * a <= n
  {
    var q := n / a;
    assert q * a <= n < q * a + a;
    MulOrder(b, q, a);
    MulOrder(q + 1, b, a);
  }

  /** A hash reaches a difficulty exactly when its value is at most the exact target. */
  lemma DifficultyIsTarget(hash: seq<byte>, diff: nat)
    requires diff >= 1 && HashValue(hash) != 0
    ensures HashDifficulty(hash).value >= diff <==> HashValue(hash) <= DIFF_1 / diff
  {
    hide HashValue;
    QuotientSwap(DIFF_1, HashValue(hash), diff);
  }

  /** The word that a miner compares with its target: the top 32 bits of a 32-byte hash. */
  function TopWord(hash: seq<byte>): nat
    requires |hash| == 32
  {
    FromLittleEndian(hash[28..])
  }

  lemma TopWordIsQuotient(hash: seq<byte>)
    requires |hash| == 32
    ensures TopWord(hash) == HashValue(hash) / TWO_TO_224
  {
    hide FromBytes, HashValue, Reverse;
    var r := Reverse(hash);
    ReversedValue(hash);
    TopFourBytes(r);
    forall k | 0 <= k < 4
      ensures r[k] == hash[31 - k]
    {
      ReverseAt(hash, k);
    }
    FourBytes(r[..4]);
    var top, low := r[..4], r[4..];
    assert r == top + low;
    Powers();
    FromBytesConcat(top, low);
    DivideTop(FromBytes(top), TWO_TO_224, FromBytes(low));
  }

  /** A miner that submits every hash below the advertised word submits only acceptable shares,
      and no acceptable hash has a word above it: only hashes with exactly that word are in
      doubt. */
  lemma TargetSoundness(hash: seq<byte>, diff: nat)
    requires |hash| == 32 && HashValue(hash) != 0 && diff >= 1
    ensures TopWord(hash) < TargetWord(diff) ==> HashDifficulty(hash).value >= diff
    ensures HashDifficulty(hash).value >= diff ==> TopWord(hash) <= TargetWord(diff)
  {
    hide HashValue, TopWord, HashDifficulty;
    DifficultyIsTarget(hash, diff);
    TopWordIsQuotient(hash);
    WordOrder(HashValue(hash), DIFF_1 / diff);
  }

  lemma WordOrder(v: nat, target: nat)
    ensures v / TWO_TO_224 < target / TWO_TO_224 ==> v <= target
    ensures v <= target ==> v / TWO_TO_224 <= target / TWO_TO_224
  {
  }

  // ------------------------------------------------------------------------------------------
  // Examples

  /** The two targets of the repository's test (util/util_test.go:9-21), and a hash that is too short
      to have a difficulty (util/util_test.go:41-50). */
  lemma TargetExamples()
    ensures Encode(LittleEndian(TargetWord(500))) == "6e128300"
    ensures Encode(LittleEndian(TargetWord(15000))) == "7b5e0400"
    ensures HashDifficulty([]).None? && HashDifficulty([2, 1]) == Some(DIFF_1 / 258)
  {
    hide TargetWord, Encode, LittleEndian, HashValue;
    ExampleWords();
    FourText([0x6e, 0x12, 0x83, 0], "6e128300");
    FourText([0x7b, 0x5e, 4, 0], "7b5e0400");
    ShortHashes();
  }

  lemma ExampleWords()
    ensures TargetWord(500) == 0x83126e && LittleEndian(0x83126e) == [0x6e, 0x12, 0x83, 0]
    ensures TargetWord(15000) == 0x45e7b && LittleEndian(0x45e7b) == [0x7b, 0x5e, 4, 0]
  {
  }

  lemma ShortHashes()
    ensures HashValue([]) == 0 && HashValue([2, 1]) == 258
  {
    assert [2, 1][1..] == [1] && [1][1..] == [];
    assert HashValue([1]) == 1;
  }

  lemma FourText(b: seq<byte>, text: string)
    requires |b| == 4 && |text| == 8
    requires text[..2] == EncodeByte(b[0]) && text[2..4] == EncodeByte(b[1])
    requires text[4..6] == EncodeByte(b[2]) && text[6..] == EncodeByte(b[3])
    ensures Encode(b) == text
  {
    hide EncodeByte, Encode;
    EncodesFour(b);
  }

  lemma EncodesFour(b: seq<byte>)
    requires |b| == 4
    ensures Encode(b) == EncodeByte(b[0]) + EncodeByte(b[1]) + EncodeByte(b[2]) + EncodeByte(b[3])
  {
    assert b[1..][1..][1..] == [b[3]] && b[1..][1..] == [b[2], b[3]] && b[1..] == [b[1], b[2], b[3]];
    assert Encode([b[3]]) == EncodeByte(b[3]);
    assert Encode([b[2], b[3]]) == EncodeByte(b[2]) + EncodeByte(b[3]);
  }
}
