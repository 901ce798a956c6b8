/** The wire format of a block, written down by itself: which bytes stand where and what they mean
    (blocktemplate/block.go:6-135, blocktemplate/transaction.go:5-168, blocktemplate/serialize.go:9-127).
    The parser is proved to read every byte string of this form, minimal or not. */
module Wire {
  import opened Common
  import opened Hex
  import opened VarInt
  import opened BlockCodec

  // ------------------------------------------------------------------------------------------
  // Unsigned LEB128

  /** Every byte but the last has its high bit set. */
  predicate IsVarInt(v: seq<byte>) {
    |v| > 0 && v[|v| - 1] < 128 && forall i | 0 <= i < |v| - 1 :: v[i] >= 128
  }

  /** Seven bits of each byte, the least significant group first. */
  function Spelled(v: seq<byte>): nat {
    if v == [] then 0 else v[0] % 128 + 128 * Spelled(v[1..])
  }

  /** What packing writes is a varint of the number it is given, without a leading zero group. */
  lemma {:induction false} PackSpells(n: nat)
    ensures IsVarInt(Pack(n)) && Spelled(Pack(n)) == n
    ensures |Pack(n)| == 1 || Pack(n)[|Pack(n)| - 1] > 0
  {
    if n < 128 {
      assert Pack(n) == [n] && [n][1..] == [];
    } else {
      PackSpells(n / 128);
      PackIsMinimal(n);
      assert Pack(n) == [n % 128 + 128] + Pack(n / 128);
      assert Pack(n)[1..] == Pack(n / 128);
    }
  }

  /** Any varint is read as the number it spells, and exactly what follows it is left. */
  lemma {:induction false} VarIntReads(v: seq<byte>, rest: seq<byte>)
    requires IsVarInt(v)
    ensures ParseRaw(v + rest) == Done(Spelled(v), rest)
  {
    var s := v + rest;
    if |v| == 1 {
      assert s[1..] == rest && v[1..] == [];
    } else {
      assert s[0] == v[0] && s[1..] == v[1..] + rest;
      VarIntReads(v[1..], rest);
    }
  }

  /** Input that ends before a varint does cannot be read. */
  lemma {:induction false} UnendedFails(v: seq<byte>)
    requires forall i | 0 <= i < |v| :: v[i] >= 128
    ensures ParseRaw(v) == Fail
  {
    if v != [] {
      UnendedFails(v[1..]);
    }
  }

  /** A read that finds too little is filled up with zeros; only one that finds nothing fails. */
  lemma ShortReads(s: seq<byte>, n: nat)
    requires |s| < n
    ensures s == [] ==> ReadBytes(s, n) == Fail
    ensures s != [] ==> ReadBytes(s, n) == Done(s + seq(n - |s|, i => 0), [])
  {
    assert s[..|s|] == s && s[|s|..] == [];
  }

  /** The examples of unsigned LEB128 in the DWARF standard. */
  lemma StandardExamples()
    ensures Pack(2) == [2] && Pack(127) == [127] && Pack(128) == [0x80, 1] && Pack(129) == [0x81, 1]
    ensures Pack(130) == [0x82, 1] && Pack(12857) == [57 + 0x80, 100]
  {
    assert Pack(1) == [1] && Pack(100) == [100];
  }

  lemma FieldReads(v: seq<byte>, bound: nat, rest: seq<byte>)
    requires IsVarInt(v) && bound > 0
    ensures ParseUint(v + rest, bound) == Done(Spelled(v) % 0x1_0000_0000_0000_0000 % bound, rest)
  {
    hide ParseRaw, Spelled;
    VarIntReads(v, rest);
  }

  // ------------------------------------------------------------------------------------------
  // Headers, inputs and outputs

  /** Two version varints, a timestamp varint, 32 bytes of the parent's id, four bytes of nonce. */
  datatype HeaderBytes = HeaderBytes(
    major: seq<byte>, minor: seq<byte>, time: seq<byte>, parent: seq<byte>, n0: byte, n1: byte, n2: byte, n3: byte)
  {
    ghost predicate WellFormed() {
      IsVarInt(major) && IsVarInt(minor) && IsVarInt(time) && |parent| == 32
    }

    function Bytes(): seq<byte> {
      major + minor + time + parent + [n0, n1, n2, n3]
    }

    function Meaning(): BlockHeader {
      BlockHeader(Spelled(major) % 0x1_0000_0000_0000_0000 % 256, Spelled(minor) % 0x1_0000_0000_0000_0000 % 256,
                  Spelled(time) % 0x1_0000_0000_0000_0000, parent,
                  n0 as int + 0x100 * n1 as int + 0x1_0000 * n2 as int + 0x100_0000 * n3 as int)
    }
  }

  lemma HeaderReads(h: HeaderBytes, rest: seq<byte>)
    requires h.WellFormed()
    ensures ParseHeader(h.Bytes() + rest) == Done(h.Meaning(), rest)
  {
    hide ParseUint, ReadBytes, FromLittleEndian, Spelled, IsVarInt;
    var n := [h.n0, h.n1, h.n2, h.n3];
    var r4 := n + rest;
    var r3 := h.parent + r4;
    var r2 := h.time + r3;
    var r1 := h.minor + r2;
    assert h.Bytes() + rest == h.major + r1;
    FieldReads(h.major, 256, r1);
    FieldReads(h.minor, 256, r2);
    FieldReads(h.time, TWO_TO_64, r3);
    ReadBytesRoundTrip(h.parent, r4);
    ReadBytesRoundTrip(n, rest);
    NonceReads(n);
  }

  lemma NonceReads(n: seq<byte>)
    requires |n| == 4
    ensures FromLittleEndian(n) as int
            == n[0] as int + 0x100 * n[1] as int + 0x1_0000 * n[2] as int + 0x100_0000 * n[3] as int
  {
  }

  /** An amount varint, a key of 33 bytes, one byte of view tag. */
  datatype OutBytes = OutBytes(amount: seq<byte>, key: seq<byte>, tag: byte)
  {
    ghost predicate WellFormed() {
      IsVarInt(amount) && |key| == 33
    }

    function Bytes(): seq<byte> {
      amount + key + [tag]
    }

    function Meaning(): TxOutGen {
      TxOutGen(Spelled(amount) % 0x1_0000_0000_0000_0000, key, tag)
    }
  }

  lemma OutReads(o: OutBytes, rest: seq<byte>)
    requires o.WellFormed()
    ensures ParseOut(o.Bytes() + rest) == Done(o.Meaning(), rest)
  {
    hide ParseUint, ReadBytes, Spelled, IsVarInt;
    var r2 := [o.tag] + rest;
    var r1 := o.key + r2;
    assert o.Bytes() + rest == o.amount + r1;
    FieldReads(o.amount, TWO_TO_64, r1);
    ReadBytesRoundTrip(o.key, r2);
    ReadBytesRoundTrip([o.tag], rest);
  }

  /** The 35 bytes of an output of 5: the amount, a key that begins with the tag 3, and a view tag. */
  lemma OutExample(rest: seq<byte>)
    ensures var zeros := seq(32, i => 0 as byte);
            ParseOut([5, 3] + zeros + [7] + rest) == Done(TxOutGen(5, [3] + zeros, 7), rest)
  {
    var zeros := seq(32, i => 0 as byte);
    var o := OutBytes([5], [3] + zeros, 7);
    assert o.Bytes() == [5, 3] + zeros + [7];
    assert Spelled([5]) == 5 by { assert [5][1..] == []; }
    OutReads(o, rest);
  }

  lemma InReads(height: seq<byte>, rest: seq<byte>)
    requires IsVarInt(height)
    ensures ParseIn(height + rest) == Done(TxInGen(Spelled(height) % 0x1_0000_0000_0000_0000 % 0x1_0000_0000), rest)
  {
    FieldReads(height, TWO_TO_32, rest);
  }

  // ------------------------------------------------------------------------------------------
  // Lists, transactions and blocks

  function Flat(pieces: seq<seq<byte>>): seq<byte> {
    if pieces == [] then [] else pieces[0] + Flat(pieces[1..])
  }

  ghost predicate ReadsAs<T>(parse: seq<byte> -> Parsed<T>, piece: seq<byte>, x: T) {
    forall rest :: parse(piece + rest) == Done(x, rest)
  }

  lemma {:induction false} PiecesRead<T>(parse: seq<byte> -> Parsed<T>, pieces: seq<seq<byte>>, xs: seq<T>,
                                         rest: seq<byte>)
    requires |pieces| == |xs| && forall i | 0 <= i < |xs| :: ReadsAs(parse, pieces[i], xs[i])
    ensures ParseAll(parse, |xs|, Flat(pieces) + rest) == Done(xs, rest)
    decreases |xs|
  {
    if xs == [] {
      assert Flat(pieces) + rest == rest;
    } else {
      assert ReadsAs(parse, pieces[0], xs[0]);
      assert Flat(pieces) + rest == pieces[0] + (Flat(pieces[1..]) + rest);
      PiecesRead(parse, pieces[1..], xs[1..], rest);
      assert xs == [xs[0]] + xs[1..];
    }
  }

  /** A count that spells how many pieces follow. */
  ghost predicate Counts(count: seq<byte>, n: nat) {
    IsVarInt(count) && Spelled(count) == n < 0x8000_0000_0000_0000
  }

  lemma CountReads(count: seq<byte>, n: nat, rest: seq<byte>)
    requires Counts(count, n)
    ensures ParseCount(count + rest) == Done(n, rest)
  {
    hide ParseUint, IsVarInt, Spelled;
    FieldReads(count, TWO_TO_64, rest);
    SmallMod(n, TWO_TO_64);
  }

  /** A count that does not fit a signed number ends the parse, whatever follows. */
  lemma CountTooLarge(count: seq<byte>, rest: seq<byte>)
    requires IsVarInt(count) && 0x8000_0000_0000_0000 <= Spelled(count) < 0x1_0000_0000_0000_0000
    ensures ParseCount(count + rest) == Fail
  {
    hide ParseUint, IsVarInt, Spelled;
    FieldReads(count, TWO_TO_64, rest);
    SmallMod(Spelled(count), TWO_TO_64);
  }

  lemma ListReads<T>(parse: seq<byte> -> Parsed<T>, count: seq<byte>, pieces: seq<seq<byte>>, xs: seq<T>,
                     rest: seq<byte>)
    requires |pieces| == |xs| && Counts(count, |xs|) && forall i | 0 <= i < |xs| :: ReadsAs(parse, pieces[i], xs[i])
    ensures ParseList(parse, count + Flat(pieces) + rest) == Done(xs, rest)
  {
    hide ParseCount, ParseAll, Flat, Counts, ReadsAs;
    assert count + Flat(pieces) + rest == count + (Flat(pieces) + rest);
    CountReads(count, |xs|, Flat(pieces) + rest);
    PiecesRead(parse, pieces, xs, rest);
  }

  lemma ExtraReads(count: seq<byte>, extra: seq<byte>, rest: seq<byte>)
    requires Counts(count, |extra|)
    ensures ParseExtra(count + extra + rest) == Done(extra, rest)
  {
    hide ParseCount, ReadBytes, Counts;
    assert count + extra + rest == count + (extra + rest);
    CountReads(count, |extra|, extra + rest);
    ReadBytesRoundTrip(extra, rest);
  }

  function OutPieces(outs: seq<OutBytes>): (pieces: seq<seq<byte>>)
    ensures |pieces| == |outs|
  {
    seq(|outs|, i requires 0 <= i < |outs| => outs[i].Bytes())
  }

  /** The miner transaction: version and unlock time, the counted heights of the inputs, the counted
      outputs, the counted extra bytes, and the type of the ring signatures. */
  datatype TxBytes = TxBytes(
    version: seq<byte>, unlockTime: seq<byte>, inCount: seq<byte>, heights: seq<seq<byte>>,
    outCount: seq<byte>, outs: seq<OutBytes>, extraCount: seq<byte>, extra: seq<byte>, rctType: seq<byte>)
  {
    ghost predicate WellFormed() {
      && IsVarInt(version) && IsVarInt(unlockTime) && IsVarInt(rctType)
      && Counts(inCount, |heights|) && Counts(outCount, |outs|) && Counts(extraCount, |extra|)
      && (forall i | 0 <= i < |heights| :: IsVarInt(heights[i]))
      && (forall i | 0 <= i < |outs| :: outs[i].WellFormed())
    }

    function Bytes(): seq<byte> {
      version + unlockTime + (inCount + Flat(heights)) + (outCount + Flat(OutPieces(outs))) + (extraCount + extra)
      + rctType
    }

    function Inputs(): (vin: seq<TxInGen>)
      ensures |vin| == |heights|
    {
      seq(|heights|, i requires 0 <= i < |heights| =>
        TxInGen(Spelled(heights[i]) % 0x1_0000_0000_0000_0000 % 0x1_0000_0000))
    }

    function Outputs(): (vout: seq<TxOutGen>)
      ensures |vout| == |outs|
    {
      seq(|outs|, i requires 0 <= i < |outs| => outs[i].Meaning())
    }

    function Meaning(): MinerTransaction {
      MinerTransaction(Spelled(version) % 0x1_0000_0000_0000_0000, Spelled(unlockTime) % 0x1_0000_0000_0000_0000,
                       Inputs(), Outputs(), extra, Spelled(rctType) % 0x1_0000_0000_0000_0000 % 256)
    }
  }

  lemma InputsRead(t: TxBytes, rest: seq<byte>)
    requires t.WellFormed()
    ensures ParseList(ParseIn, t.inCount + Flat(t.heights) + rest) == Done(t.Inputs(), rest)
  {
    hide ParseIn, ParseList, Flat, Counts, Spelled, IsVarInt, OutPieces;
    forall i | 0 <= i < |t.heights|
      ensures ReadsAs(ParseIn, t.heights[i], t.Inputs()[i])
    {
      forall after
        ensures ParseIn(t.heights[i] + after) == Done(t.Inputs()[i], after)
      {
        InReads(t.heights[i], after);
      }
    }
    ListReads(ParseIn, t.inCount, t.heights, t.Inputs(), rest);
  }

  lemma OutputsRead(t: TxBytes, rest: seq<byte>)
    requires t.WellFormed()
    ensures ParseList(ParseOut, t.outCount + Flat(OutPieces(t.outs)) + rest) == Done(t.Outputs(), rest)
  {
    hide ParseOut, ParseList, Flat, Counts, Spelled, IsVarInt;
    forall i | 0 <= i < |t.outs|
      ensures ReadsAs(ParseOut, OutPieces(t.outs)[i], t.Outputs()[i])
    {
      forall after
        ensures ParseOut(t.outs[i].Bytes() + after) == Done(t.Outputs()[i], after)
      {
        OutReads(t.outs[i], after);
      }
    }
    ListReads(ParseOut, t.outCount, OutPieces(t.outs), t.Outputs(), rest);
  }

  lemma TxReads(t: TxBytes, rest: seq<byte>)
    requires t.WellFormed()
    ensures ParseTx(t.Bytes() + rest) == Done(t.Meaning(), rest)
  {
    hide ParseUint, ParseList, ParseExtra, Flat, Counts, Spelled, IsVarInt, OutPieces, ParseIn, ParseOut;
    var r5 := t.rctType + rest;
    var r4 := t.extraCount + t.extra + r5;
    var r3 := t.outCount + Flat(OutPieces(t.outs)) + r4;
    var r2 := t.inCount + Flat(t.heights) + r3;
    var r1 := t.unlockTime + r2;
    assert t.Bytes() + rest == t.version + r1;
    FieldReads(t.version, TWO_TO_64, r1);
    FieldReads(t.unlockTime, TWO_TO_64, r2);
    InputsRead(t, r3);
    OutputsRead(t, r4);
    ExtraReads(t.extraCount, t.extra, r5);
    FieldReads(t.rctType, 256, rest);
  }

  /** A block: its header, its miner transaction, and the counted hashes, 32 bytes each. */
  datatype BlockBytes = BlockBytes(header: HeaderBytes, tx: TxBytes, hashCount: seq<byte>, hashes: seq<seq<byte>>)
  {
    ghost predicate WellFormed() {
      && header.WellFormed() && tx.WellFormed() && Counts(hashCount, |hashes|)
      && forall i | 0 <= i < |hashes| :: |hashes[i]| == 32
    }

    function Bytes(): seq<byte> {
      header.Bytes() + tx.Bytes() + (hashCount + Flat(hashes))
    }

    function Meaning(): Block {
      Block(header.Meaning(), tx.Meaning(), hashes)
    }
  }

  /** Every byte string of this form is read as what it means, and exactly what follows it is left. */
  lemma BlockReads(b: BlockBytes, rest: seq<byte>)
    requires b.WellFormed()
    ensures ParseBlock(b.Bytes() + rest) == Done(b.Meaning(), rest)
  {
    hide ParseHeader, ParseTx, ParseList, Flat, Counts, ReadBytes;
    var r2 := b.hashCount + Flat(b.hashes) + rest;
    var r1 := b.tx.Bytes() + r2;
    assert b.Bytes() + rest == b.header.Bytes() + r1;
    HeaderReads(b.header, r1);
    TxReads(b.tx, r2);
    forall i | 0 <= i < |b.hashes|
      ensures ReadsAs(ParseHash, b.hashes[i], b.hashes[i])
    {
      forall after
        ensures ParseHash(b.hashes[i] + after) == Done(b.hashes[i], after)
      {
        ReadBytesRoundTrip(b.hashes[i], after);
      }
    }
    ListReads(ParseHash, b.hashCount, b.hashes, b.hashes, rest);
  }

  // ------------------------------------------------------------------------------------------
  // What is written

  lemma {:induction false} PiecesPacked<T>(pack: T -> seq<byte>, list: seq<T>, pieces: seq<seq<byte>>)
    requires |pieces| == |list| && forall i | 0 <= i < |list| :: pieces[i] == pack(list[i])
    ensures PackAll(pack, list) == Flat(pieces)
    decreases |list|
  {
    if list != [] {
      PiecesPacked(pack, list[1..], pieces[1..]);
    }
  }

  lemma FieldSpelled(n: nat, bound: nat)
    requires n < bound <= TWO_TO_64
    ensures IsVarInt(Pack(n)) && Spelled(Pack(n)) == n && n % 0x1_0000_0000_0000_0000 % bound == n
  {
    PackSpells(n);
    SmallMod(n, TWO_TO_64);
    SmallMod(n, bound);
  }

  lemma HeaderWritten(h: BlockHeader) returns (w: HeaderBytes)
    requires ValidHeader(h)
    ensures w.WellFormed() && w.Bytes() == PackHeader(h) && w.Meaning() == h
  {
    hide Pack, Spelled, IsVarInt, LittleEndian, FromLittleEndian;
    var n := LittleEndian(h.nonce);
    LittleEndianRoundTrip(h.nonce);
    NonceReads(n);
    w := HeaderBytes(Pack(h.majorVersion), Pack(h.minorVersion), Pack(h.timestamp), h.prevId, n[0], n[1], n[2], n[3]);
    FieldSpelled(h.majorVersion, 256);
    FieldSpelled(h.minorVersion, 256);
    FieldSpelled(h.timestamp, TWO_TO_64);
    assert [n[0], n[1], n[2], n[3]] == n;
  }

  lemma InputsWritten(vin: seq<TxInGen>) returns (heights: seq<seq<byte>>)
    ensures |heights| == |vin| && Flat(heights) == PackAll(PackIn, vin)
    ensures forall i | 0 <= i < |vin| ::
              && IsVarInt(heights[i])
              && Spelled(heights[i]) % 0x1_0000_0000_0000_0000 % 0x1_0000_0000 == vin[i].height
  {
    hide Pack, Spelled, IsVarInt, PackAll, Flat;
    heights := seq(|vin|, i requires 0 <= i < |vin| => Pack(vin[i].height));
    forall i | 0 <= i < |vin|
      ensures IsVarInt(heights[i])
      ensures Spelled(heights[i]) % 0x1_0000_0000_0000_0000 % 0x1_0000_0000 == vin[i].height
    {
      FieldSpelled(vin[i].height, TWO_TO_32);
    }
    PiecesPacked(PackIn, vin, heights);
  }

  lemma OutputsWritten(vout: seq<TxOutGen>) returns (outs: seq<OutBytes>)
    requires forall i | 0 <= i < |vout| :: ValidOut(vout[i])
    ensures |outs| == |vout| && Flat(OutPieces(outs)) == PackAll(PackOut, vout)
    ensures forall i | 0 <= i < |vout| :: outs[i].WellFormed() && outs[i].Meaning() == vout[i]
  {
    hide Pack, Spelled, IsVarInt, PackAll, Flat;
    outs := seq(|vout|, i requires 0 <= i < |vout| => OutBytes(Pack(vout[i].amount), vout[i].pubKey, vout[i].viewTag));
    forall i | 0 <= i < |vout|
      ensures outs[i].WellFormed() && outs[i].Meaning() == vout[i] && outs[i].Bytes() == PackOut(vout[i])
    {
      FieldSpelled(vout[i].amount, TWO_TO_64);
    }
    PiecesPacked(PackOut, vout, OutPieces(outs));
  }

  lemma TxWritten(t: MinerTransaction) returns (w: TxBytes)
    requires ValidTx(t)
    ensures w.WellFormed() && w.Bytes() == PackTx(t) && w.Meaning() == t
  {
    hide Pack, Spelled, IsVarInt, PackAll, Flat, OutPieces;
    var heights := InputsWritten(t.vin);
    var outs := OutputsWritten(t.vout);
    w := TxBytes(Pack(t.version), Pack(t.unlockTime), Pack(|t.vin|), heights, Pack(|t.vout|), outs,
                 Pack(|t.extra|), t.extra, Pack(t.rctSigType));
    FieldSpelled(t.version, TWO_TO_64);
    FieldSpelled(t.unlockTime, TWO_TO_64);
    FieldSpelled(|t.vin|, TWO_TO_64);
    FieldSpelled(|t.vout|, TWO_TO_64);
    FieldSpelled(|t.extra|, TWO_TO_64);
    FieldSpelled(t.rctSigType, 256);
    assert w.Inputs() == t.vin && w.Outputs() == t.vout;
  }

  /** Every block is written in this form, and what is written means the block. */
  lemma BlockWritten(b: Block) returns (w: BlockBytes)
    requires ValidBlock(b)
    ensures w.WellFormed() && w.Bytes() == PackBlock(b) && w.Meaning() == b
  {
    hide Pack, Spelled, IsVarInt, PackAll, Flat, PackHeader, PackTx;
    var header := HeaderWritten(b.header);
    var tx := TxWritten(b.minerTx);
    w := BlockBytes(header, tx, Pack(|b.txHashes|), b.txHashes);
    FieldSpelled(|b.txHashes|, TWO_TO_64);
    PiecesPacked(PackHash, b.txHashes, b.txHashes);
  }
}
