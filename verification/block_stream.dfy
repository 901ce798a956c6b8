/** Pack and UnPack as the source runs them: statement by statement on a byte stream, with loops
    over inputs, outputs and hashes, filling a block in place. */
module BlockStream {
  import opened Common
  import opened Hex
  import opened VarInt
  import opened BlockCodec

  /** A stream operation did what the parser says: the same value and the same rest, or a
      failure where the parser fails. */
  ghost predicate Reads<T(!new)>(p: Parsed<T>, r: Option<T>, left: seq<byte>) {
    match p
    case Fail => r.None?
    case Done(v, rest) => r == Some(v) && left == rest
  }

  /** A parse that goes on after some elements have been read. */
  function Prepend<T>(done: seq<T>, p: Parsed<seq<T>>): Parsed<seq<T>> {
    match p
    case Fail => Fail
    case Done(more, rest) => Done(done + more, rest)
  }

  lemma OneElement<T>(parse: seq<byte> -> Parsed<T>, done: seq<T>, n: nat, s: seq<byte>)
    requires n > 0
    ensures parse(s).Fail? ==> Prepend(done, ParseAll(parse, n, s)).Fail?
    ensures parse(s).Done? ==>
              Prepend(done, ParseAll(parse, n, s)) ==
                Prepend(done + [parse(s).value], ParseAll(parse, n - 1, parse(s).rest))
  {
    if parse(s).Done? && ParseAll(parse, n - 1, parse(s).rest).Done? {
      var x, xs := parse(s).value, ParseAll(parse, n - 1, parse(s).rest).value;
      assert done + ([x] + xs) == done + [x] + xs;
    }
  }

  lemma NoElements<T>(parse: seq<byte> -> Parsed<T>, done: seq<T>, s: seq<byte>)
    ensures Prepend(done, ParseAll(parse, 0, s)) == Done(done, s)
    ensures forall p: Parsed<seq<T>> :: Prepend([], p) == p
  {
    assert done + [] == done;
    forall p: Parsed<seq<T>>
      ensures Prepend([], p) == p
    {
      if p.Done? {
        assert [] + p.value == p.value;
      }
    }
  }

  method UnPackUint(reader: Buffer, bound: nat) returns (r: Option<nat>)
    requires bound > 0
    modifies reader
    ensures Reads(ParseUint(old(reader.data), bound), r, reader.data)
    ensures r.Some? ==> r.value < bound
  {
    var v := UnPackVarInt(reader);
    r := if v.Some? then Some(v.value % bound) else None;
  }

  /** unpackU32. */
  method UnPackU32(reader: Buffer) returns (r: Option<uint32>)
    modifies reader
    ensures Reads(ParseU32(old(reader.data)), r, reader.data)
  {
    var bytes := reader.Read(4);
    r := if bytes.Some? then Some(FromLittleEndian(bytes.value)) else None;
  }

  method UnPackHeader(reader: Buffer) returns (r: Option<BlockHeader>)
    modifies reader
    ensures Reads(ParseHeader(old(reader.data)), r, reader.data)
  {
    hide ParseUint, ReadBytes, ParseU32;
    var majorVersion := UnPackUint(reader, 256);
    if majorVersion.None? { return None; }
    var minorVersion := UnPackUint(reader, 256);
    if minorVersion.None? { return None; }
    var timestamp := UnPackUint(reader, TWO_TO_64);
    if timestamp.None? { return None; }
    var prevId := reader.Read(HASH_SIZE);
    if prevId.None? { return None; }
    var nonce := UnPackU32(reader);
    if nonce.None? { return None; }
    r := Some(BlockHeader(majorVersion.value, minorVersion.value, timestamp.value, prevId.value, nonce.value));
  }

  method UnPackIn(reader: Buffer) returns (r: Option<TxInGen>)
    modifies reader
    ensures Reads(ParseIn(old(reader.data)), r, reader.data)
  {
    hide ParseUint;
    var height := UnPackUint(reader, TWO_TO_32);
    if height.None? { return None; }
    r := Some(TxInGen(height.value));
  }

  method UnPackOut(reader: Buffer) returns (r: Option<TxOutGen>)
    modifies reader
    ensures Reads(ParseOut(old(reader.data)), r, reader.data) && (r.Some? ==> |r.value.pubKey| == 33)
  {
    hide ParseUint, ReadBytes;
    var amount := UnPackUint(reader, TWO_TO_64);
    if amount.None? { return None; }
    var pubKey := reader.Read(PUB_KEY_SIZE);
    if pubKey.None? { return None; }
    var tag := reader.Read(1);
    if tag.None? { return None; }
    r := Some(TxOutGen(amount.value, pubKey.value, tag.value[0]));
  }

  /** A count that is negative as an int makes the allocation that follows panic. */
  method UnPackCount(reader: Buffer) returns (r: Option<nat>)
    modifies reader
    ensures Reads(ParseCount(old(reader.data)), r, reader.data)
  {
    hide ParseUint;
    var n := UnPackUint(reader, TWO_TO_64);
    r := if n.Some? && n.value < TWO_TO_63 then n else None;
  }

  method UnPackIns(reader: Buffer) returns (r: Option<seq<TxInGen>>)
    modifies reader
    ensures Reads(ParseList(ParseIn, old(reader.data)), r, reader.data)
  {
    hide ParseCount, ParseIn, ParseAll, Prepend;
    var n := UnPackCount(reader);
    if n.None? { return None; }
    ghost var all := reader.data;
    var vin: seq<TxInGen> := [];
    NoElements(ParseIn, [], all);
    for i := 0 to n.value
      invariant |vin| == i
      invariant Prepend(vin, ParseAll(ParseIn, n.value - i, reader.data)) == ParseAll(ParseIn, n.value, all)
    {
      OneElement(ParseIn, vin, n.value - i, reader.data);
      var x := UnPackIn(reader);
      if x.None? { return None; }
      vin := vin + [x.value];
    }
    NoElements(ParseIn, vin, reader.data);
    r := Some(vin);
  }

  method UnPackOuts(reader: Buffer) returns (r: Option<seq<TxOutGen>>)
    modifies reader
    ensures Reads(ParseList(ParseOut, old(reader.data)), r, reader.data)
  {
    hide ParseCount, ParseOut, ParseAll, Prepend;
    var n := UnPackCount(reader);
    if n.None? { return None; }
    ghost var all := reader.data;
    var vout: seq<TxOutGen> := [];
    NoElements(ParseOut, [], all);
    for i := 0 to n.value
      invariant |vout| == i
      invariant Prepend(vout, ParseAll(ParseOut, n.value - i, reader.data)) == ParseAll(ParseOut, n.value, all)
    {
      OneElement(ParseOut, vout, n.value - i, reader.data);
      var x := UnPackOut(reader);
      if x.None? { return None; }
      vout := vout + [x.value];
    }
    NoElements(ParseOut, vout, reader.data);
    r := Some(vout);
  }

  method UnPackHashes(reader: Buffer) returns (r: Option<seq<seq<byte>>>)
    modifies reader
    ensures Reads(ParseList(ParseHash, old(reader.data)), r, reader.data)
  {
    hide ParseCount, ParseAll, Prepend, ReadBytes;
    var n := UnPackCount(reader);
    if n.None? { return None; }
    ghost var all := reader.data;
    var hashes: seq<seq<byte>> := [];
    NoElements(ParseHash, [], all);
    for i := 0 to n.value
      invariant |hashes| == i
      invariant Prepend(hashes, ParseAll(ParseHash, n.value - i, reader.data)) == ParseAll(ParseHash, n.value, all)
    {
      OneElement(ParseHash, hashes, n.value - i, reader.data);
      var x := reader.Read(HASH_SIZE);
      if x.None? { return None; }
      hashes := hashes + [x.value];
    }
    NoElements(ParseHash, hashes, reader.data);
    r := Some(hashes);
  }

  method UnPackExtra(reader: Buffer) returns (r: Option<seq<byte>>)
    modifies reader
    ensures Reads(ParseExtra(old(reader.data)), r, reader.data)
  {
    hide ParseCount, ReadBytes;
    var n := UnPackCount(reader);
    if n.None? { return None; }
    r := reader.Read(n.value);
  }

  method UnPackTx(reader: Buffer) returns (r: Option<MinerTransaction>)
    modifies reader
    ensures Reads(ParseTx(old(reader.data)), r, reader.data)
  {
    hide ParseUint, ParseList, ParseExtra, ParseIn, ParseOut;
    var version := UnPackUint(reader, TWO_TO_64);
    if version.None? { return None; }
    var unlockTime := UnPackUint(reader, TWO_TO_64);
    if unlockTime.None? { return None; }
    var vin := UnPackIns(reader);
    if vin.None? { return None; }
    var vout := UnPackOuts(reader);
    if vout.None? { return None; }
    var extra := UnPackExtra(reader);
    if extra.None? { return None; }
    var rctSigType := UnPackUint(reader, 256);
    if rctSigType.None? { return None; }
    r := Some(MinerTransaction(version.value, unlockTime.value, vin.value, vout.value, extra.value, rctSigType.value));
  }

  /** BlockTemplateBlob and the Block inside it: UnPack fills the fields one after the other. */
  class BlockTemplateBlob {
    var header: BlockHeader
    var minerTx: MinerTransaction
    var txHashes: seq<seq<byte>>

    constructor ()
    {
      header := BlockHeader(0, 0, 0, Zeros(HASH_SIZE), 0);
      minerTx := MinerTransaction(0, 0, [], [], [], 0);
      txHashes := [];
    }

    function View(): Block
      reads this
    {
      Block(header, minerTx, txHashes)
    }

    method UnPack(reader: Buffer) returns (ok: bool)
      modifies this, reader
      ensures ok <==> ParseBlock(old(reader.data)).Done?
      ensures ok ==> ParseBlock(old(reader.data)) == Done(View(), reader.data)
    {
      hide ParseHeader, ParseTx, ParseList, ParseHash;
      var h := UnPackHeader(reader);
      if h.None? { return false; }
      header := h.value;
      var t := UnPackTx(reader);
      if t.None? { return false; }
      minerTx := t.value;
      var hashes := UnPackHashes(reader);
      if hashes.None? { return false; }
      txHashes := hashes.value;
      ok := true;
    }

    method Pack(writer: Buffer)
      requires ValidBlock(View())
      modifies writer
      ensures writer.data == old(writer.data) + PackBlock(View())
    {
      hide ValidTx, PackTx, PackHash, PackAll;
      ghost var start := writer.data;
      WriteHeader(writer, header);
      ghost var a := writer.data;
      WriteTx(writer, minerTx);
      ghost var b := writer.data;
      PackVarInt(writer, |txHashes|);
      NothingToPack(PackHash, txHashes);
      for i := 0 to |txHashes|
        invariant writer.data == b + VarInt.Pack(|txHashes|) + PackAll(PackHash, txHashes[..i])
      {
        PackAllSnoc(PackHash, txHashes, i);
        HashIsItself(txHashes[i]);
        writer.Write(txHashes[i]);
      }
      assert txHashes[..|txHashes|] == txHashes;
    }
  }

  lemma HashIsItself(h: seq<byte>)
    ensures PackHash(h) == h
  {
  }

  lemma {:induction false} PackAllSnoc<T>(pack: T -> seq<byte>, list: seq<T>, i: nat)
    requires i < |list|
    ensures PackAll(pack, list[..i + 1]) == PackAll(pack, list[..i]) + pack(list[i])
  {
    if i == 0 {
      assert list[..1][1..] == [];
    } else {
      PackAllSnoc(pack, list[1..], i - 1);
      assert list[..i + 1][1..] == list[1..][..i] && list[..i][1..] == list[1..][..i - 1];
    }
  }

  method WriteHeader(writer: Buffer, h: BlockHeader)
    modifies writer
    ensures writer.data == old(writer.data) + PackHeader(h)
  {
    hide Pack, LittleEndian;
    PackVarInt(writer, h.majorVersion);
    PackVarInt(writer, h.minorVersion);
    PackVarInt(writer, h.timestamp);
    writer.Write(h.prevId);
    writer.Write(LittleEndian(h.nonce));
  }

  method WriteTx(writer: Buffer, t: MinerTransaction)
    requires ValidTx(t)
    modifies writer
    ensures writer.data == old(writer.data) + PackTx(t)
  {
    hide Pack, PackAll, PackIn, PackOut;
    PackVarInt(writer, t.version);
    PackVarInt(writer, t.unlockTime);
    WriteIns(writer, t.vin);
    WriteOuts(writer, t.vout);
    PackVarInt(writer, |t.extra|);
    writer.Write(t.extra);
    PackVarInt(writer, t.rctSigType);
  }

  method WriteIns(writer: Buffer, vin: seq<TxInGen>)
    requires |vin| < TWO_TO_63
    modifies writer
    ensures writer.data == old(writer.data) + PackList(PackIn, vin)
  {
    hide Pack, PackAll;
    PackVarInt(writer, |vin|);
    ghost var a := writer.data;
    NothingToPack(PackIn, vin);
    for i := 0 to |vin|
      invariant writer.data == a + PackAll(PackIn, vin[..i])
    {
      PackAllSnoc(PackIn, vin, i);
      PackVarInt(writer, vin[i].height);
    }
    assert vin[..|vin|] == vin;
  }

  lemma NothingToPack<T>(pack: T -> seq<byte>, list: seq<T>)
    ensures PackAll(pack, list[..0]) == []
  {
  }

  method WriteOuts(writer: Buffer, vout: seq<TxOutGen>)
    requires |vout| < TWO_TO_63
    modifies writer
    ensures writer.data == old(writer.data) + PackList(PackOut, vout)
  {
    hide Pack, PackAll;
    PackVarInt(writer, |vout|);
    ghost var a := writer.data;
    NothingToPack(PackOut, vout);
    for i := 0 to |vout|
      invariant writer.data == a + PackAll(PackOut, vout[..i])
    {
      PackAllSnoc(PackOut, vout, i);
      PackVarInt(writer, vout[i].amount);
      writer.Write(vout[i].pubKey);
      writer.Write([vout[i].viewTag]);
    }
    assert vout[..|vout|] == vout;
  }
}
