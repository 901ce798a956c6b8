/** The block template's wire format (blocktemplate/block.go, blocktemplate/transaction.go,
    blocktemplate/serialize.go:9-68): a printer, a parser with the reader's short-read rule, the
    round trip between them, and the exact inputs on which re-printing gives back the bytes. */
module BlockCodec {
  import opened Common
  import opened Hex
  import opened VarInt

  const HASH_SIZE: nat := 32
  const PUB_KEY_SIZE: nat := 33
  const TWO_TO_63: int := 0x8000_0000_0000_0000

  datatype BlockHeader = BlockHeader(
    majorVersion: byte, minorVersion: byte, timestamp: uint64, prevId: seq<byte>, nonce: uint32)

  /** The height field also holds the input's leading 0xff tag, as the low bits of the varint. */
  datatype TxInGen = TxInGen(height: uint32)

  /** The key field is 33 bytes: a tag and a 32-byte key. */
  datatype TxOutGen = TxOutGen(amount: uint64, pubKey: seq<byte>, viewTag: byte)

  datatype MinerTransaction = MinerTransaction(
    version: uint64, unlockTime: uint64, vin: seq<TxInGen>, vout: seq<TxOutGen>, extra: seq<byte>, rctSigType: byte)

  datatype Block = Block(header: BlockHeader, minerTx: MinerTransaction, txHashes: seq<seq<byte>>)

  /** What the Go types guarantee: array sizes, and slice lengths that fit an int. */
  ghost predicate ValidHeader(h: BlockHeader) {
    |h.prevId| == HASH_SIZE
  }

  ghost predicate ValidOut(o: TxOutGen) {
    |o.pubKey| == PUB_KEY_SIZE
  }

  ghost predicate ValidHash(h: seq<byte>) {
    |h| == HASH_SIZE
  }

  ghost predicate ValidTx(t: MinerTransaction) {
    && |t.vin| < TWO_TO_63 && |t.vout| < TWO_TO_63 && |t.extra| < TWO_TO_63
    && forall i | 0 <= i < |t.vout| :: ValidOut(t.vout[i])
  }

  ghost predicate ValidBlock(b: Block) {
    && ValidHeader(b.header) && ValidTx(b.minerTx)
    && |b.txHashes| < TWO_TO_63 && forall i | 0 <= i < |b.txHashes| :: ValidHash(b.txHashes[i])
  }

  // ------------------------------------------------------------------------------------------
  // Printing

  function PackHeader(h: BlockHeader): seq<byte> {
    Pack(h.majorVersion) + Pack(h.minorVersion) + Pack(h.timestamp) + h.prevId + LittleEndian(h.nonce)
  }

  function PackIn(i: TxInGen): seq<byte> {
    Pack(i.height)
  }

  function PackOut(o: TxOutGen): seq<byte> {
    Pack(o.amount) + o.pubKey + [o.viewTag]
  }

  function PackHash(h: seq<byte>): seq<byte> {
    h
  }

  function PackAll<T>(pack: T -> seq<byte>, list: seq<T>): seq<byte> {
    if list == [] then [] else pack(list[0]) + PackAll(pack, list[1..])
  }

  /** A count, then the elements. */
  function PackList<T>(pack: T -> seq<byte>, list: seq<T>): seq<byte> {
    Pack(|list|) + PackAll(pack, list)
  }

  function PackExtra(extra: seq<byte>): seq<byte> {
    Pack(|extra|) + extra
  }

  function PackTx(t: MinerTransaction): seq<byte> {
    Pack(t.version) + Pack(t.unlockTime) + PackList(PackIn, t.vin) + PackList(PackOut, t.vout)
    + PackExtra(t.extra) + Pack(t.rctSigType)
  }

  function PackBlock(b: Block): seq<byte> {
    PackHeader(b.header) + PackTx(b.minerTx) + PackList(PackHash, b.txHashes)
  }

  // ------------------------------------------------------------------------------------------
  // Parsing

  function ParseU32(s: seq<byte>): Parsed<uint32> {
    var (b, s) :- ReadBytes(s, 4);
    Done(FromLittleEndian(b), s)
  }

  function ParseHeader(s: seq<byte>): Parsed<BlockHeader> {
    var (majorVersion, s) :- ParseUint(s, 256);
    var (minorVersion, s) :- ParseUint(s, 256);
    var (timestamp, s) :- ParseUint(s, TWO_TO_64);
    var (prevId, s) :- ReadBytes(s, HASH_SIZE);
    var (nonce, s) :- ParseU32(s);
    Done(BlockHeader(majorVersion, minorVersion, timestamp, prevId, nonce), s)
  }

  function ParseIn(s: seq<byte>): Parsed<TxInGen> {
    var (height, s) :- ParseUint(s, TWO_TO_32);
    Done(TxInGen(height), s)
  }

  function ParseOut(s: seq<byte>): Parsed<TxOutGen> {
    var (amount, s) :- ParseUint(s, TWO_TO_64);
    var (pubKey, s) :- ReadBytes(s, PUB_KEY_SIZE);
    var (tag, s) :- ReadBytes(s, 1);
    Done(TxOutGen(amount, pubKey, tag[0]), s)
  }

  function ParseHash(s: seq<byte>): Parsed<seq<byte>> {
    ReadBytes(s, HASH_SIZE)
  }

  function ParseAll<T>(parse: seq<byte> -> Parsed<T>, n: nat, s: seq<byte>): Parsed<seq<T>> {
    if n == 0 then Done([], s)
    else
      var (x, s) :- parse(s);
      var (xs, s) :- ParseAll(parse, n - 1, s);
      Done([x] + xs, s)
  }

  /** A count that does not fit an int makes the allocation panic. */
  function ParseCount(s: seq<byte>): Parsed<nat> {
    var (n, s) :- ParseUint(s, TWO_TO_64);
    if n < TWO_TO_63 then Done(n, s) else Fail
  }

  function ParseList<T>(parse: seq<byte> -> Parsed<T>, s: seq<byte>): Parsed<seq<T>> {
    var (n, s) :- ParseCount(s);
    ParseAll(parse, n, s)
  }

  function ParseExtra(s: seq<byte>): Parsed<seq<byte>> {
    var (n, s) :- ParseCount(s);
    ReadBytes(s, n)
  }

  function ParseTx(s: seq<byte>): Parsed<MinerTransaction> {
    var (version, s) :- ParseUint(s, TWO_TO_64);
    var (unlockTime, s) :- ParseUint(s, TWO_TO_64);
    var (vin, s) :- ParseList(ParseIn, s);
    var (vout, s) :- ParseList(ParseOut, s);
    var (extra, s) :- ParseExtra(s);
    var (rctSigType, s) :- ParseUint(s, 256);
    Done(MinerTransaction(version, unlockTime, vin, vout, extra, rctSigType), s)
  }

  function ParseBlock(s: seq<byte>): Parsed<Block> {
    var (header, s) :- ParseHeader(s);
    var (minerTx, s) :- ParseTx(s);
    var (txHashes, s) :- ParseList(ParseHash, s);
    Done(Block(header, minerTx, txHashes), s)
  }

  // ------------------------------------------------------------------------------------------
  // Round trip

  lemma HeaderRoundTrip(h: BlockHeader, rest: seq<byte>)
    requires ValidHeader(h)
    ensures ParseHeader(PackHeader(h) + rest) == Done(h, rest)
  {
    hide Pack, ParseUint, ReadBytes, FromLittleEndian, LittleEndian;
    var n := LittleEndian(h.nonce);
    var r4 := n + rest;
    var r3 := h.prevId + r4;
    var r2 := Pack(h.timestamp) + r3;
    var r1 := Pack(h.minorVersion) + r2;
    assert PackHeader(h) + rest == Pack(h.majorVersion) + r1;
    UintRoundTrip(h.majorVersion, 256, r1);
    UintRoundTrip(h.minorVersion, 256, r2);
    UintRoundTrip(h.timestamp, TWO_TO_64, r3);
    ReadBytesRoundTrip(h.prevId, r4);
    ReadBytesRoundTrip(n, rest);
    LittleEndianRoundTrip(h.nonce);
  }

  lemma InRoundTrip(i: TxInGen, rest: seq<byte>)
    ensures ParseIn(PackIn(i) + rest) == Done(i, rest)
  {
    hide Pack, ParseUint;
    UintRoundTrip(i.height, TWO_TO_32, rest);
  }

  lemma OutRoundTrip(o: TxOutGen, rest: seq<byte>)
    requires ValidOut(o)
    ensures ParseOut(PackOut(o) + rest) == Done(o, rest)
  {
    hide Pack, ParseUint, ReadBytes;
    var r2 := [o.viewTag] + rest;
    var r1 := o.pubKey + r2;
    assert PackOut(o) + rest == Pack(o.amount) + r1;
    UintRoundTrip(o.amount, TWO_TO_64, r1);
    ReadBytesRoundTrip(o.pubKey, r2);
    ReadBytesRoundTrip([o.viewTag], rest);
  }

  lemma HashRoundTrip(h: seq<byte>, rest: seq<byte>)
    requires ValidHash(h)
    ensures ParseHash(PackHash(h) + rest) == Done(h, rest)
  {
    ReadBytesRoundTrip(h, rest);
  }

  ghost predicate Survives<T>(pack: T -> seq<byte>, parse: seq<byte> -> Parsed<T>, x: T) {
    forall rest :: parse(pack(x) + rest) == Done(x, rest)
  }

  lemma {:induction false} AllRoundTrip<T>(pack: T -> seq<byte>, parse: seq<byte> -> Parsed<T>, list: seq<T>,
                                           rest: seq<byte>)
    requires forall i | 0 <= i < |list| :: Survives(pack, parse, list[i])
    ensures ParseAll(parse, |list|, PackAll(pack, list) + rest) == Done(list, rest)
    decreases |list|
  {
    if list == [] {
      assert PackAll(pack, list) + rest == rest;
    } else {
      var r := PackAll(pack, list[1..]) + rest;
      assert Survives(pack, parse, list[0]);
      assert PackAll(pack, list) + rest == pack(list[0]) + r;
      AllRoundTrip(pack, parse, list[1..], rest);
      assert list == [list[0]] + list[1..];
    }
  }

  lemma ListRoundTrip<T>(pack: T -> seq<byte>, parse: seq<byte> -> Parsed<T>, list: seq<T>, rest: seq<byte>)
    requires |list| < TWO_TO_63 && forall i | 0 <= i < |list| :: Survives(pack, parse, list[i])
    ensures ParseList(parse, PackList(pack, list) + rest) == Done(list, rest)
  {
    hide Pack, ParseUint, PackAll, ParseAll, Survives;
    var r := PackAll(pack, list) + rest;
    assert PackList(pack, list) + rest == Pack(|list|) + r;
    UintRoundTrip(|list|, TWO_TO_64, r);
    AllRoundTrip(pack, parse, list, rest);
  }

  lemma ExtraRoundTrip(extra: seq<byte>, rest: seq<byte>)
    requires |extra| < TWO_TO_63
    ensures ParseExtra(PackExtra(extra) + rest) == Done(extra, rest)
  {
    hide Pack, ParseUint, ReadBytes;
    assert PackExtra(extra) + rest == Pack(|extra|) + (extra + rest);
    UintRoundTrip(|extra|, TWO_TO_64, extra + rest);
    ReadBytesRoundTrip(extra, rest);
  }

  lemma TxRoundTrip(t: MinerTransaction, rest: seq<byte>)
    requires ValidTx(t)
    ensures ParseTx(PackTx(t) + rest) == Done(t, rest)
  {
    hide Pack, ParseUint, PackList, ParseList, PackExtra, ParseExtra, PackIn, PackOut, ParseIn, ParseOut;
    var r5 := Pack(t.rctSigType) + rest;
    var r4 := PackExtra(t.extra) + r5;
    var r3 := PackList(PackOut, t.vout) + r4;
    var r2 := PackList(PackIn, t.vin) + r3;
    var r1 := Pack(t.unlockTime) + r2;
    assert PackTx(t) + rest == Pack(t.version) + r1;
    UintRoundTrip(t.version, TWO_TO_64, r1);
    UintRoundTrip(t.unlockTime, TWO_TO_64, r2);
    forall i | 0 <= i < |t.vin|
      ensures Survives(PackIn, ParseIn, t.vin[i])
    {
      forall s
        ensures ParseIn(PackIn(t.vin[i]) + s) == Done(t.vin[i], s)
      {
        InRoundTrip(t.vin[i], s);
      }
    }
    ListRoundTrip(PackIn, ParseIn, t.vin, r3);
    forall i | 0 <= i < |t.vout|
      ensures Survives(PackOut, ParseOut, t.vout[i])
    {
      forall s
        ensures ParseOut(PackOut(t.vout[i]) + s) == Done(t.vout[i], s)
      {
        OutRoundTrip(t.vout[i], s);
      }
    }
    ListRoundTrip(PackOut, ParseOut, t.vout, r4);
    ExtraRoundTrip(t.extra, r5);
    UintRoundTrip(t.rctSigType, 256, rest);
  }

  /** Every block, with any number of inputs, outputs, extra bytes and hashes, is read back from
      what was written for it, and exactly what follows it is left. */
  lemma BlockRoundTrip(b: Block, rest: seq<byte>)
    requires ValidBlock(b)
    ensures ParseBlock(PackBlock(b) + rest) == Done(b, rest)
  {
    hide PackHeader, ParseHeader, PackTx, ParseTx, PackList, ParseList, PackHash, ParseHash, ValidTx, ValidHeader;
    var r2 := PackList(PackHash, b.txHashes) + rest;
    var r1 := PackTx(b.minerTx) + r2;
    assert PackBlock(b) + rest == PackHeader(b.header) + r1;
    HeaderRoundTrip(b.header, r1);
    TxRoundTrip(b.minerTx, r2);
    forall i | 0 <= i < |b.txHashes|
      ensures Survives(PackHash, ParseHash, b.txHashes[i])
    {
      forall s
        ensures ParseHash(PackHash(b.txHashes[i]) + s) == Done(b.txHashes[i], s)
      {
        HashRoundTrip(b.txHashes[i], s);
      }
    }
    ListRoundTrip(PackHash, ParseHash, b.txHashes, rest);
  }

  /** Different blocks are written differently. */
  lemma PackInjective(a: Block, b: Block)
    requires ValidBlock(a) && ValidBlock(b) && PackBlock(a) == PackBlock(b)
    ensures a == b
  {
    hide PackBlock, ParseBlock, ValidBlock;
    BlockRoundTrip(a, []);
    BlockRoundTrip(b, []);
  }

  // ------------------------------------------------------------------------------------------
  // Re-printing what was parsed

  /** The read is not cut short. */
  predicate Full(s: seq<byte>, n: nat) {
    n <= |s|
  }

  lemma FullRepacks(s: seq<byte>, n: nat)
    requires Full(s, n)
    ensures ReadBytes(s, n).Done? && ReadBytes(s, n).value + ReadBytes(s, n).rest == s
  {
    if s != [] {
      assert s[..n] + Zeros(0) == s[..n];
    }
  }

  ghost predicate ExactHeader(s: seq<byte>) {
    Exact(s, 256) && (
      var s := ParseUint(s, 256).rest;
      Exact(s, 256) && (
        var s := ParseUint(s, 256).rest;
        Exact(s, TWO_TO_64) && (
          var s := ParseUint(s, TWO_TO_64).rest;
          Full(s, HASH_SIZE) && Full(ReadBytes(s, HASH_SIZE).rest, 4))))
  }

  ghost predicate ExactIn(s: seq<byte>) {
    Exact(s, TWO_TO_32)
  }

  ghost predicate ExactOut(s: seq<byte>) {
    && Exact(s, TWO_TO_64)
    && Full(ParseUint(s, TWO_TO_64).rest, PUB_KEY_SIZE + 1)
  }

  ghost predicate ExactHash(s: seq<byte>) {
    Full(s, HASH_SIZE)
  }

  ghost predicate ExactAll<T(!new)>(parse: seq<byte> -> Parsed<T>, exact: seq<byte> -> bool, n: nat, s: seq<byte>) {
    n == 0 || (exact(s) && parse(s).Done? && ExactAll(parse, exact, n - 1, parse(s).rest))
  }

  ghost predicate ExactList<T(!new)>(parse: seq<byte> -> Parsed<T>, exact: seq<byte> -> bool, s: seq<byte>) {
    && Exact(s, TWO_TO_63)
    && ExactAll(parse, exact, ParseUint(s, TWO_TO_64).value, ParseUint(s, TWO_TO_64).rest)
  }

  ghost predicate ExactExtra(s: seq<byte>) {
    Exact(s, TWO_TO_63) && Full(ParseUint(s, TWO_TO_64).rest, ParseUint(s, TWO_TO_64).value)
  }

  ghost predicate ExactTx(s: seq<byte>) {
    Exact(s, TWO_TO_64) && (
      var s := ParseUint(s, TWO_TO_64).rest;
      Exact(s, TWO_TO_64) && (
        var s := ParseUint(s, TWO_TO_64).rest;
        ExactList(ParseIn, ExactIn, s) && ParseList(ParseIn, s).Done? && (
          var s := ParseList(ParseIn, s).rest;
          ExactList(ParseOut, ExactOut, s) && ParseList(ParseOut, s).Done? && (
            var s := ParseList(ParseOut, s).rest;
            ExactExtra(s) && ParseExtra(s).Done? && Exact(ParseExtra(s).rest, 256)))))
  }

  /** Every varint on the way is minimal and fits its field, and no read is cut short. */
  ghost predicate ExactBlock(s: seq<byte>) {
    ExactHeader(s) && ParseHeader(s).Done? && (
      var s := ParseHeader(s).rest;
      ExactTx(s) && ParseTx(s).Done? && ExactList(ParseHash, ExactHash, ParseTx(s).rest))
  }

  lemma HeaderRepacks(s: seq<byte>)
    requires ExactHeader(s)
    ensures ParseHeader(s).Done? && PackHeader(ParseHeader(s).value) + ParseHeader(s).rest == s
  {
    hide Pack, ParseUint, ReadBytes, Exact, FromLittleEndian, LittleEndian;
    ExactRepacks(s, 256);
    var s1 := ParseUint(s, 256).rest;
    ExactRepacks(s1, 256);
    var s2 := ParseUint(s1, 256).rest;
    ExactRepacks(s2, TWO_TO_64);
    var s3 := ParseUint(s2, TWO_TO_64).rest;
    FullRepacks(s3, HASH_SIZE);
    var s4 := ReadBytes(s3, HASH_SIZE).rest;
    FullRepacks(s4, 4);
    FromLittleEndianRoundTrip(ReadBytes(s4, 4).value);
    var h := ParseHeader(s).value;
    var r := ParseHeader(s).rest;
    Regroup5(Pack(h.majorVersion), Pack(h.minorVersion), Pack(h.timestamp), h.prevId, LittleEndian(h.nonce), r);
  }

  lemma Regroup5(a: seq<byte>, b: seq<byte>, c: seq<byte>, d: seq<byte>, e: seq<byte>, r: seq<byte>)
    ensures a + b + c + d + e + r == a + (b + (c + (d + (e + r))))
  {
  }

  lemma InRepacks(s: seq<byte>)
    requires ExactIn(s)
    ensures ParseIn(s).Done? && PackIn(ParseIn(s).value) + ParseIn(s).rest == s
  {
    hide Pack, ParseUint, Exact;
    ExactRepacks(s, TWO_TO_32);
  }

  lemma OutRepacks(s: seq<byte>)
    requires ExactOut(s)
    ensures ParseOut(s).Done? && PackOut(ParseOut(s).value) + ParseOut(s).rest == s
  {
    hide Pack, ParseUint, Exact;
    ExactRepacks(s, TWO_TO_64);
    var s1 := ParseUint(s, TWO_TO_64).rest;
    FullRepacks(s1, PUB_KEY_SIZE);
    var s2 := ReadBytes(s1, PUB_KEY_SIZE).rest;
    FullRepacks(s2, 1);
    var o := ParseOut(s).value;
    assert [o.viewTag] == ReadBytes(s2, 1).value;
    assert Pack(o.amount) + o.pubKey + [o.viewTag] + ParseOut(s).rest
        == Pack(o.amount) + (o.pubKey + ([o.viewTag] + ParseOut(s).rest));
  }

  lemma HashRepacks(s: seq<byte>)
    requires ExactHash(s)
    ensures ParseHash(s).Done? && PackHash(ParseHash(s).value) + ParseHash(s).rest == s
  {
    FullRepacks(s, HASH_SIZE);
  }

  ghost predicate Repacks<T(!new)>(pack: T -> seq<byte>, parse: seq<byte> -> Parsed<T>, exact: seq<byte> -> bool) {
    forall s :: exact(s) ==> parse(s).Done? && pack(parse(s).value) + parse(s).rest == s
  }

  lemma {:induction false} AllRepacks<T(!new)>(pack: T -> seq<byte>, parse: seq<byte> -> Parsed<T>,
                                               exact: seq<byte> -> bool, n: nat, s: seq<byte>)
    requires Repacks(pack, parse, exact) && ExactAll(parse, exact, n, s)
    ensures ParseAll(parse, n, s).Done? && |ParseAll(parse, n, s).value| == n
    ensures PackAll(pack, ParseAll(parse, n, s).value) + ParseAll(parse, n, s).rest == s
    decreases n
  {
    if n > 0 {
      AllRepacks(pack, parse, exact, n - 1, parse(s).rest);
      var x, p := parse(s).value, ParseAll(parse, n - 1, parse(s).rest);
      assert ([x] + p.value)[1..] == p.value;
      assert pack(x) + PackAll(pack, p.value) + p.rest == pack(x) + (PackAll(pack, p.value) + p.rest);
    }
  }

  lemma ExactCount(s: seq<byte>)
    requires Exact(s, TWO_TO_63)
    ensures ParseCount(s).Done? && ParseCount(s) == ParseUint(s, TWO_TO_64)
    ensures Pack(ParseCount(s).value) + ParseCount(s).rest == s
  {
    hide Pack;
    SmallMod(ParseRaw(s).value, TWO_TO_64);
    assert Exact(s, TWO_TO_64);
    ExactRepacks(s, TWO_TO_64);
  }

  lemma ListRepacks<T(!new)>(pack: T -> seq<byte>, parse: seq<byte> -> Parsed<T>, exact: seq<byte> -> bool,
                             s: seq<byte>)
    requires Repacks(pack, parse, exact) && ExactList(parse, exact, s)
    ensures ParseList(parse, s).Done? && PackList(pack, ParseList(parse, s).value) + ParseList(parse, s).rest == s
  {
    hide Pack, ParseUint, Exact, PackAll, ParseAll, ExactAll, Repacks, ParseCount;
    ExactCount(s);
    var n, r := ParseCount(s).value, ParseCount(s).rest;
    AllRepacks(pack, parse, exact, n, r);
    var p := ParseAll(parse, n, r);
    assert Pack(n) + PackAll(pack, p.value) + p.rest == Pack(n) + (PackAll(pack, p.value) + p.rest);
  }

  lemma ExtraRepacks(s: seq<byte>)
    requires ExactExtra(s)
    ensures ParseExtra(s).Done? && PackExtra(ParseExtra(s).value) + ParseExtra(s).rest == s
  {
    hide Pack, ParseUint, Exact, ReadBytes, ParseCount;
    ExactCount(s);
    var n, r := ParseCount(s).value, ParseCount(s).rest;
    FullRepacks(r, n);
    var p := ReadBytes(r, n);
    assert Pack(n) + p.value + p.rest == Pack(n) + (p.value + p.rest);
  }

  lemma PartsRepack()
    ensures Repacks(PackIn, ParseIn, ExactIn) && Repacks(PackOut, ParseOut, ExactOut)
    ensures Repacks(PackHash, ParseHash, ExactHash)
  {
    hide PackIn, ParseIn, ExactIn, PackOut, ParseOut, ExactOut, PackHash, ParseHash, ExactHash;
    forall s | ExactIn(s)
      ensures ParseIn(s).Done? && PackIn(ParseIn(s).value) + ParseIn(s).rest == s
    {
      InRepacks(s);
    }
    forall s | ExactOut(s)
      ensures ParseOut(s).Done? && PackOut(ParseOut(s).value) + ParseOut(s).rest == s
    {
      OutRepacks(s);
    }
    forall s | ExactHash(s)
      ensures ParseHash(s).Done? && PackHash(ParseHash(s).value) + ParseHash(s).rest == s
    {
      HashRepacks(s);
    }
  }

  lemma TxRepacks(s: seq<byte>)
    requires ExactTx(s)
    ensures ParseTx(s).Done? && PackTx(ParseTx(s).value) + ParseTx(s).rest == s
  {
    hide Pack, ParseUint, Exact, PackList, ParseList, ExactList, PackExtra, ParseExtra, ExactExtra;
    hide PackIn, ParseIn, ExactIn, PackOut, ParseOut, ExactOut, Repacks;
    PartsRepack();
    ExactRepacks(s, TWO_TO_64);
    var s1 := ParseUint(s, TWO_TO_64).rest;
    ExactRepacks(s1, TWO_TO_64);
    var s2 := ParseUint(s1, TWO_TO_64).rest;
    ListRepacks(PackIn, ParseIn, ExactIn, s2);
    var s3 := ParseList(ParseIn, s2).rest;
    ListRepacks(PackOut, ParseOut, ExactOut, s3);
    var s4 := ParseList(ParseOut, s3).rest;
    ExtraRepacks(s4);
    var s5 := ParseExtra(s4).rest;
    ExactRepacks(s5, 256);
    var t, r := ParseTx(s).value, ParseTx(s).rest;
    Regroup6(Pack(t.version), Pack(t.unlockTime), PackList(PackIn, t.vin), PackList(PackOut, t.vout),
             PackExtra(t.extra), Pack(t.rctSigType), r);
  }

  lemma Regroup6(a: seq<byte>, b: seq<byte>, c: seq<byte>, d: seq<byte>, e: seq<byte>, f: seq<byte>, r: seq<byte>)
    ensures a + b + c + d + e + f + r == a + (b + (c + (d + (e + (f + r)))))
  {
  }

  lemma ExactBlockRepacks(s: seq<byte>)
    requires ExactBlock(s)
    ensures ParseBlock(s).Done? && PackBlock(ParseBlock(s).value) + ParseBlock(s).rest == s
  {
    hide PackHeader, ParseHeader, ExactHeader, PackTx, ParseTx, ExactTx, PackList, ParseList, ExactList;
    hide PackHash, ParseHash, ExactHash, Repacks;
    PartsRepack();
    HeaderRepacks(s);
    var s1 := ParseHeader(s).rest;
    TxRepacks(s1);
    var s2 := ParseTx(s1).rest;
    ListRepacks(PackHash, ParseHash, ExactHash, s2);
    var b, r := ParseBlock(s).value, ParseBlock(s).rest;
    assert PackHeader(b.header) + PackTx(b.minerTx) + PackList(PackHash, b.txHashes) + r
        == PackHeader(b.header) + (PackTx(b.minerTx) + (PackList(PackHash, b.txHashes) + r));
  }

  // ------------------------------------------------------------------------------------------
  // What was printed is exact

  lemma PackedHeaderExact(h: BlockHeader, rest: seq<byte>)
    requires ValidHeader(h)
    ensures ExactHeader(PackHeader(h) + rest)
  {
    hide Pack, ParseUint, Exact, FromLittleEndian, LittleEndian;
    var n := LittleEndian(h.nonce);
    var r4 := n + rest;
    var r3 := h.prevId + r4;
    var r2 := Pack(h.timestamp) + r3;
    var r1 := Pack(h.minorVersion) + r2;
    assert PackHeader(h) + rest == Pack(h.majorVersion) + r1;
    PackedIsExact(h.majorVersion, 256, r1);
    UintRoundTrip(h.majorVersion, 256, r1);
    PackedIsExact(h.minorVersion, 256, r2);
    UintRoundTrip(h.minorVersion, 256, r2);
    PackedIsExact(h.timestamp, TWO_TO_64, r3);
    UintRoundTrip(h.timestamp, TWO_TO_64, r3);
    ReadBytesRoundTrip(h.prevId, r4);
  }

  lemma PackedOutExact(o: TxOutGen, rest: seq<byte>)
    requires ValidOut(o)
    ensures ExactOut(PackOut(o) + rest)
  {
    hide Pack, ParseUint, Exact;
    var r1 := o.pubKey + ([o.viewTag] + rest);
    assert PackOut(o) + rest == Pack(o.amount) + r1;
    PackedIsExact(o.amount, TWO_TO_64, r1);
    UintRoundTrip(o.amount, TWO_TO_64, r1);
  }

  ghost predicate PackedExact<T>(pack: T -> seq<byte>, parse: seq<byte> -> Parsed<T>, exact: seq<byte> -> bool, x: T) {
    forall rest :: exact(pack(x) + rest) && parse(pack(x) + rest) == Done(x, rest)
  }

  lemma {:induction false} PackedAllExact<T(!new)>(pack: T -> seq<byte>, parse: seq<byte> -> Parsed<T>,
                                                   exact: seq<byte> -> bool, list: seq<T>, rest: seq<byte>)
    requires forall i | 0 <= i < |list| :: PackedExact(pack, parse, exact, list[i])
    ensures ExactAll(parse, exact, |list|, PackAll(pack, list) + rest)
    decreases |list|
  {
    if list != [] {
      var r := PackAll(pack, list[1..]) + rest;
      assert PackedExact(pack, parse, exact, list[0]);
      assert PackAll(pack, list) + rest == pack(list[0]) + r;
      PackedAllExact(pack, parse, exact, list[1..], rest);
    }
  }

  lemma PackedListExact<T(!new)>(pack: T -> seq<byte>, parse: seq<byte> -> Parsed<T>, exact: seq<byte> -> bool,
                                 list: seq<T>, rest: seq<byte>)
    requires |list| < TWO_TO_63 && forall i | 0 <= i < |list| :: PackedExact(pack, parse, exact, list[i])
    ensures ExactList(parse, exact, PackList(pack, list) + rest)
  {
    hide Pack, ParseUint, Exact, PackAll, ExactAll, PackedExact;
    var r := PackAll(pack, list) + rest;
    assert PackList(pack, list) + rest == Pack(|list|) + r;
    PackedIsExact(|list|, TWO_TO_63, r);
    UintRoundTrip(|list|, TWO_TO_64, r);
    PackedAllExact(pack, parse, exact, list, rest);
  }

  lemma PackedExtraExact(extra: seq<byte>, rest: seq<byte>)
    requires |extra| < TWO_TO_63
    ensures ExactExtra(PackExtra(extra) + rest)
  {
    hide Pack, ParseUint, Exact;
    assert PackExtra(extra) + rest == Pack(|extra|) + (extra + rest);
    PackedIsExact(|extra|, TWO_TO_63, extra + rest);
    UintRoundTrip(|extra|, TWO_TO_64, extra + rest);
  }

  lemma InPackedExact(i: TxInGen)
    ensures PackedExact(PackIn, ParseIn, ExactIn, i)
  {
    hide Pack, ParseUint, Exact, ParseIn;
    forall s
      ensures ExactIn(PackIn(i) + s) && ParseIn(PackIn(i) + s) == Done(i, s)
    {
      PackedIsExact(i.height, TWO_TO_32, s);
      InRoundTrip(i, s);
    }
  }

  lemma OutPackedExact(o: TxOutGen)
    requires ValidOut(o)
    ensures PackedExact(PackOut, ParseOut, ExactOut, o)
  {
    hide PackOut, ParseOut, ExactOut;
    forall s
      ensures ExactOut(PackOut(o) + s) && ParseOut(PackOut(o) + s) == Done(o, s)
    {
      PackedOutExact(o, s);
      OutRoundTrip(o, s);
    }
  }

  lemma HashPackedExact(h: seq<byte>)
    requires ValidHash(h)
    ensures PackedExact(PackHash, ParseHash, ExactHash, h)
  {
    hide ParseHash;
    forall s
      ensures ExactHash(PackHash(h) + s) && ParseHash(PackHash(h) + s) == Done(h, s)
    {
      HashRoundTrip(h, s);
    }
  }

  lemma PackedTxExact(t: MinerTransaction, rest: seq<byte>)
    requires ValidTx(t)
    ensures ExactTx(PackTx(t) + rest)
  {
    hide Pack, ParseUint, Exact, PackList, ParseList, ExactList, PackExtra, ParseExtra, ExactExtra;
    hide PackIn, ParseIn, ExactIn, PackOut, ParseOut, ExactOut, PackedExact, Survives;
    var r5 := Pack(t.rctSigType) + rest;
    var r4 := PackExtra(t.extra) + r5;
    var r3 := PackList(PackOut, t.vout) + r4;
    var r2 := PackList(PackIn, t.vin) + r3;
    var r1 := Pack(t.unlockTime) + r2;
    assert PackTx(t) + rest == Pack(t.version) + r1;
    UintRoundTrip(t.version, TWO_TO_64, r1);
    PackedIsExact(t.version, TWO_TO_64, r1);
    UintRoundTrip(t.unlockTime, TWO_TO_64, r2);
    PackedIsExact(t.unlockTime, TWO_TO_64, r2);
    forall i | 0 <= i < |t.vin|
      ensures PackedExact(PackIn, ParseIn, ExactIn, t.vin[i]) && Survives(PackIn, ParseIn, t.vin[i])
    {
      InPackedExact(t.vin[i]);
      PackedSurvives(PackIn, ParseIn, ExactIn, t.vin[i]);
    }
    PackedListExact(PackIn, ParseIn, ExactIn, t.vin, r3);
    ListRoundTrip(PackIn, ParseIn, t.vin, r3);
    forall i | 0 <= i < |t.vout|
      ensures PackedExact(PackOut, ParseOut, ExactOut, t.vout[i]) && Survives(PackOut, ParseOut, t.vout[i])
    {
      OutPackedExact(t.vout[i]);
      PackedSurvives(PackOut, ParseOut, ExactOut, t.vout[i]);
    }
    PackedListExact(PackOut, ParseOut, ExactOut, t.vout, r4);
    ListRoundTrip(PackOut, ParseOut, t.vout, r4);
    PackedExtraExact(t.extra, r5);
    ExtraRoundTrip(t.extra, r5);
    PackedIsExact(t.rctSigType, 256, rest);
  }

  lemma PackedSurvives<T>(pack: T -> seq<byte>, parse: seq<byte> -> Parsed<T>, exact: seq<byte> -> bool, x: T)
    requires PackedExact(pack, parse, exact, x)
    ensures Survives(pack, parse, x)
  {
  }

  lemma PackedBlockExact(b: Block, rest: seq<byte>)
    requires ValidBlock(b)
    ensures ExactBlock(PackBlock(b) + rest)
  {
    hide PackHeader, ParseHeader, ExactHeader, PackTx, ParseTx, ExactTx, PackList, ParseList, ExactList;
    hide PackHash, ParseHash, ExactHash, ValidTx, ValidHeader, PackedExact;
    var r2 := PackList(PackHash, b.txHashes) + rest;
    var r1 := PackTx(b.minerTx) + r2;
    assert PackBlock(b) + rest == PackHeader(b.header) + r1;
    HeaderRoundTrip(b.header, r1);
    PackedHeaderExact(b.header, r1);
    TxRoundTrip(b.minerTx, r2);
    PackedTxExact(b.minerTx, r2);
    forall i | 0 <= i < |b.txHashes|
      ensures PackedExact(PackHash, ParseHash, ExactHash, b.txHashes[i])
    {
      HashPackedExact(b.txHashes[i]);
    }
    PackedListExact(PackHash, ParseHash, ExactHash, b.txHashes, rest);
  }

  // ------------------------------------------------------------------------------------------
  // What was parsed is a block

  ghost predicate Yields<T(!new)>(parse: seq<byte> -> Parsed<T>, valid: T -> bool) {
    forall s :: parse(s).Done? ==> valid(parse(s).value)
  }

  lemma {:induction false} ParsedAllValid<T(!new)>(parse: seq<byte> -> Parsed<T>, valid: T -> bool, n: nat,
                                                   s: seq<byte>)
    requires Yields(parse, valid) && ParseAll(parse, n, s).Done?
    ensures |ParseAll(parse, n, s).value| == n
    ensures forall i | 0 <= i < n :: valid(ParseAll(parse, n, s).value[i])
    decreases n
  {
    if n > 0 {
      ParsedAllValid(parse, valid, n - 1, parse(s).rest);
    }
  }

  lemma ParsedListValid<T(!new)>(parse: seq<byte> -> Parsed<T>, valid: T -> bool, s: seq<byte>)
    requires Yields(parse, valid) && ParseList(parse, s).Done?
    ensures |ParseList(parse, s).value| < TWO_TO_63
    ensures forall i | 0 <= i < |ParseList(parse, s).value| :: valid(ParseList(parse, s).value[i])
  {
    hide ParseUint, ParseAll, Yields;
    ParsedAllValid(parse, valid, ParseCount(s).value, ParseCount(s).rest);
  }

  lemma ParsedTxValid(s: seq<byte>)
    requires ParseTx(s).Done?
    ensures ValidTx(ParseTx(s).value)
  {
    hide ParseList, ParseUint, ParseIn, ParseOut, ParseCount, ReadBytes;
    var s2 := ParseUint(ParseUint(s, TWO_TO_64).rest, TWO_TO_64).rest;
    assert Yields(ParseIn, (i: TxInGen) => true);
    ParsedListValid(ParseIn, (i: TxInGen) => true, s2);
    var s3 := ParseList(ParseIn, s2).rest;
    ParsedOutsValid();
    ParsedListValid(ParseOut, (o: TxOutGen) => |o.pubKey| == PUB_KEY_SIZE, s3);
    ParsedExtraValid(ParseList(ParseOut, s3).rest);
    var t := ParseTx(s).value;
    assert forall i | 0 <= i < |t.vout| :: |t.vout[i].pubKey| == PUB_KEY_SIZE;
  }

  lemma ParsedExtraValid(s: seq<byte>)
    ensures ParseExtra(s).Done? ==> |ParseExtra(s).value| < TWO_TO_63
  {
    hide ParseUint, ReadBytes;
  }

  lemma ParsedOutsValid()
    ensures Yields(ParseOut, (o: TxOutGen) => |o.pubKey| == PUB_KEY_SIZE)
  {
    hide ParseUint;
  }

  lemma ParsedBlockValid(s: seq<byte>)
    requires ParseBlock(s).Done?
    ensures ValidBlock(ParseBlock(s).value)
  {
    hide ParseTx, ParseList, ParseUint, ParseU32, ValidTx, ParseHash;
    ParsedTxValid(ParseHeader(s).rest);
    ParsedHashesValid();
    ParsedListValid(ParseHash, (h: seq<byte>) => |h| == HASH_SIZE, ParseTx(ParseHeader(s).rest).rest);
    var b := ParseBlock(s).value;
    assert forall i | 0 <= i < |b.txHashes| :: |b.txHashes[i]| == HASH_SIZE;
  }

  lemma ParsedHashesValid()
    ensures Yields(ParseHash, (h: seq<byte>) => |h| == HASH_SIZE)
  {
  }

  /** Packing a parsed block gives back the bytes it was parsed from exactly when every varint in
      them is minimal and fits its field and no read was cut short. */
  lemma CanonicalReencoding(s: seq<byte>)
    requires ParseBlock(s).Done?
    ensures PackBlock(ParseBlock(s).value) + ParseBlock(s).rest == s <==> ExactBlock(s)
  {
    hide PackBlock, ParseBlock, ExactBlock, ValidBlock;
    if ExactBlock(s) {
      ExactBlockRepacks(s);
    }
    ParsedBlockValid(s);
    PackedBlockExact(ParseBlock(s).value, ParseBlock(s).rest);
  }
}
