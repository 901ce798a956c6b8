/** Block templates (stratum/blocks.go): accepting one from the daemon, and patching its bytes for
    jobs and shares. The patches are made at fixed places in the raw buffer; the theorems say
    what they do to the block that the buffer spells. */
module Template {
  import opened Common
  import opened Hex
  import opened VarInt
  import opened BlockCodec
  import opened BlockStream
  import opened Blocks
  import opened Unlocking
  import opened PoolRun

  datatype BlockTemplate = BlockTemplate(
    difficulty: int, height: int, reservedOffset: int, prevHash: string, buffer: seq<byte>,
    blockReward: int, txTotalFee: int, seedHash: seq<byte>)

  /** The fields of the daemon's reply that are used; `blob` and `seedHash` are hexadecimal text. */
  datatype TemplateReply = TemplateReply(
    difficulty: int, height: int, blob: string, reservedOffset: int, prevHash: string, expectedReward: int,
    seedHash: string)

  // ------------------------------------------------------------------------------------------
  // Accepting a template

  /** Whether the reply is about another tip than the current template. */
  predicate NewTip(current: Option<BlockTemplate>, reply: TemplateReply) {
    || current.None?
    || current.value.prevHash != reply.prevHash
    || (reply.prevHash == "" && reply.height > current.value.height)
  }

  /** The template a reply gives, if it is accepted. */
  ghost predicate Accepts(current: Option<BlockTemplate>, reply: TemplateReply, t: BlockTemplate) {
    && NewTip(current, reply)
    && t.difficulty == reply.difficulty && t.height == reply.height
    && t.reservedOffset == reply.reservedOffset && t.prevHash == reply.prevHash
    && t.buffer == Decode(reply.blob) && t.seedHash == Decode(reply.seedHash)
    && ParseBlock(t.buffer).Done?
    && var vout := ParseBlock(t.buffer).value.minerTx.vout;
    && vout != []
    && t.blockReward == ToInt64(vout[0].amount)
    && t.blockReward <= reply.expectedReward
    && t.txTotalFee == ToInt64(reply.expectedReward - t.blockReward)
  }

  class StratumServer {
    var blockTemplate: Option<BlockTemplate>

    constructor ()
      ensures blockTemplate == None
    {
      blockTemplate := None;
    }

    /** fetchBlockTemplate; None stands for an error from the daemon. */
    method FetchBlockTemplate(reply: Option<TemplateReply>) returns (accepted: bool)
      modifies this
      ensures accepted ==> reply.Some? && blockTemplate.Some?
      ensures accepted ==> Accepts(old(blockTemplate), reply.value, blockTemplate.value)
      ensures !accepted ==> blockTemplate == old(blockTemplate)
      ensures !accepted && reply.Some? ==> forall t :: !Accepts(old(blockTemplate), reply.value, t)
      // the same, condition by condition and field by field
      ensures accepted <==>
                && reply.Some?
                && (|| old(blockTemplate).None? || old(blockTemplate).value.prevHash != reply.value.prevHash
                    || (reply.value.prevHash == "" && reply.value.height > old(blockTemplate).value.height))
                && ParseBlock(Decode(reply.value.blob)).Done?
                && ParseBlock(Decode(reply.value.blob)).value.minerTx.vout != []
                && ToInt64(ParseBlock(Decode(reply.value.blob)).value.minerTx.vout[0].amount)
                     <= reply.value.expectedReward
      ensures accepted ==>
                var r := reply.value;
                var reward := ToInt64(ParseBlock(Decode(r.blob)).value.minerTx.vout[0].amount);
                blockTemplate == Some(BlockTemplate(r.difficulty, r.height, r.reservedOffset, r.prevHash,
                                                    Decode(r.blob), reward, ToInt64(r.expectedReward - reward),
                                                    Decode(r.seedHash)))
    {
      hide ParseBlock, Decode, ToInt64;
      if reply.None? { return false; }
      var r := reply.value;
      if blockTemplate.Some? && blockTemplate.value.prevHash == r.prevHash {
        if !(|r.prevHash| == 0 && r.height > blockTemplate.value.height) {
          return false;
        }
      }
      var buffer := Decode(r.blob);
      var blob := new BlockTemplateBlob();
      var reader := new Buffer(buffer);
      var ok := blob.UnPack(reader);
      if !ok { return false; }
      if |blob.minerTx.vout| < 1 { return false; }
      var blockReward := ToInt64(blob.minerTx.vout[0].amount);
      if r.expectedReward < blockReward { return false; }
      blockTemplate := Some(BlockTemplate(r.difficulty, r.height, r.reservedOffset, r.prevHash, buffer,
                                          blockReward, ToInt64(r.expectedReward - blockReward), Decode(r.seedHash)));
      accepted := true;
    }
  }

  /** The reward and the fees of an accepted template are non-negative, add up to the reward the
      daemon expects and fit an int64 together, whatever int64 the daemon expects, exactly when the
      first output's amount, a uint64, is below 2^63; from there on it is read as a negative reward,
      which passes the test. */
  lemma AcceptedRewardFits(current: Option<BlockTemplate>, reply: TemplateReply, t: BlockTemplate)
    requires Accepts(current, reply, t) && -MAX_INT64 - 1 <= reply.expectedReward <= MAX_INT64
    ensures RewardFits(t.blockReward, t.txTotalFee) && t.blockReward + t.txTotalFee == reply.expectedReward
            <==> ParseBlock(t.buffer).value.minerTx.vout[0].amount <= MAX_INT64
  {
    hide ParseBlock, Decode;
  }

  // ------------------------------------------------------------------------------------------
  // Patching bytes

  /** `copy(buf[at:], bytes)` where the bytes fit. */
  function Patch(buf: seq<byte>, at: nat, bytes: seq<byte>): (r: seq<byte>)
    requires at + |bytes| <= |buf|
    ensures |r| == |buf|
  {
    buf[..at] + bytes + buf[at + |bytes|..]
  }

  const NONCE_OFFSET: nat := 39

  predicate Patchable(t: BlockTemplate) {
    0 <= t.reservedOffset && t.reservedOffset + 8 <= |t.buffer| && NONCE_OFFSET + 4 <= |t.buffer|
  }

  /** The buffer that nextBlob converts for a job. */
  function JobBuffer(t: BlockTemplate, extraNonce: uint32, instanceId: seq<byte>): (buf: seq<byte>)
    requires Patchable(t) && |instanceId| == 4
    ensures |buf| == |t.buffer|
  {
    Patch(t.buffer, t.reservedOffset, BigEndian(extraNonce) + instanceId)
  }

  /** The buffer that processShare hashes and submits. */
  function ShareBuffer(t: BlockTemplate, extraNonce: uint32, instanceId: seq<byte>, nonce: seq<byte>): seq<byte>
    requires Patchable(t) && |instanceId| == 4 && |nonce| == 4
  {
    Patch(JobBuffer(t, extraNonce, instanceId), NONCE_OFFSET, nonce)
  }

  /** Go's copy into a slice that starts at `at`. */
  method Copy(dst: array<byte>, at: nat, src: seq<byte>)
    requires at + |src| <= dst.Length
    modifies dst
    ensures dst[..] == Patch(old(dst[..]), at, src)
  {
    ghost var before := dst[..];
    for i := 0 to |src|
      invariant forall j | 0 <= j < dst.Length :: dst[j] == if at <= j < at + i then src[j - at] else before[j]
    {
      dst[at + i] := src[i];
    }
    assert |before| == dst.Length;
  }

  /** nextBlob. `convert` is the foreign ConvertBlob. */
  method NextBlob(t: BlockTemplate, extraNonce: uint32, instanceId: seq<byte>, convert: seq<byte> -> seq<byte>)
    returns (blob: string)
    requires Patchable(t) && |instanceId| == 4
    ensures blob == Encode(convert(JobBuffer(t, extraNonce, instanceId)))
  {
    hide Encode, BigEndian;
    var blobBuff := new byte[|t.buffer|](_ => 0);
    Copy(blobBuff, 0, t.buffer);
    assert blobBuff[..] == t.buffer;
    Copy(blobBuff, t.reservedOffset, BigEndian(extraNonce));
    Copy(blobBuff, t.reservedOffset + 4, instanceId);
    PatchTwice(t.buffer, t.reservedOffset, BigEndian(extraNonce), instanceId);
    blob := Encode(convert(blobBuff[..]));
  }

  /** The buffer of processShare, with the nonce decoded from its hexadecimal text. */
  method BuildShareBuffer(t: BlockTemplate, extraNonce: uint32, instanceId: seq<byte>, nonce: string)
    returns (shareBuff: array<byte>)
    requires Patchable(t) && |instanceId| == 4 && |Decode(nonce)| == 4
    ensures fresh(shareBuff) && shareBuff[..] == ShareBuffer(t, extraNonce, instanceId, Decode(nonce))
  {
    hide BigEndian, Decode;
    shareBuff := new byte[|t.buffer|](_ => 0);
    Copy(shareBuff, 0, t.buffer);
    assert shareBuff[..] == t.buffer;
    Copy(shareBuff, t.reservedOffset, BigEndian(extraNonce));
    Copy(shareBuff, t.reservedOffset + 4, instanceId);
    PatchTwice(t.buffer, t.reservedOffset, BigEndian(extraNonce), instanceId);
    Copy(shareBuff, NONCE_OFFSET, Decode(nonce));
  }

  lemma PatchTwice(buf: seq<byte>, at: nat, a: seq<byte>, b: seq<byte>)
    requires at + |a| + |b| <= |buf|
    ensures Patch(Patch(buf, at, a), at + |a|, b) == Patch(buf, at, a + b)
  {
  }

  // ------------------------------------------------------------------------------------------
  // Patching is a structured update

  function VersionsAndTime(h: BlockHeader): nat {
    |Pack(h.majorVersion)| + |Pack(h.minorVersion)| + |Pack(h.timestamp)|
  }

  /** The three varints of the header take seven bytes, which puts the nonce at offset 39. */
  predicate NonceInPlace(h: BlockHeader) {
    VersionsAndTime(h) + HASH_SIZE == NONCE_OFFSET
  }

  lemma UsualHeadersFit(h: BlockHeader)
    requires h.majorVersion < 128 && h.minorVersion < 128 && 0x1000_0000 <= h.timestamp < 0x8_0000_0000
    ensures NonceInPlace(h)
  {
    hide Pack;
    OneByte(h.majorVersion);
    OneByte(h.minorVersion);
    FiveBytes(h.timestamp);
  }

  function WithNonce(b: Block, nonce: seq<byte>): Block
    requires |nonce| == 4
  {
    b.(header := b.header.(nonce := FromLittleEndian(nonce)))
  }

  lemma PatchMiddle(pre: seq<byte>, mid: seq<byte>, post: seq<byte>, bytes: seq<byte>)
    requires |bytes| == |mid|
    ensures Patch(pre + mid + post, |pre|, bytes) == pre + bytes + post
  {
  }

  /** What stands before and after the nonce in a printed block. */
  function BeforeNonce(b: Block): seq<byte> {
    Pack(b.header.majorVersion) + Pack(b.header.minorVersion) + Pack(b.header.timestamp) + b.header.prevId
  }

  function AfterNonce(b: Block): seq<byte> {
    PackTx(b.minerTx) + PackList(PackHash, b.txHashes)
  }

  lemma AroundNonce(b: Block)
    ensures PackBlock(b) == BeforeNonce(b) + LittleEndian(b.header.nonce) + AfterNonce(b)
    ensures ValidBlock(b) ==> |BeforeNonce(b)| == VersionsAndTime(b.header) + HASH_SIZE
  {
    hide Pack, LittleEndian, PackTx, PackList, ValidTx;
  }

  /** Overwriting four bytes at offset 39 of a printed block changes its nonce, and nothing else,
      whatever the bytes, exactly when the nonce is at that offset. */
  lemma NoncePatchIsExact(b: Block)
    requires ValidBlock(b) && NONCE_OFFSET + 4 <= |PackBlock(b)|
    ensures (forall nonce: seq<byte> | |nonce| == 4 ::
               Patch(PackBlock(b), NONCE_OFFSET, nonce) == PackBlock(WithNonce(b, nonce)))
            <==> NonceInPlace(b.header)
  {
    hide ValidBlock, PackBlock, BeforeNonce, AfterNonce, VersionsAndTime;
    AroundNonce(b);
    var p := BeforeNonce(b);
    if NonceInPlace(b.header) {
      forall nonce: seq<byte> | |nonce| == 4
        ensures Patch(PackBlock(b), NONCE_OFFSET, nonce) == PackBlock(WithNonce(b, nonce))
      {
        NoncePatch(b, nonce);
      }
    } else {
      var nonce := Misplaced(b);
      assert Patch(PackBlock(b), NONCE_OFFSET, nonce) != PackBlock(WithNonce(b, nonce));
    }
  }

  lemma NoncePatch(b: Block, nonce: seq<byte>)
    requires ValidBlock(b) && NonceInPlace(b.header) && |nonce| == 4
    ensures NONCE_OFFSET + 4 <= |PackBlock(b)|
    ensures Patch(PackBlock(b), NONCE_OFFSET, nonce) == PackBlock(WithNonce(b, nonce))
  {
    hide Pack, PackBlock, AfterNonce, LittleEndian, FromLittleEndian, Patch, ValidBlock;
    var c := WithNonce(b, nonce);
    AroundNonce(b);
    AroundNonce(c);
    FromLittleEndianRoundTrip(nonce);
    SameAround(b, nonce);
    PatchMiddle(BeforeNonce(b), LittleEndian(b.header.nonce), AfterNonce(b), nonce);
  }

  lemma SameAround(b: Block, nonce: seq<byte>)
    requires |nonce| == 4
    ensures var c := WithNonce(b, nonce); BeforeNonce(c) == BeforeNonce(b) && AfterNonce(c) == AfterNonce(b)
  {
    hide Pack, PackTx, PackList, FromLittleEndian;
  }

  /** With the nonce elsewhere, some byte of the patch falls outside it. */
  lemma Misplaced(b: Block) returns (nonce: seq<byte>)
    requires ValidBlock(b) && !NonceInPlace(b.header) && NONCE_OFFSET + 4 <= |PackBlock(b)|
    ensures |nonce| == 4 && Patch(PackBlock(b), NONCE_OFFSET, nonce) != PackBlock(WithNonce(b, nonce))
  {
    hide Pack, PackBlock, BeforeNonce, AfterNonce, LittleEndian, FromLittleEndian, ValidBlock;
    var at := |BeforeNonce(b)|;
    AroundNonce(b);
    var i := if at > NONCE_OFFSET then NONCE_OFFSET else NONCE_OFFSET + 3;
    var other := if PackBlock(b)[i] == 0 then 1 else 0;
    nonce := [other, other, other, other];
    AroundNonce(WithNonce(b, nonce));
    SameAround(b, nonce);
    assert PackBlock(WithNonce(b, nonce))[i] == PackBlock(b)[i];
    assert Patch(PackBlock(b), NONCE_OFFSET, nonce)[i] == other;
  }

  /** Where the extra field's bytes begin in a printed block. */
  function BeforeExtra(b: Block): seq<byte> {
    PackHeader(b.header) + (Pack(b.minerTx.version) + Pack(b.minerTx.unlockTime) + PackList(PackIn, b.minerTx.vin)
                            + PackList(PackOut, b.minerTx.vout) + Pack(|b.minerTx.extra|))
  }

  function AfterExtra(b: Block): seq<byte> {
    Pack(b.minerTx.rctSigType) + PackList(PackHash, b.txHashes)
  }

  lemma AroundExtra(b: Block)
    ensures PackBlock(b) == BeforeExtra(b) + b.minerTx.extra + AfterExtra(b)
  {
    hide Pack, PackHeader, PackList;
    var head := Pack(b.minerTx.version) + Pack(b.minerTx.unlockTime) + PackList(PackIn, b.minerTx.vin)
                + PackList(PackOut, b.minerTx.vout);
    assert PackTx(b.minerTx) == head + (Pack(|b.minerTx.extra|) + b.minerTx.extra) + Pack(b.minerTx.rctSigType);
    RegroupExtra(PackHeader(b.header), head, Pack(|b.minerTx.extra|), b.minerTx.extra, Pack(b.minerTx.rctSigType),
                 PackList(PackHash, b.txHashes));
  }

  lemma RegroupExtra(a: seq<byte>, b: seq<byte>, c: seq<byte>, d: seq<byte>, e: seq<byte>, f: seq<byte>)
    ensures a + (b + (c + d) + e) + f == a + (b + c) + d + (e + f)
  {
  }

  /** The patch lies inside the extra field. */
  predicate InExtra(b: Block, at: int, length: nat) {
    |BeforeExtra(b)| <= at && at + length <= |BeforeExtra(b)| + |b.minerTx.extra|
  }

  function WithExtra(b: Block, at: int, bytes: seq<byte>): Block
    requires InExtra(b, at, |bytes|)
  {
    b.(minerTx := b.minerTx.(extra := Patch(b.minerTx.extra, at - |BeforeExtra(b)|, bytes)))
  }

  /** Overwriting bytes inside the extra field of a printed block changes those bytes of the
      field, and nothing else. */
  lemma ExtraPatch(b: Block, at: nat, bytes: seq<byte>)
    requires InExtra(b, at, |bytes|)
    ensures at + |bytes| <= |PackBlock(b)|
    ensures Patch(PackBlock(b), at, bytes) == PackBlock(WithExtra(b, at, bytes))
  {
    hide PackBlock, BeforeExtra, AfterExtra;
    var c := WithExtra(b, at, bytes);
    AroundExtra(b);
    AroundExtra(c);
    SameAroundExtra(b, at, bytes);
    PatchInside(BeforeExtra(b), b.minerTx.extra, AfterExtra(b), at - |BeforeExtra(b)|, bytes);
  }

  lemma SameAroundExtra(b: Block, at: nat, bytes: seq<byte>)
    requires InExtra(b, at, |bytes|)
    ensures var c := WithExtra(b, at, bytes); BeforeExtra(c) == BeforeExtra(b) && AfterExtra(c) == AfterExtra(b)
  {
    hide Pack, PackHeader, PackList;
  }

  lemma PatchInside(pre: seq<byte>, mid: seq<byte>, post: seq<byte>, at: nat, bytes: seq<byte>)
    requires at + |bytes| <= |mid|
    ensures Patch(pre + mid + post, |pre| + at, bytes) == pre + Patch(mid, at, bytes) + post
  {
  }

  lemma ExtraIsAfterNonce(b: Block)
    requires ValidBlock(b) && NonceInPlace(b.header)
    ensures |BeforeExtra(b)| >= NONCE_OFFSET + 4
  {
    hide Pack, PackList, LittleEndian;
  }

  lemma WithExtraKeeps(b: Block, at: nat, bytes: seq<byte>)
    requires ValidBlock(b) && InExtra(b, at, |bytes|)
    ensures ValidBlock(WithExtra(b, at, bytes)) && WithExtra(b, at, bytes).header == b.header
  {
    hide BeforeExtra;
  }

  /** The submitted bytes of a share spell the template's block with the miner's nonce and the
      job's eight reserved bytes, and nothing else changed. */
  lemma ShareIsStructured(b: Block, t: BlockTemplate, extraNonce: uint32, instanceId: seq<byte>, nonce: seq<byte>)
    requires ValidBlock(b) && t.buffer == PackBlock(b) && |instanceId| == 4 && |nonce| == 4
    requires NonceInPlace(b.header) && InExtra(b, t.reservedOffset, 8)
    ensures var reserved := BigEndian(extraNonce) + instanceId;
            && Patchable(t)
            && ParseBlock(ShareBuffer(t, extraNonce, instanceId, nonce)) ==
                 Done(WithNonce(WithExtra(b, t.reservedOffset, reserved), nonce), [])
  {
    hide PackBlock, ParseBlock, ValidBlock, NonceInPlace, InExtra, WithExtra, BigEndian, Patch, FromLittleEndian;
    ReservedFits(b, t);
    var reserved := BigEndian(extraNonce) + instanceId;
    var c := WithExtra(b, t.reservedOffset, reserved);
    ExtraPatch(b, t.reservedOffset, reserved);
    WithExtraKeeps(b, t.reservedOffset, reserved);
    NoncePatch(c, nonce);
    var d := WithNonce(c, nonce);
    NonceKeepsValid(c, nonce);
    BlockRoundTrip(d, []);
    assert PackBlock(d) + [] == PackBlock(d);
  }

  lemma ReservedFits(b: Block, t: BlockTemplate)
    requires ValidBlock(b) && t.buffer == PackBlock(b) && NonceInPlace(b.header) && InExtra(b, t.reservedOffset, 8)
    ensures Patchable(t)
  {
    hide PackBlock, BeforeExtra, AfterExtra;
    AroundExtra(b);
    ExtraIsAfterNonce(b);
  }

  lemma NonceKeepsValid(b: Block, nonce: seq<byte>)
    requires ValidBlock(b) && |nonce| == 4
    ensures ValidBlock(WithNonce(b, nonce))
  {
    hide ValidTx, FromLittleEndian;
  }

  // ------------------------------------------------------------------------------------------
  // Different shares have different buffers

  /** The extra nonce and the nonce do not share a byte. */
  predicate Apart(t: BlockTemplate) {
    t.reservedOffset + 4 <= NONCE_OFFSET || NONCE_OFFSET + 4 <= t.reservedOffset
  }

  /** For one template and one endpoint, different (extra nonce, nonce) pairs give different
      share buffers, exactly when the two fields do not overlap. */
  lemma ShareBuffersDiffer(t: BlockTemplate, instanceId: seq<byte>)
    requires Patchable(t) && |instanceId| == 4
    ensures (forall e: uint32, f: uint32, n: seq<byte>, m: seq<byte> | |n| == 4 && |m| == 4 ::
               ShareBuffer(t, e, instanceId, n) == ShareBuffer(t, f, instanceId, m) ==> e == f && n == m)
            <==> Apart(t)
  {
    hide ShareBuffer;
    if Apart(t) {
      forall e: uint32, f: uint32, n: seq<byte>, m: seq<byte>
        | |n| == 4 && |m| == 4 && ShareBuffer(t, e, instanceId, n) == ShareBuffer(t, f, instanceId, m)
        ensures e == f && n == m
      {
        ApartDiffer(t, instanceId, e, f, n, m);
      }
    } else {
      var e: uint32, f: uint32 := Overlapping(t, instanceId);
      var n: seq<byte> := [0, 0, 0, 0];
      assert ShareBuffer(t, e, instanceId, n) == ShareBuffer(t, f, instanceId, n) && e != f && |n| == 4;
    }
  }

  lemma ApartDiffer(t: BlockTemplate, instanceId: seq<byte>, e: uint32, f: uint32, n: seq<byte>, m: seq<byte>)
    requires Patchable(t) && |instanceId| == 4 && Apart(t) && |n| == 4 && |m| == 4
    requires ShareBuffer(t, e, instanceId, n) == ShareBuffer(t, f, instanceId, m)
    ensures e == f && n == m
  {
    hide BigEndian;
    var a, b := ShareBuffer(t, e, instanceId, n), ShareBuffer(t, f, instanceId, m);
    assert a[NONCE_OFFSET..NONCE_OFFSET + 4] == n && b[NONCE_OFFSET..NONCE_OFFSET + 4] == m;
    var r := t.reservedOffset;
    PatchedFront(t.buffer, r, BigEndian(e), instanceId);
    PatchedFront(t.buffer, r, BigEndian(f), instanceId);
    PatchedAway(JobBuffer(t, e, instanceId), NONCE_OFFSET, n, r, r + 4);
    PatchedAway(JobBuffer(t, f, instanceId), NONCE_OFFSET, m, r, r + 4);
    assert a[r..r + 4] == BigEndian(e) && b[r..r + 4] == BigEndian(f);
    BigEndianInjective(e, f);
  }

  lemma PatchedFront(buf: seq<byte>, at: nat, first: seq<byte>, second: seq<byte>)
    requires at + |first| + |second| <= |buf|
    ensures Patch(buf, at, first + second)[at..at + |first|] == first
  {
  }

  lemma PatchedAway(buf: seq<byte>, at: nat, bytes: seq<byte>, lo: nat, hi: nat)
    requires at + |bytes| <= |buf| && lo <= hi <= |buf| && (hi <= at || at + |bytes| <= lo)
    ensures Patch(buf, at, bytes)[lo..hi] == buf[lo..hi]
  {
  }

  /** The number whose big-endian spelling is zero but for a 1 at place k. */
  function OneAt(k: nat): uint32
    requires k < 4
  {
    if k == 0 then 0x100_0000 else if k == 1 then 0x1_0000 else if k == 2 then 0x100 else 1
  }

  lemma OneAtIs(k: nat)
    requires k < 4
    ensures BigEndian(OneAt(k))[k] == 1 && forall i | 0 <= i < 4 && i != k :: BigEndian(OneAt(k))[i] == 0
    ensures BigEndian(0) == [0, 0, 0, 0]
  {
    assert BigEndian(0x100_0000) == [1, 0, 0, 0] && BigEndian(0x1_0000) == [0, 1, 0, 0];
    assert BigEndian(0x100) == [0, 0, 1, 0] && BigEndian(1) == [0, 0, 0, 1];
  }

  /** A share buffer byte by byte. */
  lemma ShareBufferAt(t: BlockTemplate, e: uint32, instanceId: seq<byte>, nonce: seq<byte>, p: nat)
    requires Patchable(t) && |instanceId| == 4 && |nonce| == 4 && p < |t.buffer|
    ensures |ShareBuffer(t, e, instanceId, nonce)| == |t.buffer|
    ensures ShareBuffer(t, e, instanceId, nonce)[p] ==
              var r := t.reservedOffset;
              if NONCE_OFFSET <= p < NONCE_OFFSET + 4 then nonce[p - NONCE_OFFSET]
              else if r <= p < r + 4 then BigEndian(e)[p - r]
              else if r + 4 <= p < r + 8 then instanceId[p - r - 4]
              else t.buffer[p]
  {
    hide BigEndian;
  }

  /** The issued and the submitted buffer byte by byte: the nonce at offset 39; at the reserved offset the
      extra nonce, its most significant byte first, and behind it the instance id; the rest as in the
      template. */
  lemma BufferBytes(t: BlockTemplate, e: uint32, instanceId: seq<byte>, nonce: seq<byte>, p: nat)
    requires Patchable(t) && |instanceId| == 4 && |nonce| == 4 && p < |t.buffer|
    ensures |JobBuffer(t, e, instanceId)| == |ShareBuffer(t, e, instanceId, nonce)| == |t.buffer|
    ensures ShareBuffer(t, e, instanceId, nonce)[p] ==
              if 39 <= p < 43 then nonce[p - 39] else JobBuffer(t, e, instanceId)[p]
    ensures JobBuffer(t, e, instanceId)[p] as int ==
              var at := p - t.reservedOffset;
              if at == 0 then e / 0x100_0000
              else if at == 1 then e / 0x1_0000 % 0x100
              else if at == 2 then e / 0x100 % 0x100
              else if at == 3 then e % 0x100
              else if 4 <= at < 8 then instanceId[at - 4]
              else t.buffer[p]
  {
    hide BigEndian;
    BigEndianBytes(e);
  }

  lemma BigEndianBytes(e: uint32)
    ensures BigEndian(e)[0] == e / 0x100_0000 && BigEndian(e)[1] as int == e / 0x1_0000 % 0x100
    ensures BigEndian(e)[2] as int == e / 0x100 % 0x100 && BigEndian(e)[3] as int == e % 0x100
  {
  }

  /** Two extra nonces that differ only in a byte that the nonce overwrites. */
  lemma Overlapping(t: BlockTemplate, instanceId: seq<byte>) returns (e: uint32, f: uint32)
    requires Patchable(t) && |instanceId| == 4 && !Apart(t)
    ensures e != f && ShareBuffer(t, e, instanceId, [0, 0, 0, 0]) == ShareBuffer(t, f, instanceId, [0, 0, 0, 0])
  {
    hide BigEndian, ShareBuffer;
    var k := if t.reservedOffset <= NONCE_OFFSET then NONCE_OFFSET - t.reservedOffset else 0;
    e, f := 0, OneAt(k);
    OneAtIs(k);
    var nonce: seq<byte> := [0, 0, 0, 0];
    var a, b := ShareBuffer(t, e, instanceId, nonce), ShareBuffer(t, f, instanceId, nonce);
    forall p: nat | p < |t.buffer|
      ensures |a| == |b| == |t.buffer| && a[p] == b[p]
    {
      ShareBufferAt(t, e, instanceId, nonce, p);
      ShareBufferAt(t, f, instanceId, nonce, p);
    }
    ShareBufferAt(t, e, instanceId, nonce, 0);
    ShareBufferAt(t, f, instanceId, nonce, 0);
    assert a == b;
  }

  // ------------------------------------------------------------------------------------------
  // A template that is replaced while its jobs are out

  /** The two templates agree wherever neither the reserved bytes nor the nonce are written. */
  predicate SameOutside(t: BlockTemplate, u: BlockTemplate) {
    && t.reservedOffset == u.reservedOffset && |t.buffer| == |u.buffer|
    && forall p | 0 <= p < |t.buffer| && !(t.reservedOffset <= p < t.reservedOffset + 8)
                  && !(NONCE_OFFSET <= p < NONCE_OFFSET + 4) :: t.buffer[p] == u.buffer[p]
  }

  /** Shares are judged on the current template u, whichever template t their job was issued from.
      What is judged is the issued buffer with only the nonce replaced, for every extra nonce and
      nonce, exactly when the templates agree outside the patched bytes. */
  lemma JudgedIsIssued(t: BlockTemplate, u: BlockTemplate, instanceId: seq<byte>)
    requires Patchable(t) && Patchable(u) && |instanceId| == 4
    ensures (forall e: uint32, nonce: seq<byte> | |nonce| == 4 ::
               ShareBuffer(u, e, instanceId, nonce) == Patch(JobBuffer(t, e, instanceId), NONCE_OFFSET, nonce))
            <==> SameOutside(t, u)
  {
    hide ShareBuffer, Patch, JobBuffer;
    forall e: uint32, nonce: seq<byte> | |nonce| == 4
      ensures ShareBuffer(t, e, instanceId, nonce) == Patch(JobBuffer(t, e, instanceId), NONCE_OFFSET, nonce)
    {
      ShareIsPatchedJob(t, e, instanceId, nonce);
    }
    if SameOutside(t, u) {
      forall e: uint32, nonce: seq<byte> | |nonce| == 4
        ensures ShareBuffer(u, e, instanceId, nonce) == ShareBuffer(t, e, instanceId, nonce)
      {
        SameShares(t, u, e, instanceId, nonce);
      }
    } else {
      var e: uint32 := OtherShare(t, u, instanceId);
      var nonce: seq<byte> := [0, 0, 0, 0];
      assert ShareBuffer(u, e, instanceId, nonce) != ShareBuffer(t, e, instanceId, nonce);
    }
  }

  lemma ShareIsPatchedJob(t: BlockTemplate, e: uint32, instanceId: seq<byte>, nonce: seq<byte>)
    requires Patchable(t) && |instanceId| == 4 && |nonce| == 4
    ensures ShareBuffer(t, e, instanceId, nonce) == Patch(JobBuffer(t, e, instanceId), NONCE_OFFSET, nonce)
  {
    hide Patch, JobBuffer;
  }

  lemma SameShares(t: BlockTemplate, u: BlockTemplate, e: uint32, instanceId: seq<byte>, nonce: seq<byte>)
    requires Patchable(t) && Patchable(u) && |instanceId| == 4 && |nonce| == 4 && SameOutside(t, u)
    ensures ShareBuffer(u, e, instanceId, nonce) == ShareBuffer(t, e, instanceId, nonce)
  {
    hide BigEndian, ShareBuffer;
    var a, b := ShareBuffer(u, e, instanceId, nonce), ShareBuffer(t, e, instanceId, nonce);
    forall p: nat | p < |t.buffer|
      ensures |a| == |b| == |t.buffer| && a[p] == b[p]
    {
      ShareBufferAt(t, e, instanceId, nonce, p);
      ShareBufferAt(u, e, instanceId, nonce, p);
    }
    ShareBufferAt(t, e, instanceId, nonce, 0);
    ShareBufferAt(u, e, instanceId, nonce, 0);
    assert a == b;
  }

  /** Two templates that differ outside the patched bytes give different share buffers for some
      extra nonce. */
  lemma OtherShare(t: BlockTemplate, u: BlockTemplate, instanceId: seq<byte>) returns (e: uint32)
    requires Patchable(t) && Patchable(u) && |instanceId| == 4 && !SameOutside(t, u)
    ensures ShareBuffer(u, e, instanceId, [0, 0, 0, 0]) != ShareBuffer(t, e, instanceId, [0, 0, 0, 0])
  {
    hide BigEndian, ShareBuffer;
    e := 0;
    ShareBufferAt(t, e, instanceId, [0, 0, 0, 0], 0);
    ShareBufferAt(u, e, instanceId, [0, 0, 0, 0], 0);
    if |t.buffer| == |u.buffer| {
      if t.reservedOffset == u.reservedOffset {
        var p :| 0 <= p < |t.buffer| && !(t.reservedOffset <= p < t.reservedOffset + 8)
                 && !(NONCE_OFFSET <= p < NONCE_OFFSET + 4) && t.buffer[p] != u.buffer[p];
        ShareBufferAt(t, e, instanceId, [0, 0, 0, 0], p);
        ShareBufferAt(u, e, instanceId, [0, 0, 0, 0], p);
      } else if t.reservedOffset != NONCE_OFFSET {
        e := OtherOffset(t, u, instanceId);
      } else {
        e := OtherOffset(u, t, instanceId);
      }
    }
  }

  /** At another offset, a byte of the extra nonce that shows in t's buffer does not show at the
      same place in u's. */
  lemma OtherOffset(t: BlockTemplate, u: BlockTemplate, instanceId: seq<byte>) returns (e: uint32)
    requires Patchable(t) && Patchable(u) && |instanceId| == 4 && |t.buffer| == |u.buffer|
    requires t.reservedOffset != u.reservedOffset && t.reservedOffset != NONCE_OFFSET
    ensures ShareBuffer(t, e, instanceId, [0, 0, 0, 0]) != ShareBuffer(u, e, instanceId, [0, 0, 0, 0])
  {
    hide BigEndian, ShareBuffer, OneAt;
    var nonce: seq<byte> := [0, 0, 0, 0];
    var r := t.reservedOffset;
    var p := if NONCE_OFFSET <= r < NONCE_OFFSET + 4 then r + 3 else r;
    var k := p - r;
    OneAtIs(k);
    ShareBufferAt(t, 0, instanceId, nonce, p);
    ShareBufferAt(t, OneAt(k), instanceId, nonce, p);
    ShareBufferAt(u, 0, instanceId, nonce, p);
    ShareBufferAt(u, OneAt(k), instanceId, nonce, p);
    e := if ShareBuffer(t, 0, instanceId, nonce) == ShareBuffer(u, 0, instanceId, nonce) then OneAt(k) else 0;
  }

  // ------------------------------------------------------------------------------------------
  // Inputs on which acceptance surprises

  /** A small block with a given predecessor and a given first output. */
  function SampleBlock(prevId: seq<byte>, amount: uint64): (b: Block)
    requires |prevId| == HASH_SIZE
  {
    Block(BlockHeader(14, 14, 0x6000_0000, prevId, 0),
          MinerTransaction(2, 60, [TxInGen(0)], [TxOutGen(amount, Zeros(PUB_KEY_SIZE), 0)], Zeros(8), 0), [])
  }

  lemma SampleFits(prevId: seq<byte>, amount: uint64)
    requires |prevId| == HASH_SIZE
    ensures var b := SampleBlock(prevId, amount);
            ValidBlock(b) && NonceInPlace(b.header) && InExtra(b, |BeforeExtra(b)|, 8)
  {
    hide BeforeExtra;
    UsualHeadersFit(SampleBlock(prevId, amount).header);
  }

  /** The reply that offers a sample block, and the template made of it. */
  function SampleReply(prevId: seq<byte>, amount: uint64, prevHash: string, expectedReward: int): TemplateReply
    requires |prevId| == HASH_SIZE
  {
    var b := SampleBlock(prevId, amount);
    TemplateReply(1, 1, Encode(PackBlock(b)), |BeforeExtra(b)|, prevHash, expectedReward, "")
  }

  function SampleTemplate(prevId: seq<byte>, amount: uint64, prevHash: string, expectedReward: int): BlockTemplate
    requires |prevId| == HASH_SIZE
  {
    var b := SampleBlock(prevId, amount);
    BlockTemplate(1, 1, |BeforeExtra(b)|, prevHash, PackBlock(b), ToInt64(amount),
                  ToInt64(expectedReward - ToInt64(amount)), [])
  }

  lemma SampleAccepted(current: Option<BlockTemplate>, prevId: seq<byte>, amount: uint64, prevHash: string,
                       expectedReward: int)
    requires |prevId| == HASH_SIZE && ToInt64(amount) <= expectedReward
    requires NewTip(current, SampleReply(prevId, amount, prevHash, expectedReward))
    ensures var t := SampleTemplate(prevId, amount, prevHash, expectedReward);
            && Accepts(current, SampleReply(prevId, amount, prevHash, expectedReward), t)
            && Patchable(t) && t.reservedOffset >= NONCE_OFFSET + 4
            && ParseBlock(t.buffer) == Done(SampleBlock(prevId, amount), [])
  {
    hide PackBlock, ParseBlock, Encode, BeforeExtra, ValidBlock, NonceInPlace, InExtra, ToInt64;
    var b := SampleBlock(prevId, amount);
    SampleFits(prevId, amount);
    DecodeEncode(PackBlock(b));
    BlockRoundTrip(b, []);
    assert PackBlock(b) + [] == PackBlock(b);
    ReservedFits(b, SampleTemplate(prevId, amount, prevHash, expectedReward));
    ExtraIsAfterNonce(b);
    NothingDecodes();
  }

  lemma NothingDecodes()
    ensures Decode("") == []
  {
  }

  /** For every first output from 2^63 on there is a reply that is accepted with a negative reward. */
  lemma NegativeRewardIsAccepted(amount: uint64) returns (reply: TemplateReply, t: BlockTemplate)
    requires amount > MAX_INT64
    ensures 0 <= reply.expectedReward <= MAX_INT64 && Accepts(None, reply, t)
    ensures ParseBlock(t.buffer).Done? && ParseBlock(t.buffer).value.minerTx.vout[0].amount == amount
    ensures t.blockReward < 0 && !RewardFits(t.blockReward, t.txTotalFee)
  {
    hide PackBlock, ParseBlock, Encode, BeforeExtra;
    reply := SampleReply(Zeros(HASH_SIZE), amount, "", 0);
    t := SampleTemplate(Zeros(HASH_SIZE), amount, "", 0);
    SampleAccepted(None, Zeros(HASH_SIZE), amount, "", 0);
  }

  /** The first byte of the predecessor stands at offset 7 of a sample block. */
  lemma PrevIdAt(prevId: seq<byte>, amount: uint64)
    requires |prevId| == HASH_SIZE
    ensures |PackBlock(SampleBlock(prevId, amount))| > 7 && PackBlock(SampleBlock(prevId, amount))[7] == prevId[0]
  {
    hide Pack, LittleEndian, PackTx, PackList, PackBlock;
    var b := SampleBlock(prevId, amount);
    AroundNonce(b);
    OneByte(14);
    FiveBytes(0x6000_0000);
    var varints := Pack(14) + Pack(14) + Pack(0x6000_0000);
    assert |varints| == 7 && BeforeNonce(b) == varints + prevId;
  }

  /** A chain tip may be replaced by another at the same height. The new template is accepted, jobs
      of the old one still pass the height test, and every share of theirs is judged on other bytes
      than were issued, whatever the extra nonce and the nonce. */
  lemma SameHeightReplacement(instanceId: seq<byte>) returns (t: BlockTemplate, reply: TemplateReply, u: BlockTemplate)
    requires |instanceId| == 4
    ensures Accepts(Some(t), reply, u) && u.height == t.height && u.reservedOffset == t.reservedOffset
    ensures (exists first :: Accepts(None, first, t)) && Patchable(t) && Patchable(u) && !SameOutside(t, u)
    ensures forall e: uint32, nonce: seq<byte> | |nonce| == 4 ::
              ShareBuffer(u, e, instanceId, nonce) != Patch(JobBuffer(t, e, instanceId), NONCE_OFFSET, nonce)
  {
    hide PackBlock, ParseBlock, Encode, BeforeExtra, BigEndian, ShareBuffer, Patch, JobBuffer, SampleBlock;
    var gone, tip := Zeros(HASH_SIZE), [1] + Zeros(HASH_SIZE - 1);
    t := SampleTemplate(gone, 5, "a", 5);
    reply := SampleReply(tip, 5, "b", 5);
    u := SampleTemplate(tip, 5, "b", 5);
    SampleAccepted(None, gone, 5, "a", 5);
    SampleAccepted(Some(t), tip, 5, "b", 5);
    SameOffsets(gone, tip, 5);
    PrevIdAt(gone, 5);
    PrevIdAt(tip, 5);
    assert t.buffer[7] != u.buffer[7];
    forall e: uint32, nonce: seq<byte> | |nonce| == 4
      ensures ShareBuffer(u, e, instanceId, nonce) != Patch(JobBuffer(t, e, instanceId), NONCE_OFFSET, nonce)
    {
      ShareIsPatchedJob(t, e, instanceId, nonce);
      ShareBufferAt(t, e, instanceId, nonce, 7);
      ShareBufferAt(u, e, instanceId, nonce, 7);
    }
  }

  lemma SameOffsets(a: seq<byte>, b: seq<byte>, amount: uint64)
    requires |a| == HASH_SIZE == |b|
    ensures |BeforeExtra(SampleBlock(a, amount))| == |BeforeExtra(SampleBlock(b, amount))|
  {
    hide Pack, PackList, LittleEndian;
  }

  // ------------------------------------------------------------------------------------------
  // The nonce, from the miner's message to the unlocker's test

  /** The nonce text that WriteBlock records for an accepted message. */
  function RecordedNonce(text: string): string {
    Encode(Decode(text))
  }

  /** The candidate recorded for a share passes the unlocker's nonce test against exactly the headers
      that carry the nonce of the block that the share submitted. */
  lemma NoncePipeline(b: Block, t: BlockTemplate, extraNonce: uint32, instanceId: seq<byte>, text: string,
                      record: BlockData, header: Header)
    requires record.nonce == RecordedNonce(text)
    requires ValidBlock(b) && t.buffer == PackBlock(b) && |instanceId| == 4 && IsNonceText(text)
    requires NonceInPlace(b.header) && InExtra(b, t.reservedOffset, 8)
    ensures |Decode(text)| == 4 && Patchable(t)
    ensures var submitted := ParseBlock(ShareBuffer(t, extraNonce, instanceId, Decode(text)));
            && submitted.Done?
            && (Matches(record, header) <==> header.nonce == submitted.value.header.nonce)
  {
    hide PackBlock, ParseBlock, ValidBlock, NonceInPlace, InExtra, WithExtra, ShareBuffer, Encode, Decode;
    hide ChainNonceHex, EqualFold, BigEndian;
    EncodeDecode(text);
    NonceTestIsExact(text, header.nonce);
    ShareIsStructured(b, t, extraNonce, instanceId, Decode(text));
  }
}
