/** What the block unlocker computes before it writes (payouts/unlocker.go:102-169, 374-405):
    the verdict on each block from the daemon's header, and the rewards of a round. */
module Unlocking {
  import opened Common
  import opened Sums
  import opened Hex
  import opened Blocks
  import opened Rewards

  /** The fields of a daemon block header that the unlocker looks at. */
  datatype Header = Header(nonce: uint32, reward: int, hash: string)

  /** The nonce test of payouts/unlocker.go:113-123. */
  predicate Matches(b: BlockData, h: Header) {
    |b.nonce| > 0 && EqualFold(b.nonce, ChainNonceHex(h.nonce))
  }

  function BaseReward(cfg: Config, coinBase: int, fee: int): int {
    if cfg.keepTxFees then coinBase else coinBase + fee
  }

  /** handleBlock. */
  function HandleBlock(cfg: Config, b: BlockData, hash: string): BlockData {
    b.(orphan := false,
       hash := hash,
       reward := Some(BaseReward(cfg, b.coinBase, b.fee)),
       extraReward := if cfg.keepTxFees then Some(b.fee) else b.extraReward)
  }

  /** The header carries the nonce that the block's text spells: four bytes, least significant first. */
  ghost predicate OnChain(b: BlockData, h: Header)
    requires IsNonceText(b.nonce)
  {
    var bytes := Decode(b.nonce);
    && |bytes| == 4
    && h.nonce as int == bytes[0] as int + 256 * bytes[1] as int + 65536 * bytes[2] as int + 16777216 * bytes[3] as int
  }

  /** For every nonce that the stratum server accepts, the test is whether the block is on the chain. */
  lemma MatchesIsOnChain(b: BlockData, h: Header)
    requires IsNonceText(b.nonce)
    ensures Matches(b, h) <==> OnChain(b, h)
  {
    hide EqualFold, ChainNonceHex, Decode, IsNonceText;
    NonceTestIsExact(b.nonce, h.nonce);
    FourBytesSpell(Decode(b.nonce));
    NotEmpty(b.nonce);
  }

  lemma NotEmpty(nonce: string)
    requires IsNonceText(nonce)
    ensures |nonce| > 0
  {
  }

  lemma FourBytesSpell(b: seq<byte>)
    requires |b| == 4
    ensures FromLittleEndian(b) as int
            == b[0] as int + 256 * b[1] as int + 65536 * b[2] as int + 16777216 * b[3] as int
  {
  }

  /** The nonce text 1a2b3c4d is the header nonce 0x4d3c2b1a. */
  lemma NonceExample(b: BlockData, h: Header)
    requires b.nonce == "1a2b3c4d"
    ensures Matches(b, h) <==> h.nonce == 0x4d3c2b1a
  {
    hide Matches, Decode, IsNonceText;
    ExampleDecodes();
    MatchesIsOnChain(b, h);
  }

  lemma ExampleDecodes()
    ensures Decode("1a2b3c4d") == [0x1a, 0x2b, 0x3c, 0x4d] && IsNonceText("1a2b3c4d")
  {
    var text := "1a2b3c4d";
    assert text[2..] == "2b3c4d" && "2b3c4d"[2..] == "3c4d" && "3c4d"[2..] == "4d" && "4d"[2..] == "";
    assert Decode("4d") == [0x4d];
    assert Decode("3c4d") == [0x3c, 0x4d];
    assert Decode("2b3c4d") == [0x2b, 0x3c, 0x4d];
  }

  /** unlockCandidates ends in one of four ways. On a reward mismatch the Go code returns a nil
      result with a nil error and its caller dereferences it; on a confirmed header whose hash is
      shorter than the ten characters it logs, the slice panics. Either way the pass dies before it
      writes. */
  datatype Verdict =
    | RpcFailed
    | RewardMismatch
    | ShortHash
    | Classified(matured: seq<BlockData>, orphaned: seq<BlockData>)

  /** How much of a hash is logged (payouts/unlocker.go:143). */
  const LOGGED_HASH: nat := 10

  /** One turn of the loop in unlockCandidates, applied to the verdict on the blocks before. */
  function ClassifyOne(cfg: Config, before: Verdict, b: BlockData, reply: Option<Header>): Verdict {
    match before
    case Classified(matured, orphaned) =>
      if reply.None? then RpcFailed
      else if Matches(b, reply.value) then
        if ToInt64(b.coinBase + b.fee) != reply.value.reward then RewardMismatch
        else if |reply.value.hash| < LOGGED_HASH then ShortHash
        else Classified(matured + [HandleBlock(cfg, b, reply.value.hash)], orphaned)
      else Classified(matured, orphaned + [b.(orphan := true)])
    case _ => before
  }

  function Classify(cfg: Config, blocks: seq<BlockData>, replies: seq<Option<Header>>): Verdict
    requires |blocks| == |replies|
  {
    if blocks == [] then Classified([], [])
    else
      var n := |blocks| - 1;
      ClassifyOne(cfg, Classify(cfg, blocks[..n], replies[..n]), blocks[n], replies[n])
  }

  /** What becomes of one block whose header was read: confirmed, or marked as an orphan. */
  ghost predicate Confirmed(cfg: Config, b: BlockData, reply: Option<Header>, out: BlockData) {
    && reply.Some? && Matches(b, reply.value)
    && ToInt64(b.coinBase + b.fee) == reply.value.reward && |reply.value.hash| >= LOGGED_HASH
    && out == HandleBlock(cfg, b, reply.value.hash)
  }

  ghost predicate Orphaned(b: BlockData, reply: Option<Header>, out: BlockData) {
    reply.Some? && !Matches(b, reply.value) && out == b.(orphan := true)
  }

  /** The two lists, with the positions in the batch that their blocks come from: increasing in
      each list, in the list the header decides, and covering the batch. */
  ghost predicate SplitsInto(cfg: Config, blocks: seq<BlockData>, replies: seq<Option<Header>>,
                             matured: seq<BlockData>, orphaned: seq<BlockData>, m: seq<nat>, o: seq<nat>)
    requires |blocks| == |replies|
  {
    && |m| == |matured| && |o| == |orphaned| && |m| + |o| == |blocks|
    && (forall k | 0 <= k < |m| :: m[k] < |blocks| && Confirmed(cfg, blocks[m[k]], replies[m[k]], matured[k]))
    && (forall k | 0 <= k < |o| :: o[k] < |blocks| && Orphaned(blocks[o[k]], replies[o[k]], orphaned[k]))
    && (forall j, k | 0 <= j < k < |m| :: m[j] < m[k])
    && (forall j, k | 0 <= j < k < |o| :: o[j] < o[k])
    && (forall i: nat | i < |blocks| :: i in m || i in o)
  }

  lemma SplitsMore(cfg: Config, blocks: seq<BlockData>, replies: seq<Option<Header>>,
                   matured: seq<BlockData>, orphaned: seq<BlockData>, m: seq<nat>, o: seq<nat>, n: nat)
    requires |blocks| == |replies| == n + 1
    requires SplitsInto(cfg, blocks[..n], replies[..n], matured, orphaned, m, o)
    ensures forall out :: Confirmed(cfg, blocks[n], replies[n], out) ==>
              SplitsInto(cfg, blocks, replies, matured + [out], orphaned, m + [n], o)
    ensures forall out :: Orphaned(blocks[n], replies[n], out) ==>
              SplitsInto(cfg, blocks, replies, matured, orphaned + [out], m, o + [n])
  {
  }

  /** The verdict splits the batch: every block lands in exactly one list, in order, confirmed
      exactly when its header carries its nonce. */
  lemma {:induction false} ClassifySplits(cfg: Config, blocks: seq<BlockData>, replies: seq<Option<Header>>)
    returns (m: seq<nat>, o: seq<nat>)
    requires |blocks| == |replies| && Classify(cfg, blocks, replies).Classified?
    ensures var v := Classify(cfg, blocks, replies);
            SplitsInto(cfg, blocks, replies, v.matured, v.orphaned, m, o)
    decreases |blocks|
  {
    if blocks == [] {
      m, o := [], [];
    } else {
      var n := |blocks| - 1;
      var v := Classify(cfg, blocks[..n], replies[..n]);
      m, o := ClassifySplits(cfg, blocks[..n], replies[..n]);
      SplitsMore(cfg, blocks, replies, v.matured, v.orphaned, m, o, n);
      if Matches(blocks[n], replies[n].value) {
        assert Confirmed(cfg, blocks[n], replies[n], HandleBlock(cfg, blocks[n], replies[n].value.hash));
        m := m + [n];
      } else {
        assert Orphaned(blocks[n], replies[n], blocks[n].(orphan := true));
        o := o + [n];
      }
    }
  }

  /** A batch sorted by the chain: a block whose header carries its nonce is in the first list and not
      in the second, with the header's hash, the reward that its miners and the pool divide, and the
      fees that the pool keeps; any other is in the second list and not in the first, as it was but
      for the mark. */
  ghost predicate SortedByChain(cfg: Config, blocks: seq<BlockData>, replies: seq<Option<Header>>,
                                matured: seq<BlockData>, orphaned: seq<BlockData>, m: seq<nat>, o: seq<nat>)
    requires |blocks| == |replies|
  {
    && |m| == |matured| && |o| == |orphaned|
    && (forall k | 0 <= k < |m| :: m[k] < |blocks| && IsConfirmed(cfg, blocks[m[k]], replies[m[k]], matured[k]))
    && (forall k | 0 <= k < |o| :: o[k] < |blocks| && orphaned[k] == blocks[o[k]].(orphan := true))
    && (forall i: nat | i < |blocks| && IsNonceText(blocks[i].nonce) ::
          && replies[i].Some?
          && (i in m <==> OnChain(blocks[i], replies[i].value)) && (i in o <==> !OnChain(blocks[i], replies[i].value)))
  }

  ghost predicate IsConfirmed(cfg: Config, b: BlockData, reply: Option<Header>, out: BlockData) {
    && reply.Some? && reply.value.reward == ToInt64(b.coinBase + b.fee)
    && out == b.(orphan := false, hash := reply.value.hash, reward := out.reward, extraReward := out.extraReward)
    && out.reward == Some(if cfg.keepTxFees then b.coinBase else b.coinBase + b.fee)
    && out.extraReward == if cfg.keepTxFees then Some(b.fee) else b.extraReward
  }

  lemma ConfirmedIs(cfg: Config, b: BlockData, reply: Option<Header>, out: BlockData)
    requires Confirmed(cfg, b, reply, out)
    ensures IsConfirmed(cfg, b, reply, out)
  {
    hide Matches, ToInt64;
  }

  /** unlockCandidates sorts its batch by the chain. */
  lemma ChainDecides(cfg: Config, blocks: seq<BlockData>, replies: seq<Option<Header>>)
    returns (m: seq<nat>, o: seq<nat>)
    requires |blocks| == |replies| && Classify(cfg, blocks, replies).Classified?
    ensures var v := Classify(cfg, blocks, replies);
            SortedByChain(cfg, blocks, replies, v.matured, v.orphaned, m, o)
  {
    hide Classify, Confirmed, Matches, OnChain, IsNonceText, IsConfirmed;
    m, o := ClassifySplits(cfg, blocks, replies);
    var v := Classify(cfg, blocks, replies);
    forall k | 0 <= k < |m|
      ensures IsConfirmed(cfg, blocks[m[k]], replies[m[k]], v.matured[k])
    {
      ConfirmedIs(cfg, blocks[m[k]], replies[m[k]], v.matured[k]);
    }
    forall i: nat | i < |blocks| && IsNonceText(blocks[i].nonce)
      ensures replies[i].Some?
      ensures i in m <==> OnChain(blocks[i], replies[i].value)
      ensures i in o <==> !OnChain(blocks[i], replies[i].value)
    {
      SplitsAt(cfg, blocks, replies, v.matured, v.orphaned, m, o, i);
      MatchesIsOnChain(blocks[i], replies[i].value);
    }
  }

  /** A block is in the list that the test decides, and in that one only. */
  lemma SplitsAt(cfg: Config, blocks: seq<BlockData>, replies: seq<Option<Header>>,
                 matured: seq<BlockData>, orphaned: seq<BlockData>, m: seq<nat>, o: seq<nat>, i: nat)
    requires |blocks| == |replies| && SplitsInto(cfg, blocks, replies, matured, orphaned, m, o) && i < |blocks|
    ensures replies[i].Some?
    ensures i in m <==> Matches(blocks[i], replies[i].value)
    ensures i in o <==> !Matches(blocks[i], replies[i].value)
  {
    hide Matches;
    if i in m {
      var k :| 0 <= k < |m| && m[k] == i;
      assert Confirmed(cfg, blocks[m[k]], replies[m[k]], matured[k]);
    }
    if i in o {
      var k :| 0 <= k < |o| && o[k] == i;
      assert Orphaned(blocks[o[k]], replies[o[k]], orphaned[k]);
    }
  }

  /** A block that unlockCandidates gets past: its header can be read, and if that carries its
      nonce, the block on the chain pays what the pool recorded and its hash can be logged. */
  predicate Passes(b: BlockData, reply: Option<Header>) {
    reply.Some? && !Mispaid(b, reply) && !Unloggable(b, reply)
  }

  /** The header carries the block's nonce, but pays another reward than the pool recorded. */
  predicate Mispaid(b: BlockData, reply: Option<Header>) {
    reply.Some? && Matches(b, reply.value) && ToInt64(b.coinBase + b.fee) != reply.value.reward
  }

  /** The header carries the block's nonce and reward, but too short a hash. */
  predicate Unloggable(b: BlockData, reply: Option<Header>) {
    && reply.Some? && Matches(b, reply.value) && ToInt64(b.coinBase + b.fee) == reply.value.reward
    && |reply.value.hash| < 10
  }

  /** Block i is the first that is not passed. */
  ghost predicate FirstFailure(blocks: seq<BlockData>, replies: seq<Option<Header>>, i: int)
    requires |blocks| == |replies|
  {
    0 <= i < |blocks| && !Passes(blocks[i], replies[i]) && forall j | 0 <= j < i :: Passes(blocks[j], replies[j])
  }

  /** One more block: it decides the verdict on a batch that was passed, and no other. */
  lemma ClassifyLast(cfg: Config, blocks: seq<BlockData>, replies: seq<Option<Header>>)
    requires |blocks| == |replies| > 0
    ensures var n := |blocks| - 1;
            var before, v := Classify(cfg, blocks[..n], replies[..n]), Classify(cfg, blocks, replies);
            && (!before.Classified? ==> v == before)
            && (before.Classified? ==>
                  && (v.Classified? <==> Passes(blocks[n], replies[n]))
                  && (v.RewardMismatch? <==> Mispaid(blocks[n], replies[n]))
                  && (v.ShortHash? <==> Unloggable(blocks[n], replies[n]))
                  && (v.RpcFailed? <==> replies[n].None?))
  {
    hide Matches, ToInt64, HandleBlock;
  }

  lemma FirstFailureMore(blocks: seq<BlockData>, replies: seq<Option<Header>>, i: int)
    requires |blocks| == |replies| > 0
    ensures var n := |blocks| - 1;
            FirstFailure(blocks, replies, i) <==>
              if i == n then !Passes(blocks[n], replies[n]) && forall j | 0 <= j < n :: Passes(blocks[j], replies[j])
              else FirstFailure(blocks[..n], replies[..n], i)
  {
    hide Passes;
    var n := |blocks| - 1;
    assert forall j | 0 <= j < n :: blocks[..n][j] == blocks[j] && replies[..n][j] == replies[j];
  }

  /** unlockCandidates gives a verdict exactly when every block is passed. Otherwise the first
      block that is not passed decides how it ends: with a reward mismatch, which its callers
      crash on, exactly when that block is mispaid; with a panic on a short hash exactly when its
      header is otherwise right; and with the daemon's error exactly when it could not be read. */
  lemma {:induction false} ClassifyFails(cfg: Config, blocks: seq<BlockData>, replies: seq<Option<Header>>)
    requires |blocks| == |replies|
    ensures var v := Classify(cfg, blocks, replies);
            && (v.Classified? <==> forall i | 0 <= i < |blocks| :: Passes(blocks[i], replies[i]))
            && (v.RewardMismatch? <==> exists i :: FirstFailure(blocks, replies, i) && Mispaid(blocks[i], replies[i]))
            && (v.ShortHash? <==> exists i :: FirstFailure(blocks, replies, i) && Unloggable(blocks[i], replies[i]))
            && (v.RpcFailed? <==> exists i :: FirstFailure(blocks, replies, i) && replies[i].None?)
    decreases |blocks|
  {
    hide Passes, Mispaid, Unloggable, FirstFailure, Classify;
    if blocks == [] {
      NothingFails(cfg);
    } else {
      var n := |blocks| - 1;
      ClassifyFails(cfg, blocks[..n], replies[..n]);
      ClassifyLast(cfg, blocks, replies);
      FailureOfPrefix(blocks, replies);
    }
  }

  lemma NothingFails(cfg: Config)
    ensures Classify(cfg, [], []) == Classified([], [])
    ensures forall i :: !FirstFailure([], [], i)
  {
  }

  /** The first failure of a batch is that of all but its last block, or else its last block. */
  lemma FailureOfPrefix(blocks: seq<BlockData>, replies: seq<Option<Header>>)
    requires |blocks| == |replies| > 0
    ensures var n := |blocks| - 1;
            var passed := forall j | 0 <= j < n :: Passes(blocks[..n][j], replies[..n][j]);
            && (passed <==> forall j | 0 <= j < n :: Passes(blocks[j], replies[j]))
            && (forall i :: FirstFailure(blocks, replies, i) <==>
                 if i == n then !Passes(blocks[n], replies[n]) && passed
                 else FirstFailure(blocks[..n], replies[..n], i))
            && (passed ==> forall i :: !FirstFailure(blocks[..n], replies[..n], i))
    ensures forall i :: FirstFailure(blocks, replies, i) ==> 0 <= i < |blocks|
    ensures forall i | FirstFailure(blocks[..|blocks| - 1], replies[..|blocks| - 1], i) ::
              && 0 <= i < |blocks| - 1
              && blocks[..|blocks| - 1][i] == blocks[i] && replies[..|blocks| - 1][i] == replies[i]
  {
    hide Passes;
    var n := |blocks| - 1;
    assert forall j | 0 <= j < n :: blocks[..n][j] == blocks[j] && replies[..n][j] == replies[j];
    forall i
      ensures FirstFailure(blocks, replies, i) <==>
                if i == n then !Passes(blocks[n], replies[n]) && forall j | 0 <= j < n :: Passes(blocks[j], replies[j])
                else FirstFailure(blocks[..n], replies[..n], i)
    {
      FirstFailureMore(blocks, replies, i);
    }
  }

  // ------------------------------------------------------------------------------------------
  // Rewards of one round

  /** `big.NewRat(n, total)` panics on a zero total. */
  predicate CanSplit(shares: map<string, int>, total: int) {
    total != 0 || shares == map[]
  }

  function MinersProfit(cfg: Config, b: BlockData): real
    requires b.reward.Some?
  {
    ChargeFee(b.reward.value as real, cfg.feeRate).0
  }

  function PoolProfit(cfg: Config, b: BlockData): real
    requires b.reward.Some?
  {
    ChargeFee(b.reward.value as real, cfg.feeRate).1
    + (if b.extraReward.Some? then b.extraReward.value as real else 0.0)
  }

  function RoundRewards(cfg: Config, b: BlockData, shares: map<string, int>): map<string, int>
    requires b.reward.Some? && CanSplit(shares, b.totalShares)
  {
    var split := Split(shares, b.totalShares, MinersProfit(cfg, b));
    if cfg.poolFeeAddress != "" then Incr(split, ToLower(cfg.poolFeeAddress), Round(PoolProfit(cfg, b)))
    else split
  }

  /** calculateRewards, with the shares it has read. */
  method CalculateRewards(cfg: Config, b: BlockData, shares: map<string, int>)
    returns (revenue: real, minersProfit: real, poolProfit: real, rewards: map<string, int>)
    requires b.reward.Some? && CanSplit(shares, b.totalShares)
    ensures revenue == minersProfit + poolProfit
    ensures minersProfit == MinersProfit(cfg, b) && poolProfit == PoolProfit(cfg, b)
    ensures rewards == RoundRewards(cfg, b, shares)
  {
    revenue := b.reward.value as real;
    var charged := ChargeFee(revenue, cfg.feeRate);
    minersProfit, poolProfit := charged.0, charged.1;
    rewards := CalculateRewardsForShares(shares, b.totalShares, minersProfit);
    if b.extraReward.Some? {
      var extraReward := b.extraReward.value as real;
      poolProfit := poolProfit + extraReward;
      revenue := revenue + extraReward;
    }
    if cfg.poolFeeAddress != "" {
      var address := ToLower(cfg.poolFeeAddress);
      rewards := Incr(rewards, address, Round(poolProfit));
    }
  }

  /** The value that miners share for a confirmed block, from its recorded amounts: the coinbase, with
      the fees unless the pool keeps them, less the pool's rate. */
  ghost function MinersValue(cfg: Config, coinBase: int, fee: int): real {
    (if cfg.keepTxFees then coinBase else coinBase + fee) as real * (1.0 - cfg.feeRate)
  }

  /** The value that the pool takes: its rate of the same, and the fees that it keeps. */
  ghost function PoolValue(cfg: Config, coinBase: int, fee: int): real {
    (if cfg.keepTxFees then coinBase else coinBase + fee) as real * cfg.feeRate
    + if cfg.keepTxFees then fee as real else 0.0
  }

  lemma ProfitsAre(cfg: Config, b: BlockData, hash: string)
    requires b.extraReward.None?
    ensures var h := HandleBlock(cfg, b, hash);
            && MinersProfit(cfg, h) == MinersValue(cfg, b.coinBase, b.fee)
            && PoolProfit(cfg, h) == PoolValue(cfg, b.coinBase, b.fee)
  {
  }

  /** The rewards of a confirmed block, login by login: the nearest integer to its fraction of the
      miners' value if it has shares, and on the pool's address, if there is one, the nearest integer
      to the pool's value on top. Nobody else gets anything. */
  lemma RewardsByLogin(cfg: Config, b: BlockData, hash: string, shares: map<string, int>, login: string)
    returns (share: int, pool: int)
    requires b.extraReward.None? && CanSplit(shares, b.totalShares)
    ensures var h := HandleBlock(cfg, b, hash);
            var fee := cfg.poolFeeAddress != "" && login == ToLower(cfg.poolFeeAddress);
            && h.reward.Some?
            && Get(RoundRewards(cfg, h, shares), login) == share + pool
            && (login in RoundRewards(cfg, h, shares) <==> login in shares || fee)
            && (if login in shares
                then IsNearestAwayFromZero(
                       MinersValue(cfg, b.coinBase, b.fee) * (shares[login] as real / b.totalShares as real), share)
                else share == 0)
            && (if fee then IsNearestAwayFromZero(PoolValue(cfg, b.coinBase, b.fee), pool) else pool == 0)
  {
    hide Round, ToLower, MinersProfit, PoolProfit, MinersValue, PoolValue;
    var h := HandleBlock(cfg, b, hash);
    ProfitsAre(cfg, b, hash);
    var split := Split(shares, b.totalShares, MinersProfit(cfg, h));
    share := Get(split, login);
    pool := 0;
    if login in shares {
      SplitAt(shares, b.totalShares, MinersProfit(cfg, h), login);
    }
    if cfg.poolFeeAddress != "" && login == ToLower(cfg.poolFeeAddress) {
      pool := Round(PoolProfit(cfg, h));
      RoundIsNearest(PoolProfit(cfg, h), pool);
    }
  }

  /** What a block is worth to the accounts the pool keeps: all of it when the pool's own profit
      is credited to a fee address, otherwise the miners' part. */
  ghost function ExactOwed(cfg: Config, coinBase: int, fee: int): real {
    if cfg.poolFeeAddress != "" then (coinBase + fee) as real
    else BaseReward(cfg, coinBase, fee) as real * (1.0 - cfg.feeRate)
  }

  ghost function Roundings(cfg: Config, shares: map<string, int>): nat {
    |shares| + if cfg.poolFeeAddress != "" then 1 else 0
  }

  /** A confirmed block's miners' profit and pool profit make up coinbase plus fees, whether or
      not the pool keeps the transaction fees. */
  lemma RevenueIsWhole(cfg: Config, b: BlockData, hash: string)
    requires b.extraReward.None?
    ensures var h := HandleBlock(cfg, b, hash);
            MinersProfit(cfg, h) + PoolProfit(cfg, h) == (b.coinBase + b.fee) as real
  {
  }

  /** The unrounded profits that are credited make up what the block is worth. */
  lemma ProfitsMakeOwed(cfg: Config, b: BlockData, hash: string)
    requires b.extraReward.None?
    ensures var h := HandleBlock(cfg, b, hash);
            ExactOwed(cfg, b.coinBase, b.fee) ==
              MinersProfit(cfg, h) + if cfg.poolFeeAddress != "" then PoolProfit(cfg, h) else 0.0
  {
    RevenueIsWhole(cfg, b, hash);
  }

  /** The rewards written for a confirmed block add up to what it is worth, within half a unit
      for every reward that was rounded. */
  lemma RewardsWithin(cfg: Config, b: BlockData, hash: string, shares: map<string, int>)
    requires b.extraReward.None? && b.totalShares != 0 && Sum(shares) == b.totalShares
    ensures Within(Sum(RoundRewards(cfg, HandleBlock(cfg, b, hash), shares)),
                   ExactOwed(cfg, b.coinBase, b.fee), Roundings(cfg, shares))
  {
    hide Split, Round, ToLower, MinersProfit, PoolProfit, ExactOwed, Within;
    var h := HandleBlock(cfg, b, hash);
    var miners := MinersProfit(cfg, h);
    var split := Split(shares, b.totalShares, miners);
    SplitWithinHalfPerLogin(shares, b.totalShares, miners);
    ProfitsMakeOwed(cfg, b, hash);
    if cfg.poolFeeAddress != "" {
      var pool := PoolProfit(cfg, h);
      var address := ToLower(cfg.poolFeeAddress);
      SumSet(split, address, Get(split, address) + Round(pool));
      RoundWithin(pool);
      WithinAdd(Sum(split), miners, |shares|, Round(pool), pool, 1);
    }
  }
}
