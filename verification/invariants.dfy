/** The invariants of the pool's accounting, each stated on the parts of the world it concerns,
    with the lemmas that keep it when a row moves. */
module Invariants {
  import opened Common
  import opened Sums
  import opened Hex
  import opened Blocks
  import opened Rewards
  import opened RedisStore
  import opened Unlocking
  import opened PoolRun

  // ------------------------------------------------------------------------------------------
  // Where each found block is

  ghost function CandidateIds(rows: map<CandidateRow, int>): set<Id> {
    set row | row in rows :: CandidateId(row)
  }

  ghost function BlockIdsOf(rows: map<BlockRow, int>): set<Id> {
    set row | row in rows :: BlockId(row)
  }

  ghost predicate OneRowPerCandidate(rows: map<CandidateRow, int>) {
    forall a, b | a in rows && b in rows && CandidateId(a) == CandidateId(b) :: a == b
  }

  ghost predicate OneRowPerBlock(rows: map<BlockRow, int>) {
    forall a, b | a in rows && b in rows && BlockId(a) == BlockId(b) :: a == b
  }

  /** Every block that reached the candidates is in exactly one of the three sorted sets, in
      exactly one row; the blocks still being inserted are apart. */
  ghost predicate Partition(candidates: map<CandidateRow, int>, inserting: map<CandidateRow, int>,
                            immature: map<BlockRow, int>, matured: map<BlockRow, int>, born: set<Id>)
  {
    && OneRowPerCandidate(candidates) && OneRowPerCandidate(inserting)
    && OneRowPerBlock(immature) && OneRowPerBlock(matured)
    && CandidateIds(candidates) + BlockIdsOf(immature) + BlockIdsOf(matured) == born
    && CandidateIds(candidates) !! BlockIdsOf(immature)
    && CandidateIds(candidates) !! BlockIdsOf(matured)
    && BlockIdsOf(immature) !! BlockIdsOf(matured)
    && CandidateIds(inserting) !! born
  }

  lemma CandidateIdsRemove(rows: map<CandidateRow, int>, row: CandidateRow)
    requires OneRowPerCandidate(rows) && row in rows
    ensures OneRowPerCandidate(rows - {row})
    ensures CandidateIds(rows - {row}) == CandidateIds(rows) - {CandidateId(row)}
  {
  }

  lemma CandidateIdsAdd(rows: map<CandidateRow, int>, row: CandidateRow, score: int)
    requires OneRowPerCandidate(rows) && CandidateId(row) !in CandidateIds(rows)
    ensures OneRowPerCandidate(rows[row := score])
    ensures CandidateIds(rows[row := score]) == CandidateIds(rows) + {CandidateId(row)}
  {
    var more := rows[row := score];
    assert forall a | a in rows :: CandidateId(a) in CandidateIds(rows);
    forall id | id in CandidateIds(rows) + {CandidateId(row)}
      ensures id in CandidateIds(more)
    {
      if id == CandidateId(row) {
        assert row in more;
      } else {
        var a :| a in rows && CandidateId(a) == id;
        assert a in more;
      }
    }
  }

  lemma BlockIdsRemove(rows: map<BlockRow, int>, row: BlockRow)
    requires OneRowPerBlock(rows) && row in rows
    ensures OneRowPerBlock(rows - {row})
    ensures BlockIdsOf(rows - {row}) == BlockIdsOf(rows) - {BlockId(row)}
  {
  }

  lemma BlockIdsAdd(rows: map<BlockRow, int>, row: BlockRow, score: int)
    requires OneRowPerBlock(rows) && BlockId(row) !in BlockIdsOf(rows)
    ensures OneRowPerBlock(rows[row := score])
    ensures BlockIdsOf(rows[row := score]) == BlockIdsOf(rows) + {BlockId(row)}
  {
    var more := rows[row := score];
    assert forall a | a in rows :: BlockId(a) in BlockIdsOf(rows);
    forall id | id in BlockIdsOf(rows) + {BlockId(row)}
      ensures id in BlockIdsOf(more)
    {
      if id == BlockId(row) {
        assert row in more;
      } else {
        var a :| a in rows && BlockId(a) == id;
        assert a in more;
      }
    }
  }

  lemma PartitionInsert(candidates: map<CandidateRow, int>, inserting: map<CandidateRow, int>,
                        immature: map<BlockRow, int>, matured: map<BlockRow, int>, born: set<Id>, row: CandidateRow)
    requires Partition(candidates, inserting, immature, matured, born) && row in inserting
    ensures Partition(candidates[row := inserting[row]], inserting - {row}, immature, matured,
                      born + {CandidateId(row)})
    ensures Partition(candidates, inserting - {row}, immature, matured, born)
  {
    assert CandidateId(row) in CandidateIds(inserting);
    CandidateIdsRemove(inserting, row);
    CandidateIdsAdd(candidates, row, inserting[row]);
  }

  lemma PartitionToImmature(candidates: map<CandidateRow, int>, inserting: map<CandidateRow, int>,
                            immature: map<BlockRow, int>, matured: map<BlockRow, int>, born: set<Id>,
                            from: CandidateRow, to: BlockRow, score: int)
    requires Partition(candidates, inserting, immature, matured, born)
    requires from in candidates && CandidateId(from) == BlockId(to)
    ensures Partition(candidates - {from}, inserting, immature[to := score], matured, born)
  {
    assert CandidateId(from) in CandidateIds(candidates);
    CandidateIdsRemove(candidates, from);
    BlockIdsAdd(immature, to, score);
  }

  lemma PartitionToMatured(candidates: map<CandidateRow, int>, inserting: map<CandidateRow, int>,
                           immature: map<BlockRow, int>, matured: map<BlockRow, int>, born: set<Id>,
                           from: BlockRow, to: BlockRow, score: int)
    requires Partition(candidates, inserting, immature, matured, born)
    requires from in immature && BlockId(from) == BlockId(to)
    ensures Partition(candidates, inserting, immature - {from}, matured[to := score], born)
  {
    assert BlockId(from) in BlockIdsOf(immature);
    BlockIdsRemove(immature, from);
    BlockIdsAdd(matured, to, score);
  }

  // ------------------------------------------------------------------------------------------
  // Rounds

  ghost predicate AllPositive(shares: map<string, int>) {
    forall login | login in shares :: shares[login] > 0
  }

  /** The archived round of a block is there, and sums to the total the block recorded. */
  ghost predicate Archived(rounds: map<RoundKey, map<string, int>>, key: RoundKey, total: int) {
    key in rounds && Sum(rounds[key]) == total && total > 0
  }

  ghost predicate CandidateOk(row: CandidateRow, height: int, rounds: map<RoundKey, map<string, int>>,
                              keyOf: map<Id, RoundKey>)
  {
    && IsNonceText(row.nonce) && RewardFits(row.coinBase, row.fee)
    && CandidateId(row) in keyOf && keyOf[CandidateId(row)] == (height, row.nonce)
    && Archived(rounds, (height, row.nonce), row.totalShares)
  }

  ghost predicate BlockOk(row: BlockRow, height: int, rounds: map<RoundKey, map<string, int>>,
                          keyOf: map<Id, RoundKey>)
  {
    && IsNonceText(row.nonce) && RewardFits(row.coinBase, row.fee)
    && BlockId(row) in keyOf && keyOf[BlockId(row)] == (height, row.nonce)
    && Archived(rounds, (height, row.nonce), row.totalShares)
  }

  lemma CandidateOkStays(row: CandidateRow, height: int,
                         rounds: map<RoundKey, map<string, int>>, keyOf: map<Id, RoundKey>,
                         rounds': map<RoundKey, map<string, int>>, keyOf': map<Id, RoundKey>)
    requires CandidateOk(row, height, rounds, keyOf)
    requires CandidateId(row) in keyOf' && keyOf'[CandidateId(row)] == keyOf[CandidateId(row)]
    requires (height, row.nonce) in rounds' && rounds'[(height, row.nonce)] == rounds[(height, row.nonce)]
    ensures CandidateOk(row, height, rounds', keyOf')
  {
  }

  lemma BlockOkStays(row: BlockRow, height: int,
                     rounds: map<RoundKey, map<string, int>>, keyOf: map<Id, RoundKey>,
                     rounds': map<RoundKey, map<string, int>>, keyOf': map<Id, RoundKey>)
    requires BlockOk(row, height, rounds, keyOf)
    requires BlockId(row) in keyOf' && keyOf'[BlockId(row)] == keyOf[BlockId(row)]
    requires (height, row.nonce) in rounds' && rounds'[(height, row.nonce)] == rounds[(height, row.nonce)]
    ensures BlockOk(row, height, rounds', keyOf')
  {
  }

  ghost predicate OneBlockPerRound(keyOf: map<Id, RoundKey>) {
    forall a, b | a in keyOf && b in keyOf && keyOf[a] == keyOf[b] :: a == b
  }

  /** Every row's round is archived under the block's own key, and no two blocks share a key. */
  ghost predicate RowsOk(candidates: map<CandidateRow, int>, inserting: map<CandidateRow, int>,
                         immature: map<BlockRow, int>, rounds: map<RoundKey, map<string, int>>,
                         keyOf: map<Id, RoundKey>)
  {
    && KeysOk(rounds, keyOf)
    && (forall row | row in candidates :: CandidateOk(row, candidates[row], rounds, keyOf))
    && (forall row | row in inserting :: CandidateOk(row, inserting[row], rounds, keyOf))
    && (forall row | row in immature :: BlockOk(row, immature[row], rounds, keyOf))
  }

  ghost predicate KeysOk(rounds: map<RoundKey, map<string, int>>, keyOf: map<Id, RoundKey>) {
    && OneBlockPerRound(keyOf)
    && (forall key | key in rounds :: key in keyOf.Values && AllPositive(rounds[key]))
  }

  lemma KeysOkArchive(rounds: map<RoundKey, map<string, int>>, keyOf: map<Id, RoundKey>,
                      id: Id, key: RoundKey, shares: map<string, int>)
    requires KeysOk(rounds, keyOf) && AllPositive(shares)
    requires id !in keyOf && key !in keyOf.Values
    ensures KeysOk(rounds[key := shares], keyOf[id := key])
  {
    var keyOf' := keyOf[id := key];
    assert forall i | i in keyOf :: keyOf'[i] == keyOf[i] && keyOf[i] in keyOf.Values;
    assert keyOf'[id] == key;
    forall k | k in rounds[key := shares]
      ensures k in keyOf'.Values
    {
      if k != key {
        var i :| i in keyOf && keyOf[i] == k;
        assert keyOf'[i] == k;
      }
    }
  }

  lemma RowsOkArchive(candidates: map<CandidateRow, int>, inserting: map<CandidateRow, int>,
                      immature: map<BlockRow, int>, rounds: map<RoundKey, map<string, int>>,
                      keyOf: map<Id, RoundKey>, row: CandidateRow, height: int, shares: map<string, int>)
    requires RowsOk(candidates, inserting, immature, rounds, keyOf)
    requires IsNonceText(row.nonce) && RewardFits(row.coinBase, row.fee)
    requires CandidateId(row) !in keyOf && (height, row.nonce) !in keyOf.Values
    requires AllPositive(shares) && Sum(shares) == row.totalShares > 0
    ensures var rounds' := rounds[(height, row.nonce) := shares];
            var keyOf' := keyOf[CandidateId(row) := (height, row.nonce)];
            && RowsOk(candidates, inserting, immature, rounds', keyOf')
            && RowsOk(candidates, inserting[row := height], immature, rounds', keyOf')
  {
    hide IsNonceText, RewardFits, AllPositive, Sum, KeysOk;
    var key := (height, row.nonce);
    var rounds' := rounds[key := shares];
    var keyOf' := keyOf[CandidateId(row) := key];
    KeysOkArchive(rounds, keyOf, CandidateId(row), key, shares);
    forall a | a in candidates
      ensures CandidateOk(a, candidates[a], rounds', keyOf')
    {
      CandidateOkStays(a, candidates[a], rounds, keyOf, rounds', keyOf');
    }
    forall a | a in inserting
      ensures CandidateOk(a, inserting[a], rounds', keyOf')
    {
      CandidateOkStays(a, inserting[a], rounds, keyOf, rounds', keyOf');
    }
    forall a | a in immature
      ensures BlockOk(a, immature[a], rounds', keyOf')
    {
      BlockOkStays(a, immature[a], rounds, keyOf, rounds', keyOf');
    }
    assert CandidateOk(row, height, rounds', keyOf');
  }

  /** Another block's round is under another key. */
  lemma OtherKey(keyOf: map<Id, RoundKey>, a: Id, b: Id)
    requires OneBlockPerRound(keyOf) && a in keyOf && b in keyOf && a != b
    ensures keyOf[a] != keyOf[b]
  {
  }

  lemma KeysOkDelete(rounds: map<RoundKey, map<string, int>>, keyOf: map<Id, RoundKey>, key: RoundKey)
    requires KeysOk(rounds, keyOf)
    ensures KeysOk(rounds - {key}, keyOf)
  {
    hide AllPositive;
  }

  lemma CandidateOkDelete(row: CandidateRow, height: int, rounds: map<RoundKey, map<string, int>>,
                          keyOf: map<Id, RoundKey>, id: Id)
    requires CandidateOk(row, height, rounds, keyOf) && CandidateId(row) != id
    requires OneBlockPerRound(keyOf) && id in keyOf
    ensures CandidateOk(row, height, rounds - {keyOf[id]}, keyOf)
  {
    hide IsNonceText, RewardFits, Sum, OneBlockPerRound;
    OtherKey(keyOf, CandidateId(row), id);
  }

  lemma BlockOkDelete(row: BlockRow, height: int, rounds: map<RoundKey, map<string, int>>,
                      keyOf: map<Id, RoundKey>, id: Id)
    requires BlockOk(row, height, rounds, keyOf) && BlockId(row) != id
    requires OneBlockPerRound(keyOf) && id in keyOf
    ensures BlockOk(row, height, rounds - {keyOf[id]}, keyOf)
  {
    hide IsNonceText, RewardFits, Sum, OneBlockPerRound;
    OtherKey(keyOf, BlockId(row), id);
  }

  lemma OthersDiffer(candidates: map<CandidateRow, int>, inserting: map<CandidateRow, int>,
                     immature: map<BlockRow, int>, matured: map<BlockRow, int>, born: set<Id>, row: BlockRow)
    requires Partition(candidates, inserting, immature, matured, born) && row in immature
    ensures forall a | a in candidates :: CandidateId(a) != BlockId(row)
    ensures forall a | a in inserting :: CandidateId(a) != BlockId(row)
    ensures forall a | a in immature && a != row :: BlockId(a) != BlockId(row)
  {
    assert BlockId(row) in BlockIdsOf(immature);
    assert forall a | a in candidates :: CandidateId(a) in CandidateIds(candidates);
    assert forall a | a in inserting :: CandidateId(a) in CandidateIds(inserting);
  }

  /** Deleting one block's round leaves every other block's round alone. */
  lemma RowsOkDelete(candidates: map<CandidateRow, int>, inserting: map<CandidateRow, int>,
                     immature: map<BlockRow, int>, matured: map<BlockRow, int>, born: set<Id>,
                     rounds: map<RoundKey, map<string, int>>, keyOf: map<Id, RoundKey>, row: BlockRow)
    requires Partition(candidates, inserting, immature, matured, born)
    requires RowsOk(candidates, inserting, immature, rounds, keyOf) && row in immature
    ensures RowsOk(candidates, inserting, immature - {row}, rounds - {(immature[row], row.nonce)}, keyOf)
  {
    hide IsNonceText, RewardFits, AllPositive, Archived, CandidateOk, Partition;
    assert BlockOk(row, immature[row], rounds, keyOf);
    hide BlockOk;
    var id := BlockId(row);
    OthersDiffer(candidates, inserting, immature, matured, born, row);
    KeysOkDelete(rounds, keyOf, keyOf[id]);
    var rounds' := rounds - {keyOf[id]};
    forall a | a in candidates
      ensures CandidateOk(a, candidates[a], rounds', keyOf)
    {
      CandidateOkDelete(a, candidates[a], rounds, keyOf, id);
    }
    forall a | a in inserting
      ensures CandidateOk(a, inserting[a], rounds', keyOf)
    {
      CandidateOkDelete(a, inserting[a], rounds, keyOf, id);
    }
    forall a | a in immature && a != row
      ensures BlockOk(a, immature[a], rounds', keyOf)
    {
      BlockOkDelete(a, immature[a], rounds, keyOf, id);
    }
  }

  /** A found block's round is archived, as it was, until the block's row has matured; then, and
      only then, it is gone. */
  ghost predicate RoundKept(id: Id, rounds: map<RoundKey, map<string, int>>, keyOf: map<Id, RoundKey>,
                            roundOf: map<Id, map<string, int>>, matured: set<Id>)
    requires id in keyOf && id in roundOf
  {
    if id in matured then keyOf[id] !in rounds else keyOf[id] in rounds && rounds[keyOf[id]] == roundOf[id]
  }

  ghost predicate ArchiveOk(rounds: map<RoundKey, map<string, int>>, keyOf: map<Id, RoundKey>,
                            roundOf: map<Id, map<string, int>>, matured: set<Id>)
  {
    && roundOf.Keys == keyOf.Keys
    && forall id | id in keyOf :: RoundKept(id, rounds, keyOf, roundOf, matured)
  }

  lemma ArchiveOkAdd(rounds: map<RoundKey, map<string, int>>, keyOf: map<Id, RoundKey>,
                     roundOf: map<Id, map<string, int>>, matured: set<Id>,
                     id: Id, key: RoundKey, shares: map<string, int>)
    requires ArchiveOk(rounds, keyOf, roundOf, matured)
    requires id !in keyOf && key !in keyOf.Values && id !in matured
    ensures ArchiveOk(rounds[key := shares], keyOf[id := key], roundOf[id := shares], matured)
  {
    var rounds', keyOf', roundOf' := rounds[key := shares], keyOf[id := key], roundOf[id := shares];
    forall other | other in keyOf'
      ensures RoundKept(other, rounds', keyOf', roundOf', matured)
    {
      if other != id {
        assert RoundKept(other, rounds, keyOf, roundOf, matured) && keyOf[other] in keyOf.Values;
      }
    }
  }

  lemma ArchiveOkDelete(rounds: map<RoundKey, map<string, int>>, keyOf: map<Id, RoundKey>,
                        roundOf: map<Id, map<string, int>>, matured: set<Id>, id: Id)
    requires ArchiveOk(rounds, keyOf, roundOf, matured) && OneBlockPerRound(keyOf) && id in keyOf
    ensures ArchiveOk(rounds - {keyOf[id]}, keyOf, roundOf, matured + {id})
  {
    forall other | other in keyOf
      ensures RoundKept(other, rounds - {keyOf[id]}, keyOf, roundOf, matured + {id})
    {
      assert RoundKept(other, rounds, keyOf, roundOf, matured);
    }
  }

  // ------------------------------------------------------------------------------------------
  // Conservation of shares

  ghost function Sizes(rounds: map<RoundKey, map<string, int>>): map<RoundKey, int> {
    map key | key in rounds :: Sum(rounds[key])
  }

  ghost function TotalArchived(rounds: map<RoundKey, map<string, int>>): int {
    Sum(Sizes(rounds))
  }

  lemma ArchivedAdd(rounds: map<RoundKey, map<string, int>>, key: RoundKey, shares: map<string, int>)
    ensures TotalArchived(rounds[key := shares]) == TotalArchived(rounds) - Sum(ReadHash(rounds, key)) + Sum(shares)
  {
    SumSet(Sizes(rounds), key, Sum(shares));
    assert Sizes(rounds[key := shares]) == Sizes(rounds)[key := Sum(shares)];
  }

  lemma ArchivedDelete(rounds: map<RoundKey, map<string, int>>, key: RoundKey)
    ensures TotalArchived(rounds - {key}) == TotalArchived(rounds) - Sum(ReadHash(rounds, key))
  {
    assert Sizes(rounds - {key}) == Sizes(rounds) - {key};
    if key in rounds {
      SumRemove(Sizes(rounds), key);
    } else {
      assert rounds - {key} == rounds;
    }
  }

  // ------------------------------------------------------------------------------------------
  // What the unlocker holds in memory is still in the store

  ghost predicate Confirms(cfg: Config, candidates: map<CandidateRow, int>, b: BlockData) {
    && b.candidateKey.Some? && b.candidateKey.value in candidates
    && candidates[b.candidateKey.value] == b.height
    && b == HandleBlock(cfg, FromCandidate(b.candidateKey.value, b.height), b.hash) && |b.hash| >= LOGGED_HASH
  }

  ghost predicate Rejects(candidates: map<CandidateRow, int>, b: BlockData) {
    && b.candidateKey.Some? && b.candidateKey.value in candidates
    && candidates[b.candidateKey.value] == b.height
    && b == FromCandidate(b.candidateKey.value, b.height).(orphan := true)
  }

  ghost predicate Matures(cfg: Config, immature: map<BlockRow, int>, b: BlockData) {
    && b.immatureKey.Some? && b.immatureKey.value in immature
    && immature[b.immatureKey.value] == b.height
    && b == HandleBlock(cfg, FromBlockRow(b.immatureKey.value, b.height), b.hash) && |b.hash| >= LOGGED_HASH
  }

  ghost predicate Orphans(immature: map<BlockRow, int>, b: BlockData) {
    && b.immatureKey.Some? && b.immatureKey.value in immature
    && immature[b.immatureKey.value] == b.height
    && b == FromBlockRow(b.immatureKey.value, b.height).(orphan := true)
  }

  ghost predicate Distinct(blocks: seq<BlockData>) {
    forall i, j | 0 <= i < j < |blocks| :: DataId(blocks[i]) != DataId(blocks[j])
  }

  ghost predicate PassOk(cfg: Config, pass: Pass,
                         candidates: map<CandidateRow, int>, immature: map<BlockRow, int>)
  {
    match pass
    case Idle => true
    case PendingOrphans(orphans, todo) =>
      && Distinct(orphans + todo)
      && (forall i | 0 <= i < |orphans| :: Rejects(candidates, orphans[i]))
      && (forall i | 0 <= i < |todo| :: Confirms(cfg, candidates, todo[i]))
    case PendingBlocks(todo) =>
      && Distinct(todo)
      && (forall i | 0 <= i < |todo| :: Confirms(cfg, candidates, todo[i]))
    case Maturing(orphans, todo) =>
      && Distinct(orphans + todo)
      && (forall i | 0 <= i < |orphans| :: Orphans(immature, orphans[i]))
      && (forall i | 0 <= i < |todo| :: Matures(cfg, immature, todo[i]))
  }

  // ------------------------------------------------------------------------------------------
  // The log of credits against the matured rows and the money

  /** The rewards that a confirmed row is due for a round, from what the row itself records. */
  ghost function RowRewards(cfg: Config, row: BlockRow, shares: map<string, int>): map<string, int>
    requires CanSplit(shares, row.totalShares)
  {
    RoundRewards(cfg, HandleBlock(cfg, FromBlockRow(row, 0), row.hash), shares)
  }

  /** The rewards of a block depend on its total and its two reward fields only. */
  lemma RewardsDependOn(cfg: Config, a: BlockData, b: BlockData, shares: map<string, int>)
    requires a.reward == b.reward && a.extraReward == b.extraReward && a.totalShares == b.totalShares
    requires a.reward.Some? && CanSplit(shares, a.totalShares)
    ensures RoundRewards(cfg, a, shares) == RoundRewards(cfg, b, shares)
  {
    hide Split, Round, ChargeFee, ToLower;
  }

  ghost function LogTotal(log: seq<Credit>): int {
    if log == [] then 0 else LogTotal(log[..|log| - 1]) + Sum(log[|log| - 1].rewards)
  }

  /** What one login has been credited. */
  ghost function LogPaid(log: seq<Credit>, login: string): int {
    if log == [] then 0 else LogPaid(log[..|log| - 1], login) + Get(log[|log| - 1].rewards, login)
  }

  ghost function LogExact(cfg: Config, log: seq<Credit>): real {
    if log == [] then 0.0
    else LogExact(cfg, log[..|log| - 1]) + ExactOwed(cfg, log[|log| - 1].row.coinBase, log[|log| - 1].row.fee)
  }

  ghost function LogRoundings(cfg: Config, log: seq<Credit>): nat {
    if log == [] then 0
    else LogRoundings(cfg, log[..|log| - 1]) + Roundings(cfg, log[|log| - 1].shares)
  }

  ghost function LogMined(cfg: Config, log: seq<Credit>): int {
    if log == [] then 0
    else LogMined(cfg, log[..|log| - 1])
         + ToInt64(BaseReward(cfg, log[|log| - 1].row.coinBase, log[|log| - 1].row.fee))
  }

  /** Fees that the pool kept for itself on the blocks credited so far. */
  ghost function LogKept(cfg: Config, log: seq<Credit>): int {
    if log == [] then 0
    else LogKept(cfg, log[..|log| - 1]) + if cfg.keepTxFees then log[|log| - 1].row.fee else 0
  }

  /** A credit is the split of the very round that the block archived when it was found. */
  ghost predicate CreditOk(cfg: Config, c: Credit, roundOf: map<Id, map<string, int>>) {
    && RewardFits(c.row.coinBase, c.row.fee)
    && BlockId(c.row) in roundOf && c.shares == roundOf[BlockId(c.row)]
    && Sum(c.shares) == c.row.totalShares > 0
    && c.rewards == RowRewards(cfg, c.row, c.shares)
  }

  /** The rows of blocks that ended up matured and not orphaned. */
  ghost function PaidRows(matured: map<BlockRow, int>): set<BlockRow> {
    set row | row in matured && !row.orphan
  }

  ghost function LogRows(log: seq<Credit>): set<BlockRow> {
    set i | 0 <= i < |log| :: log[i].row
  }

  /** The log lists the paid rows, each once. */
  ghost predicate LogListed(log: seq<Credit>, matured: map<BlockRow, int>) {
    && (forall i, j | 0 <= i < j < |log| :: BlockId(log[i].row) != BlockId(log[j].row))
    && LogRows(log) == PaidRows(matured)
  }

  ghost predicate LogInOrder(cfg: Config, log: seq<Credit>, roundOf: map<Id, map<string, int>>) {
    forall i | 0 <= i < |log| :: CreditOk(cfg, log[i], roundOf)
  }

  /** Every miner has, or had paid out, exactly what the log credits them. */
  ghost predicate MoneyOk(cfg: Config, log: seq<Credit>, balance: map<string, int>, pending: map<string, int>,
                          paid: map<string, int>, totalMined: int)
  {
    && (forall login :: Get(balance, login) + Get(pending, login) + Get(paid, login) == LogPaid(log, login))
    && Sum(balance) + Sum(pending) + Sum(paid) == LogTotal(log)
    && totalMined == LogMined(cfg, log)
  }

  lemma CreditOkStays(cfg: Config, c: Credit, roundOf: map<Id, map<string, int>>, roundOf': map<Id, map<string, int>>)
    requires CreditOk(cfg, c, roundOf) && BlockId(c.row) in roundOf'
    requires roundOf'[BlockId(c.row)] == roundOf[BlockId(c.row)]
    ensures CreditOk(cfg, c, roundOf')
  {
    hide RowRewards, Sum, RewardFits;
  }

  lemma LogInOrderArchive(cfg: Config, log: seq<Credit>, roundOf: map<Id, map<string, int>>,
                          id: Id, shares: map<string, int>)
    requires LogInOrder(cfg, log, roundOf) && id !in roundOf
    ensures LogInOrder(cfg, log, roundOf[id := shares])
  {
    hide CreditOk;
    forall i | 0 <= i < |log|
      ensures CreditOk(cfg, log[i], roundOf[id := shares])
    {
      CreditHasRound(cfg, log[i], roundOf);
      CreditOkStays(cfg, log[i], roundOf, roundOf[id := shares]);
    }
  }

  lemma CreditHasRound(cfg: Config, c: Credit, roundOf: map<Id, map<string, int>>)
    requires CreditOk(cfg, c, roundOf)
    ensures BlockId(c.row) in roundOf
  {
    hide RowRewards, Sum;
  }

  lemma LogRowsMore(log: seq<Credit>, c: Credit)
    ensures LogRows(log + [c]) == LogRows(log) + {c.row}
  {
    var more := log + [c];
    assert more[|log|] == c && forall i | 0 <= i < |log| :: more[i] == log[i];
  }

  lemma PaidRowsMore(matured: map<BlockRow, int>, row: BlockRow, score: int)
    ensures PaidRows(matured[row := score]) == PaidRows(matured) + if row.orphan then {} else {row}
  {
    assert forall a | a in matured :: a in matured[row := score];
    assert row in matured[row := score];
  }

  lemma LogListedMore(log: seq<Credit>, matured: map<BlockRow, int>, c: Credit, score: int)
    requires LogListed(log, matured)
    requires !c.row.orphan && BlockId(c.row) !in BlockIdsOf(matured)
    ensures LogListed(log + [c], matured[c.row := score])
  {
    LogRowsMore(log, c);
    PaidRowsMore(matured, c.row, score);
    forall i | 0 <= i < |log|
      ensures BlockId(log[i].row) != BlockId(c.row)
    {
      assert log[i].row in LogRows(log) && log[i].row in PaidRows(matured);
      assert BlockId(log[i].row) in BlockIdsOf(matured);
    }
  }

  lemma LogListedOrphan(log: seq<Credit>, matured: map<BlockRow, int>, row: BlockRow, score: int)
    requires LogListed(log, matured) && row.orphan
    ensures LogListed(log, matured[row := score])
  {
    PaidRowsMore(matured, row, score);
  }

  lemma MoneyOkMore(cfg: Config, log: seq<Credit>, balance: map<string, int>, pending: map<string, int>,
                    paid: map<string, int>, totalMined: int, c: Credit)
    requires MoneyOk(cfg, log, balance, pending, paid, totalMined)
    ensures MoneyOk(cfg, log + [c], Plus(balance, c.rewards), pending, paid,
                    totalMined + ToInt64(BaseReward(cfg, c.row.coinBase, c.row.fee)))
  {
    hide Sum, ToInt64;
    assert (log + [c])[..|log|] == log;
    SumPlus(balance, c.rewards);
  }

  /** A credit is worth its block to within half a unit per rounding. */
  lemma CreditWithin(cfg: Config, c: Credit, roundOf: map<Id, map<string, int>>)
    requires CreditOk(cfg, c, roundOf)
    ensures Within(Sum(c.rewards), ExactOwed(cfg, c.row.coinBase, c.row.fee), Roundings(cfg, c.shares))
  {
    hide RoundRewards, Within, ExactOwed, Roundings, Sum;
    RewardsWithin(cfg, FromBlockRow(c.row, 0), c.row.hash, c.shares);
  }

  lemma {:induction false} LogWithin(cfg: Config, log: seq<Credit>, roundOf: map<Id, map<string, int>>)
    requires forall i | 0 <= i < |log| :: CreditOk(cfg, log[i], roundOf)
    ensures Within(LogTotal(log), LogExact(cfg, log), LogRoundings(cfg, log))
  {
    hide CreditOk, ExactOwed, Roundings, Sum, Within;
    if log == [] {
      NothingWithin();
    } else {
      var n := |log| - 1;
      var c := log[n];
      LogWithin(cfg, log[..n], roundOf);
      CreditWithin(cfg, c, roundOf);
      WithinAdd(LogTotal(log[..n]), LogExact(cfg, log[..n]), LogRoundings(cfg, log[..n]),
                Sum(c.rewards), ExactOwed(cfg, c.row.coinBase, c.row.fee), Roundings(cfg, c.shares));
    }
  }

  lemma NothingWithin()
    ensures Within(0, 0.0, 0)
  {
  }

  lemma NonNegativeProduct(a: real, b: real)
    requires a >= 0.0 && b >= 0.0
    ensures a * b >= 0.0 && a * (1.0 - b) == a - a * b
  {
  }

  lemma OwedAtMost(cfg: Config, coinBase: int, fee: int)
    requires ValidConfig(cfg) && RewardFits(coinBase, fee)
    ensures ExactOwed(cfg, coinBase, fee) <=
              (BaseReward(cfg, coinBase, fee) + if cfg.keepTxFees then fee else 0) as real
  {
    var base := BaseReward(cfg, coinBase, fee) as real;
    NonNegativeProduct(base, cfg.feeRate);
  }

  lemma RewardIsWithinInt64(cfg: Config, coinBase: int, fee: int)
    requires RewardFits(coinBase, fee)
    ensures ToInt64(BaseReward(cfg, coinBase, fee)) == BaseReward(cfg, coinBase, fee)
  {
  }

  lemma {:induction false} ExactAtMostMined(cfg: Config, log: seq<Credit>, roundOf: map<Id, map<string, int>>)
    requires ValidConfig(cfg) && forall i | 0 <= i < |log| :: CreditOk(cfg, log[i], roundOf)
    ensures LogExact(cfg, log) <= (LogMined(cfg, log) + LogKept(cfg, log)) as real
  {
    hide RowRewards, Sum, ExactOwed, BaseReward, ToInt64;
    if log != [] {
      var n := |log| - 1;
      ExactAtMostMined(cfg, log[..n], roundOf);
      OwedAtMost(cfg, log[n].row.coinBase, log[n].row.fee);
      RewardIsWithinInt64(cfg, log[n].row.coinBase, log[n].row.fee);
    }
  }
}
