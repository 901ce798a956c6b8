/** The part of the Redis key space that carries money, rounds and blocks, and the effect of
    each transaction on it (storage/redis.go:189-275, 433-600). A transaction is one atomic
    function from store to store. */
module RedisStore {
  import opened Common
  import opened Sums
  import opened Blocks

  type RoundKey = (int, string)

  datatype Finances = Finances(immature: int, balance: int, pending: int, paid: int, totalMined: int)

  datatype Store = Store(
    roundCurrent: map<string, int>,
    roundShares: int,
    rounds: map<RoundKey, map<string, int>>,
    candidates: map<CandidateRow, int>,
    immatureBlocks: map<BlockRow, int>,
    maturedBlocks: map<BlockRow, int>,
    immature: map<string, int>,
    balance: map<string, int>,
    pending: map<string, int>,
    paid: map<string, int>,
    finances: Finances,
    creditsImmature: map<RoundKey, map<string, int>>,
    credits: map<RoundKey, map<string, int>>)

  const EMPTY_STORE: Store :=
    Store(map[], 0, map[], map[], map[], map[], map[], map[], map[], map[], Finances(0, 0, 0, 0, 0), map[], map[])

  /** HGETALL; a missing hash reads as empty. */
  function ReadHash<K>(hashes: map<K, map<string, int>>, key: K): map<string, int> {
    if key in hashes then hashes[key] else map[]
  }

  /** One HSETNX per entry: fields that exist keep their value, and no hash appears for no entry. */
  function SetIfAbsent<K>(hashes: map<K, map<string, int>>, key: K, entries: map<string, int>)
    : map<K, map<string, int>>
  {
    if entries == map[] then hashes else hashes[key := entries + ReadHash(hashes, key)]
  }

  /** RENAME: the target is overwritten; a missing source changes nothing. */
  function Rename<V>(hashes: map<RoundKey, V>, source: RoundKey, target: RoundKey): map<RoundKey, V> {
    if source in hashes then (hashes - {source})[target := hashes[source]] else hashes
  }

  /** Transaction of WriteShare. */
  function ShareTx(s: Store, login: string, diff: int): Store {
    s.(roundCurrent := Incr(s.roundCurrent, login, diff), roundShares := s.roundShares + diff)
  }

  /** Transaction of WriteBlock: the share is counted, then the round is archived. */
  function BlockTx(s: Store, login: string, diff: int, height: int, nonce: string): Store {
    s.(rounds := s.rounds[(height, nonce) := Incr(s.roundCurrent, login, diff)],
       roundCurrent := map[],
       roundShares := 0)
  }

  /** The ZADD that follows it. */
  function CandidateTx(s: Store, row: CandidateRow, height: int): Store {
    s.(candidates := s.candidates[row := height])
  }

  function MoveRound(rounds: map<RoundKey, map<string, int>>, b: BlockData): map<RoundKey, map<string, int>> {
    if b.height != b.roundHeight then Rename(rounds, (b.roundHeight, b.nonce), (b.height, b.nonce)) else rounds
  }

  /** writeImmatureBlock. */
  function ToImmature(s: Store, b: BlockData): Store {
    s.(rounds := MoveRound(s.rounds, b),
       candidates := if b.candidateKey.Some? then s.candidates - {b.candidateKey.value} else s.candidates,
       immatureBlocks := s.immatureBlocks[b.Key() := b.height])
  }

  /** writeMaturedBlock. */
  function ToMatured(s: Store, b: BlockData): Store {
    s.(rounds := s.rounds - {(b.roundHeight, b.nonce)},
       immatureBlocks := if b.immatureKey.Some? then s.immatureBlocks - {b.immatureKey.value} else s.immatureBlocks,
       maturedBlocks := s.maturedBlocks[b.Key() := b.height])
  }

  /** Transaction of WriteImmatureBlock. */
  ghost function ImmatureTx(s: Store, b: BlockData, rewards: map<string, int>): Store {
    ToImmature(s, b).(
      immature := Plus(s.immature, rewards),
      creditsImmature := SetIfAbsent(s.creditsImmature, (b.height, b.hash), rewards),
      finances := s.finances.(immature := s.finances.immature + Sum(rewards)))
  }

  /** Transaction of WritePendingOrphans. */
  ghost function PendingOrphansTx(s: Store, blocks: seq<BlockData>): Store
    decreases |blocks|
  {
    if blocks == [] then s
    else ToImmature(PendingOrphansTx(s, blocks[..|blocks| - 1]), blocks[|blocks| - 1])
  }

  /** HGETALL of a block's log entry. Its error is not looked at: a read that fails yields no
      entries (storage/redis.go:507, 551). */
  function ReadLog(s: Store, b: BlockData, logRead: bool): map<string, int> {
    if logRead then ReadHash(s.creditsImmature, (b.roundHeight, b.hash)) else map[]
  }

  /** Transaction of WriteMaturedBlock: immature falls by the logged credits that were read,
      balance rises by the rewards computed now, and the log entry goes in any case. */
  ghost function MaturedTx(s: Store, b: BlockData, logged: map<string, int>, rewards: map<string, int>): Store
    requires b.reward.Some?
  {
    ToMatured(s, b).(
      immature := Minus(s.immature, logged),
      balance := Plus(s.balance, rewards),
      creditsImmature := s.creditsImmature - {(b.roundHeight, b.hash)},
      credits := SetIfAbsent(s.credits, (b.height, b.hash), rewards),
      finances := s.finances.(
        immature := s.finances.immature - Sum(logged),
        balance := s.finances.balance + Sum(rewards),
        totalMined := s.finances.totalMined + ToInt64(b.reward.value)))
  }

  /** Transaction of WriteOrphan. */
  ghost function OrphanTx(s: Store, b: BlockData, logged: map<string, int>): Store {
    ToMatured(s, b).(
      immature := Minus(s.immature, logged),
      creditsImmature := s.creditsImmature - {(b.roundHeight, b.hash)},
      finances := s.finances.(immature := s.finances.immature - Sum(logged)))
  }

  /** Transaction of UpdateBalance. RollbackBalance is the same move with the amount negated. */
  function UpdateBalanceTx(s: Store, login: string, amount: int): Store {
    s.(balance := Incr(s.balance, login, -amount),
       pending := Incr(s.pending, login, amount),
       finances := s.finances.(balance := s.finances.balance - amount, pending := s.finances.pending + amount))
  }

  /** Transaction of WritePayment. */
  function WritePaymentTx(s: Store, login: string, amount: int): Store {
    s.(pending := Incr(s.pending, login, -amount),
       paid := Incr(s.paid, login, amount),
       finances := s.finances.(pending := s.finances.pending - amount, paid := s.finances.paid + amount))
  }

  // ------------------------------------------------------------------------------------------
  // Ledger agreement: the pool-wide totals are the sums over the miners. No transaction needs an
  // assumption about the block, the rewards or the amounts for this.

  ghost predicate Agrees(s: Store) {
    && s.finances.immature == Sum(s.immature)
    && s.finances.balance == Sum(s.balance)
    && s.finances.pending == Sum(s.pending)
    && s.finances.paid == Sum(s.paid)
    && s.roundShares == Sum(s.roundCurrent)
  }

  /** What the pool owes or has paid. */
  ghost function Owed(s: Store): int {
    Sum(s.balance) + Sum(s.pending) + Sum(s.paid)
  }

  lemma EmptyAgrees()
    ensures Agrees(EMPTY_STORE)
  {
  }

  lemma ShareAgrees(s: Store, login: string, diff: int)
    requires Agrees(s)
    ensures Agrees(ShareTx(s, login, diff))
  {
    SumSet(s.roundCurrent, login, Get(s.roundCurrent, login) + diff);
  }

  lemma BlockAgrees(s: Store, login: string, diff: int, height: int, nonce: string)
    requires Agrees(s)
    ensures Agrees(BlockTx(s, login, diff, height, nonce))
  {
  }

  lemma ImmatureAgrees(s: Store, b: BlockData, rewards: map<string, int>)
    requires Agrees(s)
    ensures Agrees(ImmatureTx(s, b, rewards)) && Owed(ImmatureTx(s, b, rewards)) == Owed(s)
  {
    SumPlus(s.immature, rewards);
  }

  /** Moving orphaned candidates touches only the rounds, the candidates and the immature rows. */
  lemma {:induction false} PendingOrphansFrame(s: Store, blocks: seq<BlockData>)
    ensures var s' := PendingOrphansTx(s, blocks);
            s' == s.(rounds := s'.rounds, candidates := s'.candidates, immatureBlocks := s'.immatureBlocks)
    decreases |blocks|
  {
    if blocks != [] {
      PendingOrphansFrame(s, blocks[..|blocks| - 1]);
    }
  }

  /** No orphan of the batch is a candidate afterwards, and no candidate has appeared. */
  lemma {:induction false} PendingOrphansLeave(s: Store, blocks: seq<BlockData>)
    ensures var left := PendingOrphansTx(s, blocks).candidates;
            && left.Keys <= s.candidates.Keys
            && forall i | 0 <= i < |blocks| :: blocks[i].candidateKey.Some? ==> blocks[i].candidateKey.value !in left
    decreases |blocks|
  {
    if blocks != [] {
      PendingOrphansLeave(s, blocks[..|blocks| - 1]);
    }
  }

  lemma MaturedAgrees(s: Store, b: BlockData, logged: map<string, int>, rewards: map<string, int>)
    requires Agrees(s) && b.reward.Some?
    ensures Agrees(MaturedTx(s, b, logged, rewards))
    ensures Owed(MaturedTx(s, b, logged, rewards)) == Owed(s) + Sum(rewards)
  {
    hide Sum, Plus, Minus, SetIfAbsent;
    SumPlus(s.balance, rewards);
    SumMinus(s.immature, logged);
  }

  lemma OrphanAgrees(s: Store, b: BlockData, logged: map<string, int>)
    requires Agrees(s)
    ensures Agrees(OrphanTx(s, b, logged)) && Owed(OrphanTx(s, b, logged)) == Owed(s)
  {
    hide Sum, Minus;
    SumMinus(s.immature, logged);
  }

  lemma UpdateBalanceAgrees(s: Store, login: string, amount: int)
    requires Agrees(s)
    ensures Agrees(UpdateBalanceTx(s, login, amount)) && Owed(UpdateBalanceTx(s, login, amount)) == Owed(s)
  {
    SumSet(s.balance, login, Get(s.balance, login) - amount);
    SumSet(s.pending, login, Get(s.pending, login) + amount);
  }

  lemma WritePaymentAgrees(s: Store, login: string, amount: int)
    requires Agrees(s)
    ensures Agrees(WritePaymentTx(s, login, amount)) && Owed(WritePaymentTx(s, login, amount)) == Owed(s)
  {
    SumSet(s.pending, login, Get(s.pending, login) - amount);
    SumSet(s.paid, login, Get(s.paid, login) + amount);
  }
}
