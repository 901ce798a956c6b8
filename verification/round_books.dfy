/** Rounds and amounts: what every step keeps beside the ledger when shares have positive difficulty
    and found blocks are as the stratum server sends them (PoolRun.Proper). */
module RoundBooks {
  import opened Common
  import opened Sums
  import opened Hex
  import opened Blocks
  import opened Rewards
  import opened RedisStore
  import opened Unlocking
  import opened PoolRun
  import opened Invariants
  import opened Lifecycle

  ghost predicate Books(cfg: Config, w: World) {
    Ledger(cfg, w) && Rounds(cfg, w)
  }

  /** The rounds, what was archived, and the payments made for it. */
  ghost predicate Rounds(cfg: Config, w: World) {
    var s, hist := w.store, w.history;
    && AllPositive(s.roundCurrent)
    && Archives(s, w.inserting, hist)
    && hist.accepted == Sum(s.roundCurrent) + TotalArchived(s.rounds) + hist.retired
    && LogInOrder(cfg, hist.log, hist.roundOf)
  }

  /** Every block's round is archived under its own key, as it was, until the block matures. */
  ghost predicate Archives(s: Store, inserting: map<CandidateRow, int>, hist: History) {
    && RowsOk(s.candidates, inserting, s.immatureBlocks, s.rounds, hist.keyOf)
    && ArchiveOk(s.rounds, hist.keyOf, hist.roundOf, BlockIdsOf(s.maturedBlocks))
  }

  ghost predicate Placed(s: Store, inserting: map<CandidateRow, int>, hist: History) {
    Listed(s, inserting, hist) && Archives(s, inserting, hist)
  }

  lemma BooksMean(cfg: Config, w: World)
    requires Books(cfg, w)
    ensures Placed(w.store, w.inserting, w.history) && PassOk(cfg, w.pass, w.store.candidates, w.store.immatureBlocks)
  {
    hide Listed, Archives, PassOk, Agrees, LogListed, MoneyOk, LogInOrder, AllPositive, TotalArchived;
  }

  lemma InitBooks(cfg: Config)
    ensures Books(cfg, INIT)
  {
    hide Ledger, CandidateOk, BlockOk, CreditOk;
    InitLedger(cfg);
    EmptyRound();
    assert BlockIdsOf(map[]) == {};
    assert Sizes(map[]) == map[];
  }

  lemma EmptyRound()
    ensures AllPositive(map[]) && Sum<string>(map[]) == 0
  {
  }

  // ------------------------------------------------------------------------------------------
  // Stratum and payment steps

  /** Only the fields that Archives reads matter. */
  lemma ArchivesFrame(s: Store, t: Store, inserting: map<CandidateRow, int>, hist: History, hist': History)
    requires Archives(s, inserting, hist)
    requires t.candidates == s.candidates && t.immatureBlocks == s.immatureBlocks
    requires t.maturedBlocks == s.maturedBlocks && t.rounds == s.rounds
    requires hist'.keyOf == hist.keyOf && hist'.roundOf == hist.roundOf
    ensures Archives(t, inserting, hist')
  {
    hide RowsOk, ArchiveOk;
  }

  lemma IncrPositive(shares: map<string, int>, login: string, diff: int)
    requires AllPositive(shares) && diff > 0
    ensures AllPositive(Incr(shares, login, diff)) && Sum(Incr(shares, login, diff)) == Sum(shares) + diff > 0
  {
    SumSet(shares, login, Get(shares, login) + diff);
    SumNonNegative(shares);
  }

  lemma WriteShareKeepsRounds(cfg: Config, w: World, login: string, diff: int, fault: Fault)
    requires Rounds(cfg, w) && diff > 0
    ensures Rounds(cfg, Next(cfg, w, WriteShare(login, diff, fault)))
  {
    hide Archives, LogInOrder, AllPositive, Sum, TotalArchived, Incr;
    IncrPositive(w.store.roundCurrent, login, diff);
    ArchivesFrame(w.store, ShareTx(w.store, login, diff), w.inserting, w.history,
                  w.history.(accepted := w.history.accepted + diff));
  }

  /** A block whose round is archived now has no matured row yet. */
  lemma FreshIsNotMatured(s: Store, inserting: map<CandidateRow, int>, hist: History, id: Id)
    requires Listed(s, inserting, hist) && id !in hist.keyOf
    ensures id !in BlockIdsOf(s.maturedBlocks)
  {
    hide CandidateIds, BlockIdsOf;
  }

  lemma ArchiveKeepsArchives(s: Store, inserting: map<CandidateRow, int>, hist: History,
                             row: CandidateRow, height: int, shares: map<string, int>)
    requires Placed(s, inserting, hist)
    requires IsNonceText(row.nonce) && RewardFits(row.coinBase, row.fee)
    requires CandidateId(row) !in hist.keyOf && (height, row.nonce) !in hist.keyOf.Values
    requires AllPositive(shares) && Sum(shares) == row.totalShares > 0
    ensures var s' := s.(rounds := s.rounds[(height, row.nonce) := shares]);
            var hist' := hist.(keyOf := hist.keyOf[CandidateId(row) := (height, row.nonce)],
                               roundOf := hist.roundOf[CandidateId(row) := shares]);
            Archives(s', inserting, hist') && Archives(s', inserting[row := height], hist')
  {
    hide RowsOk, ArchiveOk, Listed, IsNonceText, RewardFits, BlockIdsOf;
    FreshIsNotMatured(s, inserting, hist, CandidateId(row));
    RowsOkArchive(s.candidates, inserting, s.immatureBlocks, s.rounds, hist.keyOf, row, height, shares);
    ArchiveOkAdd(s.rounds, hist.keyOf, hist.roundOf, BlockIdsOf(s.maturedBlocks),
                 CandidateId(row), (height, row.nonce), shares);
  }

  /** The new key holds no round yet. */
  lemma KeyIsFree(s: Store, inserting: map<CandidateRow, int>, hist: History, key: RoundKey)
    requires Archives(s, inserting, hist) && key !in hist.keyOf.Values
    ensures key !in s.rounds && hist.roundOf.Keys == hist.keyOf.Keys
  {
    hide CandidateOk, BlockOk;
  }

  lemma ArchiveRoundKeepsRounds(cfg: Config, w: World, step: Step)
    requires Books(cfg, w) && step.ArchiveRound? && FreshId(w, step.login, step.diff, step.found)
    requires FreshBlock(w, step.diff, step.height, step.found)
    ensures Rounds(cfg, Next(cfg, w, step))
  {
    hide Listed, Archives, Agrees, PassOk, LogListed, LogInOrder, MoneyOk, IsNonceText, RewardFits, AllPositive;
    hide TotalArchived;
    var s, hist := w.store, w.history;
    var shares := Incr(s.roundCurrent, step.login, step.diff);
    hide Incr;
    var row := FoundRow(s, step.login, step.diff, step.found);
    var key := (step.height, row.nonce);
    IncrPositive(s.roundCurrent, step.login, step.diff);
    KeyIsFree(s, w.inserting, hist, key);
    ArchiveKeepsArchives(s, w.inserting, hist, row, step.height, shares);
    ArchivedAdd(s.rounds, key, shares);
    LogInOrderArchive(cfg, hist.log, hist.roundOf, CandidateId(row), shares);
    var w' := Next(cfg, w, step);
    if !step.fault.NotApplied? {
      var t := s.(rounds := s.rounds[key := shares]);
      var kept := hist.(keyOf := hist.keyOf[CandidateId(row) := key],
                        roundOf := hist.roundOf[CandidateId(row) := shares]);
      ArchivesFrame(t, w'.store, w'.inserting, kept, w'.history);
      EmptyRound();
    }
  }

  lemma InsertKeepsArchives(s: Store, inserting: map<CandidateRow, int>, hist: History, row: CandidateRow)
    requires Archives(s, inserting, hist) && row in inserting
    ensures Archives(s, inserting - {row}, hist)
    ensures Archives(CandidateTx(s, row, inserting[row]), inserting - {row},
                     hist.(born := hist.born + {CandidateId(row)}))
  {
    hide KeysOk, ArchiveOk, BlockOk, CandidateOk;
    assert CandidateOk(row, inserting[row], s.rounds, hist.keyOf);
  }

  lemma InsertKeepsRounds(cfg: Config, w: World, row: CandidateRow, fault: Fault)
    requires Rounds(cfg, w) && row in w.inserting
    ensures Rounds(cfg, Next(cfg, w, InsertCandidate(row, fault)))
  {
    hide LogInOrder, Archives, AllPositive, TotalArchived, Sum;
    InsertKeepsArchives(w.store, w.inserting, w.history, row);
  }

  /** Steps that leave shares, rounds, rows and history alone. */
  lemma RoundsFrame(cfg: Config, w: World, w': World)
    requires Rounds(cfg, w)
    requires w'.store.roundCurrent == w.store.roundCurrent && w'.store.rounds == w.store.rounds
    requires w'.store.candidates == w.store.candidates && w'.store.immatureBlocks == w.store.immatureBlocks
    requires w'.store.maturedBlocks == w.store.maturedBlocks
    requires w'.inserting == w.inserting && w'.history == w.history
    ensures Rounds(cfg, w')
  {
    hide LogInOrder, Archives, AllPositive, TotalArchived, Sum;
    ArchivesFrame(w.store, w'.store, w.inserting, w.history, w'.history);
  }

  lemma PaymentKeepsRounds(cfg: Config, w: World, step: Step)
    requires Rounds(cfg, w)
    requires step.UpdateBalance? || step.RollbackBalance? || step.WritePayment?
    ensures Rounds(cfg, Next(cfg, w, step))
  {
    hide Rounds, Incr;
    RoundsFrame(cfg, w, Next(cfg, w, step));
  }

  lemma ReadKeepsRounds(cfg: Config, w: World, step: Step)
    requires Rounds(cfg, w)
    requires step.ReadCandidates? || step.ReadImmatureBlocks? || step.Restart?
    ensures Rounds(cfg, Next(cfg, w, step))
  {
    hide Rounds, Classify, ReadRows, ReadBlockRows;
    RoundsFrame(cfg, w, Next(cfg, w, step));
  }

  // ------------------------------------------------------------------------------------------
  // First pass

  /** The row that a candidate becomes is as good as the candidate. */
  lemma SameRound(s: Store, inserting: map<CandidateRow, int>, hist: History, c: CandidateRow, row: BlockRow)
    requires Archives(s, inserting, hist) && c in s.candidates && BlockId(row) == CandidateId(c)
    ensures BlockOk(row, s.candidates[c], s.rounds, hist.keyOf)
    ensures Archived(s.rounds, (s.candidates[c], c.nonce), c.totalShares)
  {
    hide KeysOk, ArchiveOk, BlockIdsOf, IsNonceText, RewardFits, Archived;
    assert CandidateOk(c, s.candidates[c], s.rounds, hist.keyOf);
  }

  lemma ToImmatureKeepsArchives(s: Store, inserting: map<CandidateRow, int>, hist: History, b: BlockData)
    requires Placed(s, inserting, hist)
    requires b.candidateKey.Some? && b.candidateKey.value in s.candidates
    requires s.candidates[b.candidateKey.value] == b.height == b.roundHeight
    requires DataId(b) == CandidateId(b.candidateKey.value)
    ensures Placed(ToImmature(s, b), inserting, hist)
  {
    hide BlockOk, CandidateOk, KeysOk, Listed, ArchiveOk, BlockIdsOf;
    var c, row := b.candidateKey.value, b.Key();
    ToImmatureKeepsListed(s, inserting, hist, b);
    ToImmatureFrame(s, b);
    SameRound(s, inserting, hist, c, row);
  }

  lemma {:induction false} RejectAllKeepsPlaced(cfg: Config, s: Store, inserting: map<CandidateRow, int>, hist: History,
                                                orphans: seq<BlockData>)
    requires Placed(s, inserting, hist) && Distinct(orphans)
    requires forall i | 0 <= i < |orphans| :: Rejects(s.candidates, orphans[i])
    ensures Placed(PendingOrphansTx(s, orphans), inserting, hist)
    decreases |orphans|
  {
    hide Placed, Rejects, ToImmature;
    if orphans != [] {
      var n := |orphans| - 1;
      RejectAllKeepsPlaced(cfg, s, inserting, hist, orphans[..n]);
      LastStillRejected(cfg, s, inserting, hist, orphans);
      var t := PendingOrphansTx(s, orphans[..n]);
      RejectFacts(t.candidates, orphans[n]);
      ToImmatureKeepsArchives(t, inserting, hist, orphans[n]);
    }
  }

  /** When its turn comes, an orphan is still a candidate. */
  lemma LastStillRejected(cfg: Config, s: Store, inserting: map<CandidateRow, int>, hist: History,
                          orphans: seq<BlockData>)
    requires Placed(s, inserting, hist) && Distinct(orphans) && orphans != []
    requires forall i | 0 <= i < |orphans| :: Rejects(s.candidates, orphans[i])
    ensures Rejects(PendingOrphansTx(s, orphans[..|orphans| - 1]).candidates, orphans[|orphans| - 1])
    ensures PendingOrphansTx(s, orphans[..|orphans| - 1]).rounds == s.rounds
  {
    hide Listed, Archives, Rejects, Confirms, PendingOrphansTx;
    var n := |orphans| - 1;
    var rest := [orphans[n]];
    assert orphans[..n] + rest == orphans;
    RejectAllKeepsListed(cfg, s, inserting, hist, orphans[..n], rest);
    assert rest[0] == orphans[n];
  }

  lemma DistinctHead(first: seq<BlockData>, rest: seq<BlockData>)
    requires Distinct(first + rest)
    ensures Distinct(first)
  {
    forall i, j | 0 <= i < j < |first|
      ensures DataId(first[i]) != DataId(first[j])
    {
      assert (first + rest)[i] == first[i] && (first + rest)[j] == first[j];
    }
  }

  lemma {:induction false} PendingOrphansRounds(s: Store, orphans: seq<BlockData>)
    requires forall i | 0 <= i < |orphans| :: orphans[i].roundHeight == orphans[i].height
    ensures PendingOrphansTx(s, orphans).rounds == s.rounds
    decreases |orphans|
  {
    if orphans != [] {
      PendingOrphansRounds(s, orphans[..|orphans| - 1]);
    }
  }

  lemma WritePendingOrphansKeepsRounds(cfg: Config, w: World, fault: Fault)
    requires Books(cfg, w) && w.pass.PendingOrphans?
    ensures Rounds(cfg, Next(cfg, w, WritePendingOrphans(fault)))
  {
    hide Listed, Archives, LogListed, LogInOrder, MoneyOk, Rejects, Confirms, Sum, PendingOrphansTx, Agrees;
    hide AllPositive, TotalArchived;
    var s := w.store;
    DistinctHead(w.pass.orphans, w.pass.todo);
    RejectAllKeepsPlaced(cfg, s, w.inserting, w.history, w.pass.orphans);
    forall i | 0 <= i < |w.pass.orphans|
      ensures w.pass.orphans[i].roundHeight == w.pass.orphans[i].height
    {
      RejectFacts(s.candidates, w.pass.orphans[i]);
    }
    PendingOrphansRounds(s, w.pass.orphans);
    PendingOrphansFrame(s, w.pass.orphans);
  }

  /** What the first pass knows of a block it is about to credit. */
  lemma ConfirmRound(cfg: Config, s: Store, inserting: map<CandidateRow, int>, hist: History, b: BlockData)
    requires Placed(s, inserting, hist) && Confirms(cfg, s.candidates, b)
    ensures b.roundHeight == b.height && b.reward.Some? && Archived(s.rounds, (b.height, b.nonce), b.totalShares)
    ensures BlockOk(b.Key(), b.height, s.rounds, hist.keyOf)
  {
    hide Listed, Archives, Archived, BlockOk, Confirms;
    ConfirmFacts(cfg, s.candidates, b);
    SameRound(s, inserting, hist, b.candidateKey.value, b.Key());
  }

  lemma ConfirmKeepsArchives(cfg: Config, s: Store, inserting: map<CandidateRow, int>, hist: History,
                             b: BlockData, rewards: map<string, int>)
    requires Placed(s, inserting, hist) && Confirms(cfg, s.candidates, b)
    ensures Archives(ImmatureTx(s, b, rewards), inserting, hist)
  {
    hide Listed, Archives, Confirms, ImmatureTx, ToImmature;
    ConfirmFacts(cfg, s.candidates, b);
    ToImmatureKeepsArchives(s, inserting, hist, b);
    ImmatureTxFrame(s, b, rewards);
    ArchivesFrame(ToImmature(s, b), ImmatureTx(s, b, rewards), inserting, hist, hist);
  }

  lemma WriteImmatureKeepsRounds(cfg: Config, w: World, sharesRead: bool, fault: Fault)
    requires Books(cfg, w) && w.pass.PendingBlocks? && w.pass.todo != []
    ensures Rounds(cfg, Next(cfg, w, WriteImmatureBlock(sharesRead, fault)))
  {
    hide Agrees, Listed, Archives, LogListed, LogInOrder, MoneyOk, Confirms, RoundRewards, Distinct, CanSplit;
    hide ImmatureTx;
    hide AllPositive, TotalArchived, Sum, ReadHash;
    var s, hist, b := w.store, w.history, w.pass.todo[0];
    assert Confirms(cfg, s.candidates, b);
    ConfirmFacts(cfg, s.candidates, b);
    var shares := ReadHash(s.rounds, (b.roundHeight, b.nonce));
    if CanSplit(shares, b.totalShares) {
      var rewards := RoundRewards(cfg, b, shares);
      ConfirmKeepsArchives(cfg, s, w.inserting, hist, b, rewards);
      ImmatureTxFrame(s, b, rewards);
    }
  }

  // ------------------------------------------------------------------------------------------
  // Second pass

  lemma RowKey(s: Store, inserting: map<CandidateRow, int>, hist: History, row: BlockRow)
    requires Archives(s, inserting, hist) && row in s.immatureBlocks
    ensures OneBlockPerRound(hist.keyOf)
    ensures BlockOk(row, s.immatureBlocks[row], s.rounds, hist.keyOf)
    ensures Archived(s.rounds, (s.immatureBlocks[row], row.nonce), row.totalShares)
    ensures BlockId(row) in hist.keyOf && hist.keyOf[BlockId(row)] == (s.immatureBlocks[row], row.nonce)
  {
    hide IsNonceText, RewardFits, Archived, CandidateOk, ArchiveOk, BlockIdsOf;
    assert BlockOk(row, s.immatureBlocks[row], s.rounds, hist.keyOf);
  }

  /** An immature row becomes a matured one, and its round goes. */
  lemma ToMaturedKeepsArchives(s: Store, inserting: map<CandidateRow, int>, hist: History, b: BlockData)
    requires Placed(s, inserting, hist)
    requires b.immatureKey.Some? && b.immatureKey.value in s.immatureBlocks
    requires b.roundHeight == b.height == s.immatureBlocks[b.immatureKey.value]
    requires DataId(b) == BlockId(b.immatureKey.value)
    ensures Archives(ToMatured(s, b), inserting, hist)
  {
    hide Partition, RowsOk, ArchiveOk;
    var row := b.immatureKey.value;
    RowKey(s, inserting, hist, row);
    RowsOkDelete(s.candidates, inserting, s.immatureBlocks, s.maturedBlocks, hist.born, s.rounds, hist.keyOf, row);
    ArchiveOkDelete(s.rounds, hist.keyOf, hist.roundOf, BlockIdsOf(s.maturedBlocks), BlockId(row));
    MaturedIds(s.maturedBlocks, b.Key(), b.height);
  }

  lemma MaturedIds(matured: map<BlockRow, int>, row: BlockRow, score: int)
    ensures BlockIdsOf(matured[row := score]) == BlockIdsOf(matured) + {BlockId(row)}
  {
    assert row in matured[row := score];
    assert forall a | a in matured :: a in matured[row := score];
  }

  /** A settled row: its round is counted as retired. */
  lemma SettleKeepsRounds(cfg: Config, w: World, b: BlockData, t: Store)
    requires Books(cfg, w) && Settles(w.store, t, b)
    requires b.immatureKey.Some? && b.immatureKey.value in w.store.immatureBlocks
    requires b.roundHeight == b.height == w.store.immatureBlocks[b.immatureKey.value]
    requires DataId(b) == BlockId(b.immatureKey.value)
    ensures var hist' := Retire(w.history, w.store, b);
            && AllPositive(t.roundCurrent) && Archives(t, w.inserting, hist')
            && hist'.accepted == Sum(t.roundCurrent) + TotalArchived(t.rounds) + hist'.retired
  {
    hide Ledger, Archives, LogInOrder, AllPositive, TotalArchived, Sum, ToMatured;
    LedgerIsListed(cfg, w);
    ToMaturedKeepsArchives(w.store, w.inserting, w.history, b);
    ArchivesFrame(ToMatured(w.store, b), t, w.inserting, w.history, Retire(w.history, w.store, b));
    ArchivedDelete(w.store.rounds, (b.roundHeight, b.nonce));
  }

  lemma LedgerIsListed(cfg: Config, w: World)
    requires Ledger(cfg, w)
    ensures Listed(w.store, w.inserting, w.history)
  {
    hide Listed, PassOk, LogListed, MoneyOk, Agrees;
  }

  lemma WriteOrphanKeepsRounds(cfg: Config, w: World, logRead: bool, fault: Fault)
    requires Books(cfg, w) && w.pass.Maturing? && w.pass.orphans != []
    ensures Rounds(cfg, Next(cfg, w, WriteOrphan(logRead, fault)))
  {
    hide Agrees, Listed, Archives, LogListed, LogInOrder, MoneyOk, Orphans, Matures, Distinct, TotalArchived;
    hide AllPositive, Sum;
    hide OrphanTx, Retire, ReadLog, Settles;
    var s, b := w.store, w.pass.orphans[0];
    assert Orphans(s.immatureBlocks, b);
    OrphanFacts(s.immatureBlocks, b);
    var logged := ReadLog(s, b, logRead);
    OrphanTxFrame(s, b, logged);
    SettleKeepsRounds(cfg, w, b, OrphanTx(s, b, logged));
    RetireKeeps(w.history, s, b);
  }

  lemma RetireKeeps(hist: History, s: Store, b: BlockData)
    ensures Retire(hist, s, b) == hist.(retired := Retire(hist, s, b).retired)
  {
  }

  /** The round of an immature row is the one its block archived when it was found. */
  lemma RowRound(s: Store, inserting: map<CandidateRow, int>, hist: History, row: BlockRow)
    requires Placed(s, inserting, hist) && row in s.immatureBlocks
    ensures var key := (s.immatureBlocks[row], row.nonce);
            && Archived(s.rounds, key, row.totalShares)
            && BlockId(row) in hist.roundOf && s.rounds[key] == hist.roundOf[BlockId(row)]
  {
    hide Listed, RowsOk, BlockOk, Archived, BlockIdsOf;
    RowKey(s, inserting, hist, row);
    ImmatureIsNotMatured(s, inserting, hist, row);
    assert RoundKept(BlockId(row), s.rounds, hist.keyOf, hist.roundOf, BlockIdsOf(s.maturedBlocks));
  }

  lemma MatureRound(cfg: Config, s: Store, inserting: map<CandidateRow, int>, hist: History, b: BlockData)
    requires Placed(s, inserting, hist) && Matures(cfg, s.immatureBlocks, b)
    ensures b.roundHeight == b.height && b.reward.Some? && RewardFits(b.coinBase, b.fee)
    ensures Archived(s.rounds, (b.height, b.nonce), b.totalShares)
    ensures BlockId(b.Key()) in hist.roundOf && s.rounds[(b.height, b.nonce)] == hist.roundOf[BlockId(b.Key())]
  {
    hide Listed, Archives, Archived, Matures, IsNonceText, RewardFits;
    MatureFacts(cfg, s.immatureBlocks, b);
    RowKey(s, inserting, hist, b.immatureKey.value);
    RowRound(s, inserting, hist, b.immatureKey.value);
  }

  /** The credit logged for a maturing block is in order: its rewards are those of its row. */
  lemma MatureCredit(cfg: Config, b: BlockData, shares: map<string, int>, roundOf: map<Id, map<string, int>>)
    requires b.reward == Some(BaseReward(cfg, b.coinBase, b.fee))
    requires b.extraReward == if cfg.keepTxFees then Some(b.fee) else None
    requires RewardFits(b.coinBase, b.fee) && Sum(shares) == b.totalShares > 0
    requires BlockId(b.Key()) in roundOf && shares == roundOf[BlockId(b.Key())]
    ensures CanSplit(shares, b.totalShares)
    ensures CreditOk(cfg, Credit(b.Key(), shares, RoundRewards(cfg, b, shares)), roundOf)
  {
    hide RoundRewards, Sum;
    RewardsDependOn(cfg, b, HandleBlock(cfg, FromBlockRow(b.Key(), 0), b.Key().hash), shares);
  }

  lemma MatureRewardFields(cfg: Config, rows: map<BlockRow, int>, b: BlockData)
    requires Matures(cfg, rows, b)
    ensures b.reward == Some(BaseReward(cfg, b.coinBase, b.fee))
    ensures b.extraReward == if cfg.keepTxFees then Some(b.fee) else None
  {
  }

  lemma CanSplitRound(rounds: map<RoundKey, map<string, int>>, key: RoundKey, total: int)
    requires Archived(rounds, key, total)
    ensures key in rounds && ReadHash(rounds, key) == rounds[key] && Sum(rounds[key]) == total > 0
    ensures CanSplit(rounds[key], total)
  {
  }

  lemma LogInOrderMore(cfg: Config, log: seq<Credit>, roundOf: map<Id, map<string, int>>, c: Credit)
    requires LogInOrder(cfg, log, roundOf) && CreditOk(cfg, c, roundOf)
    ensures LogInOrder(cfg, log + [c], roundOf)
  {
    hide CreditOk;
  }

  lemma WriteMaturedKeepsRounds(cfg: Config, w: World, sharesRead: bool, logRead: bool, fault: Fault)
    requires Books(cfg, w) && w.pass.Maturing? && w.pass.orphans == [] && w.pass.todo != []
    ensures Rounds(cfg, Next(cfg, w, WriteMaturedBlock(sharesRead, logRead, fault)))
  {
    hide Agrees, Listed, Archives, LogListed, LogInOrder, MoneyOk, Orphans, Matures, RoundRewards, Distinct, MaturedTx;
    hide RewardFits, AllPositive, Sum, TotalArchived, ReadLog, Archived, CreditOk, Settles, CanSplit, Retire;
    var s, hist, b := w.store, w.history, w.pass.todo[0];
    assert Matures(cfg, s.immatureBlocks, b);
    MatureFacts(cfg, s.immatureBlocks, b);
    MatureRewardFields(cfg, s.immatureBlocks, b);
    MatureRound(cfg, s, w.inserting, hist, b);
    CanSplitRound(s.rounds, (b.height, b.nonce), b.totalShares);
    var shares := s.rounds[(b.height, b.nonce)];
    var logged, rewards := ReadLog(s, b, logRead), RoundRewards(cfg, b, shares);
    MaturedTxFrame(s, b, logged, rewards);
    SettleKeepsRounds(cfg, w, b, MaturedTx(s, b, logged, rewards));
    MatureCredit(cfg, b, shares, hist.roundOf);
    LogInOrderMore(cfg, hist.log, hist.roundOf, Credit(b.Key(), shares, rewards));
    RetireKeeps(hist, s, b);
    var hist' := Retire(hist, s, b).(log := hist.log + [Credit(b.Key(), shares, rewards)]);
    ArchivesFrame(MaturedTx(s, b, logged, rewards), MaturedTx(s, b, logged, rewards), w.inserting, Retire(hist, s, b),
                  hist');
  }

  // ------------------------------------------------------------------------------------------
  // Runs

  lemma NextKeepsBooks(cfg: Config, w: World, step: Step)
    requires Books(cfg, w) && Enabled(w, step) && ProperStep(w, step)
    ensures Books(cfg, Next(cfg, w, step))
  {
    hide Ledger, Rounds, RoundRewards, Classify, ReadRows, ReadBlockRows, FreshBlock, FreshId, Ranges;
    NextKeepsLedger(cfg, w, step);
    match step
    case WriteShare(login, diff, fault) => WriteShareKeepsRounds(cfg, w, login, diff, fault);
    case ArchiveRound(_, _, _, _, _) => ArchiveRoundKeepsRounds(cfg, w, step);
    case InsertCandidate(row, fault) => InsertKeepsRounds(cfg, w, row, fault);
    case ReadCandidates(_, _, _) => ReadKeepsRounds(cfg, w, step);
    case WritePendingOrphans(fault) => WritePendingOrphansKeepsRounds(cfg, w, fault);
    case WriteImmatureBlock(sharesRead, fault) => WriteImmatureKeepsRounds(cfg, w, sharesRead, fault);
    case ReadImmatureBlocks(_, _, _) => ReadKeepsRounds(cfg, w, step);
    case WriteOrphan(logRead, fault) => WriteOrphanKeepsRounds(cfg, w, logRead, fault);
    case WriteMaturedBlock(sharesRead, logRead, fault) => WriteMaturedKeepsRounds(cfg, w, sharesRead, logRead, fault);
    case Restart => ReadKeepsRounds(cfg, w, step);
    case _ => PaymentKeepsRounds(cfg, w, step);
  }

  lemma {:induction false} RunBooks(cfg: Config, worlds: seq<World>, steps: seq<Step>, i: nat)
    requires IsRun(cfg, worlds, steps) && Proper(worlds, steps) && i < |worlds|
    ensures Books(cfg, worlds[i])
  {
    hide Books, Next, Enabled, ProperStep;
    if i == 0 {
      InitBooks(cfg);
    } else {
      RunBooks(cfg, worlds, steps, i - 1);
      NextKeepsBooks(cfg, worlds[i - 1], steps[i - 1]);
    }
  }
}
