/** What holds at every moment of every run of the pool's accounting, whatever fails on the way. */
module Guarantees {
  import opened Common
  import opened Sums
  import opened Hex
  import opened Blocks
  import opened Rewards
  import opened RedisStore
  import opened Unlocking
  import opened PoolRun
  import opened Invariants
  import opened Lifecycle
  import opened RoundBooks
  import opened CreditLog

  /** The pool-wide totals are the sums over the miners, whatever blocks are found and whatever the
      daemon reports. */
  lemma LedgerAgreement(cfg: Config, worlds: seq<World>, steps: seq<Step>, i: nat)
    requires IsRun(cfg, worlds, steps) && i < |worlds|
    ensures var s := worlds[i].store;
            && s.finances.immature == Sum(s.immature) && s.finances.balance == Sum(s.balance)
            && s.finances.pending == Sum(s.pending) && s.finances.paid == Sum(s.paid)
            && s.roundShares == Sum(s.roundCurrent)
  {
    hide Listed, PassOk, LogListed, MoneyOk, Sum;
    RunLedger(cfg, worlds, steps, i);
  }

  /** What is logged belongs to confirmed blocks that are still immature, if the daemon names blocks
      consistently, even when reads of the log fail. */
  lemma EntriesAreImmature(cfg: Config, ids: BlockIds, worlds: seq<World>, steps: seq<Step>, i: nat, key: RoundKey)
    requires ValidIds(ids) && IsRun(cfg, worlds, steps) && Proper(worlds, steps) && Truthful(ids, worlds, steps)
    requires i < |worlds|
    ensures var s := worlds[i].store;
            key in s.creditsImmature ==>
              exists row :: row in s.immatureBlocks && !row.orphan && key == (s.immatureBlocks[row], row.hash)
  {
    hide RowCredited, Named;
    RunLog(cfg, ids, worlds, steps, i);
  }

  ghost predicate InCandidates(s: Store, id: Id) { exists row :: row in s.candidates && CandidateId(row) == id }
  ghost predicate InImmature(s: Store, id: Id) { exists row :: row in s.immatureBlocks && BlockId(row) == id }
  ghost predicate InMatured(s: Store, id: Id) { exists row :: row in s.maturedBlocks && BlockId(row) == id }

  ghost function TimesCredited(log: seq<Credit>, id: Id): nat {
    if log == [] then 0
    else TimesCredited(log[..|log| - 1], id) + if BlockId(log[|log| - 1].row) == id then 1 else 0
  }

  /** Every found block that reached the candidates is in exactly one of the three sorted sets,
      in a single row, and is credited to balances once if it ended up matured and not orphaned,
      otherwise never. */
  lemma ExactlyOnce(cfg: Config, worlds: seq<World>, steps: seq<Step>, i: nat, id: Id)
    requires IsRun(cfg, worlds, steps) && i < |worlds|
    ensures var w := worlds[i];
            var s := w.store;
            && (id in w.history.born <==> InCandidates(s, id) || InImmature(s, id) || InMatured(s, id))
            && !(InCandidates(s, id) && InImmature(s, id))
            && !(InCandidates(s, id) && InMatured(s, id))
            && !(InImmature(s, id) && InMatured(s, id))
            && OneRowPerCandidate(s.candidates) && OneRowPerBlock(s.immatureBlocks) && OneRowPerBlock(s.maturedBlocks)
            && TimesCredited(w.history.log, id) ==
                 if exists row :: row in s.maturedBlocks && BlockId(row) == id && !row.orphan then 1 else 0
  {
    hide Agrees, PassOk, MoneyOk;
    RunLedger(cfg, worlds, steps, i);
    var w := worlds[i];
    var s := w.store;
    assert InCandidates(s, id) <==> id in CandidateIds(s.candidates);
    assert InImmature(s, id) <==> id in BlockIdsOf(s.immatureBlocks);
    assert InMatured(s, id) <==> id in BlockIdsOf(s.maturedBlocks);
    CountOnce(w.history.log, id);
    assert forall row :: row in PaidRows(s.maturedBlocks) <==> row in s.maturedBlocks && !row.orphan;
  }

  /** Money moves by the log of payments alone: the log lists the matured rows that are not orphaned,
      each once; every miner has, or had paid out, exactly what it gives them; and totalMined is the
      sum of its blocks' rewards. */
  lemma MoneyFollowsLog(cfg: Config, worlds: seq<World>, steps: seq<Step>, i: nat, login: string)
    requires IsRun(cfg, worlds, steps) && i < |worlds|
    ensures var s, log := worlds[i].store, worlds[i].history.log;
            && LogListed(log, s.maturedBlocks)
            && Get(s.balance, login) + Get(s.pending, login) + Get(s.paid, login) == LogPaid(log, login)
            && Owed(s) == LogTotal(log) && s.finances.totalMined == LogMined(cfg, log)
  {
    hide Agrees, PassOk, Listed, LogListed, Sum;
    RunLedger(cfg, worlds, steps, i);
  }

  lemma {:induction false} CountOnce(log: seq<Credit>, id: Id)
    requires forall i, j | 0 <= i < j < |log| :: BlockId(log[i].row) != BlockId(log[j].row)
    ensures TimesCredited(log, id) == if exists row :: row in LogRows(log) && BlockId(row) == id then 1 else 0
  {
    if log == [] {
      assert LogRows(log) == {};
    } else {
      var n := |log| - 1;
      CountOnce(log[..n], id);
      assert log == log[..n] + [log[n]];
      LogRowsMore(log[..n], log[n]);
      if BlockId(log[n].row) == id {
        assert log[n].row in LogRows(log);
        assert forall row | row in LogRows(log[..n]) :: BlockId(row) != id;
      } else {
        assert forall row :: row in LogRows(log) && BlockId(row) == id <==>
                             row in LogRows(log[..n]) && BlockId(row) == id;
      }
    }
  }

  /** How far a found block has come. */
  ghost function Stage(s: Store, id: Id): nat {
    if InMatured(s, id) then 3 else if InImmature(s, id) then 2 else if InCandidates(s, id) then 1 else 0
  }

  /** Rows that a step leaves alone, or only adds to the matured rows. */
  ghost predicate OnlyMatures(s: Store, t: Store) {
    s.maturedBlocks.Keys <= t.maturedBlocks.Keys && t.candidates.Keys <= s.candidates.Keys
  }

  lemma TxRowsMove(s: Store, b: BlockData, logged: map<string, int>, rewards: map<string, int>)
    ensures OnlyMatures(s, ImmatureTx(s, b, rewards)) && OnlyMatures(s, OrphanTx(s, b, logged))
    ensures b.reward.Some? ==> OnlyMatures(s, MaturedTx(s, b, logged, rewards))
  {
    hide Sum, Plus, Minus, SetIfAbsent, Rename, ToInt64;
  }

  ghost predicate RowsOnlyMature(cfg: Config, w: World, step: Step) {
    OnlyMatures(w.store, Next(cfg, w, step).store) && Next(cfg, w, step).history.born == w.history.born
  }

  lemma StaysPut(s: Store)
    ensures OnlyMatures(s, s)
  {
  }

  lemma PendingOrphansRowsMove(cfg: Config, w: World, step: Step)
    requires step.WritePendingOrphans?
    ensures RowsOnlyMature(cfg, w, step)
  {
    hide PendingOrphansTx, Sum;
    PendingOrphansFrame(w.store, if w.pass.PendingOrphans? then w.pass.orphans else []);
    PendingOrphansLeave(w.store, if w.pass.PendingOrphans? then w.pass.orphans else []);
  }

  lemma ImmatureRowsMove(cfg: Config, w: World, step: Step)
    requires step.WriteImmatureBlock?
    ensures RowsOnlyMature(cfg, w, step)
  {
    hide RoundRewards, Sum, CanSplit, ImmatureTx, OnlyMatures, ReadHash;
    StaysPut(w.store);
    if w.pass.PendingBlocks? && w.pass.todo != [] {
      var b := w.pass.todo[0];
      var shares := ReadHash(w.store.rounds, (b.roundHeight, b.nonce));
      if b.reward.Some? && CanSplit(shares, b.totalShares) {
        TxRowsMove(w.store, b, map[], RoundRewards(cfg, b, shares));
      }
    }
  }

  lemma OrphanRowsMove(cfg: Config, w: World, step: Step)
    requires step.WriteOrphan?
    ensures RowsOnlyMature(cfg, w, step)
  {
    hide Sum, OrphanTx, OnlyMatures, ReadHash, ReadLog;
    StaysPut(w.store);
    if w.pass.Maturing? && w.pass.orphans != [] {
      TxRowsMove(w.store, w.pass.orphans[0], ReadLog(w.store, w.pass.orphans[0], step.logRead), map[]);
    }
  }

  lemma MaturedRowsMove(cfg: Config, w: World, step: Step)
    requires step.WriteMaturedBlock?
    ensures RowsOnlyMature(cfg, w, step)
  {
    hide RoundRewards, Sum, CanSplit, MaturedTx, OnlyMatures, ReadHash, ReadLog;
    StaysPut(w.store);
    if w.pass.Maturing? && w.pass.todo != [] {
      var b := w.pass.todo[0];
      var shares := ReadHash(w.store.rounds, (b.roundHeight, b.nonce));
      if b.reward.Some? && CanSplit(shares, b.totalShares) {
        TxRowsMove(w.store, b, ReadLog(w.store, b, step.logRead), RoundRewards(cfg, b, shares));
      }
    }
  }

  /** One step only adds matured rows, and takes new candidates only from those being inserted. */
  lemma RowsMove(cfg: Config, w: World, step: Step)
    ensures var w' := Next(cfg, w, step);
            && w.store.maturedBlocks.Keys <= w'.store.maturedBlocks.Keys
            && w.history.born <= w'.history.born
            && w'.store.candidates.Keys <= w.store.candidates.Keys + w.inserting.Keys
  {
    match step
    case WritePendingOrphans(_) => hide Next; PendingOrphansRowsMove(cfg, w, step);
    case WriteImmatureBlock(_, _) => hide Next; ImmatureRowsMove(cfg, w, step);
    case WriteOrphan(_, _) => hide Next; OrphanRowsMove(cfg, w, step);
    case WriteMaturedBlock(_, _, _) => hide Next; MaturedRowsMove(cfg, w, step);
    case WriteShare(_, _, _) => hide Incr;
    case ArchiveRound(_, _, _, _, _) => hide Incr, Sum;
    case InsertCandidate(_, _) =>
    case ReadCandidates(_, _, _) => hide Next; ReadFrame(cfg, w, step); ReadKeepsBorn(cfg, w, step);
    case ReadImmatureBlocks(_, _, _) => hide Next; ReadFrame(cfg, w, step); ReadKeepsBorn(cfg, w, step);
    case _ => hide Incr;
  }

  lemma ReadKeepsBorn(cfg: Config, w: World, step: Step)
    requires step.ReadCandidates? || step.ReadImmatureBlocks?
    ensures Next(cfg, w, step).history == w.history
  {
    hide Classify, ReadRows, ReadBlockRows;
  }

  lemma StageMoves(cfg: Config, w: World, step: Step, id: Id)
    requires Ledger(cfg, w) && Enabled(w, step)
    ensures Stage(w.store, id) <= Stage(Next(cfg, w, step).store, id)
  {
    hide Ledger, Next, Enabled;
    var w' := Next(cfg, w, step);
    NextKeepsLedger(cfg, w, step);
    RowsMove(cfg, w, step);
    Stages(cfg, w, id);
    Stages(cfg, w', id);
    if id in w.history.born && InCandidates(w'.store, id) {
      var row :| row in w'.store.candidates && CandidateId(row) == id;
      assert row in w.inserting ==> id in CandidateIds(w.inserting);
      assert InCandidates(w.store, id);
    }
  }

  lemma Stages(cfg: Config, w: World, id: Id)
    requires Ledger(cfg, w)
    ensures id in w.history.born <==> Stage(w.store, id) > 0
    ensures id in w.history.born ==> id !in CandidateIds(w.inserting)
    ensures InCandidates(w.store, id) ==> Stage(w.store, id) == 1
  {
    hide Agrees, PassOk, LogListed, MoneyOk;
    var s := w.store;
    assert InCandidates(s, id) <==> id in CandidateIds(s.candidates);
    assert InImmature(s, id) <==> id in BlockIdsOf(s.immatureBlocks);
    assert InMatured(s, id) <==> id in BlockIdsOf(s.maturedBlocks);
  }

  /** A block only moves forward: from the candidates to the immature to the matured rows, in
      every run, whatever fails and however often the unlocker starts over. */
  lemma {:induction false} NeverBack(cfg: Config, worlds: seq<World>, steps: seq<Step>,
                                     i: nat, j: nat, id: Id)
    requires IsRun(cfg, worlds, steps) && i <= j < |worlds|
    ensures Stage(worlds[i].store, id) <= Stage(worlds[j].store, id)
  {
    hide Ledger, Stage, Next, Enabled;
    if i < j {
      NeverBack(cfg, worlds, steps, i, j - 1, id);
      RunLedger(cfg, worlds, steps, j - 1);
      StageMoves(cfg, worlds[j - 1], steps[j - 1], id);
    }
  }

  /** What one login is due for a matured row, from the round its block archived when it was found. */
  ghost function PaidFor(cfg: Config, row: BlockRow, roundOf: map<Id, map<string, int>>, login: string): int {
    if BlockId(row) in roundOf && CanSplit(roundOf[BlockId(row)], row.totalShares)
    then Get(RowRewards(cfg, row, roundOf[BlockId(row)]), login) else 0
  }

  ghost function PaidForAll(cfg: Config, rows: set<BlockRow>, roundOf: map<Id, map<string, int>>, login: string): int {
    Sum(map row | row in rows :: PaidFor(cfg, row, roundOf, login))
  }

  lemma PaidForOneMore(cfg: Config, rows: set<BlockRow>, row: BlockRow, roundOf: map<Id, map<string, int>>,
                       login: string)
    requires row !in rows
    ensures PaidForAll(cfg, rows + {row}, roundOf, login)
            == PaidForAll(cfg, rows, roundOf, login) + PaidFor(cfg, row, roundOf, login)
  {
    hide PaidFor, Sum;
    var before := map r | r in rows :: PaidFor(cfg, r, roundOf, login);
    var after := map r | r in rows + {row} :: PaidFor(cfg, r, roundOf, login);
    SumSet(before, row, PaidFor(cfg, row, roundOf, login));
    assert after == before[row := PaidFor(cfg, row, roundOf, login)];
  }

  lemma {:induction false} LogPaidIsForRows(cfg: Config, log: seq<Credit>, roundOf: map<Id, map<string, int>>,
                                            login: string)
    requires forall i | 0 <= i < |log| :: CreditOk(cfg, log[i], roundOf)
    requires forall i, j | 0 <= i < j < |log| :: BlockId(log[i].row) != BlockId(log[j].row)
    ensures LogPaid(log, login) == PaidForAll(cfg, LogRows(log), roundOf, login)
  {
    hide RowRewards, Sum, PaidForAll;
    if log == [] {
      assert LogRows(log) == {};
      NoRowsPaid(cfg, roundOf, login);
    } else {
      var n := |log| - 1;
      LogPaidIsForRows(cfg, log[..n], roundOf, login);
      assert log == log[..n] + [log[n]];
      LogRowsMore(log[..n], log[n]);
      PaidForOneMore(cfg, LogRows(log[..n]), log[n].row, roundOf, login);
    }
  }

  lemma NoRowsPaid(cfg: Config, roundOf: map<Id, map<string, int>>, login: string)
    ensures PaidForAll(cfg, {}, roundOf, login) == 0
  {
  }

  /** Every miner has, or had paid out, exactly their share of the matured rows that are not
      orphaned: for each row once, the split of the round that its block archived. */
  lemma MinersArePaid(cfg: Config, worlds: seq<World>, steps: seq<Step>, i: nat, login: string)
    requires IsRun(cfg, worlds, steps) && Proper(worlds, steps) && i < |worlds|
    ensures var s := worlds[i].store;
            Get(s.balance, login) + Get(s.pending, login) + Get(s.paid, login)
            == PaidForAll(cfg, PaidRows(s.maturedBlocks), worlds[i].history.roundOf, login)
  {
    hide Listed, Archives, Agrees, PassOk, CreditOk, LogRows, PaidRows, PaidForAll, Sum, AllPositive, TotalArchived;
    RunBooks(cfg, worlds, steps, i);
    LogPaidIsForRows(cfg, worlds[i].history.log, worlds[i].history.roundOf, login);
  }

  /** Money owed and paid follows the exact value of the matured rows that are not orphaned to
      within half a unit per rounded reward, so it never exceeds what was mined, plus the fees the
      pool kept, plus that bound. The log lists exactly those rows, each once, with the split of
      the round its block archived. */
  lemma Solvency(cfg: Config, worlds: seq<World>, steps: seq<Step>, i: nat)
    requires ValidConfig(cfg) && IsRun(cfg, worlds, steps) && Proper(worlds, steps) && i < |worlds|
    ensures var w := worlds[i];
            var log := w.history.log;
            && LogListed(log, w.store.maturedBlocks) && LogInOrder(cfg, log, w.history.roundOf)
            && Within(Owed(w.store), LogExact(cfg, log), LogRoundings(cfg, log))
            && w.store.finances.totalMined == LogMined(cfg, log)
            && Owed(w.store) as real <=
                 (w.store.finances.totalMined + LogKept(cfg, log)) as real + LogRoundings(cfg, log) as real / 2.0
  {
    hide Listed, Archives, Agrees, PassOk, CreditOk, LogRows, PaidRows, Sum, AllPositive, TotalArchived;
    RunBooks(cfg, worlds, steps, i);
    var log := worlds[i].history.log;
    LogWithin(cfg, log, worlds[i].history.roundOf);
    ExactAtMostMined(cfg, log, worlds[i].history.roundOf);
  }

  /** No share is lost or counted twice: all difficulty accepted is in the current round, in an
      archived round, or in a round deleted when its block was settled. Every candidate and every
      immature row recorded the sum of its archived round, which is positive, and the round is
      still as it was when the block was found. */
  lemma RoundConservation(cfg: Config, worlds: seq<World>, steps: seq<Step>, i: nat, row: CandidateRow, block: BlockRow)
    requires IsRun(cfg, worlds, steps) && Proper(worlds, steps) && i < |worlds|
    ensures var s, hist := worlds[i].store, worlds[i].history;
            && hist.accepted == Sum(s.roundCurrent) + TotalArchived(s.rounds) + hist.retired
            && (row in s.candidates ==>
                  && Archived(s.rounds, (s.candidates[row], row.nonce), row.totalShares)
                  && CandidateId(row) in hist.roundOf
                  && s.rounds[(s.candidates[row], row.nonce)] == hist.roundOf[CandidateId(row)])
            && (block in s.immatureBlocks ==>
                  && Archived(s.rounds, (s.immatureBlocks[block], block.nonce), block.totalShares)
                  && BlockId(block) in hist.roundOf
                  && s.rounds[(s.immatureBlocks[block], block.nonce)] == hist.roundOf[BlockId(block)])
  {
    hide Ledger, Placed, Archives, LogInOrder, Archived, TotalArchived, Sum, AllPositive;
    RunBooks(cfg, worlds, steps, i);
    BooksMean(cfg, worlds[i]);
    var w := worlds[i];
    if row in w.store.candidates {
      CandidateRound(w.store, w.inserting, w.history, row);
    }
    if block in w.store.immatureBlocks {
      RowRound(w.store, w.inserting, w.history, block);
    }
  }

  lemma CandidateRound(s: Store, inserting: map<CandidateRow, int>, hist: History, row: CandidateRow)
    requires Placed(s, inserting, hist) && row in s.candidates
    ensures var key := (s.candidates[row], row.nonce);
            Archived(s.rounds, key, row.totalShares) && CandidateId(row) in hist.roundOf
            && s.rounds[key] == hist.roundOf[CandidateId(row)]
  {
    hide KeysOk, BlockOk, IsNonceText, RewardFits, Archived;
    assert CandidateOk(row, s.candidates[row], s.rounds, hist.keyOf);
    hide RowsOk;
    assert CandidateId(row) in CandidateIds(s.candidates);
    assert RoundKept(CandidateId(row), s.rounds, hist.keyOf, hist.roundOf, BlockIdsOf(s.maturedBlocks));
  }

  /** Whenever the unlocker is about to compute rewards, the reward is set, the round is there
      and the division by its total is defined. */
  lemma RewardsAreDefined(cfg: Config, worlds: seq<World>, steps: seq<Step>, i: nat)
    requires IsRun(cfg, worlds, steps) && Proper(worlds, steps) && i < |worlds|
    ensures var w := worlds[i];
            (w.pass.PendingBlocks? || w.pass.Maturing?) && w.pass.todo != [] ==>
              var b := w.pass.todo[0];
              && b.reward.Some?
              && Sum(ReadHash(w.store.rounds, (b.roundHeight, b.nonce))) == b.totalShares > 0
  {
    hide Books;
    RunBooks(cfg, worlds, steps, i);
    NextRewardDefined(cfg, worlds[i]);
  }

  lemma NextRewardDefined(cfg: Config, w: World)
    requires Books(cfg, w)
    ensures (w.pass.PendingBlocks? || w.pass.Maturing?) && w.pass.todo != [] ==>
              var b := w.pass.todo[0];
              && b.reward.Some? && b.roundHeight == b.height
              && Archived(w.store.rounds, (b.height, b.nonce), b.totalShares)
              && CanSplit(ReadHash(w.store.rounds, (b.roundHeight, b.nonce)), b.totalShares)
  {
    hide Books, Placed, Confirms, Matures, Distinct, Archived, BlockOk;
    BooksMean(cfg, w);
    var s := w.store;
    if w.pass.PendingBlocks? && w.pass.todo != [] {
      var b := w.pass.todo[0];
      assert Confirms(cfg, s.candidates, b);
      ConfirmRound(cfg, s, w.inserting, w.history, b);
      CanSplitRound(s.rounds, (b.height, b.nonce), b.totalShares);
    } else if w.pass.Maturing? && w.pass.todo != [] {
      var b := w.pass.todo[0];
      assert Matures(cfg, s.immatureBlocks, b);
      MatureRound(cfg, s, w.inserting, w.history, b);
      CanSplitRound(s.rounds, (b.height, b.nonce), b.totalShares);
    }
  }

  // ------------------------------------------------------------------------------------------
  // The two passes against each other

  /** Per login, the second-pass transactions move what was read and what is paid. */
  lemma MaturedMoves(s: Store, b: BlockData, logged: map<string, int>, rewards: map<string, int>, login: string)
    requires b.reward.Some?
    ensures var t := MaturedTx(s, b, logged, rewards);
            && Get(s.immature, login) - Get(t.immature, login) == Get(logged, login)
            && Get(t.balance, login) - Get(s.balance, login) == Get(rewards, login)
            && t.creditsImmature == s.creditsImmature - {(b.roundHeight, b.hash)}
  {
    hide Sum, SetIfAbsent, ToMatured, ToInt64;
  }

  lemma OrphanMoves(s: Store, b: BlockData, logged: map<string, int>, login: string)
    ensures var t := OrphanTx(s, b, logged);
            && Get(s.immature, login) - Get(t.immature, login) == Get(logged, login)
            && t.balance == s.balance && t.pending == s.pending && t.paid == s.paid
  {
    hide Sum;
  }

  /** What a login loses from immature and gains in balance when the next block is credited. */
  ghost function Fall(cfg: Config, w: World, step: Step, login: string): int {
    Get(w.store.immature, login) - Get(Next(cfg, w, step).store.immature, login)
  }

  ghost function Rise(cfg: Config, w: World, step: Step, login: string): int {
    Get(Next(cfg, w, step).store.balance, login) - Get(w.store.balance, login)
  }

  ghost predicate AboutToMature(w: World) {
    w.pass.Maturing? && w.pass.orphans == [] && w.pass.todo != []
  }

  /** Whatever the headers and whether the log is read: the next credit lowers immature by what was
      read under its own hash, and raises balance by the rewards computed now. */
  lemma MaturingMoves(cfg: Config, w: World, logRead: bool, login: string)
    requires Books(cfg, w) && AboutToMature(w)
    ensures var b := w.pass.todo[0];
            var step := WriteMaturedBlock(true, logRead, Ok);
            var shares := ReadHash(w.store.rounds, (b.height, b.nonce));
            && b.immatureKey.Some? && b.roundHeight == b.height && b.reward.Some? && CanSplit(shares, b.totalShares)
            && Fall(cfg, w, step, login) == Get(ReadLog(w.store, b, logRead), login)
            && Rise(cfg, w, step, login) == Get(RoundRewards(cfg, b, shares), login)
            && Next(cfg, w, step).store ==
                 MaturedTx(w.store, b, ReadLog(w.store, b, logRead), RoundRewards(cfg, b, shares))
  {
    hide Books, Placed, RoundRewards, MaturedTx, Matures, Distinct, Archived, CanSplit, ReadLog, Get;
    BooksMean(cfg, w);
    NextRewardDefined(cfg, w);
    var b := w.pass.todo[0];
    assert Matures(cfg, w.store.immatureBlocks, b);
    MatureFacts(cfg, w.store.immatureBlocks, b);
    var shares := ReadHash(w.store.rounds, (b.height, b.nonce));
    MaturedMoves(w.store, b, ReadLog(w.store, b, logRead), RoundRewards(cfg, b, shares), login);
  }

  /** The second pass recomputes, from the re-read row and the archived round, exactly the rewards
      that the first pass logged: if the log can be read, immature falls per login by what balance
      rises; if not, immature stays. A block that the first pass had marked as an orphan has nothing
      logged, and immature stays too. */
  lemma TwoPassAgreement(cfg: Config, ids: BlockIds, worlds: seq<World>, steps: seq<Step>, i: nat,
                         logRead: bool, login: string)
    requires ValidIds(ids) && IsRun(cfg, worlds, steps) && Proper(worlds, steps) && Truthful(ids, worlds, steps)
    requires i < |worlds| && AboutToMature(worlds[i])
    ensures var w, step := worlds[i], WriteMaturedBlock(true, logRead, Ok);
            && w.pass.todo[0].immatureKey.Some?
            && Fall(cfg, w, step, login) ==
                 if w.pass.todo[0].immatureKey.value.orphan || !logRead then 0 else Rise(cfg, w, step, login)
  {
    hide Books, Logged, RoundRewards, Get, Next, Fall, Rise, Archived, CanSplit, Placed, Matures;
    RunBooks(cfg, worlds, steps, i);
    RunLog(cfg, ids, worlds, steps, i);
    var w := worlds[i];
    var b := w.pass.todo[0];
    BooksMean(cfg, w);
    NextRewardDefined(cfg, w);
    MaturingMoves(cfg, w, logRead, login);
    assert Matures(cfg, w.store.immatureBlocks, b);
    CanSplitRound(w.store.rounds, (b.height, b.nonce), b.totalShares);
    LoggedIsDue(cfg, ids, w.store, w.inserting, w.history, b);
    NothingRead(login);
  }

  lemma NothingRead(login: string)
    ensures Get(map[], login) == 0
  {
  }

  lemma LoggedIsDue(cfg: Config, ids: BlockIds, s: Store, inserting: map<CandidateRow, int>, hist: History,
                    b: BlockData)
    requires ValidIds(ids) && Placed(s, inserting, hist) && Logged(cfg, ids, s)
    requires Matures(cfg, s.immatureBlocks, b) && b.hash == ids(b.height, b.nonce)
    requires Archived(s.rounds, (b.height, b.nonce), b.totalShares)
    ensures b.reward.Some? && b.immatureKey.Some? && CanSplit(s.rounds[(b.height, b.nonce)], b.totalShares)
    ensures ReadHash(s.creditsImmature, (b.height, b.hash)) ==
              if b.immatureKey.value.orphan then map[] else RoundRewards(cfg, b, s.rounds[(b.height, b.nonce)])
  {
    hide Placed, RoundRewards;
    var row := b.immatureKey.value;
    assert RowCredited(cfg, ids, row, b.height, s.rounds, s.creditsImmature);
    if row.orphan {
      OrphanHasNoCredit(cfg, ids, s, inserting, hist, row);
    } else {
      RewardsDependOn(cfg, b, HandleBlock(cfg, FromBlockRow(row, 0), row.hash), s.rounds[(b.height, b.nonce)]);
    }
  }

  /** With any headers and any read, the two passes agree for a login exactly when the amount read
      for it under the block's present hash is the reward computed for it now. */
  lemma AgreementIsExact(cfg: Config, worlds: seq<World>, steps: seq<Step>, i: nat, logRead: bool, login: string)
    requires IsRun(cfg, worlds, steps) && Proper(worlds, steps) && i < |worlds| && AboutToMature(worlds[i])
    ensures var w, step := worlds[i], WriteMaturedBlock(true, logRead, Ok);
            var b := w.pass.todo[0];
            var shares := ReadHash(w.store.rounds, (b.height, b.nonce));
            && b.reward.Some? && CanSplit(shares, b.totalShares)
            && (Fall(cfg, w, step, login) == Rise(cfg, w, step, login)
                <==> Get(ReadLog(w.store, b, logRead), login) == Get(RoundRewards(cfg, b, shares), login))
  {
    hide Books, RoundRewards, Get, Next, Fall, Rise, CanSplit, ReadLog;
    RunBooks(cfg, worlds, steps, i);
    MaturingMoves(cfg, worlds[i], logRead, login);
  }

  /** A confirmed row that matures under another hash than it was credited with: its own entry stays
      in the log, and if another block is logged under the new hash, that block's entry goes while
      it stays immature. */
  lemma ChangedHashTakesOther(cfg: Config, ids: BlockIds, w: World, logRead: bool)
    requires Books(cfg, w) && Logged(cfg, ids, w.store) && AboutToMature(w)
    requires w.pass.todo[0].immatureKey.Some? && !w.pass.todo[0].immatureKey.value.orphan
    requires w.pass.todo[0].hash != w.pass.todo[0].immatureKey.value.hash
    ensures var b := w.pass.todo[0];
            var row := b.immatureKey.value;
            var s, t := w.store, Next(cfg, w, WriteMaturedBlock(true, logRead, Ok)).store;
            && row !in t.immatureBlocks && (b.height, row.hash) in t.creditsImmature
            && ((b.height, b.hash) in s.creditsImmature ==>
                  && (b.height, b.hash) !in t.creditsImmature
                  && exists other :: other in t.immatureBlocks && !other.orphan && other.hash == b.hash
                                     && t.immatureBlocks[other] == b.height)
  {
    hide Books, Placed, RoundRewards, Next, Matures, Archived, CanSplit, ReadLog, Get, RowCredited, MaturedTx, Distinct;
    BooksMean(cfg, w);
    MaturingMoves(cfg, w, logRead, "");
    var b, s := w.pass.todo[0], w.store;
    var row := b.immatureKey.value;
    assert Matures(cfg, s.immatureBlocks, b);
    MatureFacts(cfg, s.immatureBlocks, b);
    assert RowCredited(cfg, ids, row, b.height, s.rounds, s.creditsImmature);
    CreditedHasRound(cfg, ids, row, b.height, s.rounds, s.creditsImmature);
    var logged := ReadLog(s, b, logRead);
    var rewards := RoundRewards(cfg, b, ReadHash(s.rounds, (b.height, b.nonce)));
    MaturedMoves(s, b, logged, rewards, "");
    MaturedTxFrame(s, b, logged, rewards);
    if (b.height, b.hash) in s.creditsImmature {
      var other :| && other in s.immatureBlocks && !other.orphan
                   && (b.height, b.hash) == (s.immatureBlocks[other], other.hash);
      assert other in s.immatureBlocks - {row};
    }
  }

  /** Orphaning in the second pass takes back exactly what the first pass credited to immature if
      the log can be read, and otherwise nothing; it touches no balance. */
  lemma OrphaningRestores(cfg: Config, ids: BlockIds, worlds: seq<World>, steps: seq<Step>, i: nat,
                          logRead: bool, login: string)
    requires ValidIds(ids) && IsRun(cfg, worlds, steps) && Proper(worlds, steps) && Truthful(ids, worlds, steps)
    requires i < |worlds| && worlds[i].pass.Maturing? && worlds[i].pass.orphans != []
    ensures var w, step := worlds[i], WriteOrphan(logRead, Ok);
            var b := w.pass.orphans[0];
            var s, t := w.store, Next(cfg, w, step).store;
            && b.immatureKey.Some?
            && Archived(s.rounds, (b.height, b.immatureKey.value.nonce), b.immatureKey.value.totalShares)
            && t.balance == s.balance && t.pending == s.pending && t.paid == s.paid
            && Fall(cfg, w, step, login) ==
                 if b.immatureKey.value.orphan || !logRead then 0
                 else Get(DueRewards(cfg, b.immatureKey.value, b.height, s.rounds), login)
  {
    hide Books, Placed, Logged, Named, DueRewards, Get, Archived, OrphanTx, Orphans, Distinct;
    RunBooks(cfg, worlds, steps, i);
    RunLog(cfg, ids, worlds, steps, i);
    var w := worlds[i];
    BooksMean(cfg, w);
    var s, b := w.store, w.pass.orphans[0];
    assert Orphans(s.immatureBlocks, b);
    OrphanFacts(s.immatureBlocks, b);
    LoggedOnOrphan(cfg, ids, s, w.inserting, w.history, b);
    OrphanMoves(s, b, ReadLog(s, b, logRead), login);
    NothingRead(login);
    assert Next(cfg, w, WriteOrphan(logRead, Ok)).store == OrphanTx(s, b, ReadLog(s, b, logRead));
  }

  lemma LoggedOnOrphan(cfg: Config, ids: BlockIds, s: Store, inserting: map<CandidateRow, int>, hist: History,
                       b: BlockData)
    requires ValidIds(ids) && Placed(s, inserting, hist) && Logged(cfg, ids, s) && Orphans(s.immatureBlocks, b)
    ensures b.immatureKey.Some?
    ensures var row := b.immatureKey.value;
            && Archived(s.rounds, (b.height, row.nonce), row.totalShares)
            && ReadHash(s.creditsImmature, (b.height, b.hash)) ==
                 if row.orphan then map[] else DueRewards(cfg, row, b.height, s.rounds)
  {
    hide Placed, DueRewards;
    var row := b.immatureKey.value;
    assert RowCredited(cfg, ids, row, b.height, s.rounds, s.creditsImmature);
    if row.orphan {
      OrphanHasNoCredit(cfg, ids, s, inserting, hist, row);
    }
  }

  /** RollbackBalance undoes UpdateBalance for every login. */
  lemma RollbackUndoesUpdate(s: Store, login: string, amount: int, other: string)
    ensures var s' := UpdateBalanceTx(UpdateBalanceTx(s, login, amount), login, -amount);
            && Get(s'.balance, other) == Get(s.balance, other) && Get(s'.pending, other) == Get(s.pending, other)
            && s'.finances == s.finances
  {
  }
}
