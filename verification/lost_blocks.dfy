/** Found blocks that are never paid. WriteBlock archives the round in one transaction and inserts
    the candidate with a second command (storage/redis.go:243-264); what happens to a block when
    only the first takes effect, and exactly when that is. */
module LostBlocks {
  import opened Common
  import opened Sums
  import opened Blocks
  import opened Rewards
  import opened RedisStore
  import opened Unlocking
  import opened PoolRun
  import opened Invariants
  import opened Lifecycle
  import opened RoundBooks
  import opened Guarantees

  /** The block's round is archived, but the block is no candidate, never was, and no command to
      make it one is on its way. */
  ghost predicate Lost(w: World, id: Id) {
    id in w.history.keyOf && id !in w.history.born && id !in CandidateIds(w.inserting)
  }

  /** The archive was applied but its reply was lost, so that no insertion is sent; or the insertion
      was sent and not applied. */
  ghost predicate Loses(w: World, step: Step, id: Id) {
    match step
    case ArchiveRound(login, diff, _, found, fault) =>
      CandidateId(FoundRow(w.store, login, diff, found)) == id && fault.AppliedButLost?
    case InsertCandidate(row, fault) => CandidateId(row) == id && fault.NotApplied?
    case _ => false
  }

  lemma ArchiveLoses(cfg: Config, w: World, step: Step, id: Id)
    requires Listed(w.store, w.inserting, w.history) && Enabled(w, step) && step.ArchiveRound?
    ensures Lost(Next(cfg, w, step), id) <==> Lost(w, id) || Loses(w, step, id)
  {
    hide Partition, Sum, Incr, CandidateIds;
    BornApart(w.store, w.inserting, w.history);
    IdsAfterArchive(w.inserting, FoundRow(w.store, step.login, step.diff, step.found), step.height);
  }

  lemma BornApart(s: Store, inserting: map<CandidateRow, int>, hist: History)
    requires Listed(s, inserting, hist)
    ensures OneRowPerCandidate(inserting) && CandidateIds(inserting) !! hist.born
  {
    hide CandidateIds, BlockIdsOf;
  }

  lemma IdsAfterArchive(inserting: map<CandidateRow, int>, row: CandidateRow, height: int)
    ensures CandidateIds(inserting[row := height]) == CandidateIds(inserting) + {CandidateId(row)}
  {
    assert row in inserting[row := height];
    assert forall a | a in inserting :: a in inserting[row := height];
  }

  lemma InsertionLoses(cfg: Config, w: World, step: Step, id: Id)
    requires Listed(w.store, w.inserting, w.history) && Enabled(w, step) && step.InsertCandidate?
    ensures Lost(Next(cfg, w, step), id) <==> Lost(w, id) || Loses(w, step, id)
  {
    hide Partition;
    BornApart(w.store, w.inserting, w.history);
    CandidateIdsRemove(w.inserting, step.row);
    assert CandidateId(step.row) in CandidateIds(w.inserting);
  }

  /** No other step gets a block into the gap or out of it. */
  lemma OthersLoseNothing(cfg: Config, w: World, step: Step, id: Id)
    requires !step.ArchiveRound? && !step.InsertCandidate?
    ensures Lost(Next(cfg, w, step), id) <==> Lost(w, id) || Loses(w, step, id)
  {
    hide PendingOrphansTx, ImmatureTx, MaturedTx, OrphanTx, RoundRewards, Classify, ReadRows, ReadBlockRows;
    hide CandidateIds;
    hide CanSplit, Sum, Incr, ReadLog;
  }

  lemma StepLoses(cfg: Config, w: World, step: Step, id: Id)
    requires Listed(w.store, w.inserting, w.history) && Enabled(w, step)
    ensures Lost(Next(cfg, w, step), id) <==> Lost(w, id) || Loses(w, step, id)
  {
    hide Listed, Next, Enabled, Lost, Loses;
    if step.ArchiveRound? {
      ArchiveLoses(cfg, w, step, id);
    } else if step.InsertCandidate? {
      InsertionLoses(cfg, w, step, id);
    } else {
      OthersLoseNothing(cfg, w, step, id);
    }
  }

  /** In every run a block is lost exactly when the reply to its archive was, or its insertion was
      not applied. */
  lemma {:induction false} LostExactly(cfg: Config, worlds: seq<World>, steps: seq<Step>, i: nat, id: Id)
    requires IsRun(cfg, worlds, steps) && i < |worlds|
    ensures Lost(worlds[i], id) <==> exists k :: 0 <= k < i && Loses(worlds[k], steps[k], id)
  {
    hide Ledger, Next, Enabled, Loses;
    if i > 0 {
      LostExactly(cfg, worlds, steps, i - 1, id);
      RunLedger(cfg, worlds, steps, i - 1);
      LedgerIsListed(cfg, worlds[i - 1]);
      StepLoses(cfg, worlds[i - 1], steps[i - 1], id);
    }
  }

  /** A lost block is in none of the sorted sets, and credited to nobody. */
  lemma LostIsUnpaid(cfg: Config, w: World, id: Id)
    requires Ledger(cfg, w) && Lost(w, id)
    ensures Stage(w.store, id) == 0 && TimesCredited(w.history.log, id) == 0
  {
    hide Agrees, PassOk, MoneyOk, Listed;
    Stages(cfg, w, id);
    CountOnce(w.history.log, id);
    assert forall row | row in LogRows(w.history.log) :: row in w.store.maturedBlocks;
  }

  /** A lost block stays lost: at every later moment it is in none of the sorted sets and credited
      to nobody. */
  lemma {:induction false} LostForGood(cfg: Config, worlds: seq<World>, steps: seq<Step>, i: nat, j: nat, id: Id)
    requires IsRun(cfg, worlds, steps) && i <= j < |worlds| && Lost(worlds[i], id)
    ensures Lost(worlds[j], id)
    ensures Stage(worlds[j].store, id) == 0 && TimesCredited(worlds[j].history.log, id) == 0
  {
    hide Ledger, Next, Enabled, Loses, Stage, TimesCredited, CandidateIds;
    RunLedger(cfg, worlds, steps, j);
    if i < j {
      LostForGood(cfg, worlds, steps, i, j - 1, id);
      RunLedger(cfg, worlds, steps, j - 1);
      LedgerIsListed(cfg, worlds[j - 1]);
      StepLoses(cfg, worlds[j - 1], steps[j - 1], id);
    }
    LostIsUnpaid(cfg, worlds[j], id);
  }

  // ------------------------------------------------------------------------------------------
  // The shares of a lost block

  /** The round of a block that has not matured is archived as it was. */
  lemma RoundIsKept(cfg: Config, w: World, id: Id)
    requires Books(cfg, w) && Lost(w, id)
    ensures id in w.history.roundOf && w.history.keyOf[id] in w.store.rounds
            && w.store.rounds[w.history.keyOf[id]] == w.history.roundOf[id]
  {
    hide Agrees, PassOk, LogListed, LogInOrder, MoneyOk, AllPositive, TotalArchived, Sum, RowsOk, Listed;
    Stages(cfg, w, id);
    var s := w.store;
    assert InMatured(s, id) <==> id in BlockIdsOf(s.maturedBlocks);
    assert RoundKept(id, s.rounds, w.history.keyOf, w.history.roundOf, BlockIdsOf(s.maturedBlocks));
  }

  /** What an archive records of a block is never changed. */
  lemma RecordsStay(cfg: Config, w: World, step: Step, id: Id)
    requires Books(cfg, w) && Enabled(w, step) && id in w.history.keyOf
    ensures var hist, hist' := w.history, Next(cfg, w, step).history;
            && id in hist.roundOf && id in hist'.keyOf && id in hist'.roundOf
            && hist'.keyOf[id] == hist.keyOf[id] && hist'.roundOf[id] == hist.roundOf[id]
  {
    hide Ledger, Archives, LogInOrder, AllPositive, TotalArchived, Sum, Incr;
    RecordsMatch(w.store, w.inserting, w.history);
    if !step.ArchiveRound? {
      hide Next, Enabled;
      OtherRecords(cfg, w, step);
    }
  }

  lemma RecordsMatch(s: Store, inserting: map<CandidateRow, int>, hist: History)
    requires Archives(s, inserting, hist)
    ensures hist.roundOf.Keys == hist.keyOf.Keys
  {
    hide RowsOk, RoundKept, BlockIdsOf;
  }

  lemma OtherRecords(cfg: Config, w: World, step: Step)
    requires !step.ArchiveRound?
    ensures Next(cfg, w, step).history.keyOf == w.history.keyOf
    ensures Next(cfg, w, step).history.roundOf == w.history.roundOf
  {
    hide PendingOrphansTx, ImmatureTx, MaturedTx, OrphanTx, RoundRewards, Classify, ReadRows, ReadBlockRows;
    hide CanSplit, Sum;
  }

  /** In runs of the stratum server's blocks its shares are still archived under its key, at every
      later moment the very shares it had. */
  lemma {:induction false} LostSharesStay(cfg: Config, worlds: seq<World>, steps: seq<Step>, i: nat, j: nat, id: Id)
    requires IsRun(cfg, worlds, steps) && Proper(worlds, steps) && i <= j < |worlds| && Lost(worlds[i], id)
    ensures Lost(worlds[j], id) && worlds[j].history.keyOf[id] == worlds[i].history.keyOf[id]
    ensures var key := worlds[i].history.keyOf[id];
            && key in worlds[i].store.rounds && key in worlds[j].store.rounds
            && worlds[j].store.rounds[key] == worlds[i].store.rounds[key]
    ensures id in worlds[i].history.roundOf && id in worlds[j].history.roundOf
            && worlds[j].history.roundOf[id] == worlds[i].history.roundOf[id]
  {
    hide Books, Next, Enabled, ProperStep, Loses, Stage, TimesCredited, CandidateIds;
    RunBooks(cfg, worlds, steps, i);
    RoundIsKept(cfg, worlds[i], id);
    LostForGood(cfg, worlds, steps, i, j, id);
    if i < j {
      LostSharesStay(cfg, worlds, steps, i, j - 1, id);
      RunBooks(cfg, worlds, steps, j - 1);
      RunBooks(cfg, worlds, steps, j);
      RecordsStay(cfg, worlds[j - 1], steps[j - 1], id);
      RoundIsKept(cfg, worlds[j], id);
    }
  }

  // ------------------------------------------------------------------------------------------
  // Runs that lose a block

  const FOUND: CandidateRow := CandidateRow("00000000", "00000001", "00000002", 7, 1, 1, 10, 0)

  lemma OneShare()
    ensures Incr(map[], "a", 1) == map["a" := 1] && Sum(map["a" := 1]) == 1
  {
    assert Incr(map[], "a", 1) == map["a" := 1];
    SumRemove(map["a" := 1], "a");
    assert map["a" := 1] - {"a"} == map[];
  }

  /** One share that finds a block, and a lost reply: the shortest run that loses one. */
  lemma LostReply(cfg: Config) returns (worlds: seq<World>, steps: seq<Step>)
    ensures IsRun(cfg, worlds, steps) && Proper(worlds, steps) && |steps| == 1 && Lost(worlds[1], CandidateId(FOUND))
    ensures worlds[1].store.rounds == map[(5, FOUND.nonce) := map["a" := 1]]
  {
    hide Sum;
    OneShare();
    steps := [ArchiveRound("a", 1, 5, FOUND, AppliedButLost)];
    worlds := [INIT, Next(cfg, INIT, steps[0])];
  }

  /** The other way: the archive is acknowledged, and the insertion does not take effect. */
  lemma LostInsertion(cfg: Config) returns (worlds: seq<World>, steps: seq<Step>)
    ensures IsRun(cfg, worlds, steps) && Proper(worlds, steps) && |steps| == 2 && Lost(worlds[2], CandidateId(FOUND))
    ensures worlds[2].store.rounds == map[(5, FOUND.nonce) := map["a" := 1]]
  {
    hide Sum;
    OneShare();
    var archive := ArchiveRound("a", 1, 5, FOUND, Ok);
    var w := Next(cfg, INIT, archive);
    assert w.inserting == map[FOUND := 5];
    steps := [archive, InsertCandidate(FOUND, NotApplied)];
    worlds := [INIT, w, Next(cfg, w, steps[1])];
  }
}
