/** What each miner contributes and is paid, read off the steps of a run: the logins, amounts and
    outcomes of the writes that were sent, without what the store made of them. */
module Contributions {
  import opened Common
  import opened Sums
  import opened Hex
  import opened Blocks
  import opened Rewards
  import opened RedisStore
  import opened Unlocking
  import opened PoolRun
  import opened Invariants
  import opened Lifecycle
  import opened RoundBooks
  import opened CreditLog
  import opened LostBlocks
  import opened Guarantees

  /** One more step: the difficulty of a login's shares since a round was last archived. */
  function CountAfter(count: int, step: Step, login: string): int {
    match step
    case WriteShare(who, diff, fault) => if who == login && !fault.NotApplied? then count + diff else count
    case ArchiveRound(_, _, _, _, fault) => if fault.NotApplied? then count else 0
    case _ => count
  }

  /** The difficulty of all shares since then. */
  function TotalAfter(total: int, step: Step): int {
    match step
    case WriteShare(_, diff, fault) => if fault.NotApplied? then total else total + diff
    case ArchiveRound(_, _, _, _, fault) => if fault.NotApplied? then total else 0
    case _ => total
  }

  function Counted(steps: seq<Step>, login: string): int {
    if steps == [] then 0 else CountAfter(Counted(steps[..|steps| - 1], login), steps[|steps| - 1], login)
  }

  function CountedInAll(steps: seq<Step>): int {
    if steps == [] then 0 else TotalAfter(CountedInAll(steps[..|steps| - 1]), steps[|steps| - 1])
  }

  /** What a step sets aside for payment: a deduction, less a rollback or a payment. */
  function SetAside(step: Step, login: string): int {
    match step
    case UpdateBalance(who, amount, fault) => if who == login && !fault.NotApplied? then amount else 0
    case RollbackBalance(who, amount, fault) => if who == login && !fault.NotApplied? then -amount else 0
    case WritePayment(who, amount, fault) => if who == login && !fault.NotApplied? then -amount else 0
    case _ => 0
  }

  function PaidBy(step: Step, login: string): int {
    match step
    case WritePayment(who, amount, fault) => if who == login && !fault.NotApplied? then amount else 0
    case _ => 0
  }

  function AllSetAside(steps: seq<Step>, login: string): int {
    if steps == [] then 0 else AllSetAside(steps[..|steps| - 1], login) + SetAside(steps[|steps| - 1], login)
  }

  function AllPaid(steps: seq<Step>, login: string): int {
    if steps == [] then 0 else AllPaid(steps[..|steps| - 1], login) + PaidBy(steps[|steps| - 1], login)
  }

  // ------------------------------------------------------------------------------------------
  // Steps of the unlocker leave the current round and the payments alone

  ghost predicate SameRoundAndPayments(s: Store, t: Store) {
    && t.roundCurrent == s.roundCurrent && t.roundShares == s.roundShares
    && t.pending == s.pending && t.paid == s.paid
  }

  lemma WritesFrame(s: Store, b: BlockData, logged: map<string, int>, rewards: map<string, int>)
    ensures SameRoundAndPayments(s, ImmatureTx(s, b, rewards)) && SameRoundAndPayments(s, OrphanTx(s, b, logged))
    ensures b.reward.Some? ==> SameRoundAndPayments(s, MaturedTx(s, b, logged, rewards))
  {
    hide Sum, Plus, Minus, SetIfAbsent, Rename, ToInt64;
  }

  lemma Unchanged(s: Store)
    ensures SameRoundAndPayments(s, s)
  {
  }

  lemma PassFrame(cfg: Config, w: World, step: Step)
    requires step.WriteImmatureBlock? || step.WriteOrphan? || step.WriteMaturedBlock?
    ensures SameRoundAndPayments(w.store, Next(cfg, w, step).store)
  {
    hide ImmatureTx, MaturedTx, OrphanTx, RoundRewards, CanSplit, ReadHash, ReadLog, Sum, SameRoundAndPayments;
    Unchanged(w.store);
    if step.WriteOrphan? {
      if w.pass.Maturing? && w.pass.orphans != [] {
        WritesFrame(w.store, w.pass.orphans[0], ReadLog(w.store, w.pass.orphans[0], step.logRead), map[]);
      }
    } else if (w.pass.PendingBlocks? || w.pass.Maturing?) && w.pass.todo != [] {
      var b := w.pass.todo[0];
      var shares := ReadHash(w.store.rounds, (b.roundHeight, b.nonce));
      if b.reward.Some? && CanSplit(shares, b.totalShares) {
        WritesFrame(w.store, b, ReadLog(w.store, b, step.WriteMaturedBlock? && step.logRead),
                    RoundRewards(cfg, b, shares));
      }
    }
  }

  lemma UnlockerFrame(cfg: Config, w: World, step: Step)
    requires !step.WriteShare? && !step.ArchiveRound?
    requires !step.UpdateBalance? && !step.RollbackBalance? && !step.WritePayment?
    ensures SameRoundAndPayments(w.store, Next(cfg, w, step).store)
  {
    match step
    case WritePendingOrphans(_) =>
      hide PendingOrphansTx;
      PendingOrphansFrame(w.store, if w.pass.PendingOrphans? then w.pass.orphans else []);
    case WriteImmatureBlock(_, _) => hide Next; PassFrame(cfg, w, step);
    case WriteOrphan(_, _) => hide Next; PassFrame(cfg, w, step);
    case WriteMaturedBlock(_, _, _) => hide Next; PassFrame(cfg, w, step);
    case InsertCandidate(_, _) =>
    case ReadCandidates(_, _, _) => hide Next; ReadFrame(cfg, w, step);
    case ReadImmatureBlocks(_, _, _) => hide Next; ReadFrame(cfg, w, step);
    case Restart =>
  }


  lemma StepCounts(cfg: Config, w: World, step: Step, login: string)
    ensures var s, t := w.store, Next(cfg, w, step).store;
            && Get(t.roundCurrent, login) == CountAfter(Get(s.roundCurrent, login), step, login)
            && t.roundShares == TotalAfter(s.roundShares, step)
  {
    match step
    case WriteShare(_, _, _) =>
    case ArchiveRound(_, _, _, _, _) => hide Sum;
    case UpdateBalance(_, _, _) => hide Incr;
    case RollbackBalance(_, _, _) => hide Incr;
    case WritePayment(_, _, _) => hide Incr;
    case _ => hide Next; UnlockerFrame(cfg, w, step);
  }

  lemma StepPays(cfg: Config, w: World, step: Step, login: string)
    ensures var s, t := w.store, Next(cfg, w, step).store;
            && Get(t.pending, login) == Get(s.pending, login) + SetAside(step, login)
            && Get(t.paid, login) == Get(s.paid, login) + PaidBy(step, login)
  {
    match step
    case WriteShare(_, _, _) => hide Incr;
    case ArchiveRound(_, _, _, _, _) => hide Sum, Incr;
    case UpdateBalance(_, _, _) =>
    case RollbackBalance(_, _, _) =>
    case WritePayment(_, _, _) =>
    case _ => hide Next; UnlockerFrame(cfg, w, step);
  }

  // ------------------------------------------------------------------------------------------
  // Runs

  /** At every moment the current round holds for every login the difficulty of the shares accepted
      from it since a round was last archived, and in all the difficulty of all of them. */
  lemma {:induction false} RoundIsCounted(cfg: Config, worlds: seq<World>, steps: seq<Step>, i: nat, login: string)
    requires IsRun(cfg, worlds, steps) && i < |worlds|
    ensures Get(worlds[i].store.roundCurrent, login) == Counted(steps[..i], login)
    ensures worlds[i].store.roundShares == CountedInAll(steps[..i])
  {
    hide Next, Enabled, CountAfter, TotalAfter;
    if i > 0 {
      RoundIsCounted(cfg, worlds, steps, i - 1, login);
      StepCounts(cfg, worlds[i - 1], steps[i - 1], login);
      assert steps[..i][..i - 1] == steps[..i - 1];
    }
  }

  /** At every moment what is pending and paid of a login is what its payments sent. */
  lemma {:induction false} PaymentsAreCounted(cfg: Config, worlds: seq<World>, steps: seq<Step>, i: nat, login: string)
    requires IsRun(cfg, worlds, steps) && i < |worlds|
    ensures Get(worlds[i].store.pending, login) == AllSetAside(steps[..i], login)
    ensures Get(worlds[i].store.paid, login) == AllPaid(steps[..i], login)
  {
    hide Next, Enabled, SetAside, PaidBy;
    if i > 0 {
      PaymentsAreCounted(cfg, worlds, steps, i - 1, login);
      StepPays(cfg, worlds[i - 1], steps[i - 1], login);
      assert steps[..i][..i - 1] == steps[..i - 1];
    }
  }

  /** The shares of a login in the round that step k archives, its block's own share among them. */
  function Contribution(steps: seq<Step>, k: nat, login: string): int
    requires k < |steps| && steps[k].ArchiveRound?
  {
    Counted(steps[..k], login) + if login == steps[k].login then steps[k].diff else 0
  }

  /** Step k archives the round of the block with this identity. */
  ghost predicate FoundAt(steps: seq<Step>, k: nat, id: Id) {
    && k < |steps| && steps[k].ArchiveRound? && !steps[k].fault.NotApplied?
    && var found := steps[k].found;
       id == Id(found.nonce, found.timestamp, found.difficulty, CountedInAll(steps[..k]) + steps[k].diff,
                found.coinBase, found.fee)
  }

  /** A round that holds for every login what it contributed to the block of step k. */
  ghost predicate HoldsContributions(steps: seq<Step>, k: nat, shares: map<string, int>)
    requires k < |steps| && steps[k].ArchiveRound?
  {
    forall login :: Get(shares, login) == Contribution(steps, k, login)
  }

  /** The archive that step k writes: the contributions, under the block's key and in the record of
      its identity. The current round starts again from nothing. */
  lemma ArchiveIsCounted(cfg: Config, worlds: seq<World>, steps: seq<Step>, k: nat)
    requires IsRun(cfg, worlds, steps) && k < |steps| && steps[k].ArchiveRound? && !steps[k].fault.NotApplied?
    ensures var w := worlds[k + 1];
            var key := (steps[k].height, steps[k].found.nonce);
            var id := CandidateId(FoundRow(worlds[k].store, steps[k].login, steps[k].diff, steps[k].found));
            && key in w.store.rounds && HoldsContributions(steps, k, w.store.rounds[key])
            && FoundAt(steps, k, id) && id in w.history.keyOf && w.history.keyOf[id] == key
            && id in w.history.roundOf && w.history.roundOf[id] == w.store.rounds[key]
            && w.store.roundCurrent == map[] && w.store.roundShares == 0
  {
    hide Sum, CountedInAll, Counted;
    var step, s := steps[k], worlds[k].store;
    RoundIsCounted(cfg, worlds, steps, k, "");
    RunAgrees(cfg, worlds, steps, k);
    SumSet(s.roundCurrent, step.login, Get(s.roundCurrent, step.login) + step.diff);
    forall login
      ensures Get(Incr(s.roundCurrent, step.login, step.diff), login) == Contribution(steps, k, login)
    {
      RoundIsCounted(cfg, worlds, steps, k, login);
    }
    assert worlds[k + 1] == Next(cfg, worlds[k], step);
  }

  lemma RunAgrees(cfg: Config, worlds: seq<World>, steps: seq<Step>, i: nat)
    requires IsRun(cfg, worlds, steps) && i < |worlds|
    ensures Sum(worlds[i].store.roundCurrent) == worlds[i].store.roundShares
  {
    hide Sum;
    LedgerAgreement(cfg, worlds, steps, i);
  }

  /** What is recorded of a found block stays, and only its archive brings it in. */
  lemma RecordStays(cfg: Config, w: World, step: Step, id: Id)
    requires Enabled(w, step) && id in w.history.keyOf && id in w.history.roundOf
    ensures var hist, hist' := w.history, Next(cfg, w, step).history;
            && id in hist'.keyOf && id in hist'.roundOf
            && hist'.keyOf[id] == hist.keyOf[id] && hist'.roundOf[id] == hist.roundOf[id]
  {
    hide Sum, Incr;
    if !step.ArchiveRound? {
      hide Next, Enabled;
      OtherRecords(cfg, w, step);
    }
  }

  lemma RecordAppears(cfg: Config, w: World, step: Step, id: Id)
    requires id !in w.history.keyOf && id in Next(cfg, w, step).history.keyOf
    ensures step.ArchiveRound? && !step.fault.NotApplied?
    ensures id == CandidateId(FoundRow(w.store, step.login, step.diff, step.found))
  {
    hide FoundRow, CandidateId;
    if !step.ArchiveRound? {
      hide Next;
      OtherRecords(cfg, w, step);
    }
  }

  /** At every moment every recorded block was found at one step before, and the round recorded for
      it holds, for every login, its contribution to that block. */
  lemma {:induction false} RecordIsCounted(cfg: Config, worlds: seq<World>, steps: seq<Step>, i: nat, id: Id)
    returns (k: nat)
    requires IsRun(cfg, worlds, steps) && i < |worlds| && id in worlds[i].history.keyOf
    ensures var hist := worlds[i].history;
            && k < i && FoundAt(steps, k, id) && hist.keyOf[id] == (steps[k].height, steps[k].found.nonce)
            && id in hist.roundOf && HoldsContributions(steps, k, hist.roundOf[id])
  {
    hide Next, Enabled, FoundAt, HoldsContributions, FoundRow, CandidateId;
    assert i > 0;
    if id in worlds[i - 1].history.keyOf {
      k := RecordIsCounted(cfg, worlds, steps, i - 1, id);
      RecordStays(cfg, worlds[i - 1], steps[i - 1], id);
    } else {
      k := i - 1;
      RecordAppears(cfg, worlds[k], steps[k], id);
      ArchiveIsCounted(cfg, worlds, steps, k);
    }
  }

  // ------------------------------------------------------------------------------------------
  // Earnings

  /** What a login earns with a matured row: its block was found at step k, `share` is the integer
      nearest to the miners' value in the ratio of the login's contribution to the round, and `pool`,
      on the pool's address, the integer nearest to the pool's value. */
  ghost predicate Earned(cfg: Config, steps: seq<Step>, k: nat, row: BlockRow, login: string, share: int, pool: int) {
    && FoundAt(steps, k, BlockId(row)) && row.totalShares > 0
    && IsNearestAwayFromZero(MinersValue(cfg, row.coinBase, row.fee)
                             * (Contribution(steps, k, login) as real / row.totalShares as real), share)
    && if cfg.poolFeeAddress != "" && login == ToLower(cfg.poolFeeAddress)
       then IsNearestAwayFromZero(PoolValue(cfg, row.coinBase, row.fee), pool)
       else pool == 0
  }

  lemma NothingContributed(value: real, total: int)
    requires total > 0
    ensures IsNearestAwayFromZero(value * (0 as real / total as real), 0)
  {
    assert 0 as real / total as real == 0.0;
  }

  lemma RowEarns(cfg: Config, steps: seq<Step>, k: nat, row: BlockRow, shares: map<string, int>, login: string)
    returns (share: int, pool: int)
    requires FoundAt(steps, k, BlockId(row)) && HoldsContributions(steps, k, shares) && row.totalShares > 0
    ensures Earned(cfg, steps, k, row, login, share, pool)
    ensures Get(RowRewards(cfg, row, shares), login) == share + pool
  {
    hide CountedInAll, RoundRewards, HandleBlock, MinersValue, PoolValue, ToLower, Counted;
    share, pool := RewardsByLogin(cfg, FromBlockRow(row, 0), row.hash, shares, login);
    assert Get(shares, login) == Contribution(steps, k, login);
    NothingContributed(MinersValue(cfg, row.coinBase, row.fee), row.totalShares);
  }

  /** What the books say of a paid row. */
  lemma PaidRowIsRecorded(cfg: Config, w: World, row: BlockRow)
    requires Books(cfg, w) && row in PaidRows(w.store.maturedBlocks)
    ensures BlockId(row) in w.history.roundOf && BlockId(row) in w.history.keyOf && row.totalShares > 0
  {
    hide Listed, Agrees, PassOk, MoneyOk, AllPositive, TotalArchived, Sum, RowRewards, RewardFits, BlockId;
    RecordsMatch(w.store, w.inserting, w.history);
    hide Archives;
    var log := w.history.log;
    assert row in LogRows(log);
    var j :| 0 <= j < |log| && log[j].row == row;
    assert CreditOk(cfg, log[j], w.history.roundOf);
  }

  /** A choice of the step, the share and the pool's part for every row. */
  ghost predicate AllEarned(cfg: Config, steps: seq<Step>, i: nat, rows: set<BlockRow>, login: string,
                            found: map<BlockRow, nat>, share: map<BlockRow, int>, pool: map<BlockRow, int>)
  {
    && found.Keys == rows && share.Keys == rows && pool.Keys == rows
    && forall row | row in rows ::
         found[row] < i && Earned(cfg, steps, found[row], row, login, share[row], pool[row])
  }

  lemma AllEarnedMore(cfg: Config, steps: seq<Step>, i: nat, rows: set<BlockRow>, login: string,
                      found: map<BlockRow, nat>, share: map<BlockRow, int>, pool: map<BlockRow, int>,
                      row: BlockRow, k: nat, a: int, b: int)
    requires AllEarned(cfg, steps, i, rows, login, found, share, pool) && row !in rows
    requires k < i && Earned(cfg, steps, k, row, login, a, b)
    ensures AllEarned(cfg, steps, i, rows + {row}, login, found[row := k], share[row := a], pool[row := b])
    ensures Sum(share[row := a]) + Sum(pool[row := b]) == Sum(share) + Sum(pool) + a + b
  {
    hide Earned, Sum;
    SumSet(share, row, a);
    SumSet(pool, row, b);
  }

  lemma PaidRowEarns(cfg: Config, worlds: seq<World>, steps: seq<Step>, i: nat, row: BlockRow, login: string)
    returns (k: nat, share: int, pool: int)
    requires IsRun(cfg, worlds, steps) && Proper(worlds, steps) && i < |worlds|
    requires row in PaidRows(worlds[i].store.maturedBlocks)
    ensures k < i && Earned(cfg, steps, k, row, login, share, pool)
    ensures PaidFor(cfg, row, worlds[i].history.roundOf, login) == share + pool
  {
    hide IsRun, Proper, Earned, PaidRows, RowRewards, HoldsContributions, FoundAt, Books, BlockId;
    RunBooks(cfg, worlds, steps, i);
    PaidRowIsRecorded(cfg, worlds[i], row);
    k := RecordIsCounted(cfg, worlds, steps, i, BlockId(row));
    share, pool := RowEarns(cfg, steps, k, row, worlds[i].history.roundOf[BlockId(row)], login);
  }

  lemma {:induction false} RowsEarn(cfg: Config, worlds: seq<World>, steps: seq<Step>, i: nat,
                                    rows: set<BlockRow>, login: string)
    returns (found: map<BlockRow, nat>, share: map<BlockRow, int>, pool: map<BlockRow, int>)
    requires IsRun(cfg, worlds, steps) && Proper(worlds, steps) && i < |worlds|
    requires rows <= PaidRows(worlds[i].store.maturedBlocks)
    ensures AllEarned(cfg, steps, i, rows, login, found, share, pool)
    ensures Sum(share) + Sum(pool) == PaidForAll(cfg, rows, worlds[i].history.roundOf, login)
    decreases |rows|
  {
    hide IsRun, Proper, Earned, AllEarned, PaidForAll, PaidFor, PaidRows, Sum;
    if rows == {} {
      found, share, pool := map[], map[], map[];
      NoRowsEarn(cfg, steps, i, login);
      NoRowsPaid(cfg, worlds[i].history.roundOf, login);
    } else {
      var row :| row in rows;
      var rest := rows - {row};
      found, share, pool := RowsEarn(cfg, worlds, steps, i, rest, login);
      var k, a, b := PaidRowEarns(cfg, worlds, steps, i, row, login);
      AllEarnedMore(cfg, steps, i, rest, login, found, share, pool, row, k, a, b);
      PaidForOneMore(cfg, rest, row, worlds[i].history.roundOf, login);
      assert rest + {row} == rows;
      found, share, pool := found[row := k], share[row := a], pool[row := b];
    }
  }

  lemma NoRowsEarn(cfg: Config, steps: seq<Step>, i: nat, login: string)
    ensures AllEarned(cfg, steps, i, {}, login, map[], map[], map[]) && Sum<BlockRow>(map[]) == 0
  {
  }

  /** Whatever fails, at every moment of every run with proper shares and blocks: what a miner has in
      balance is what its contributions earned with the paid rows, one share for each, less what was
      set aside for payment and paid; what is pending is what was set aside. */
  lemma EarnedByContribution(cfg: Config, worlds: seq<World>, steps: seq<Step>, i: nat, login: string)
    returns (found: map<BlockRow, nat>, share: map<BlockRow, int>, pool: map<BlockRow, int>)
    requires IsRun(cfg, worlds, steps) && Proper(worlds, steps) && i < |worlds|
    ensures var s, before := worlds[i].store, steps[..i];
            && AllEarned(cfg, steps, i, PaidRows(s.maturedBlocks), login, found, share, pool)
            && Get(s.balance, login) == Sum(share) + Sum(pool) - AllSetAside(before, login) - AllPaid(before, login)
            && Get(s.pending, login) == AllSetAside(before, login)
            && Get(s.paid, login) == AllPaid(before, login)
  {
    hide IsRun, Proper, AllEarned, PaidForAll, Sum, AllSetAside, AllPaid;
    found, share, pool := RowsEarn(cfg, worlds, steps, i, PaidRows(worlds[i].store.maturedBlocks), login);
    MinersArePaid(cfg, worlds, steps, i, login);
    PaymentsAreCounted(cfg, worlds, steps, i, login);
  }
}
