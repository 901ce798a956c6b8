/** The ledger and the rows: what every step of the pool's accounting keeps, whatever blocks are
    found, whatever the daemon reports and whatever fails. What is said of rounds and amounts is in
    RoundBooks. */
module Lifecycle {
  import opened Common
  import opened Sums
  import opened Blocks
  import opened Rewards
  import opened RedisStore
  import opened Unlocking
  import opened PoolRun
  import opened Invariants

  /** Totals, rows, pass and payment history. */
  ghost predicate Ledger(cfg: Config, w: World) {
    var s, hist := w.store, w.history;
    && Agrees(s)
    && Listed(s, w.inserting, hist)
    && PassOk(cfg, w.pass, s.candidates, s.immatureBlocks)
    && LogListed(hist.log, s.maturedBlocks)
    && MoneyOk(cfg, hist.log, s.balance, s.pending, s.paid, s.finances.totalMined)
  }

  /** Where the found blocks are. */
  ghost predicate Listed(s: Store, inserting: map<CandidateRow, int>, hist: History) {
    && Partition(s.candidates, inserting, s.immatureBlocks, s.maturedBlocks, hist.born)
    && hist.born <= hist.keyOf.Keys && CandidateIds(inserting) <= hist.keyOf.Keys
  }

  lemma InitLedger(cfg: Config)
    ensures Ledger(cfg, INIT)
  {
    EmptyAgrees();
    assert CandidateIds(map[]) == {} && BlockIdsOf(map[]) == {};
    assert LogRows([]) == {} == PaidRows(map[]);
  }

  // ------------------------------------------------------------------------------------------
  // Stratum and payment steps

  /** Only the fields that Listed reads matter. */
  lemma ListedFrame(s: Store, t: Store, inserting: map<CandidateRow, int>, hist: History, hist': History)
    requires Listed(s, inserting, hist)
    requires t.candidates == s.candidates && t.immatureBlocks == s.immatureBlocks && t.maturedBlocks == s.maturedBlocks
    requires hist'.born == hist.born && hist'.keyOf == hist.keyOf
    ensures Listed(t, inserting, hist')
  {
    hide Partition;
  }

  lemma WriteShareKeeps(cfg: Config, w: World, login: string, diff: int, fault: Fault)
    requires Ledger(cfg, w)
    ensures Ledger(cfg, Next(cfg, w, WriteShare(login, diff, fault)))
  {
    hide Listed, PassOk, LogListed, MoneyOk, Agrees, Incr;
    ShareAgrees(w.store, login, diff);
    ListedFrame(w.store, ShareTx(w.store, login, diff), w.inserting, w.history,
                w.history.(accepted := w.history.accepted + diff));
  }

  lemma ArchiveKeepsListed(s: Store, inserting: map<CandidateRow, int>, hist: History,
                           row: CandidateRow, height: int, key: RoundKey)
    requires Listed(s, inserting, hist) && CandidateId(row) !in hist.keyOf
    ensures var hist' := hist.(keyOf := hist.keyOf[CandidateId(row) := key]);
            Listed(s, inserting, hist') && Listed(s, inserting[row := height], hist')
  {
    CandidateIdsAdd(inserting, row, height);
  }

  lemma ArchiveRoundKeeps(cfg: Config, w: World, step: Step)
    requires Ledger(cfg, w) && step.ArchiveRound? && FreshId(w, step.login, step.diff, step.found)
    ensures Ledger(cfg, Next(cfg, w, step))
  {
    hide Listed, Agrees, PassOk, LogListed, MoneyOk, Incr, Sum;
    var s, hist := w.store, w.history;
    var row := FoundRow(s, step.login, step.diff, step.found);
    var key := (step.height, row.nonce);
    BlockAgrees(s, step.login, step.diff, step.height, row.nonce);
    ArchiveKeepsListed(s, w.inserting, hist, row, step.height, key);
    var w' := Next(cfg, w, step);
    if !step.fault.NotApplied? {
      ListedFrame(s, w'.store, w'.inserting, hist.(keyOf := hist.keyOf[CandidateId(row) := key]), w'.history);
    }
  }

  lemma PassOkMore(cfg: Config, pass: Pass, candidates: map<CandidateRow, int>,
                   more: map<CandidateRow, int>, immature: map<BlockRow, int>)
    requires PassOk(cfg, pass, candidates, immature)
    requires forall row | row in candidates :: row in more && more[row] == candidates[row]
    ensures PassOk(cfg, pass, more, immature)
  {
  }

  lemma InsertKeepsListed(s: Store, inserting: map<CandidateRow, int>, hist: History, row: CandidateRow)
    requires Listed(s, inserting, hist) && row in inserting
    ensures row !in s.candidates
    ensures Listed(s, inserting - {row}, hist)
    ensures Listed(CandidateTx(s, row, inserting[row]), inserting - {row},
                   hist.(born := hist.born + {CandidateId(row)}))
  {
    assert CandidateId(row) in CandidateIds(inserting);
    assert row in s.candidates ==> CandidateId(row) in CandidateIds(s.candidates);
    CandidateIdsRemove(inserting, row);
    hide CandidateIds, BlockIdsOf;
    PartitionInsert(s.candidates, inserting, s.immatureBlocks, s.maturedBlocks, hist.born, row);
  }

  lemma InsertCandidateKeeps(cfg: Config, w: World, row: CandidateRow, fault: Fault)
    requires Ledger(cfg, w) && row in w.inserting
    ensures Ledger(cfg, Next(cfg, w, InsertCandidate(row, fault)))
  {
    hide Agrees, LogListed, MoneyOk, PassOk, Listed;
    var s, hist := w.store, w.history;
    InsertKeepsListed(s, w.inserting, hist, row);
    PassOkMore(cfg, w.pass, s.candidates, s.candidates[row := w.inserting[row]], s.immatureBlocks);
    AgreesFrame(s, CandidateTx(s, row, w.inserting[row]));
  }

  lemma AgreesFrame(s: Store, t: Store)
    requires Agrees(s) && t.immature == s.immature && t.balance == s.balance && t.pending == s.pending
    requires t.paid == s.paid && t.finances == s.finances && t.roundCurrent == s.roundCurrent
    requires t.roundShares == s.roundShares
    ensures Agrees(t)
  {
  }

  /** A payment moves money within one miner's account. */
  lemma MovesWithinMiner(balance: map<string, int>, pending: map<string, int>, login: string, amount: int)
    ensures forall l :: Get(Incr(balance, login, -amount), l) + Get(Incr(pending, login, amount), l)
                        == Get(balance, l) + Get(pending, l)
    ensures Sum(Incr(balance, login, -amount)) + Sum(Incr(pending, login, amount)) == Sum(balance) + Sum(pending)
  {
    SumSet(balance, login, Get(balance, login) - amount);
    SumSet(pending, login, Get(pending, login) + amount);
  }

  lemma UpdateBalanceKeeps(cfg: Config, w: World, login: string, amount: int)
    requires Ledger(cfg, w)
    ensures Ledger(cfg, w.(store := UpdateBalanceTx(w.store, login, amount)))
  {
    hide Agrees, LogListed, PassOk, Listed, Sum, Incr;
    var s := w.store;
    var t := UpdateBalanceTx(s, login, amount);
    UpdateBalanceAgrees(s, login, amount);
    MovesWithinMiner(s.balance, s.pending, login, amount);
    ListedFrame(s, t, w.inserting, w.history, w.history);
  }

  lemma WritePaymentKeeps(cfg: Config, w: World, login: string, amount: int)
    requires Ledger(cfg, w)
    ensures Ledger(cfg, w.(store := WritePaymentTx(w.store, login, amount)))
  {
    hide Agrees, LogListed, PassOk, Listed, Sum, Incr;
    var s := w.store;
    var t := WritePaymentTx(s, login, amount);
    WritePaymentAgrees(s, login, amount);
    MovesWithinMiner(s.pending, s.paid, login, amount);
    ListedFrame(s, t, w.inserting, w.history, w.history);
  }

  lemma PaymentKeeps(cfg: Config, w: World, step: Step)
    requires Ledger(cfg, w)
    requires step.UpdateBalance? || step.RollbackBalance? || step.WritePayment?
    ensures Ledger(cfg, Next(cfg, w, step))
  {
    hide Ledger;
    assert w.(store := w.store) == w;
    match step
    case UpdateBalance(login, amount, _) => UpdateBalanceKeeps(cfg, w, login, amount);
    case RollbackBalance(login, amount, _) => UpdateBalanceKeeps(cfg, w, login, -amount);
    case WritePayment(login, amount, _) => WritePaymentKeeps(cfg, w, login, amount);
  }

  // ------------------------------------------------------------------------------------------
  // Reading: the verdict becomes the pass

  /** The two lists of a verdict, taken one after the other, name distinct blocks if the batch did. */
  lemma SplitsDistinct(cfg: Config, blocks: seq<BlockData>, replies: seq<Option<Header>>,
                       matured: seq<BlockData>, orphaned: seq<BlockData>, m: seq<nat>, o: seq<nat>)
    requires |blocks| == |replies| && SplitsInto(cfg, blocks, replies, matured, orphaned, m, o)
    requires Distinct(blocks)
    ensures Distinct(orphaned + matured)
  {
    var list := orphaned + matured;
    var at := o + m;
    forall i | 0 <= i < |list|
      ensures at[i] < |blocks| && DataId(list[i]) == DataId(blocks[at[i]])
    {
      if i < |o| {
        assert Orphaned(blocks[o[i]], replies[o[i]], orphaned[i]);
      } else {
        assert Confirmed(cfg, blocks[m[i - |o|]], replies[m[i - |o|]], matured[i - |o|]);
      }
    }
    forall i, j | 0 <= i < j < |list|
      ensures at[i] != at[j]
    {
      if i < |o| && j >= |o| {
        assert Orphaned(blocks[o[i]], replies[o[i]], orphaned[i]);
        assert Confirmed(cfg, blocks[m[j - |o|]], replies[m[j - |o|]], matured[j - |o|]);
      }
    }
  }

  lemma ConfirmedConfirms(cfg: Config, cand: map<CandidateRow, int>, row: CandidateRow,
                          reply: Option<Header>, out: BlockData)
    requires row in cand
    requires Confirmed(cfg, FromCandidate(row, cand[row]), reply, out)
    ensures Confirms(cfg, cand, out)
  {
  }

  lemma ConfirmedMatures(cfg: Config, rows: map<BlockRow, int>, row: BlockRow,
                         reply: Option<Header>, out: BlockData)
    requires row in rows
    requires Confirmed(cfg, FromBlockRow(row, rows[row]), reply, out)
    ensures Matures(cfg, rows, out)
  {
  }

  lemma DistinctCandidates(rows: seq<CandidateRow>, cand: map<CandidateRow, int>)
    requires OneRowPerCandidate(cand) && forall i | 0 <= i < |rows| :: rows[i] in cand
    requires forall i, j | 0 <= i < j < |rows| :: rows[i] != rows[j]
    ensures Distinct(ReadRows(rows, cand))
  {
    var blocks := ReadRows(rows, cand);
    forall i, j | 0 <= i < j < |blocks|
      ensures DataId(blocks[i]) != DataId(blocks[j])
    {
      assert CandidateId(rows[i]) == DataId(blocks[i]) && CandidateId(rows[j]) == DataId(blocks[j]);
    }
  }

  lemma DistinctBlocks(rows: seq<BlockRow>, immature: map<BlockRow, int>)
    requires OneRowPerBlock(immature) && forall i | 0 <= i < |rows| :: rows[i] in immature
    requires forall i, j | 0 <= i < j < |rows| :: rows[i] != rows[j]
    ensures Distinct(ReadBlockRows(rows, immature))
  {
    var blocks := ReadBlockRows(rows, immature);
    forall i, j | 0 <= i < j < |blocks|
      ensures DataId(blocks[i]) != DataId(blocks[j])
    {
      assert BlockId(rows[i]) == DataId(blocks[i]) && BlockId(rows[j]) == DataId(blocks[j]);
    }
  }

  /** What the unlocker holds after reading the candidates. */
  lemma ReadCandidatesPass(cfg: Config, w: World, step: Step)
    requires OneRowPerCandidate(w.store.candidates) && step.ReadCandidates? && Enabled(w, step)
    ensures var v := Classify(cfg, ReadRows(step.rows, w.store.candidates), step.replies);
            v.Classified? ==>
              PassOk(cfg, PendingOrphans(v.orphaned, v.matured), w.store.candidates, w.store.immatureBlocks)
  {
    hide PassOk, Classify, Confirmed, Confirms, Distinct, OneRowPerCandidate;
    var cand := w.store.candidates;
    var blocks := ReadRows(step.rows, cand);
    var v := Classify(cfg, blocks, step.replies);
    if v.Classified? {
      var m, o := ClassifySplits(cfg, blocks, step.replies);
      DistinctCandidates(step.rows, cand);
      SplitsDistinct(cfg, blocks, step.replies, v.matured, v.orphaned, m, o);
      forall k | 0 <= k < |v.matured|
        ensures Confirms(cfg, cand, v.matured[k])
      {
        var row := step.rows[m[k]];
        ConfirmedHasReply(cfg, blocks[m[k]], step.replies[m[k]], v.matured[k]);
        ConfirmedConfirms(cfg, cand, row, step.replies[m[k]], v.matured[k]);
      }
      forall k | 0 <= k < |v.orphaned|
        ensures Rejects(cand, v.orphaned[k])
      {
        assert Orphaned(blocks[o[k]], step.replies[o[k]], v.orphaned[k]);
      }
      PendingPassOk(cfg, cand, w.store.immatureBlocks, v.orphaned, v.matured);
    }
  }

  lemma PendingPassOk(cfg: Config, cand: map<CandidateRow, int>, rows: map<BlockRow, int>,
                      orphans: seq<BlockData>, todo: seq<BlockData>)
    requires Distinct(orphans + todo)
    requires forall k | 0 <= k < |orphans| :: Rejects(cand, orphans[k])
    requires forall k | 0 <= k < |todo| :: Confirms(cfg, cand, todo[k])
    ensures PassOk(cfg, PendingOrphans(orphans, todo), cand, rows)
  {
  }

  lemma MaturingPassOk(cfg: Config, cand: map<CandidateRow, int>, rows: map<BlockRow, int>,
                       orphans: seq<BlockData>, todo: seq<BlockData>)
    requires Distinct(orphans + todo)
    requires forall k | 0 <= k < |orphans| :: Orphans(rows, orphans[k])
    requires forall k | 0 <= k < |todo| :: Matures(cfg, rows, todo[k])
    ensures PassOk(cfg, Maturing(orphans, todo), cand, rows)
  {
  }

  lemma ConfirmedHasReply(cfg: Config, b: BlockData, reply: Option<Header>, out: BlockData)
    requires Confirmed(cfg, b, reply, out)
    ensures reply.Some?
  {
  }

  lemma OneRowEach(s: Store, inserting: map<CandidateRow, int>, hist: History)
    requires Listed(s, inserting, hist)
    ensures OneRowPerCandidate(s.candidates) && OneRowPerBlock(s.immatureBlocks)
  {
    hide CandidateIds, BlockIdsOf;
  }

  lemma ReadCandidatesKeeps(cfg: Config, w: World, step: Step)
    requires Ledger(cfg, w) && step.ReadCandidates? && Enabled(w, step)
    ensures Ledger(cfg, Next(cfg, w, step))
  {
    hide Agrees, Listed, LogListed, MoneyOk, PassOk, Classify, ReadRows;
    OneRowEach(w.store, w.inserting, w.history);
    ReadCandidatesPass(cfg, w, step);
  }

  /** What the unlocker holds after reading the immature blocks. */
  lemma ReadImmaturePass(cfg: Config, w: World, step: Step)
    requires OneRowPerBlock(w.store.immatureBlocks) && step.ReadImmatureBlocks? && Enabled(w, step)
    ensures var v := Classify(cfg, ReadBlockRows(step.blockRows, w.store.immatureBlocks), step.replies);
            v.Classified? ==>
              PassOk(cfg, Maturing(v.orphaned, v.matured), w.store.candidates, w.store.immatureBlocks)
  {
    hide PassOk, Classify, Confirmed, Matures, Distinct, OneRowPerBlock;
    var rows := w.store.immatureBlocks;
    var blocks := ReadBlockRows(step.blockRows, rows);
    var v := Classify(cfg, blocks, step.replies);
    if v.Classified? {
      var m, o := ClassifySplits(cfg, blocks, step.replies);
      DistinctBlocks(step.blockRows, rows);
      SplitsDistinct(cfg, blocks, step.replies, v.matured, v.orphaned, m, o);
      forall k | 0 <= k < |v.matured|
        ensures Matures(cfg, rows, v.matured[k])
      {
        var row := step.blockRows[m[k]];
        ConfirmedHasReply(cfg, blocks[m[k]], step.replies[m[k]], v.matured[k]);
        ConfirmedMatures(cfg, rows, row, step.replies[m[k]], v.matured[k]);
      }
      forall k | 0 <= k < |v.orphaned|
        ensures Orphans(rows, v.orphaned[k])
      {
        assert Orphaned(blocks[o[k]], step.replies[o[k]], v.orphaned[k]);
      }
      MaturingPassOk(cfg, w.store.candidates, rows, v.orphaned, v.matured);
    }
  }

  lemma ReadImmatureBlocksKeeps(cfg: Config, w: World, step: Step)
    requires Ledger(cfg, w) && step.ReadImmatureBlocks? && Enabled(w, step)
    ensures Ledger(cfg, Next(cfg, w, step))
  {
    hide Agrees, Listed, LogListed, MoneyOk, PassOk, Classify, ReadBlockRows;
    OneRowEach(w.store, w.inserting, w.history);
    ReadImmaturePass(cfg, w, step);
  }

  // ------------------------------------------------------------------------------------------
  // First pass

  lemma RejectFacts(candidates: map<CandidateRow, int>, b: BlockData)
    requires Rejects(candidates, b)
    ensures b.candidateKey.Some?
    ensures var c, row := b.candidateKey.value, b.Key();
            && c in candidates && candidates[c] == b.height == b.roundHeight && b.nonce == c.nonce == row.nonce
            && DataId(b) == CandidateId(c) == BlockId(row) && row.orphan && row.hash == "0x0"
  {
  }

  /** A candidate becomes an immature row. */
  lemma ToImmatureKeepsListed(s: Store, inserting: map<CandidateRow, int>, hist: History, b: BlockData)
    requires Listed(s, inserting, hist)
    requires b.candidateKey.Some? && b.candidateKey.value in s.candidates && b.roundHeight == b.height
    requires DataId(b) == CandidateId(b.candidateKey.value)
    ensures Listed(ToImmature(s, b), inserting, hist) && b.Key() !in s.immatureBlocks
  {
    var c, row := b.candidateKey.value, b.Key();
    NewRow(s, inserting, hist, c, row);
    hide CandidateIds, BlockIdsOf;
    PartitionToImmature(s.candidates, inserting, s.immatureBlocks, s.maturedBlocks, hist.born, c, row, b.height);
  }

  lemma NewRow(s: Store, inserting: map<CandidateRow, int>, hist: History, c: CandidateRow, row: BlockRow)
    requires Listed(s, inserting, hist) && c in s.candidates && CandidateId(c) == BlockId(row)
    ensures row !in s.immatureBlocks
  {
    assert CandidateId(c) in CandidateIds(s.candidates);
    assert row in s.immatureBlocks ==> BlockId(row) in BlockIdsOf(s.immatureBlocks);
  }

  lemma Still(cfg: Config, candidates: map<CandidateRow, int>, gone: BlockData, b: BlockData)
    requires gone.candidateKey.Some? && DataId(gone) == CandidateId(gone.candidateKey.value)
    requires DataId(b) != DataId(gone)
    ensures Confirms(cfg, candidates, b) ==> Confirms(cfg, candidates - {gone.candidateKey.value}, b)
    ensures Rejects(candidates, b) ==> Rejects(candidates - {gone.candidateKey.value}, b)
  {
  }

  lemma ToImmatureFrame(s: Store, b: BlockData)
    requires b.candidateKey.Some? && b.roundHeight == b.height
    ensures var t := ToImmature(s, b);
            && t.candidates == s.candidates - {b.candidateKey.value} && t.rounds == s.rounds
            && t.immatureBlocks == s.immatureBlocks[b.Key() := b.height]
            && t == s.(candidates := t.candidates, immatureBlocks := t.immatureBlocks)
  {
  }

  /** Moving the whole batch of orphans: the blocks in `rest` stay candidates. */
  lemma {:induction false} RejectAllKeepsListed(cfg: Config, s: Store,
                                                inserting: map<CandidateRow, int>, hist: History,
                                                orphans: seq<BlockData>, rest: seq<BlockData>)
    requires Listed(s, inserting, hist) && Distinct(orphans + rest)
    requires forall i | 0 <= i < |orphans| :: Rejects(s.candidates, orphans[i])
    requires forall i | 0 <= i < |rest| :: Rejects(s.candidates, rest[i]) || Confirms(cfg, s.candidates, rest[i])
    ensures var s' := PendingOrphansTx(s, orphans);
            && Listed(s', inserting, hist) && s'.rounds == s.rounds
            && (forall i | 0 <= i < |rest| ::
                  && (Rejects(s.candidates, rest[i]) ==> Rejects(s'.candidates, rest[i]))
                  && (Confirms(cfg, s.candidates, rest[i]) ==> Confirms(cfg, s'.candidates, rest[i])))
    decreases |orphans|
  {
    hide Listed, Rejects, Confirms, ToImmature;
    if orphans != [] {
      var n := |orphans| - 1;
      var b := orphans[n];
      var rest' := [b] + rest;
      assert orphans[..n] + rest' == orphans + rest;
      RejectAllKeepsListed(cfg, s, inserting, hist, orphans[..n], rest');
      var s1 := PendingOrphansTx(s, orphans[..n]);
      assert rest'[0] == b;
      RejectFacts(s1.candidates, b);
      ToImmatureKeepsListed(s1, inserting, hist, b);
      ToImmatureFrame(s1, b);
      forall i | 0 <= i < |rest|
        ensures var s' := ToImmature(s1, b);
                && (Rejects(s.candidates, rest[i]) ==> Rejects(s'.candidates, rest[i]))
                && (Confirms(cfg, s.candidates, rest[i]) ==> Confirms(cfg, s'.candidates, rest[i]))
      {
        assert rest'[i + 1] == rest[i];
        assert (orphans + rest)[n] == b && (orphans + rest)[|orphans| + i] == rest[i];
        Still(cfg, s1.candidates, b, rest[i]);
      }
    }
  }

  lemma DistinctTail(first: seq<BlockData>, rest: seq<BlockData>)
    requires Distinct(first + rest)
    ensures Distinct(rest)
  {
    forall i, j | 0 <= i < j < |rest|
      ensures DataId(rest[i]) != DataId(rest[j])
    {
      assert (first + rest)[|first| + i] == rest[i] && (first + rest)[|first| + j] == rest[j];
    }
  }

  lemma WritePendingOrphansKeeps(cfg: Config, w: World, fault: Fault)
    requires Ledger(cfg, w) && w.pass.PendingOrphans?
    ensures Ledger(cfg, Next(cfg, w, WritePendingOrphans(fault)))
  {
    hide Listed, LogListed, MoneyOk, Confirms, Rejects, PendingOrphansTx, Agrees;
    var s := w.store;
    var orphans, todo := w.pass.orphans, w.pass.todo;
    DistinctTail(orphans, todo);
    if !fault.NotApplied? {
      RejectAllKeepsListed(cfg, s, w.inserting, w.history, orphans, todo);
      PendingOrphansFrame(s, orphans);
      AgreesFrame(s, PendingOrphansTx(s, orphans));
    }
  }

  lemma ConfirmFacts(cfg: Config, candidates: map<CandidateRow, int>, b: BlockData)
    requires Confirms(cfg, candidates, b)
    ensures b.candidateKey.Some?
    ensures var c, row := b.candidateKey.value, b.Key();
            && c in candidates && candidates[c] == b.height == b.roundHeight && b.reward.Some?
            && DataId(b) == CandidateId(c) == BlockId(row) && !row.orphan
            && b.nonce == c.nonce == row.nonce && b.totalShares == c.totalShares == row.totalShares
            && b.hash == row.hash && |b.hash| >= LOGGED_HASH
  {
  }

  lemma PassAfterImmature(cfg: Config, candidates: map<CandidateRow, int>, rows: map<BlockRow, int>,
                          rows': map<BlockRow, int>, todo: seq<BlockData>)
    requires PassOk(cfg, PendingBlocks(todo), candidates, rows) && todo != []
    requires todo[0].candidateKey.Some? && DataId(todo[0]) == CandidateId(todo[0].candidateKey.value)
    ensures PassOk(cfg, PendingBlocks(todo[1..]), candidates - {todo[0].candidateKey.value}, rows')
  {
    hide Confirms;
    forall i | 1 <= i < |todo|
      ensures Confirms(cfg, candidates - {todo[0].candidateKey.value}, todo[i])
    {
      Still(cfg, candidates, todo[0], todo[i]);
    }
  }

  lemma WriteImmatureBlockKeeps(cfg: Config, w: World, sharesRead: bool, fault: Fault)
    requires Ledger(cfg, w) && w.pass.PendingBlocks? && w.pass.todo != []
    ensures Ledger(cfg, Next(cfg, w, WriteImmatureBlock(sharesRead, fault)))
  {
    hide Agrees, Listed, LogListed, MoneyOk, Confirms, RoundRewards, Distinct, CanSplit, ImmatureTx, ReadHash;
    var s, hist, todo := w.store, w.history, w.pass.todo;
    var b := todo[0];
    assert Confirms(cfg, s.candidates, b);
    ConfirmFacts(cfg, s.candidates, b);
    var shares := ReadHash(s.rounds, (b.roundHeight, b.nonce));
    if CanSplit(shares, b.totalShares) {
      var rewards := RoundRewards(cfg, b, shares);
      ImmatureTxKeeps(s, w.inserting, hist, b, rewards);
      PassAfterImmature(cfg, s.candidates, s.immatureBlocks, ImmatureTx(s, b, rewards).immatureBlocks, todo);
    }
  }

  lemma ImmatureTxKeeps(s: Store, inserting: map<CandidateRow, int>, hist: History,
                        b: BlockData, rewards: map<string, int>)
    requires Agrees(s) && Listed(s, inserting, hist)
    requires b.candidateKey.Some? && b.candidateKey.value in s.candidates && b.roundHeight == b.height
    requires DataId(b) == CandidateId(b.candidateKey.value)
    ensures var t := ImmatureTx(s, b, rewards);
            && Agrees(t) && Listed(t, inserting, hist)
            && t.maturedBlocks == s.maturedBlocks && t.candidates == s.candidates - {b.candidateKey.value}
            && t.balance == s.balance && t.pending == s.pending && t.paid == s.paid
            && t.finances.totalMined == s.finances.totalMined
  {
    hide Agrees, Listed, ImmatureTx;
    ImmatureAgrees(s, b, rewards);
    ToImmatureKeepsListed(s, inserting, hist, b);
    ImmatureTxFrame(s, b, rewards);
    ListedFrame(ToImmature(s, b), ImmatureTx(s, b, rewards), inserting, hist, hist);
  }

  /** What crediting immature balances does to rows and rounds, and what it leaves alone. */
  lemma ImmatureTxFrame(s: Store, b: BlockData, rewards: map<string, int>)
    requires b.roundHeight == b.height && b.candidateKey.Some?
    ensures var t, m := ImmatureTx(s, b, rewards), ToImmature(s, b);
            && t.rounds == m.rounds == s.rounds && t.maturedBlocks == m.maturedBlocks == s.maturedBlocks
            && t.candidates == m.candidates == s.candidates - {b.candidateKey.value}
            && t.immatureBlocks == m.immatureBlocks == s.immatureBlocks[b.Key() := b.height]
            && t.roundCurrent == s.roundCurrent && t.balance == s.balance && t.pending == s.pending && t.paid == s.paid
            && t.finances.totalMined == s.finances.totalMined
  {
    hide Sum, Plus, SetIfAbsent;
  }

  // ------------------------------------------------------------------------------------------
  // Second pass

  /** An immature row becomes a matured one. */
  lemma ToMaturedKeepsListed(s: Store, inserting: map<CandidateRow, int>, hist: History, b: BlockData)
    requires Listed(s, inserting, hist)
    requires b.immatureKey.Some? && b.immatureKey.value in s.immatureBlocks && DataId(b) == BlockId(b.immatureKey.value)
    ensures Listed(ToMatured(s, b), inserting, hist) && BlockId(b.Key()) !in BlockIdsOf(s.maturedBlocks)
  {
    var row := b.immatureKey.value;
    ImmatureIsNotMatured(s, inserting, hist, row);
    hide CandidateIds, BlockIdsOf;
    PartitionToMatured(s.candidates, inserting, s.immatureBlocks, s.maturedBlocks, hist.born, row, b.Key(), b.height);
  }

  lemma ImmatureIsNotMatured(s: Store, inserting: map<CandidateRow, int>, hist: History, row: BlockRow)
    requires Listed(s, inserting, hist) && row in s.immatureBlocks
    ensures BlockId(row) !in BlockIdsOf(s.maturedBlocks)
  {
    assert BlockId(row) in BlockIdsOf(s.immatureBlocks);
  }

  lemma StillImmature(cfg: Config, rows: map<BlockRow, int>, gone: BlockData, b: BlockData)
    requires gone.immatureKey.Some? && DataId(gone) == BlockId(gone.immatureKey.value)
    requires DataId(b) != DataId(gone)
    ensures Matures(cfg, rows, b) ==> Matures(cfg, rows - {gone.immatureKey.value}, b)
    ensures Orphans(rows, b) ==> Orphans(rows - {gone.immatureKey.value}, b)
  {
  }

  lemma PassAfterOrphan(cfg: Config, rows: map<BlockRow, int>, candidates: map<CandidateRow, int>,
                        orphans: seq<BlockData>, todo: seq<BlockData>)
    requires PassOk(cfg, Maturing(orphans, todo), candidates, rows) && orphans != []
    ensures PassOk(cfg, Maturing(orphans[1..], todo), candidates, rows - {orphans[0].immatureKey.value})
  {
    hide Orphans, Matures;
    var b := orphans[0];
    OrphanFacts(rows, b);
    assert orphans[1..] + todo == (orphans + todo)[1..];
    assert (orphans + todo)[0] == b;
    forall i | 1 <= i < |orphans|
      ensures Orphans(rows - {b.immatureKey.value}, orphans[i])
    {
      assert (orphans + todo)[i] == orphans[i];
      StillImmature(cfg, rows, b, orphans[i]);
    }
    forall i | 0 <= i < |todo|
      ensures Matures(cfg, rows - {b.immatureKey.value}, todo[i])
    {
      assert (orphans + todo)[|orphans| + i] == todo[i];
      StillImmature(cfg, rows, b, todo[i]);
    }
  }

  lemma OrphanFacts(rows: map<BlockRow, int>, b: BlockData)
    requires Orphans(rows, b)
    ensures b.immatureKey.Some?
    ensures var row := b.immatureKey.value;
            && row in rows && b.roundHeight == b.height == rows[row] && DataId(b) == BlockId(row)
            && b.nonce == row.nonce && b.hash == row.hash && b.Key().orphan
  {
  }

  lemma WriteOrphanKeeps(cfg: Config, w: World, logRead: bool, fault: Fault)
    requires Ledger(cfg, w) && w.pass.Maturing? && w.pass.orphans != []
    ensures Ledger(cfg, Next(cfg, w, WriteOrphan(logRead, fault)))
  {
    hide Agrees, Listed, LogListed, MoneyOk, Orphans, Matures, Distinct, Sum, OrphanTx, ReadLog, Retire;
    var s, hist := w.store, w.history;
    var b := w.pass.orphans[0];
    assert Orphans(s.immatureBlocks, b);
    if !fault.NotApplied? {
      OrphanTxKeeps(s, w.inserting, hist, b, ReadLog(s, b, logRead));
      PassAfterOrphan(cfg, s.immatureBlocks, s.candidates, w.pass.orphans, w.pass.todo);
    }
  }

  lemma OrphanTxKeeps(s: Store, inserting: map<CandidateRow, int>, hist: History,
                      b: BlockData, logged: map<string, int>)
    requires Agrees(s) && Listed(s, inserting, hist) && LogListed(hist.log, s.maturedBlocks)
    requires Orphans(s.immatureBlocks, b)
    ensures var t, hist' := OrphanTx(s, b, logged), Retire(hist, s, b);
            && Agrees(t) && Listed(t, inserting, hist')
            && LogListed(hist'.log, t.maturedBlocks) && hist'.log == hist.log
            && t.candidates == s.candidates && b.immatureKey.Some?
            && t.immatureBlocks == s.immatureBlocks - {b.immatureKey.value}
            && t.balance == s.balance && t.pending == s.pending && t.paid == s.paid
            && t.finances.totalMined == s.finances.totalMined
  {
    hide Agrees, Listed, LogListed, Orphans, Sum, OrphanTx;
    OrphanFacts(s.immatureBlocks, b);
    OrphanAgrees(s, b, logged);
    OrphanTxFrame(s, b, logged);
    ToMaturedKeepsListed(s, inserting, hist, b);
    ListedFrame(ToMatured(s, b), OrphanTx(s, b, logged), inserting, hist, Retire(hist, s, b));
    LogListedOrphan(hist.log, s.maturedBlocks, b.Key(), b.height);
  }

  /** What settling a row does to rows and rounds. */
  ghost predicate Settles(s: Store, t: Store, b: BlockData) {
    && t.rounds == ToMatured(s, b).rounds == s.rounds - {(b.roundHeight, b.nonce)}
    && t.candidates == ToMatured(s, b).candidates == s.candidates
    && t.immatureBlocks == ToMatured(s, b).immatureBlocks
    && t.maturedBlocks == ToMatured(s, b).maturedBlocks == s.maturedBlocks[b.Key() := b.height]
    && (b.immatureKey.Some? ==> t.immatureBlocks == s.immatureBlocks - {b.immatureKey.value})
    && t.roundCurrent == s.roundCurrent && t.pending == s.pending && t.paid == s.paid
  }

  lemma OrphanTxFrame(s: Store, b: BlockData, logged: map<string, int>)
    ensures var t := OrphanTx(s, b, logged);
            && Settles(s, t, b) && t.balance == s.balance && t.finances.totalMined == s.finances.totalMined
  {
    hide Sum, Minus;
  }

  lemma MaturedTxFrame(s: Store, b: BlockData, logged: map<string, int>, rewards: map<string, int>)
    requires b.reward.Some?
    ensures var t := MaturedTx(s, b, logged, rewards);
            && Settles(s, t, b) && t.balance == Plus(s.balance, rewards)
            && t.finances.totalMined == s.finances.totalMined + ToInt64(b.reward.value)
  {
    hide Sum, Minus, Plus, SetIfAbsent, ToInt64;
  }

  lemma MatureFacts(cfg: Config, rows: map<BlockRow, int>, b: BlockData)
    requires Matures(cfg, rows, b)
    ensures b.immatureKey.Some?
    ensures var row := b.immatureKey.value;
            && row in rows && b.roundHeight == b.height == rows[row]
            && DataId(b) == BlockId(row) == BlockId(b.Key()) && !b.Key().orphan && b.nonce == row.nonce
            && b == HandleBlock(cfg, FromBlockRow(row, b.height), b.hash)
            && b.totalShares == row.totalShares && b.coinBase == row.coinBase && b.fee == row.fee
            && b.reward == Some(BaseReward(cfg, b.Key().coinBase, b.Key().fee)) && |b.hash| >= LOGGED_HASH
  {
  }

  lemma PassAfterMatured(cfg: Config, rows: map<BlockRow, int>, candidates: map<CandidateRow, int>,
                          todo: seq<BlockData>)
    requires PassOk(cfg, Maturing([], todo), candidates, rows) && todo != []
    requires todo[0].immatureKey.Some? && DataId(todo[0]) == BlockId(todo[0].immatureKey.value)
    ensures PassOk(cfg, Maturing([], todo[1..]), candidates, rows - {todo[0].immatureKey.value})
  {
    hide Matures;
    assert [] + todo == todo && [] + todo[1..] == todo[1..];
    forall i | 1 <= i < |todo|
      ensures Matures(cfg, rows - {todo[0].immatureKey.value}, todo[i])
    {
      StillImmature(cfg, rows, todo[0], todo[i]);
    }
  }

  lemma WriteMaturedBlockKeeps(cfg: Config, w: World, sharesRead: bool, logRead: bool, fault: Fault)
    requires Ledger(cfg, w) && w.pass.Maturing? && w.pass.orphans == [] && w.pass.todo != []
    ensures Ledger(cfg, Next(cfg, w, WriteMaturedBlock(sharesRead, logRead, fault)))
  {
    hide Agrees, Listed, LogListed, MoneyOk, Orphans, Matures, RoundRewards, HandleBlock, Distinct, MaturedTx;
    hide Sum, ReadLog, ReadHash, CanSplit;
    var s, hist := w.store, w.history;
    var todo := w.pass.todo;
    var b := todo[0];
    assert Matures(cfg, s.immatureBlocks, b);
    MatureFacts(cfg, s.immatureBlocks, b);
    var shares := ReadHash(s.rounds, (b.roundHeight, b.nonce));
    if CanSplit(shares, b.totalShares) && sharesRead && !fault.NotApplied? {
      var logged, rewards := ReadLog(s, b, logRead), RoundRewards(cfg, b, shares);
      MaturedTxKeeps(cfg, w, b, shares, logged, rewards);
      MaturedTxFrame(s, b, logged, rewards);
      PassAfterMatured(cfg, s.immatureBlocks, s.candidates, todo);
    }
  }

  /** The applied transaction, apart from what the unlocker does next. */
  lemma MaturedTxKeeps(cfg: Config, w: World, b: BlockData, shares: map<string, int>,
                       logged: map<string, int>, rewards: map<string, int>)
    requires Ledger(cfg, w) && Matures(cfg, w.store.immatureBlocks, b)
    ensures var s, hist := w.store, w.history;
            && b.reward.Some?
            && var t, log := MaturedTx(s, b, logged, rewards), hist.log + [Credit(b.Key(), shares, rewards)];
            && Agrees(t) && Listed(t, w.inserting, Retire(hist, s, b).(log := log))
            && LogListed(log, t.maturedBlocks)
            && MoneyOk(cfg, log, t.balance, t.pending, t.paid, t.finances.totalMined)
  {
    hide Agrees, Listed, LogListed, MoneyOk, Matures, HandleBlock, PassOk, MaturedTx, ToMatured, Sum;
    var s, hist := w.store, w.history;
    MatureFacts(cfg, s.immatureBlocks, b);
    var credit := Credit(b.Key(), shares, rewards);
    ToMaturedKeepsListed(s, w.inserting, hist, b);
    LogListedMore(hist.log, s.maturedBlocks, credit, b.height);
    MoneyOkMore(cfg, hist.log, s.balance, s.pending, s.paid, s.finances.totalMined, credit);
    MaturedAgrees(s, b, logged, rewards);
    MaturedTxFrame(s, b, logged, rewards);
    ListedFrame(ToMatured(s, b), MaturedTx(s, b, logged, rewards), w.inserting, hist,
                Retire(hist, s, b).(log := hist.log + [credit]));
  }

  // ------------------------------------------------------------------------------------------
  // Runs

  lemma RestartKeeps(cfg: Config, w: World)
    requires Ledger(cfg, w)
    ensures Ledger(cfg, Next(cfg, w, Restart))
  {
    hide Agrees, Listed, LogListed, MoneyOk;
  }

  lemma NextKeepsLedger(cfg: Config, w: World, step: Step)
    requires Ledger(cfg, w) && Enabled(w, step)
    ensures Ledger(cfg, Next(cfg, w, step))
  {
    hide Ledger, RoundRewards, Classify, ReadRows, ReadBlockRows, FreshId, Ranges;
    match step
    case WriteShare(login, diff, fault) => WriteShareKeeps(cfg, w, login, diff, fault);
    case ArchiveRound(_, _, _, _, _) => ArchiveRoundKeeps(cfg, w, step);
    case InsertCandidate(row, fault) => InsertCandidateKeeps(cfg, w, row, fault);
    case ReadCandidates(_, _, _) => ReadCandidatesKeeps(cfg, w, step);
    case WritePendingOrphans(fault) => WritePendingOrphansKeeps(cfg, w, fault);
    case WriteImmatureBlock(sharesRead, fault) => WriteImmatureBlockKeeps(cfg, w, sharesRead, fault);
    case ReadImmatureBlocks(_, _, _) => ReadImmatureBlocksKeeps(cfg, w, step);
    case WriteOrphan(logRead, fault) => WriteOrphanKeeps(cfg, w, logRead, fault);
    case WriteMaturedBlock(sharesRead, logRead, fault) => WriteMaturedBlockKeeps(cfg, w, sharesRead, logRead, fault);
    case Restart => RestartKeeps(cfg, w);
    case _ => PaymentKeeps(cfg, w, step);
  }

  lemma {:induction false} RunLedger(cfg: Config, worlds: seq<World>, steps: seq<Step>, i: nat)
    requires IsRun(cfg, worlds, steps) && i < |worlds|
    ensures Ledger(cfg, worlds[i])
  {
    hide Ledger, Next, Enabled;
    if i == 0 {
      InitLedger(cfg);
    } else {
      RunLedger(cfg, worlds, steps, i - 1);
      NextKeepsLedger(cfg, worlds[i - 1], steps[i - 1]);
    }
  }
}
