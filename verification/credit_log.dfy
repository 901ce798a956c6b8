/** The log of immature credits: exactly when a step makes a miner's immature balance part from it,
    whatever the daemon reports; and which rows the entries belong to, when the headers of a run name
    blocks consistently. */
module CreditLog {
  import opened Common
  import opened Sums
  import opened Hex
  import opened Blocks
  import opened Rewards
  import opened RedisStore
  import opened Unlocking
  import opened PoolRun
  import opened Invariants
  import opened Lifecycle
  import opened RoundBooks

  // ------------------------------------------------------------------------------------------
  // Credits that are still immature

  ghost function PerKey(credits: map<RoundKey, map<string, int>>, login: string): map<RoundKey, int> {
    map key | key in credits :: Get(credits[key], login)
  }

  /** All that a login has outstanding in `credits:immature`. */
  ghost function Outstanding(credits: map<RoundKey, map<string, int>>, login: string): int {
    Sum(PerKey(credits, login))
  }

  lemma OutstandingAdd(credits: map<RoundKey, map<string, int>>, key: RoundKey, entries: map<string, int>,
                       login: string)
    requires key !in credits
    ensures Outstanding(credits[key := entries], login) == Outstanding(credits, login) + Get(entries, login)
  {
    SumSet(PerKey(credits, login), key, Get(entries, login));
    assert PerKey(credits[key := entries], login) == PerKey(credits, login)[key := Get(entries, login)];
  }

  lemma OutstandingRemove(credits: map<RoundKey, map<string, int>>, key: RoundKey, login: string)
    ensures Outstanding(credits - {key}, login) == Outstanding(credits, login) - Get(ReadHash(credits, key), login)
  {
    assert PerKey(credits - {key}, login) == PerKey(credits, login) - {key};
    if key in credits {
      SumRemove(PerKey(credits, login), key);
    } else {
      assert credits - {key} == credits;
    }
  }

  lemma OutstandingIfAbsent(credits: map<RoundKey, map<string, int>>, key: RoundKey, rewards: map<string, int>,
                            login: string)
    ensures Outstanding(SetIfAbsent(credits, key, rewards), login)
            == Outstanding(credits, login) + if login in ReadHash(credits, key) then 0 else Get(rewards, login)
  {
    hide Outstanding;
    if rewards != map[] {
      var logged := ReadHash(credits, key);
      var entries := rewards + logged;
      OutstandingRemove(credits, key, login);
      OutstandingAdd(credits - {key}, key, entries, login);
      assert credits[key := entries] == (credits - {key})[key := entries];
    }
  }

  // ------------------------------------------------------------------------------------------
  // When the log covers a miner's immature balance

  ghost predicate Covered(s: Store, login: string) {
    Get(s.immature, login) == Outstanding(s.creditsImmature, login)
  }

  /** HSETNX keeps an amount that is already logged: crediting a block under a key that is in use
      keeps a login covered exactly when the login is new to that key or its reward is 0. */
  lemma SharedKeyLosesCredit(s: Store, b: BlockData, rewards: map<string, int>, login: string)
    requires Covered(s, login)
    ensures Covered(ImmatureTx(s, b, rewards), login)
            <==> login !in ReadHash(s.creditsImmature, (b.height, b.hash)) || Get(rewards, login) == 0
  {
    hide Sum, ToImmature, Outstanding, SetIfAbsent;
    OutstandingIfAbsent(s.creditsImmature, (b.height, b.hash), rewards, login);
  }

  /** Settling a row deletes its log entry, whether the entry was read or not: a login stays covered
      exactly when it was read, or holds nothing for the login. */
  lemma UnreadLogLosesCredit(s: Store, b: BlockData, logRead: bool, rewards: map<string, int>, login: string)
    requires Covered(s, login)
    ensures var kept := logRead || Get(ReadHash(s.creditsImmature, (b.roundHeight, b.hash)), login) == 0;
            && (Covered(OrphanTx(s, b, ReadLog(s, b, logRead)), login) <==> kept)
            && (b.reward.Some? ==> (Covered(MaturedTx(s, b, ReadLog(s, b, logRead), rewards), login) <==> kept))
  {
    hide Sum, ToMatured, Outstanding, SetIfAbsent, Plus, ToInt64;
    OutstandingRemove(s.creditsImmature, (b.roundHeight, b.hash), login);
  }

  /** The steps after which a login is no longer covered, each by what can be looked up before it:
      a credit under a key that already holds an amount for the login, and a settlement whose read
      of an entry that holds one has failed. */
  ghost predicate Uncovers(cfg: Config, w: World, step: Step, login: string) {
    var s := w.store;
    match step
    case WriteImmatureBlock(sharesRead, fault) =>
      && w.pass.PendingBlocks? && w.pass.todo != [] && sharesRead && !fault.NotApplied?
      && var b := w.pass.todo[0];
      var shares := ReadHash(s.rounds, (b.roundHeight, b.nonce));
      && b.reward.Some? && CanSplit(shares, b.totalShares)
      && login in ReadHash(s.creditsImmature, (b.height, b.hash)) && Get(RoundRewards(cfg, b, shares), login) != 0
    case WriteOrphan(logRead, fault) =>
      && w.pass.Maturing? && w.pass.orphans != [] && !logRead && !fault.NotApplied?
      && var b := w.pass.orphans[0];
      Get(ReadHash(s.creditsImmature, (b.roundHeight, b.hash)), login) != 0
    case WriteMaturedBlock(sharesRead, logRead, fault) =>
      && w.pass.Maturing? && w.pass.orphans == [] && w.pass.todo != [] && sharesRead && !logRead && !fault.NotApplied?
      && var b := w.pass.todo[0];
      && b.reward.Some? && CanSplit(ReadHash(s.rounds, (b.roundHeight, b.nonce)), b.totalShares)
      && Get(ReadHash(s.creditsImmature, (b.roundHeight, b.hash)), login) != 0
    case _ => false
  }

  lemma CreditUncovers(cfg: Config, w: World, step: Step, login: string)
    requires Covered(w.store, login) && step.WriteImmatureBlock?
    ensures Covered(Next(cfg, w, step).store, login) <==> !Uncovers(cfg, w, step, login)
  {
    hide Covered, ImmatureTx, RoundRewards, CanSplit, ReadHash, Get;
    if w.pass.PendingBlocks? && w.pass.todo != [] {
      var b := w.pass.todo[0];
      var shares := ReadHash(w.store.rounds, (b.roundHeight, b.nonce));
      if b.reward.Some? && CanSplit(shares, b.totalShares) {
        SharedKeyLosesCredit(w.store, b, RoundRewards(cfg, b, shares), login);
      }
    }
  }

  lemma OrphaningUncovers(cfg: Config, w: World, step: Step, login: string)
    requires Covered(w.store, login) && step.WriteOrphan?
    ensures Covered(Next(cfg, w, step).store, login) <==> !Uncovers(cfg, w, step, login)
  {
    hide Covered, OrphanTx, ReadHash, Get, ReadLog;
    if w.pass.Maturing? && w.pass.orphans != [] {
      UnreadLogLosesCredit(w.store, w.pass.orphans[0], step.logRead, map[], login);
    }
  }

  lemma MaturingUncovers(cfg: Config, w: World, step: Step, login: string)
    requires Covered(w.store, login) && step.WriteMaturedBlock?
    ensures Covered(Next(cfg, w, step).store, login) <==> !Uncovers(cfg, w, step, login)
  {
    hide Covered, MaturedTx, RoundRewards, CanSplit, ReadHash, Get, ReadLog;
    if w.pass.Maturing? && w.pass.orphans == [] && w.pass.todo != [] {
      var b := w.pass.todo[0];
      var shares := ReadHash(w.store.rounds, (b.roundHeight, b.nonce));
      if b.reward.Some? && CanSplit(shares, b.totalShares) {
        UnreadLogLosesCredit(w.store, b, step.logRead, RoundRewards(cfg, b, shares), login);
      }
    }
  }

  /** Moving orphaned candidates touches neither immature balances nor their log. */
  lemma OrphansStayCovered(cfg: Config, w: World, step: Step)
    requires step.WritePendingOrphans?
    ensures SameCredits(w.store, Next(cfg, w, step).store)
  {
    hide PendingOrphansTx;
    PendingOrphansFrame(w.store, if w.pass.PendingOrphans? then w.pass.orphans else []);
  }

  ghost predicate SameCredits(s: Store, t: Store) {
    t.creditsImmature == s.creditsImmature && t.immature == s.immature
  }

  lemma OthersKeepCredits(cfg: Config, w: World, step: Step)
    requires !step.WritePendingOrphans? && !step.WriteImmatureBlock? && !step.WriteOrphan? && !step.WriteMaturedBlock?
    ensures SameCredits(w.store, Next(cfg, w, step).store)
  {
    if step.ReadCandidates? || step.ReadImmatureBlocks? || step.Restart? {
      hide Next;
      ReadFrame(cfg, w, step);
    } else if step.UpdateBalance? || step.RollbackBalance? || step.WritePayment? {
      hide Next;
      PaymentFrame(cfg, w, step);
    } else {
      hide Incr, Sum;
    }
  }

  /** A step keeps a covered login covered unless it is one of those. */
  lemma StepUncovers(cfg: Config, w: World, step: Step, login: string)
    requires Covered(w.store, login)
    ensures Covered(Next(cfg, w, step).store, login) <==> !Uncovers(cfg, w, step, login)
  {
    match step
    case WriteImmatureBlock(_, _) => hide Next, Uncovers; CreditUncovers(cfg, w, step, login);
    case WriteOrphan(_, _) => hide Next, Uncovers; OrphaningUncovers(cfg, w, step, login);
    case WriteMaturedBlock(_, _, _) => hide Next, Uncovers; MaturingUncovers(cfg, w, step, login);
    case WritePendingOrphans(_) => hide Next; OrphansStayCovered(cfg, w, step);
    case _ => hide Next; OthersKeepCredits(cfg, w, step);
  }

  /** In every run, whatever blocks are found and whatever the daemon reports, the log covers a
      login's immature balance at every moment up to i exactly when no step before i uncovers it. */
  lemma {:induction false} CoveredUntil(cfg: Config, worlds: seq<World>, steps: seq<Step>, i: nat, login: string)
    requires IsRun(cfg, worlds, steps) && i < |worlds|
    ensures (forall j | 0 <= j <= i :: Covered(worlds[j].store, login))
            <==> (forall k | 0 <= k < i :: !Uncovers(cfg, worlds[k], steps[k], login))
  {
    hide Next, Enabled, Uncovers, Covered;
    if i == 0 {
      NothingOutstanding(login);
    } else {
      CoveredUntil(cfg, worlds, steps, i - 1, login);
      if Covered(worlds[i - 1].store, login) {
        StepUncovers(cfg, worlds[i - 1], steps[i - 1], login);
      }
    }
  }

  lemma NothingOutstanding(login: string)
    ensures Covered(EMPTY_STORE, login)
  {
    assert PerKey(map[], login) == map[];
  }

  // ------------------------------------------------------------------------------------------
  // What the entries belong to

  /** The rewards that a confirmed row's block is due, from what is in the store. */
  ghost function DueRewards(cfg: Config, row: BlockRow, height: int, rounds: map<RoundKey, map<string, int>>)
    : map<string, int>
    requires Archived(rounds, (height, row.nonce), row.totalShares)
  {
    RowRewards(cfg, row, rounds[(height, row.nonce)])
  }

  /** A confirmed row carries the daemon's hash, and the credits logged under it are exactly the
      rewards that would be computed for it now. An orphaned row carries the placeholder. */
  ghost predicate RowCredited(cfg: Config, ids: BlockIds, row: BlockRow, height: int,
                              rounds: map<RoundKey, map<string, int>>, credits: map<RoundKey, map<string, int>>)
  {
    && Archived(rounds, (height, row.nonce), row.totalShares)
    && (row.orphan ==> row.hash == "0x0")
    && (!row.orphan ==>
          && row.hash == ids(height, row.nonce) && |row.hash| >= LOGGED_HASH
          && (height, row.hash) in credits
          && credits[(height, row.hash)] == DueRewards(cfg, row, height, rounds))
  }

  /** Every log entry belongs to a confirmed row. */
  ghost predicate EntriesHeld(rows: map<BlockRow, int>, credits: map<RoundKey, map<string, int>>) {
    forall key | key in credits :: exists row :: row in rows && !row.orphan && key == (rows[row], row.hash)
  }

  ghost predicate CreditsOk(cfg: Config, ids: BlockIds, immatureRows: map<BlockRow, int>,
                            rounds: map<RoundKey, map<string, int>>,
                            credits: map<RoundKey, map<string, int>>)
  {
    && (forall row | row in immatureRows :: RowCredited(cfg, ids, row, immatureRows[row], rounds, credits))
    && EntriesHeld(immatureRows, credits)
  }

  ghost predicate Logged(cfg: Config, ids: BlockIds, s: Store) {
    CreditsOk(cfg, ids, s.immatureBlocks, s.rounds, s.creditsImmature)
  }

  /** The confirmed blocks that a pass still has to write carry the hashes of the named blocks. */
  ghost predicate Named(ids: BlockIds, pass: Pass) {
    pass.Idle? || forall b | b in pass.todo :: b.hash == ids(b.height, b.nonce)
  }

  /** A row stays credited as long as its own round and its own log entry stay. */
  lemma RowCreditedStays(cfg: Config, ids: BlockIds, row: BlockRow, height: int,
                         rounds: map<RoundKey, map<string, int>>, credits: map<RoundKey, map<string, int>>,
                         rounds': map<RoundKey, map<string, int>>, credits': map<RoundKey, map<string, int>>)
    requires RowCredited(cfg, ids, row, height, rounds, credits)
    requires (height, row.nonce) in rounds' && rounds'[(height, row.nonce)] == rounds[(height, row.nonce)]
    requires !row.orphan ==>
               (height, row.hash) in credits' && credits'[(height, row.hash)] == credits[(height, row.hash)]
    ensures RowCredited(cfg, ids, row, height, rounds', credits')
  {
    hide RoundRewards;
  }

  lemma CreditedHasRound(cfg: Config, ids: BlockIds, row: BlockRow, height: int,
                         rounds: map<RoundKey, map<string, int>>, credits: map<RoundKey, map<string, int>>)
    requires RowCredited(cfg, ids, row, height, rounds, credits)
    ensures (height, row.nonce) in rounds
    ensures !row.orphan ==>
              row.hash == ids(height, row.nonce) && |row.hash| >= LOGGED_HASH && (height, row.hash) in credits
    ensures row.orphan ==> row.hash == "0x0"
  {
    hide RoundRewards;
  }

  /** Credits stay in order when a round is archived under a key not used before. */
  lemma CreditsOkArchive(cfg: Config, ids: BlockIds, rows: map<BlockRow, int>,
                         rounds: map<RoundKey, map<string, int>>, credits: map<RoundKey, map<string, int>>,
                         key: RoundKey, shares: map<string, int>)
    requires CreditsOk(cfg, ids, rows, rounds, credits) && key !in rounds
    ensures CreditsOk(cfg, ids, rows, rounds[key := shares], credits)
  {
    hide RowCredited, Outstanding;
    forall row | row in rows
      ensures RowCredited(cfg, ids, row, rows[row], rounds[key := shares], credits)
    {
      assert RowCredited(cfg, ids, row, rows[row], rounds, credits);
      CreditedHasRound(cfg, ids, row, rows[row], rounds, credits);
      RowCreditedStays(cfg, ids, row, rows[row], rounds, credits, rounds[key := shares], credits);
    }
  }

  lemma ConfirmedMeans(b: BlockData, reply: Header)
    requires IsNonceText(b.nonce) && Matches(b, reply)
    ensures b.nonce == ChainNonceHex(reply.nonce)
  {
    NonceTestIsExact(b.nonce, reply.nonce);
  }

  lemma ConfirmedNamed(cfg: Config, ids: BlockIds, b: BlockData, reply: Option<Header>, out: BlockData)
    requires Confirmed(cfg, b, reply, out) && IsNonceText(b.nonce)
    requires reply.value.hash == ids(b.height, ChainNonceHex(reply.value.nonce))
    ensures out.hash == ids(out.height, out.nonce)
  {
    ConfirmedMeans(b, reply.value);
  }

  /** The confirmed blocks of a verdict on truthful headers are named. */
  lemma VerdictNamed(cfg: Config, ids: BlockIds, blocks: seq<BlockData>, replies: seq<Option<Header>>)
    requires RepliesAgree(ids, blocks, replies) && forall i | 0 <= i < |blocks| :: IsNonceText(blocks[i].nonce)
    requires Classify(cfg, blocks, replies).Classified?
    ensures var v := Classify(cfg, blocks, replies); Named(ids, PendingOrphans(v.orphaned, v.matured))
                                                      && Named(ids, Maturing(v.orphaned, v.matured))
  {
    hide Classify, Confirmed, IsNonceText;
    var v := Classify(cfg, blocks, replies);
    var m, o := ClassifySplits(cfg, blocks, replies);
    forall b | b in v.matured
      ensures b.hash == ids(b.height, b.nonce)
    {
      var k :| 0 <= k < |v.matured| && v.matured[k] == b;
      ConfirmedHasReply(cfg, blocks[m[k]], replies[m[k]], b);
      ConfirmedNamed(cfg, ids, blocks[m[k]], replies[m[k]], b);
    }
  }

  lemma ReadNamed(cfg: Config, ids: BlockIds, w: World, step: Step)
    requires Placed(w.store, w.inserting, w.history) && Named(ids, w.pass)
    requires (step.ReadCandidates? || step.ReadImmatureBlocks?) && Reports(ids, w, step)
    ensures Named(ids, Next(cfg, w, step).pass)
  {
    hide Classify, Named, IsNonceText, RewardFits, Archived, KeysOk, Listed, ArchiveOk, BlockIdsOf;
    var s := w.store;
    match step
    case ReadCandidates(_, rows, replies) =>
      var blocks := ReadRows(rows, s.candidates);
      forall i | 0 <= i < |blocks|
        ensures IsNonceText(blocks[i].nonce)
      {
        assert CandidateOk(rows[i], s.candidates[rows[i]], s.rounds, w.history.keyOf);
      }
      if Classify(cfg, blocks, replies).Classified? {
        VerdictNamed(cfg, ids, blocks, replies);
      }
    case ReadImmatureBlocks(_, rows, replies) =>
      var blocks := ReadBlockRows(rows, s.immatureBlocks);
      forall i | 0 <= i < |blocks|
        ensures IsNonceText(blocks[i].nonce)
      {
        assert BlockOk(rows[i], s.immatureBlocks[rows[i]], s.rounds, w.history.keyOf);
      }
      if Classify(cfg, blocks, replies).Classified? {
        VerdictNamed(cfg, ids, blocks, replies);
      }
  }

  // ------------------------------------------------------------------------------------------
  // First pass

  lemma CreditsOkReject(cfg: Config, ids: BlockIds, rows: map<BlockRow, int>,
                        rounds: map<RoundKey, map<string, int>>, credits: map<RoundKey, map<string, int>>,
                        row: BlockRow, height: int)
    requires CreditsOk(cfg, ids, rows, rounds, credits)
    requires row !in rows && row.orphan && row.hash == "0x0" && Archived(rounds, (height, row.nonce), row.totalShares)
    ensures CreditsOk(cfg, ids, rows[row := height], rounds, credits)
  {
    hide Outstanding, EntriesHeld, Archived, DueRewards;
    var rows' := rows[row := height];
    forall r | r in rows'
      ensures RowCredited(cfg, ids, r, rows'[r], rounds, credits)
    {
      if r != row {
        assert RowCredited(cfg, ids, r, rows[r], rounds, credits);
      }
    }
    EntriesHeldStay(rows, credits, row, height);
  }

  lemma EntriesHeldStay(rows: map<BlockRow, int>, credits: map<RoundKey, map<string, int>>, row: BlockRow, height: int)
    requires EntriesHeld(rows, credits) && row !in rows
    ensures EntriesHeld(rows[row := height], credits)
  {
    var rows' := rows[row := height];
    forall key | key in credits
      ensures exists r :: r in rows' && !r.orphan && key == (rows'[r], r.hash)
    {
      var r :| r in rows && !r.orphan && key == (rows[r], r.hash);
      assert r in rows' && rows'[r] == rows[r];
    }
  }

  lemma RejectKeepsLogged(cfg: Config, ids: BlockIds, s: Store, inserting: map<CandidateRow, int>, hist: History,
                          b: BlockData)
    requires Placed(s, inserting, hist) && Logged(cfg, ids, s) && Rejects(s.candidates, b)
    ensures Logged(cfg, ids, ToImmature(s, b))
  {
    hide CreditsOk, Listed, Archives, Rejects, BlockOk, Archived;
    RejectFacts(s.candidates, b);
    SameRound(s, inserting, hist, b.candidateKey.value, b.Key());
    NewRow(s, inserting, hist, b.candidateKey.value, b.Key());
    CreditsOkReject(cfg, ids, s.immatureBlocks, s.rounds, s.creditsImmature, b.Key(), b.height);
  }

  lemma {:induction false} RejectAllKeepsLogged(cfg: Config, ids: BlockIds, s: Store,
                                                inserting: map<CandidateRow, int>, hist: History,
                                                orphans: seq<BlockData>)
    requires Placed(s, inserting, hist) && Logged(cfg, ids, s) && Distinct(orphans)
    requires forall i | 0 <= i < |orphans| :: Rejects(s.candidates, orphans[i])
    ensures Logged(cfg, ids, PendingOrphansTx(s, orphans))
    decreases |orphans|
  {
    hide Placed, Logged, Rejects, ToImmature;
    if orphans != [] {
      var n := |orphans| - 1;
      RejectAllKeepsLogged(cfg, ids, s, inserting, hist, orphans[..n]);
      RejectAllKeepsPlaced(cfg, s, inserting, hist, orphans[..n]);
      LastStillRejected(cfg, s, inserting, hist, orphans);
      RejectKeepsLogged(cfg, ids, PendingOrphansTx(s, orphans[..n]), inserting, hist, orphans[n]);
    }
  }

  /** No credit is logged yet under the key of a candidate about to be confirmed. */
  lemma CreditKeyFree(cfg: Config, ids: BlockIds, s: Store, inserting: map<CandidateRow, int>, hist: History,
                      b: BlockData)
    requires ValidIds(ids) && Placed(s, inserting, hist) && Logged(cfg, ids, s)
    requires Confirms(cfg, s.candidates, b) && b.hash == ids(b.height, b.nonce)
    ensures (b.height, b.hash) !in s.creditsImmature
  {
    hide Listed, Archives, Archived, DueRewards, Confirms, RowCredited, Matches;
    var key := (b.height, b.hash);
    ConfirmFacts(cfg, s.candidates, b);
    var c := b.candidateKey.value;
    forall r | r in s.immatureBlocks && !r.orphan
      ensures key != (s.immatureBlocks[r], r.hash)
    {
      assert RowCredited(cfg, ids, r, s.immatureBlocks[r], s.rounds, s.creditsImmature);
      CreditedHasRound(cfg, ids, r, s.immatureBlocks[r], s.rounds, s.creditsImmature);
      KeysApart(s, inserting, hist, c, r);
    }
  }

  /** A candidate and an immature row never share a round. */
  lemma KeysApart(s: Store, inserting: map<CandidateRow, int>, hist: History, c: CandidateRow, r: BlockRow)
    requires Placed(s, inserting, hist) && c in s.candidates && r in s.immatureBlocks
    ensures (s.candidates[c], c.nonce) != (s.immatureBlocks[r], r.nonce)
  {
    hide ArchiveOk, IsNonceText, RewardFits, Archived;
    assert CandidateOk(c, s.candidates[c], s.rounds, hist.keyOf);
    assert BlockOk(r, s.immatureBlocks[r], s.rounds, hist.keyOf);
    assert CandidateId(c) in CandidateIds(s.candidates) && BlockId(r) in BlockIdsOf(s.immatureBlocks);
    assert CandidateId(c) != BlockId(r);
  }

  /** The row written for a confirmed candidate is due exactly the rewards computed from memory:
      re-reading it loses nothing that the rewards depend on. */
  lemma SameRewards(cfg: Config, s: Store, b: BlockData)
    requires Confirms(cfg, s.candidates, b) && Archived(s.rounds, (b.height, b.nonce), b.totalShares)
    ensures var shares := ReadHash(s.rounds, (b.roundHeight, b.nonce));
            && CanSplit(shares, b.totalShares) && b.reward.Some?
            && RoundRewards(cfg, b, shares) == DueRewards(cfg, b.Key(), b.height, s.rounds)
  {
    hide RoundRewards;
    var again := HandleBlock(cfg, FromBlockRow(b.Key(), 0), b.Key().hash);
    RewardsDependOn(cfg, b, again, s.rounds[(b.height, b.nonce)]);
  }

  lemma RewardsNotEmpty(cfg: Config, b: BlockData, shares: map<string, int>)
    requires b.reward.Some? && CanSplit(shares, b.totalShares) && Sum(shares) != 0
    ensures RoundRewards(cfg, b, shares) != map[]
  {
    assert shares != map[];
    var login :| login in shares;
    assert login in RoundRewards(cfg, b, shares);
  }

  lemma CreditsOkConfirm(cfg: Config, ids: BlockIds, rows: map<BlockRow, int>,
                         rounds: map<RoundKey, map<string, int>>, credits: map<RoundKey, map<string, int>>,
                         row: BlockRow, height: int)
    requires CreditsOk(cfg, ids, rows, rounds, credits)
    requires row !in rows && !row.orphan && row.hash == ids(height, row.nonce) && |row.hash| >= LOGGED_HASH
    requires Archived(rounds, (height, row.nonce), row.totalShares)
    requires (height, row.hash) !in credits
    ensures var due := DueRewards(cfg, row, height, rounds);
            CreditsOk(cfg, ids, rows[row := height], rounds, credits[(height, row.hash) := due])
  {
    hide DueRewards, RowCredited, EntriesHeld;
    var due := DueRewards(cfg, row, height, rounds);
    var key := (height, row.hash);
    var rows' := rows[row := height];
    var credits' := credits[key := due];
    forall r | r in rows'
      ensures RowCredited(cfg, ids, r, rows'[r], rounds, credits')
    {
      if r == row {
        NewlyCredited(cfg, ids, row, height, rounds, credits);
      } else {
        assert RowCredited(cfg, ids, r, rows[r], rounds, credits);
        CreditedHasRound(cfg, ids, r, rows[r], rounds, credits);
        RowCreditedStays(cfg, ids, r, rows[r], rounds, credits, rounds, credits');
      }
    }
    EntriesHeldMore(rows, credits, row, height, due);
  }

  lemma NewlyCredited(cfg: Config, ids: BlockIds, row: BlockRow, height: int,
                      rounds: map<RoundKey, map<string, int>>, credits: map<RoundKey, map<string, int>>)
    requires Archived(rounds, (height, row.nonce), row.totalShares) && !row.orphan
    requires row.hash == ids(height, row.nonce) && |row.hash| >= LOGGED_HASH
    ensures RowCredited(cfg, ids, row, height, rounds,
                        credits[(height, row.hash) := DueRewards(cfg, row, height, rounds)])
  {
    hide DueRewards;
  }

  lemma EntriesHeldMore(rows: map<BlockRow, int>, credits: map<RoundKey, map<string, int>>,
                        row: BlockRow, height: int, due: map<string, int>)
    requires EntriesHeld(rows, credits) && row !in rows && !row.orphan
    ensures EntriesHeld(rows[row := height], credits[(height, row.hash) := due])
  {
    var rows', credits' := rows[row := height], credits[(height, row.hash) := due];
    forall k | k in credits'
      ensures exists r :: r in rows' && !r.orphan && k == (rows'[r], r.hash)
    {
      if k == (height, row.hash) {
        assert row in rows';
      } else {
        var r :| r in rows && !r.orphan && k == (rows[r], r.hash);
        assert r in rows' && rows'[r] == rows[r];
      }
    }
  }

  lemma ConfirmKeepsLogged(cfg: Config, ids: BlockIds, s: Store, inserting: map<CandidateRow, int>, hist: History,
                           b: BlockData, rewards: map<string, int>)
    requires ValidIds(ids) && Placed(s, inserting, hist) && Logged(cfg, ids, s)
    requires Confirms(cfg, s.candidates, b) && b.hash == ids(b.height, b.nonce)
    requires Archived(s.rounds, (b.height, b.nonce), b.totalShares)
    requires b.reward.Some? && rewards == RoundRewards(cfg, b, ReadHash(s.rounds, (b.roundHeight, b.nonce)))
    ensures Logged(cfg, ids, ImmatureTx(s, b, rewards))
  {
    hide Listed, Archives, Logged, Confirms, RoundRewards, DueRewards, Archived, ImmatureTx, SetIfAbsent, Sum;
    ConfirmFacts(cfg, s.candidates, b);
    CreditKeyFree(cfg, ids, s, inserting, hist, b);
    SameRewards(cfg, s, b);
    ArchivedIsPositive(s.rounds, (b.height, b.nonce), b.totalShares);
    RewardsNotEmpty(cfg, b, s.rounds[(b.height, b.nonce)]);
    NewRow(s, inserting, hist, b.candidateKey.value, b.Key());
    LoggedMeans(cfg, ids, s);
    CreditsOkConfirm(cfg, ids, s.immatureBlocks, s.rounds, s.creditsImmature, b.Key(), b.height);
    FreshHash(s.creditsImmature, (b.height, b.hash), rewards);
    ImmatureTxFrame(s, b, rewards);
    CreditsOf(s, b, rewards);
    LoggedIs(cfg, ids, ImmatureTx(s, b, rewards), s.immatureBlocks[b.Key() := b.height], s.rounds,
             s.creditsImmature[(b.height, b.hash) := rewards]);
  }

  lemma CreditsOf(s: Store, b: BlockData, rewards: map<string, int>)
    ensures var t := ImmatureTx(s, b, rewards);
            && t.creditsImmature == SetIfAbsent(s.creditsImmature, (b.height, b.hash), rewards)
            && t.immature == Plus(s.immature, rewards)
  {
    hide Sum, Plus, SetIfAbsent;
  }

  lemma ArchivedIsPositive(rounds: map<RoundKey, map<string, int>>, key: RoundKey, total: int)
    requires Archived(rounds, key, total)
    ensures key in rounds && Sum(rounds[key]) != 0
  {
  }

  lemma FreshHash(credits: map<RoundKey, map<string, int>>, key: RoundKey, rewards: map<string, int>)
    requires key !in credits && rewards != map[]
    ensures SetIfAbsent(credits, key, rewards) == credits[key := rewards]
  {
    assert rewards + map[] == rewards;
  }

  lemma LoggedMeans(cfg: Config, ids: BlockIds, s: Store)
    requires Logged(cfg, ids, s)
    ensures CreditsOk(cfg, ids, s.immatureBlocks, s.rounds, s.creditsImmature)
  {
    hide CreditsOk;
  }

  lemma LoggedIs(cfg: Config, ids: BlockIds, s: Store, rows: map<BlockRow, int>,
                 rounds: map<RoundKey, map<string, int>>, credits: map<RoundKey, map<string, int>>)
    requires CreditsOk(cfg, ids, rows, rounds, credits)
    requires s.immatureBlocks == rows && s.rounds == rounds && s.creditsImmature == credits
    ensures Logged(cfg, ids, s)
  {
    hide CreditsOk;
  }

  // ------------------------------------------------------------------------------------------
  // Second pass

  /** Two rows never share a round. */
  lemma RoundsDiffer(s: Store, inserting: map<CandidateRow, int>, hist: History, a: BlockRow, b: BlockRow)
    requires Placed(s, inserting, hist)
    requires a in s.immatureBlocks && b in s.immatureBlocks && a != b
    ensures (s.immatureBlocks[a], a.nonce) != (s.immatureBlocks[b], b.nonce)
  {
    hide Listed, ArchiveOk, BlockIdsOf, IsNonceText, RewardFits, Archived, CandidateOk;
    assert BlockOk(a, s.immatureBlocks[a], s.rounds, hist.keyOf);
    assert BlockOk(b, s.immatureBlocks[b], s.rounds, hist.keyOf);
    RowsDiffer(s, inserting, hist, a, b);
  }

  lemma RowsDiffer(s: Store, inserting: map<CandidateRow, int>, hist: History, a: BlockRow, b: BlockRow)
    requires Listed(s, inserting, hist) && a in s.immatureBlocks && b in s.immatureBlocks && a != b
    ensures BlockId(a) != BlockId(b)
  {
    hide CandidateIds, BlockIdsOf;
  }

  /** Settling one row: its log entry, if any, goes; every other row keeps its round and its log
      entry. */
  lemma CreditsOkSettle(cfg: Config, ids: BlockIds, s: Store, inserting: map<CandidateRow, int>, hist: History,
                        row: BlockRow, key: RoundKey)
    requires ValidIds(ids) && Placed(s, inserting, hist) && Logged(cfg, ids, s) && row in s.immatureBlocks
    requires if row.orphan then key !in s.creditsImmature else key == (s.immatureBlocks[row], row.hash)
    ensures CreditsOk(cfg, ids, s.immatureBlocks - {row}, s.rounds - {(s.immatureBlocks[row], row.nonce)},
                      s.creditsImmature - {key})
  {
    hide Listed, Archives, RowCredited;
    var h := s.immatureBlocks[row];
    var rows := s.immatureBlocks - {row};
    var rounds := s.rounds - {(h, row.nonce)};
    var credits := s.creditsImmature - {key};
    forall r | r in rows
      ensures RowCredited(cfg, ids, r, rows[r], rounds, credits)
    {
      assert RowCredited(cfg, ids, r, rows[r], s.rounds, s.creditsImmature);
      CreditedHasRound(cfg, ids, r, rows[r], s.rounds, s.creditsImmature);
      CreditedHasRound(cfg, ids, row, h, s.rounds, s.creditsImmature);
      RoundsDiffer(s, inserting, hist, r, row);
      RowCreditedStays(cfg, ids, r, rows[r], s.rounds, s.creditsImmature, rounds, credits);
    }
    forall k | k in credits
      ensures exists r :: r in rows && !r.orphan && k == (rows[r], r.hash)
    {
      var r :| r in s.immatureBlocks && !r.orphan && k == (s.immatureBlocks[r], r.hash);
      assert r in rows;
    }
  }

  /** Nothing is logged under the daemon's hash for a row that was first marked as an orphan. */
  lemma OrphanHasNoCredit(cfg: Config, ids: BlockIds, s: Store, inserting: map<CandidateRow, int>, hist: History,
                          row: BlockRow)
    requires ValidIds(ids) && Placed(s, inserting, hist) && Logged(cfg, ids, s) && row in s.immatureBlocks && row.orphan
    ensures (s.immatureBlocks[row], ids(s.immatureBlocks[row], row.nonce)) !in s.creditsImmature
    ensures (s.immatureBlocks[row], row.hash) !in s.creditsImmature
  {
    hide Listed, Archives, RowCredited;
    var h := s.immatureBlocks[row];
    forall r | r in s.immatureBlocks && !r.orphan && s.immatureBlocks[r] == h
      ensures r.hash != "0x0" && r.hash != ids(h, row.nonce)
    {
      assert RowCredited(cfg, ids, r, h, s.rounds, s.creditsImmature);
      CreditedHasRound(cfg, ids, r, h, s.rounds, s.creditsImmature);
      RoundsDiffer(s, inserting, hist, r, row);
    }
    assert RowCredited(cfg, ids, row, h, s.rounds, s.creditsImmature);
    CreditedHasRound(cfg, ids, row, h, s.rounds, s.creditsImmature);
  }

  /** A row is settled under the key the unlocker computes for it: the row's own hash when it is
      orphaned, the daemon's when it matures. */
  lemma SettleKey(cfg: Config, ids: BlockIds, s: Store, inserting: map<CandidateRow, int>, hist: History, b: BlockData)
    requires ValidIds(ids) && Placed(s, inserting, hist) && Logged(cfg, ids, s)
    requires b.immatureKey.Some? && b.immatureKey.value in s.immatureBlocks
    requires b.height == s.immatureBlocks[b.immatureKey.value] && b.nonce == b.immatureKey.value.nonce
    requires b.hash == b.immatureKey.value.hash || b.hash == ids(b.height, b.nonce)
    ensures var row := b.immatureKey.value;
            if row.orphan then (b.height, b.hash) !in s.creditsImmature else b.hash == row.hash
  {
    hide Placed, RowCredited;
    var row := b.immatureKey.value;
    assert RowCredited(cfg, ids, row, b.height, s.rounds, s.creditsImmature);
    CreditedHasRound(cfg, ids, row, b.height, s.rounds, s.creditsImmature);
    if row.orphan {
      OrphanHasNoCredit(cfg, ids, s, inserting, hist, row);
    }
  }

  lemma OrphanKeepsLogged(cfg: Config, ids: BlockIds, s: Store, inserting: map<CandidateRow, int>, hist: History,
                          b: BlockData, logged: map<string, int>)
    requires ValidIds(ids) && Placed(s, inserting, hist) && Logged(cfg, ids, s) && Orphans(s.immatureBlocks, b)
    ensures Logged(cfg, ids, OrphanTx(s, b, logged))
  {
    hide Placed, CreditsOk, Orphans, Sum, Minus, ToMatured;
    OrphanFacts(s.immatureBlocks, b);
    SettleKey(cfg, ids, s, inserting, hist, b);
    CreditsOkSettle(cfg, ids, s, inserting, hist, b.immatureKey.value, (b.height, b.hash));
    OrphanTxFrame(s, b, logged);
    LoggedIs(cfg, ids, OrphanTx(s, b, logged), s.immatureBlocks - {b.immatureKey.value},
             s.rounds - {(b.height, b.nonce)}, s.creditsImmature - {(b.height, b.hash)});
  }

  lemma MatureKeepsLogged(cfg: Config, ids: BlockIds, s: Store, inserting: map<CandidateRow, int>, hist: History,
                          b: BlockData, logged: map<string, int>, rewards: map<string, int>)
    requires ValidIds(ids) && Placed(s, inserting, hist) && Logged(cfg, ids, s)
    requires Matures(cfg, s.immatureBlocks, b) && b.reward.Some? && b.hash == ids(b.height, b.nonce)
    ensures Logged(cfg, ids, MaturedTx(s, b, logged, rewards))
  {
    hide Placed, CreditsOk, Matures, Sum, Minus, Plus, SetIfAbsent, ToMatured, ToInt64;
    MatureFacts(cfg, s.immatureBlocks, b);
    SettleKey(cfg, ids, s, inserting, hist, b);
    CreditsOkSettle(cfg, ids, s, inserting, hist, b.immatureKey.value, (b.height, b.hash));
    MaturedTxFrame(s, b, logged, rewards);
    LoggedIs(cfg, ids, MaturedTx(s, b, logged, rewards), s.immatureBlocks - {b.immatureKey.value},
             s.rounds - {(b.height, b.nonce)}, s.creditsImmature - {(b.height, b.hash)});
  }

  // ------------------------------------------------------------------------------------------
  // Runs

  ghost predicate SameLog(s: Store, t: Store) {
    && t.immatureBlocks == s.immatureBlocks && t.rounds == s.rounds
    && t.creditsImmature == s.creditsImmature && t.immature == s.immature
  }

  /** Steps that leave rows, rounds and log alone, and hold no other confirmed blocks. */
  lemma LoggedFrame(cfg: Config, ids: BlockIds, s: Store, t: Store)
    requires Logged(cfg, ids, s)
    requires SameLog(s, t)
    ensures Logged(cfg, ids, t)
  {
    hide CreditsOk;
  }

  lemma NamedTail(ids: BlockIds, fault: Fault, pass: Pass, next: Pass)
    requires Named(ids, pass) && !pass.Idle? && !next.Idle? && forall b | b in next.todo :: b in pass.todo
    ensures Named(ids, Onward(fault, next)) && Named(ids, Idle)
  {
  }

  lemma FirstPassKeepsLogged(cfg: Config, ids: BlockIds, w: World, step: Step)
    requires ValidIds(ids) && Books(cfg, w) && Logged(cfg, ids, w.store) && Named(ids, w.pass) && Enabled(w, step)
    requires step.WritePendingOrphans? || step.WriteImmatureBlock?
    ensures Logged(cfg, ids, Next(cfg, w, step).store)
  {
    hide Books, Logged, Placed, Sum, Confirms, Rejects, PendingOrphansTx, ImmatureTx, RoundRewards, CanSplit;
    hide Archived, ReadHash;
    BooksMean(cfg, w);
    var s, hist := w.store, w.history;
    match step
    case WritePendingOrphans(fault) =>
      DistinctHead(w.pass.orphans, w.pass.todo);
      RejectAllKeepsLogged(cfg, ids, s, w.inserting, hist, w.pass.orphans);
    case WriteImmatureBlock(_, _) =>
      var b := w.pass.todo[0];
      assert Confirms(cfg, s.candidates, b);
      ConfirmRound(cfg, s, w.inserting, hist, b);
      var shares := ReadHash(s.rounds, (b.roundHeight, b.nonce));
      if CanSplit(shares, b.totalShares) {
        ConfirmKeepsLogged(cfg, ids, s, w.inserting, hist, b, RoundRewards(cfg, b, shares));
      }
  }

  /** Settling keeps the other entries in order, whether the settled entry could be read or not. */
  lemma SecondPassKeepsLogged(cfg: Config, ids: BlockIds, w: World, step: Step)
    requires ValidIds(ids) && Books(cfg, w) && Logged(cfg, ids, w.store) && Named(ids, w.pass) && Enabled(w, step)
    requires step.WriteOrphan? || step.WriteMaturedBlock?
    ensures Logged(cfg, ids, Next(cfg, w, step).store)
  {
    hide Books, Logged, Placed, Sum, Matures, Orphans, OrphanTx, MaturedTx, RoundRewards, CanSplit, Archived;
    hide ReadHash, ReadLog;
    BooksMean(cfg, w);
    var s, hist := w.store, w.history;
    match step
    case WriteOrphan(logRead, _) =>
      var b := w.pass.orphans[0];
      assert Orphans(s.immatureBlocks, b);
      OrphanKeepsLogged(cfg, ids, s, w.inserting, hist, b, ReadLog(s, b, logRead));
    case WriteMaturedBlock(_, logRead, _) =>
      var b := w.pass.todo[0];
      assert Matures(cfg, s.immatureBlocks, b);
      var shares := ReadHash(s.rounds, (b.roundHeight, b.nonce));
      if b.reward.Some? && CanSplit(shares, b.totalShares) {
        MatureKeepsLogged(cfg, ids, s, w.inserting, hist, b, ReadLog(s, b, logRead), RoundRewards(cfg, b, shares));
      }
  }

  lemma WriteKeepsNamed(cfg: Config, ids: BlockIds, w: World, step: Step)
    requires Named(ids, w.pass)
    requires step.WritePendingOrphans? || step.WriteImmatureBlock? || step.WriteOrphan? || step.WriteMaturedBlock?
    ensures Named(ids, Next(cfg, w, step).pass)
  {
    hide PendingOrphansTx, ImmatureTx, OrphanTx, MaturedTx, RoundRewards, CanSplit, Sum;
  }

  lemma ArchiveKeepsLogged(cfg: Config, ids: BlockIds, w: World, step: Step)
    requires Books(cfg, w) && Logged(cfg, ids, w.store) && step.ArchiveRound? && ProperStep(w, step)
    ensures Logged(cfg, ids, Next(cfg, w, step).store)
  {
    hide Books, CreditsOk, Listed, Archives, Sum, Incr, IsNonceText, RewardFits;
    BooksMean(cfg, w);
    var s := w.store;
    var key := (step.height, step.found.nonce);
    KeyIsFree(s, w.inserting, w.history, key);
    CreditsOkArchive(cfg, ids, s.immatureBlocks, s.rounds, s.creditsImmature, key,
                     Incr(s.roundCurrent, step.login, step.diff));
  }

  lemma ServerFrame(cfg: Config, w: World, step: Step)
    requires step.WriteShare? || step.InsertCandidate?
    ensures SameLog(w.store, Next(cfg, w, step).store) && Next(cfg, w, step).pass == w.pass
  {
    hide Incr;
  }

  lemma PaymentFrame(cfg: Config, w: World, step: Step)
    requires step.UpdateBalance? || step.RollbackBalance? || step.WritePayment?
    ensures SameLog(w.store, Next(cfg, w, step).store) && Next(cfg, w, step).pass == w.pass
  {
    hide Incr;
  }

  lemma ReadFrame(cfg: Config, w: World, step: Step)
    requires step.ReadCandidates? || step.ReadImmatureBlocks? || step.Restart?
    ensures Next(cfg, w, step).store == w.store
  {
    hide Classify, ReadRows, ReadBlockRows;
  }

  /** Every step keeps the credit log in order, if the headers it reads name the blocks. */
  lemma NextKeepsLog(cfg: Config, ids: BlockIds, w: World, step: Step)
    requires ValidIds(ids) && Books(cfg, w) && Logged(cfg, ids, w.store) && Named(ids, w.pass)
    requires Enabled(w, step) && ProperStep(w, step) && Reports(ids, w, step)
    ensures Logged(cfg, ids, Next(cfg, w, step).store) && Named(ids, Next(cfg, w, step).pass)
  {
    hide Books, Logged, Named, Reports, ReadRows, ReadBlockRows, Classify, RoundRewards, CanSplit, Sum, Incr;
    hide PendingOrphansTx, ImmatureTx, OrphanTx, MaturedTx, FreshBlock, FreshId, Ranges;
    match step
    case ArchiveRound(_, _, _, _, _) => ArchiveKeepsLogged(cfg, ids, w, step);
    case WritePendingOrphans(_) => FirstPassKeepsLogged(cfg, ids, w, step); WriteKeepsNamed(cfg, ids, w, step);
    case WriteImmatureBlock(_, _) => FirstPassKeepsLogged(cfg, ids, w, step); WriteKeepsNamed(cfg, ids, w, step);
    case WriteOrphan(_, _) => SecondPassKeepsLogged(cfg, ids, w, step); WriteKeepsNamed(cfg, ids, w, step);
    case WriteMaturedBlock(_, _, _) => SecondPassKeepsLogged(cfg, ids, w, step); WriteKeepsNamed(cfg, ids, w, step);
    case ReadCandidates(_, _, _) => ReadKeepsLog(cfg, ids, w, step);
    case ReadImmatureBlocks(_, _, _) => ReadKeepsLog(cfg, ids, w, step);
    case Restart => IdleNamed(ids);
    case WriteShare(_, _, _) => ServerFrame(cfg, w, step); LoggedFrame(cfg, ids, w.store, Next(cfg, w, step).store);
    case InsertCandidate(_, _) => ServerFrame(cfg, w, step); LoggedFrame(cfg, ids, w.store, Next(cfg, w, step).store);
    case _ => PaymentFrame(cfg, w, step); LoggedFrame(cfg, ids, w.store, Next(cfg, w, step).store);
  }

  lemma IdleNamed(ids: BlockIds)
    ensures Named(ids, Idle)
  {
  }

  lemma ReadKeepsLog(cfg: Config, ids: BlockIds, w: World, step: Step)
    requires Books(cfg, w) && Logged(cfg, ids, w.store) && Named(ids, w.pass)
    requires (step.ReadCandidates? || step.ReadImmatureBlocks?) && Reports(ids, w, step)
    ensures Logged(cfg, ids, Next(cfg, w, step).store) && Named(ids, Next(cfg, w, step).pass)
  {
    hide Next, Reports, Logged, Named, Books, Placed;
    BooksMean(cfg, w);
    ReadFrame(cfg, w, step);
    ReadNamed(cfg, ids, w, step);
  }

  lemma NothingLogged(cfg: Config, ids: BlockIds)
    ensures Logged(cfg, ids, EMPTY_STORE)
  {
  }

  /** At every moment of a run with truthful headers the credit log is in order. */
  lemma {:induction false} RunLog(cfg: Config, ids: BlockIds, worlds: seq<World>, steps: seq<Step>, i: nat)
    requires ValidIds(ids) && IsRun(cfg, worlds, steps) && Proper(worlds, steps) && Truthful(ids, worlds, steps)
    requires i < |worlds|
    ensures Logged(cfg, ids, worlds[i].store) && Named(ids, worlds[i].pass)
  {
    hide Books, Next, Enabled, ProperStep, Reports, Logged;
    if i == 0 {
      NothingLogged(cfg, ids);
    } else {
      RunLog(cfg, ids, worlds, steps, i - 1);
      RunBooks(cfg, worlds, steps, i - 1);
      NextKeepsLog(cfg, ids, worlds[i - 1], steps[i - 1]);
    }
  }
}
