/** BlockUnlocker (payouts/unlocker.go:32-40, 102-372): the two passes as they run on one Redis
    client, each proved to be a legal run of the pool's accounting machine. */
module BlockUnlocker {
  import opened Common
  import opened Blocks
  import opened Rewards
  import opened RedisStore
  import opened Unlocking
  import opened PoolRun
  import opened RoundBooks
  import opened Guarantees
  import RedisClient

  /** Taken from `start`, the steps are all possible and lead to `now`. */
  ghost predicate Leads(cfg: Config, start: World, steps: seq<Step>, now: World) {
    exists worlds ::
      IsTrace(cfg, worlds, steps) && Proper(worlds, steps) && worlds[0] == start && worlds[|steps|] == now
  }

  /** So a pass that starts where a run of the pool stands continues that run. */
  lemma PassContinuesRun(cfg: Config, worlds: seq<World>, steps: seq<Step>,
                         pass: seq<Step>, now: World) returns (all: seq<World>)
    requires IsRun(cfg, worlds, steps) && Leads(cfg, worlds[|steps|], pass, now)
    ensures IsRun(cfg, all, steps + pass) && all[|steps + pass|] == now && all[..|worlds|] == worlds
    ensures Proper(worlds, steps) ==> Proper(all, steps + pass)
  {
    hide Enabled, Next, ProperStep;
    var later :| && IsTrace(cfg, later, pass) && Proper(later, pass)
                 && later[0] == worlds[|steps|] && later[|pass|] == now;
    TracesJoin(cfg, worlds, steps, later, pass);
    all := worlds + later[1..];
  }

  /** A prefix of a pass: the steps taken, the world they lead to, and the store as it is. */
  ghost predicate At(cfg: Config, start: World, steps: seq<Step>, now: World, store: Store) {
    Leads(cfg, start, steps, now) && Books(cfg, now) && now.store == store
  }

  lemma OneStep(cfg: Config, start: World, steps: seq<Step>, now: World, step: Step)
    requires At(cfg, start, steps, now, now.store) && Enabled(now, step) && ProperStep(now, step)
    ensures var next := Next(cfg, now, step);
            At(cfg, start, steps + [step], next, next.store)
  {
    hide Books, Enabled, Next;
    var worlds :| IsTrace(cfg, worlds, steps) && Proper(worlds, steps) && worlds[0] == start && worlds[|steps|] == now;
    TraceGrows(cfg, worlds, steps, step);
    NextKeepsBooks(cfg, now, step);
    assert (worlds + [Next(cfg, now, step)])[|steps + [step]|] == Next(cfg, now, step);
  }

  lemma AtStore(cfg: Config, start: World, steps: seq<Step>, now: World, store: Store)
    requires At(cfg, start, steps, now, store)
    ensures now.store == store && Books(cfg, now)
  {
    hide Books;
  }

  lemma AtStart(cfg: Config, start: World)
    requires Books(cfg, start)
    ensures At(cfg, start, [], start, start.store)
  {
    hide Books;
    assert IsTrace(cfg, [start], []);
  }

  /** The writes of the crediting loop of the first pass, from block i on: it stops at the first
      read or write that fails. */
  ghost function CreditSteps(i: nat, n: nat, sharesRead: nat -> bool, faults: nat -> Fault): seq<Step>
    decreases n - i
  {
    if i >= n then []
    else [PoolRun.WriteImmatureBlock(sharesRead(i), faults(i))]
         + if sharesRead(i) && faults(i).Ok? then CreditSteps(i + 1, n, sharesRead, faults) else []
  }

  /** Likewise for the second pass. */
  ghost function MatureSteps(i: nat, n: nat, sharesRead: nat -> bool, logRead: nat -> bool,
                             faults: nat -> Fault): seq<Step>
    decreases n - i
  {
    if i >= n then []
    else [PoolRun.WriteMaturedBlock(sharesRead(i), logRead(i), faults(i))]
         + if sharesRead(i) && faults(i).Ok? then MatureSteps(i + 1, n, sharesRead, logRead, faults) else []
  }

  ghost function OrphanSteps(i: nat, n: nat, logRead: nat -> bool, faults: nat -> Fault): seq<Step>
    decreases n - i
  {
    if i >= n then []
    else [PoolRun.WriteOrphan(logRead(i), faults(i))]
         + if faults(i).Ok? then OrphanSteps(i + 1, n, logRead, faults) else []
  }

  lemma CreditTurn(done: seq<Step>, i: nat, n: nat, sharesRead: nat -> bool, faults: nat -> Fault)
    requires i < n
    ensures done + CreditSteps(i, n, sharesRead, faults)
            == done + [PoolRun.WriteImmatureBlock(sharesRead(i), faults(i))]
               + if sharesRead(i) && faults(i).Ok? then CreditSteps(i + 1, n, sharesRead, faults) else []
  {
  }

  lemma MatureTurn(done: seq<Step>, i: nat, n: nat, sharesRead: nat -> bool, logRead: nat -> bool, faults: nat -> Fault)
    requires i < n
    ensures done + MatureSteps(i, n, sharesRead, logRead, faults)
            == done + [PoolRun.WriteMaturedBlock(sharesRead(i), logRead(i), faults(i))]
               + if sharesRead(i) && faults(i).Ok? then MatureSteps(i + 1, n, sharesRead, logRead, faults) else []
  {
  }

  lemma OrphanTurn(done: seq<Step>, i: nat, n: nat, logRead: nat -> bool, faults: nat -> Fault)
    requires i < n
    ensures done + OrphanSteps(i, n, logRead, faults)
            == done + [PoolRun.WriteOrphan(logRead(i), faults(i))]
               + if faults(i).Ok? then OrphanSteps(i + 1, n, logRead, faults) else []
  {
  }

  lemma CreditEnd(n: nat, sharesRead: nat -> bool, faults: nat -> Fault)
    ensures CreditSteps(n, n, sharesRead, faults) == []
  {
  }

  lemma MatureEnd(n: nat, sharesRead: nat -> bool, logRead: nat -> bool, faults: nat -> Fault)
    ensures MatureSteps(n, n, sharesRead, logRead, faults) == []
  {
  }

  lemma OrphanEnd(n: nat, logRead: nat -> bool, faults: nat -> Fault)
    ensures OrphanSteps(n, n, logRead, faults) == []
  {
  }

  ghost predicate AllRead(n: nat, sharesRead: nat -> bool, faults: nat -> Fault) {
    forall i: nat | i < n :: sharesRead(i) && faults(i).Ok?
  }

  ghost predicate AllWritten(n: nat, faults: nat -> Fault) {
    forall i: nat | i < n :: faults(i).Ok?
  }

  /** Everything the first pass does: read, move the orphans in one write, credit block by block. */
  ghost function FirstPassSteps(maxHeight: int, rows: seq<CandidateRow>, replies: seq<Option<Header>>, v: Verdict,
                                sharesRead: nat -> bool, orphansFault: Fault, faults: nat -> Fault): seq<Step>
    requires v.Classified?
  {
    [ReadCandidates(maxHeight, rows, replies)] + ([PoolRun.WritePendingOrphans(orphansFault)]
    + if orphansFault.Ok? then CreditSteps(0, |v.matured|, sharesRead, faults) else [])
  }

  /** Everything the second pass does: read, settle the orphans one by one, then credit. */
  ghost function SecondPassSteps(maxHeight: int, rows: seq<BlockRow>, replies: seq<Option<Header>>, v: Verdict,
                                 sharesRead: nat -> bool, orphanLogs: nat -> bool, logRead: nat -> bool,
                                 orphanFaults: nat -> Fault, faults: nat -> Fault): seq<Step>
    requires v.Classified?
  {
    [ReadImmatureBlocks(maxHeight, rows, replies)] + (OrphanSteps(0, |v.orphaned|, orphanLogs, orphanFaults)
    + if AllWritten(|v.orphaned|, orphanFaults)
                 then MatureSteps(0, |v.matured|, sharesRead, logRead, faults) else [])
  }

  lemma FirstPass(maxHeight: int, rows: seq<CandidateRow>, replies: seq<Option<Header>>, v: Verdict,
                  sharesRead: nat -> bool, orphansFault: Fault, faults: nat -> Fault)
    requires v.Classified?
    ensures FirstPassSteps(maxHeight, rows, replies, v, sharesRead, orphansFault, faults)
            == [ReadCandidates(maxHeight, rows, replies)] + ([PoolRun.WritePendingOrphans(orphansFault)]
               + if orphansFault.Ok? then CreditSteps(0, |v.matured|, sharesRead, faults) else [])
  {
  }

  lemma SecondPass(maxHeight: int, rows: seq<BlockRow>, replies: seq<Option<Header>>, v: Verdict,
                   sharesRead: nat -> bool, orphanLogs: nat -> bool, logRead: nat -> bool,
                   orphanFaults: nat -> Fault, faults: nat -> Fault)
    requires v.Classified?
    ensures SecondPassSteps(maxHeight, rows, replies, v, sharesRead, orphanLogs, logRead, orphanFaults, faults)
            == [ReadImmatureBlocks(maxHeight, rows, replies)] + (OrphanSteps(0, |v.orphaned|, orphanLogs, orphanFaults)
               + if AllWritten(|v.orphaned|, orphanFaults)
                 then MatureSteps(0, |v.matured|, sharesRead, logRead, faults) else [])
  {
  }

  /** If every block of a verdict has left a set of rows, so has every row the batch was read from. */
  lemma VerdictCovers(cfg: Config, rows: seq<CandidateRow>, members: map<CandidateRow, int>,
                      replies: seq<Option<Header>>, left: map<CandidateRow, int>)
    requires (forall i | 0 <= i < |rows| :: rows[i] in members) && |replies| == |rows|
    requires Classify(cfg, ReadRows(rows, members), replies).Classified?
    requires Gone(Classify(cfg, ReadRows(rows, members), replies).matured, left)
             && Gone(Classify(cfg, ReadRows(rows, members), replies).orphaned, left)
    ensures forall i | 0 <= i < |rows| :: rows[i] !in left
  {
    hide Classify;
    var blocks := ReadRows(rows, members);
    var v := Classify(cfg, blocks, replies);
    var m, o := ClassifySplits(cfg, blocks, replies);
    forall i: nat | i < |rows|
      ensures rows[i] !in left
    {
      if i in m {
        var k :| 0 <= k < |m| && m[k] == i;
        assert Confirmed(cfg, blocks[m[k]], replies[m[k]], v.matured[k]);
        assert v.matured[k].candidateKey == Some(rows[i]);
      } else {
        var k :| 0 <= k < |o| && o[k] == i;
        assert Orphaned(blocks[o[k]], replies[o[k]], v.orphaned[k]);
        assert v.orphaned[k].candidateKey == Some(rows[i]);
      }
    }
  }

  ghost predicate Gone(blocks: seq<BlockData>, left: map<CandidateRow, int>) {
    forall k | 0 <= k < |blocks| :: blocks[k].candidateKey.Some? ==> blocks[k].candidateKey.value !in left
  }

  lemma VerdictCoversBlocks(cfg: Config, rows: seq<BlockRow>, members: map<BlockRow, int>,
                            replies: seq<Option<Header>>, left: map<BlockRow, int>)
    requires (forall i | 0 <= i < |rows| :: rows[i] in members) && |replies| == |rows|
    requires Classify(cfg, ReadBlockRows(rows, members), replies).Classified?
    requires GoneBlocks(Classify(cfg, ReadBlockRows(rows, members), replies).matured, left)
             && GoneBlocks(Classify(cfg, ReadBlockRows(rows, members), replies).orphaned, left)
    ensures forall i | 0 <= i < |rows| :: rows[i] !in left
  {
    hide Classify;
    var blocks := ReadBlockRows(rows, members);
    var v := Classify(cfg, blocks, replies);
    var m, o := ClassifySplits(cfg, blocks, replies);
    forall i: nat | i < |rows|
      ensures rows[i] !in left
    {
      if i in m {
        var k :| 0 <= k < |m| && m[k] == i;
        assert Confirmed(cfg, blocks[m[k]], replies[m[k]], v.matured[k]);
        assert v.matured[k].immatureKey == Some(rows[i]);
      } else {
        var k :| 0 <= k < |o| && o[k] == i;
        assert Orphaned(blocks[o[k]], replies[o[k]], v.orphaned[k]);
        assert v.orphaned[k].immatureKey == Some(rows[i]);
      }
    }
  }

  ghost predicate GoneBlocks(blocks: seq<BlockData>, left: map<BlockRow, int>) {
    forall k | 0 <= k < |blocks| :: blocks[k].immatureKey.Some? ==> blocks[k].immatureKey.value !in left
  }

  lemma NoneGone(left: map<CandidateRow, int>)
    ensures Gone([], left)
  {
  }

  lemma NoneGoneBlocks(left: map<BlockRow, int>)
    ensures GoneBlocks([], left)
  {
  }

  lemma OneMoreGone(blocks: seq<BlockData>, i: nat, before: map<CandidateRow, int>, left: map<CandidateRow, int>)
    requires i < |blocks| && Gone(blocks[..i], before)
    requires left == before - KeyOf(blocks[i].candidateKey)
    ensures Gone(blocks[..i + 1], left)
  {
  }

  lemma OneMoreGoneBlocks(blocks: seq<BlockData>, i: nat, before: map<BlockRow, int>, left: map<BlockRow, int>)
    requires i < |blocks| && GoneBlocks(blocks[..i], before)
    requires left == before - KeyOf(blocks[i].immatureKey)
    ensures GoneBlocks(blocks[..i + 1], left)
  {
  }

  function KeyOf<Row>(key: Option<Row>): set<Row> {
    if key.Some? then {key.value} else {}
  }

  lemma ImmatureLeaves(s: Store, b: BlockData, rewards: map<string, int>)
    ensures ImmatureTx(s, b, rewards).candidates == s.candidates - KeyOf(b.candidateKey)
  {
    assert b.candidateKey.None? ==> s.candidates - KeyOf(b.candidateKey) == s.candidates;
  }

  lemma MaturedLeaves(s: Store, b: BlockData, logged: map<string, int>, rewards: map<string, int>)
    requires b.reward.Some?
    ensures MaturedTx(s, b, logged, rewards).immatureBlocks == s.immatureBlocks - KeyOf(b.immatureKey)
  {
    assert b.immatureKey.None? ==> s.immatureBlocks - KeyOf(b.immatureKey) == s.immatureBlocks;
  }

  lemma OrphanLeaves(s: Store, b: BlockData, logged: map<string, int>)
    ensures OrphanTx(s, b, logged).immatureBlocks == s.immatureBlocks - KeyOf(b.immatureKey)
  {
    assert b.immatureKey.None? ==> s.immatureBlocks - KeyOf(b.immatureKey) == s.immatureBlocks;
  }

  /** What the first pass may be given: the daemon's block count (None for an error), whether
      the range query works, the rows in the order Redis lists them, the daemon's headers. */
  ghost predicate FirstPassInput(cfg: Config, start: World, blockCount: Option<int>, listed: bool,
                                 rows: seq<CandidateRow>, replies: seq<Option<Header>>)
  {
    && Books(cfg, start) && start.pass.Idle?
    && (blockCount.Some? && listed ==>
          Ranges(rows, start.store.candidates, blockCount.value - cfg.immatureDepth) && |replies| == |rows|)
  }

  ghost predicate SecondPassInput(cfg: Config, start: World, blockCount: Option<int>, listed: bool,
                                  rows: seq<BlockRow>, replies: seq<Option<Header>>)
  {
    && Books(cfg, start) && start.pass.Idle?
    && (blockCount.Some? && listed ==>
          Ranges(rows, start.store.immatureBlocks, blockCount.value - cfg.depth) && |replies| == |rows|)
  }

  /** What a pass reads is deep enough: candidates by the immature depth, immature rows by the depth. */
  lemma DeepEnough(cfg: Config, start: World, count: int, rows: seq<CandidateRow>, blockRows: seq<BlockRow>,
                   replies: seq<Option<Header>>, i: nat)
    ensures FirstPassInput(cfg, start, Some(count), true, rows, replies) && i < |rows| ==>
              rows[i] in start.store.candidates && start.store.candidates[rows[i]] + cfg.immatureDepth <= count
    ensures SecondPassInput(cfg, start, Some(count), true, blockRows, replies) && i < |blockRows| ==>
              && blockRows[i] in start.store.immatureBlocks
              && start.store.immatureBlocks[blockRows[i]] + cfg.depth <= count
  {
    hide Books;
  }

  lemma FirstPassFacts(cfg: Config, start: World, blockCount: Option<int>, listed: bool,
                       rows: seq<CandidateRow>, replies: seq<Option<Header>>)
    requires FirstPassInput(cfg, start, blockCount, listed, rows, replies)
    ensures start.pass.Idle? && At(cfg, start, [], start, start.store)
    ensures blockCount.Some? && listed ==> |replies| == |rows|
    ensures blockCount.Some? && listed ==> forall i | 0 <= i < |rows| :: rows[i] in start.store.candidates
  {
    hide Books, At;
    AtStart(cfg, start);
  }

  lemma SecondPassFacts(cfg: Config, start: World, blockCount: Option<int>, listed: bool,
                        rows: seq<BlockRow>, replies: seq<Option<Header>>)
    requires SecondPassInput(cfg, start, blockCount, listed, rows, replies)
    ensures start.pass.Idle? && At(cfg, start, [], start, start.store)
    ensures blockCount.Some? && listed ==> |replies| == |rows|
    ensures blockCount.Some? && listed ==> forall i | 0 <= i < |rows| :: rows[i] in start.store.immatureBlocks
  {
    hide Books, At;
    AtStart(cfg, start);
  }

  /** Reading the candidates, as the first step of a pass. */
  lemma ReadFirst(cfg: Config, start: World, blockCount: Option<int>, rows: seq<CandidateRow>,
                  replies: seq<Option<Header>>, blocks: seq<BlockData>, v: Verdict)
    requires FirstPassInput(cfg, start, blockCount, true, rows, replies) && blockCount.Some?
    requires (forall i | 0 <= i < |rows| :: rows[i] in start.store.candidates)
             && blocks == ReadRows(rows, start.store.candidates)
    requires |replies| == |blocks| && v == Classify(cfg, blocks, replies) && v.Classified?
    ensures At(cfg, start, [ReadCandidates(blockCount.value - cfg.immatureDepth, rows, replies)],
               start.(pass := PendingOrphans(v.orphaned, v.matured)), start.store)
  {
    hide Books, Classify, At;
    var read := ReadCandidates(blockCount.value - cfg.immatureDepth, rows, replies);
    AtStart(cfg, start);
    OneStep(cfg, start, [], start, read);
    assert [] + [read] == [read];
  }

  lemma ReadSecond(cfg: Config, start: World, blockCount: Option<int>, rows: seq<BlockRow>,
                   replies: seq<Option<Header>>, blocks: seq<BlockData>, v: Verdict)
    requires SecondPassInput(cfg, start, blockCount, true, rows, replies) && blockCount.Some?
    requires (forall i | 0 <= i < |rows| :: rows[i] in start.store.immatureBlocks)
             && blocks == ReadBlockRows(rows, start.store.immatureBlocks)
    requires |replies| == |blocks| && v == Classify(cfg, blocks, replies) && v.Classified?
    ensures At(cfg, start, [ReadImmatureBlocks(blockCount.value - cfg.depth, rows, replies)],
               start.(pass := Maturing(v.orphaned, v.matured)), start.store)
  {
    hide Books, Classify, At;
    var read := ReadImmatureBlocks(blockCount.value - cfg.depth, rows, replies);
    AtStart(cfg, start);
    OneStep(cfg, start, [], start, read);
    assert [] + [read] == [read];
  }

  /** The step of the machine that one turn of a crediting loop takes. */
  lemma ImmatureStep(cfg: Config, w: World, readable: bool, fault: Fault)
    requires Books(cfg, w) && w.pass.PendingBlocks? && w.pass.todo != []
    ensures var b := w.pass.todo[0];
            var step := PoolRun.WriteImmatureBlock(readable, fault);
            var shares := ReadHash(w.store.rounds, (b.roundHeight, b.nonce));
            && Enabled(w, step) && ProperStep(w, step) && b.reward.Some? && CanSplit(shares, b.totalShares)
            && var w' := Next(cfg, w, step);
            && w'.store == (if !readable || fault.NotApplied? then w.store
                            else ImmatureTx(w.store, b, RoundRewards(cfg, b, shares)))
            && w'.pass == if readable && fault.Ok? && |w.pass.todo| > 1 then PendingBlocks(w.pass.todo[1..]) else Idle
  {
    hide Books, ImmatureTx, RoundRewards, CanSplit, ReadHash;
    NextRewardDefined(cfg, w);
  }

  lemma MaturedStep(cfg: Config, w: World, readable: bool, logRead: bool, fault: Fault)
    requires Books(cfg, w) && AboutToMature(w)
    ensures var b := w.pass.todo[0];
            var step := PoolRun.WriteMaturedBlock(readable, logRead, fault);
            var shares := ReadHash(w.store.rounds, (b.roundHeight, b.nonce));
            && Enabled(w, step) && ProperStep(w, step) && b.reward.Some? && CanSplit(shares, b.totalShares)
            && var w' := Next(cfg, w, step);
            && w'.store == (if !readable || fault.NotApplied? then w.store
                            else MaturedTx(w.store, b, ReadLog(w.store, b, logRead), RoundRewards(cfg, b, shares)))
            && w'.pass == if readable && fault.Ok? && |w.pass.todo| > 1 then Maturing([], w.pass.todo[1..]) else Idle
  {
    hide Books, MaturedTx, RoundRewards, CanSplit, ReadHash, ReadLog;
    NextRewardDefined(cfg, w);
  }

  class BlockUnlocker {
    const config: Config
    const backend: RedisClient.Client
    var halt: bool
    var counter: int

    /** Nothing ever moves the recovery counter off 0. */
    ghost predicate Valid()
      reads `counter
    {
      counter == 0
    }

    constructor (cfg: Config, backend: RedisClient.Client)
      ensures Valid() && config == cfg && this.backend == backend && !halt
    {
      this.config, this.backend := cfg, backend;
      halt, counter := false, 0;
    }

    /** The guard that both passes begin with. The counter only moves while it is off a multiple
        of 3, and it starts at 0: a halted unlocker resumes at its next call, and no pass is ever
        skipped. */
    method Recover() returns (suspended: bool)
      modifies `halt, `counter
      ensures suspended <==> old(halt) && old(counter) % 3 != 0
      ensures halt == suspended && counter == old(counter) + if suspended then 1 else 0
      ensures old(Valid()) ==> Valid() && !suspended
    {
      suspended := false;
      if halt {
        if counter % 3 == 0 {
          halt := false;
        } else {
          counter := counter + 1;
          suspended := true;
        }
      }
    }

    /** unlockCandidates. */
    method UnlockCandidates(candidates: seq<BlockData>, replies: seq<Option<Header>>) returns (v: Verdict)
      requires Valid() && |candidates| == |replies|
      modifies `halt
      ensures Valid() && v == Classify(config, candidates, replies)
      ensures v.Classified? ==>
                exists m, o :: SortedByChain(config, candidates, replies, v.matured, v.orphaned, m, o)
      ensures v.Classified? ==> halt == old(halt)
      ensures v.RewardMismatch? ==> halt
    {
      hide ClassifyOne, SortedByChain;
      var matured: seq<BlockData>, orphaned: seq<BlockData> := [], [];
      var i := 0;
      while i < |candidates|
        invariant 0 <= i <= |candidates| && halt == old(halt)
        invariant Classify(config, candidates[..i], replies[..i]) == Classified(matured, orphaned)
      {
        ClassifyNext(config, candidates, replies, i);
        var step := ClassifyStep(candidates[i], replies[i], matured, orphaned);
        if !step.Classified? {
          ClassifyStops(config, candidates, replies, i + 1);
          return step;
        }
        matured, orphaned := step.matured, step.orphaned;
        i := i + 1;
      }
      assert candidates[..i] == candidates && replies[..i] == replies;
      v := Classified(matured, orphaned);
      ghost var m, o := ChainDecides(config, candidates, replies);
    }

    /** The body of that loop. */
    method ClassifyStep(candidate: BlockData, reply: Option<Header>, matured: seq<BlockData>, orphaned: seq<BlockData>)
      returns (v: Verdict)
      modifies `halt
      ensures v == ClassifyOne(config, Classified(matured, orphaned), candidate, reply)
      ensures v.Classified? ==> halt == old(halt)
      ensures v.RewardMismatch? ==> halt
    {
      if reply.None? {
        return RpcFailed;
      }
      var header := reply.value;
      if Matches(candidate, header) {
        var totalReward := ToInt64(candidate.coinBase + candidate.fee);
        if totalReward != header.reward {
          halt := true;
          return RewardMismatch;
        }
        if |header.hash| < LOGGED_HASH {
          return ShortHash;
        }
        v := Classified(matured + [HandleBlock(config, candidate, header.hash)], orphaned);
      } else {
        v := Classified(matured, orphaned + [candidate.(orphan := true)]);
      }
    }

    /** The part of a pass up to the verdict on the blocks it has listed. A pass that gets no
        verdict has written nothing, and is halted unless there was nothing to do. */
    method Examine(blockCount: Option<int>, listed: bool, blocks: seq<BlockData>, replies: seq<Option<Header>>)
      returns (go: bool, v: Verdict)
      requires Valid() && (blockCount.Some? && listed ==> |replies| == |blocks|)
      modifies this
      ensures Valid() && backend.View() == old(backend.View())
      ensures go <==> blockCount.Some? && listed && blocks != [] && Classify(config, blocks, replies).Classified?
      ensures go ==> !halt && v == Classify(config, blocks, replies)
      ensures !go ==> (halt <==> blockCount.None? || !listed || blocks != [])
    {
      hide Classify;
      v := RpcFailed;
      var suspended := Recover();
      if suspended {
        return false, v;
      }
      if blockCount.None? || !listed {
        halt := true;
        return false, v;
      }
      if |blocks| == 0 {
        return false, v;
      }
      v := UnlockCandidates(blocks, replies);
      go := v.Classified?;
      halt := !go;
    }

    /** unlockPendingBlocks; `sharesRead(i)` and `faults(i)` say what happens to the reads and
        writes of the i-th confirmed block. */
    method UnlockPendingBlocks(ghost start: World, blockCount: Option<int>, listed: bool,
                               rows: seq<CandidateRow>, replies: seq<Option<Header>>,
                               sharesRead: nat -> bool, orphansFault: Fault, faults: nat -> Fault)
      returns (ghost steps: seq<Step>, ghost end: World)
      requires Valid() && FirstPassInput(config, start, blockCount, listed, rows, replies)
      requires start.store == backend.View()
      modifies this, backend
      ensures Valid() && At(config, start, steps, end, backend.View()) && end.pass.Idle?
      ensures var candidates := if blockCount.Some? && listed then ReadRows(rows, start.store.candidates) else [];
              var go := candidates != [] && Classify(config, candidates, replies).Classified?;
              steps == if go then FirstPassSteps(blockCount.value - config.immatureDepth, rows, replies,
                                                 Classify(config, candidates, replies),
                                                 sharesRead, orphansFault, faults) else []
      ensures var candidates := if blockCount.Some? && listed then ReadRows(rows, start.store.candidates) else [];
              var v := if blockCount.Some? && listed then Classify(config, candidates, replies) else RpcFailed;
              var done := v.Classified? && orphansFault.Ok? && AllRead(|v.matured|, sharesRead, faults);
              !halt <==> blockCount.Some? && listed && (candidates == [] || done)
      ensures !halt ==> forall i | 0 <= i < |rows| :: rows[i] !in backend.candidates
    {
      hide *;
      backend.ViewFields();
      FirstPassFacts(config, start, blockCount, listed, rows, replies);
      var candidates := if blockCount.Some? && listed then ReadRows(rows, backend.candidates) else [];
      var go, v := Examine(blockCount, listed, candidates, replies);
      steps, end := [], start;
      if go {
        ReadFirst(config, start, blockCount, rows, replies, candidates, v);
        steps := [ReadCandidates(blockCount.value - config.immatureDepth, rows, replies)];
        end := start.(pass := PendingOrphans(v.orphaned, v.matured));
        steps, end := WritePending(start, steps, end, v.orphaned, v.matured, sharesRead, orphansFault, faults);
        FirstPass(blockCount.value - config.immatureDepth, rows, replies, v, sharesRead, orphansFault, faults);
        if !halt {
          VerdictCovers(config, rows, start.store.candidates, replies, backend.candidates);
        }
      }
    }

    method WritePending(ghost start: World, ghost before: seq<Step>, ghost now: World,
                        orphaned: seq<BlockData>, matured: seq<BlockData>,
                        sharesRead: nat -> bool, orphansFault: Fault, faults: nat -> Fault)
      returns (ghost steps: seq<Step>, ghost end: World)
      requires At(config, start, before, now, backend.View())
      requires now.pass == PendingOrphans(orphaned, matured)
      modifies `halt, backend
      ensures At(config, start, steps, end, backend.View()) && end.pass.Idle?
      ensures steps == before + ([PoolRun.WritePendingOrphans(orphansFault)]
                                 + if orphansFault.Ok? then CreditSteps(0, |matured|, sharesRead, faults) else [])
      ensures halt <==> !orphansFault.Ok? || !AllRead(|matured|, sharesRead, faults)
      ensures !halt ==> Gone(matured, backend.candidates) && Gone(orphaned, backend.candidates)
    {
      hide At, AllRead, CreditSteps;
      var ok;
      ok, steps, end := MovePendingOrphans(start, before, now, orphaned, matured, orphansFault);
      if ok {
        ok, steps, end := CreditAllPending(start, steps, end, matured, sharesRead, faults);
      }
      halt := !ok;
    }

    method MovePendingOrphans(ghost start: World, ghost before: seq<Step>, ghost now: World,
                              orphaned: seq<BlockData>, matured: seq<BlockData>, fault: Fault)
      returns (ok: bool, ghost steps: seq<Step>, ghost end: World)
      requires At(config, start, before, now, backend.View())
      requires now.pass == PendingOrphans(orphaned, matured)
      modifies backend
      ensures At(config, start, steps, end, backend.View())
      ensures steps == before + [PoolRun.WritePendingOrphans(fault)] && ok == fault.Ok?
      ensures ok ==> backend.candidates.Keys <= old(backend.candidates.Keys) && Gone(orphaned, backend.candidates)
      ensures end.pass == if ok && matured != [] then PendingBlocks(matured) else Idle
    {
      hide Books, At, PendingOrphansTx;
      backend.ViewFields();
      AtStore(config, start, before, now, backend.View());
      ghost var step := PoolRun.WritePendingOrphans(fault);
      OneStep(config, start, before, now, step);
      steps, end := before + [step], Next(config, now, step);
      var err := backend.WritePendingOrphans(orphaned, fault);
      ok := !err;
      backend.ViewFields();
      PendingOrphansLeave(old(backend.View()), orphaned);
    }

    method CreditAllPending(ghost start: World, ghost before: seq<Step>, ghost now: World,
                            matured: seq<BlockData>, sharesRead: nat -> bool, faults: nat -> Fault)
      returns (ok: bool, ghost steps: seq<Step>, ghost end: World)
      requires At(config, start, before, now, backend.View())
      requires now.pass == if matured != [] then PendingBlocks(matured) else Idle
      modifies backend
      ensures At(config, start, steps, end, backend.View()) && end.pass.Idle?
      ensures steps == before + CreditSteps(0, |matured|, sharesRead, faults)
      ensures ok <==> AllRead(|matured|, sharesRead, faults)
      ensures ok ==> backend.candidates.Keys <= old(backend.candidates.Keys) && Gone(matured, backend.candidates)
    {
      hide At, Gone, CreditSteps, KeyOf;
      assert matured[..0] == [];
      NoneGone(backend.candidates);
      CreditEnd(|matured|, sharesRead, faults);
      steps, end := before, now;
      var i := 0;
      while i < |matured|
        invariant 0 <= i <= |matured|
        invariant before + CreditSteps(0, |matured|, sharesRead, faults)
                  == steps + CreditSteps(i, |matured|, sharesRead, faults)
        invariant At(config, start, steps, end, backend.View())
        invariant end.pass == if i == |matured| then Idle else PendingBlocks(matured[i..])
        invariant backend.candidates.Keys <= old(backend.candidates.Keys) && Gone(matured[..i], backend.candidates)
        invariant forall j: nat | j < i :: sharesRead(j) && faults(j).Ok?
      {
        ghost var there := backend.candidates;
        CreditTurn(steps, i, |matured|, sharesRead, faults);
        ok, steps, end := CreditPending(start, steps, end, matured[i], sharesRead(i), faults(i));
        if !ok {
          return;
        }
        OneMoreGone(matured, i, there, backend.candidates);
        i := i + 1;
      }
      assert matured[..i] == matured;
      ok := true;
    }

    /** One turn of the crediting loop of the first pass. */
    method CreditPending(ghost start: World, ghost before: seq<Step>, ghost now: World,
                         block: BlockData, readable: bool, fault: Fault)
      returns (ok: bool, ghost steps: seq<Step>, ghost end: World)
      requires At(config, start, before, now, backend.View())
      requires now.pass.PendingBlocks? && now.pass.todo != [] && now.pass.todo[0] == block
      modifies backend
      ensures At(config, start, steps, end, backend.View())
      ensures steps == before + [PoolRun.WriteImmatureBlock(readable, fault)] && ok == (readable && fault.Ok?)
      ensures ok ==> backend.candidates == old(backend.candidates) - KeyOf(block.candidateKey)
      ensures end.pass == if ok && |now.pass.todo| > 1 then PendingBlocks(now.pass.todo[1..]) else Idle
    {
      hide Books, ImmatureTx, RoundRewards, At, Next, Enabled, CanSplit, MinersProfit, PoolProfit, KeyOf;
      backend.ViewFields();
      AtStore(config, start, before, now, backend.View());
      ghost var step := PoolRun.WriteImmatureBlock(readable, fault);
      ImmatureStep(config, now, readable, fault);
      OneStep(config, start, before, now, step);
      steps, end := before + [step], Next(config, now, step);
      if !readable {
        return false, steps, end;
      }
      var shares := backend.GetRoundShares(block.roundHeight, block.nonce);
      var revenue, minersProfit, poolProfit, roundRewards := CalculateRewards(config, block, shares);
      var err := backend.WriteImmatureBlock(block, roundRewards, fault);
      ok := !err;
      backend.ViewFields();
      ImmatureLeaves(old(backend.View()), block, roundRewards);
    }

    /** unlockAndCreditMiners, with the same parameters. */
    method UnlockAndCreditMiners(ghost start: World, blockCount: Option<int>, listed: bool,
                                 rows: seq<BlockRow>, replies: seq<Option<Header>>,
                                 sharesRead: nat -> bool, orphanLogs: nat -> bool, logRead: nat -> bool,
                                 orphanFaults: nat -> Fault, faults: nat -> Fault)
      returns (ghost steps: seq<Step>, ghost end: World)
      requires Valid() && SecondPassInput(config, start, blockCount, listed, rows, replies)
      requires start.store == backend.View()
      modifies this, backend
      ensures Valid() && At(config, start, steps, end, backend.View())
      ensures end.pass.Idle? || end.pass == Maturing([], [])
      ensures var immature :=
                if blockCount.Some? && listed then ReadBlockRows(rows, start.store.immatureBlocks) else [];
              var go := immature != [] && Classify(config, immature, replies).Classified?;
              steps == if go then SecondPassSteps(blockCount.value - config.depth, rows, replies,
                                                  Classify(config, immature, replies),
                                                  sharesRead, orphanLogs, logRead, orphanFaults, faults) else []
      ensures var immature :=
                if blockCount.Some? && listed then ReadBlockRows(rows, start.store.immatureBlocks) else [];
              var v := if blockCount.Some? && listed then Classify(config, immature, replies) else RpcFailed;
              var done := && v.Classified? && AllWritten(|v.orphaned|, orphanFaults)
                          && AllRead(|v.matured|, sharesRead, faults);
              !halt <==> blockCount.Some? && listed && (immature == [] || done)
      ensures !halt ==> forall i | 0 <= i < |rows| :: rows[i] !in backend.immatureBlocks
    {
      hide *;
      backend.ViewFields();
      SecondPassFacts(config, start, blockCount, listed, rows, replies);
      var immature := if blockCount.Some? && listed then ReadBlockRows(rows, backend.immatureBlocks) else [];
      var go, v := Examine(blockCount, listed, immature, replies);
      steps, end := [], start;
      if go {
        ReadSecond(config, start, blockCount, rows, replies, immature, v);
        steps := [ReadImmatureBlocks(blockCount.value - config.depth, rows, replies)];
        end := start.(pass := Maturing(v.orphaned, v.matured));
        steps, end := WriteMaturing(start, steps, end, v.orphaned, v.matured, sharesRead, orphanLogs, logRead,
                                    orphanFaults, faults);
        SecondPass(blockCount.value - config.depth, rows, replies, v, sharesRead, orphanLogs, logRead, orphanFaults,
                   faults);
        if !halt {
          VerdictCoversBlocks(config, rows, start.store.immatureBlocks, replies, backend.immatureBlocks);
        }
      }
    }

    method WriteMaturing(ghost start: World, ghost before: seq<Step>, ghost now: World,
                         orphaned: seq<BlockData>, matured: seq<BlockData>,
                         sharesRead: nat -> bool, orphanLogs: nat -> bool, logRead: nat -> bool,
                         orphanFaults: nat -> Fault, faults: nat -> Fault)
      returns (ghost steps: seq<Step>, ghost end: World)
      requires At(config, start, before, now, backend.View())
      requires now.pass == Maturing(orphaned, matured)
      modifies `halt, backend
      ensures At(config, start, steps, end, backend.View())
      ensures end.pass.Idle? || end.pass == Maturing([], [])
      ensures steps == before + (OrphanSteps(0, |orphaned|, orphanLogs, orphanFaults)
                                 + if AllWritten(|orphaned|, orphanFaults)
                                   then MatureSteps(0, |matured|, sharesRead, logRead, faults) else [])
      ensures halt <==> !AllWritten(|orphaned|, orphanFaults) || !AllRead(|matured|, sharesRead, faults)
      ensures !halt ==> GoneBlocks(matured, backend.immatureBlocks) && GoneBlocks(orphaned, backend.immatureBlocks)
    {
      hide At, AllRead, AllWritten, OrphanSteps, MatureSteps;
      var ok;
      ok, steps, end := SettleOrphans(start, before, now, orphaned, matured, orphanLogs, orphanFaults);
      if ok {
        ok, steps, end := CreditAllMatured(start, steps, end, matured, sharesRead, logRead, faults);
      }
      halt := !ok;
    }

    method SettleOrphans(ghost start: World, ghost before: seq<Step>, ghost now: World,
                         orphaned: seq<BlockData>, matured: seq<BlockData>,
                         logRead: nat -> bool, faults: nat -> Fault)
      returns (ok: bool, ghost steps: seq<Step>, ghost end: World)
      requires At(config, start, before, now, backend.View())
      requires now.pass == Maturing(orphaned, matured)
      modifies backend
      ensures At(config, start, steps, end, backend.View())
      ensures steps == before + OrphanSteps(0, |orphaned|, logRead, faults)
      ensures ok <==> AllWritten(|orphaned|, faults)
      ensures ok ==> backend.immatureBlocks.Keys <= old(backend.immatureBlocks.Keys)
      ensures ok ==> GoneBlocks(orphaned, backend.immatureBlocks)
      ensures end.pass == Idle || (ok && end.pass == Maturing([], matured))
      ensures ok && matured != [] ==> end.pass == Maturing([], matured)
    {
      hide At, GoneBlocks, OrphanSteps, KeyOf;
      assert orphaned[..0] == [];
      NoneGoneBlocks(backend.immatureBlocks);
      OrphanEnd(|orphaned|, logRead, faults);
      steps, end := before, now;
      var i := 0;
      while i < |orphaned|
        invariant 0 <= i <= |orphaned|
        invariant before + OrphanSteps(0, |orphaned|, logRead, faults)
                  == steps + OrphanSteps(i, |orphaned|, logRead, faults)
        invariant backend.immatureBlocks.Keys <= old(backend.immatureBlocks.Keys)
        invariant GoneBlocks(orphaned[..i], backend.immatureBlocks)
        invariant At(config, start, steps, end, backend.View())
        invariant end.pass == if i > 0 && i == |orphaned| && matured == [] then Idle
                              else Maturing(orphaned[i..], matured)
        invariant forall j: nat | j < i :: faults(j).Ok?
      {
        ghost var there := backend.immatureBlocks;
        OrphanTurn(steps, i, |orphaned|, logRead, faults);
        ok, steps, end := SettleOrphan(start, steps, end, orphaned[i], logRead(i), faults(i));
        if !ok {
          return;
        }
        OneMoreGoneBlocks(orphaned, i, there, backend.immatureBlocks);
        i := i + 1;
      }
      assert orphaned[..i] == orphaned;
      ok := true;
    }

    method SettleOrphan(ghost start: World, ghost before: seq<Step>, ghost now: World,
                        block: BlockData, logRead: bool, fault: Fault)
      returns (ok: bool, ghost steps: seq<Step>, ghost end: World)
      requires At(config, start, before, now, backend.View())
      requires now.pass.Maturing? && now.pass.orphans != [] && now.pass.orphans[0] == block
      modifies backend
      ensures At(config, start, steps, end, backend.View())
      ensures steps == before + [PoolRun.WriteOrphan(logRead, fault)] && ok == fault.Ok?
      ensures ok ==> backend.immatureBlocks == old(backend.immatureBlocks) - KeyOf(block.immatureKey)
      ensures end.pass == if ok && (|now.pass.orphans| > 1 || now.pass.todo != [])
                          then Maturing(now.pass.orphans[1..], now.pass.todo) else Idle
    {
      hide Books, At, OrphanTx, ReadLog;
      backend.ViewFields();
      AtStore(config, start, before, now, backend.View());
      ghost var step := PoolRun.WriteOrphan(logRead, fault);
      OneStep(config, start, before, now, step);
      steps, end := before + [step], Next(config, now, step);
      var err := backend.WriteOrphan(block, logRead, fault);
      ok := !err;
      backend.ViewFields();
      OrphanLeaves(old(backend.View()), block, ReadLog(old(backend.View()), block, logRead));
    }

    method CreditAllMatured(ghost start: World, ghost before: seq<Step>, ghost now: World,
                            matured: seq<BlockData>, sharesRead: nat -> bool, logRead: nat -> bool,
                            faults: nat -> Fault)
      returns (ok: bool, ghost steps: seq<Step>, ghost end: World)
      requires At(config, start, before, now, backend.View())
      requires now.pass == Maturing([], matured) || (matured == [] && now.pass == Idle)
      modifies backend
      ensures At(config, start, steps, end, backend.View())
      ensures end.pass.Idle? || end.pass == Maturing([], [])
      ensures steps == before + MatureSteps(0, |matured|, sharesRead, logRead, faults)
      ensures ok <==> AllRead(|matured|, sharesRead, faults)
      ensures ok ==> backend.immatureBlocks.Keys <= old(backend.immatureBlocks.Keys)
      ensures ok ==> GoneBlocks(matured, backend.immatureBlocks)
    {
      hide At, GoneBlocks, MatureSteps, KeyOf;
      assert matured[..0] == [];
      NoneGoneBlocks(backend.immatureBlocks);
      MatureEnd(|matured|, sharesRead, logRead, faults);
      steps, end := before, now;
      var i := 0;
      while i < |matured|
        invariant 0 <= i <= |matured|
        invariant before + MatureSteps(0, |matured|, sharesRead, logRead, faults)
                  == steps + MatureSteps(i, |matured|, sharesRead, logRead, faults)
        invariant backend.immatureBlocks.Keys <= old(backend.immatureBlocks.Keys)
        invariant GoneBlocks(matured[..i], backend.immatureBlocks)
        invariant At(config, start, steps, end, backend.View())
        invariant if i < |matured| then end.pass == Maturing([], matured[i..])
                  else end.pass == Idle || end.pass == Maturing([], [])
        invariant forall j: nat | j < i :: sharesRead(j) && faults(j).Ok?
      {
        ghost var there := backend.immatureBlocks;
        MatureTurn(steps, i, |matured|, sharesRead, logRead, faults);
        ok, steps, end := CreditMatured(start, steps, end, matured[i], sharesRead(i), logRead(i), faults(i));
        if !ok {
          return;
        }
        OneMoreGoneBlocks(matured, i, there, backend.immatureBlocks);
        i := i + 1;
      }
      assert matured[..i] == matured;
      ok := true;
    }

    /** One turn of the crediting loop of the second pass. */
    method CreditMatured(ghost start: World, ghost before: seq<Step>, ghost now: World,
                         block: BlockData, readable: bool, logRead: bool, fault: Fault)
      returns (ok: bool, ghost steps: seq<Step>, ghost end: World)
      requires At(config, start, before, now, backend.View())
      requires now.pass.Maturing? && now.pass.orphans == [] && now.pass.todo != [] && now.pass.todo[0] == block
      modifies backend
      ensures At(config, start, steps, end, backend.View())
      ensures steps == before + [PoolRun.WriteMaturedBlock(readable, logRead, fault)] && ok == (readable && fault.Ok?)
      ensures ok ==> backend.immatureBlocks == old(backend.immatureBlocks) - KeyOf(block.immatureKey)
      ensures end.pass == if ok && |now.pass.todo| > 1 then Maturing([], now.pass.todo[1..]) else Idle
    {
      hide Books, MaturedTx, RoundRewards, At, ReadLog, Next, Enabled, CanSplit, MinersProfit, PoolProfit, KeyOf;
      backend.ViewFields();
      AtStore(config, start, before, now, backend.View());
      ghost var step := PoolRun.WriteMaturedBlock(readable, logRead, fault);
      MaturedStep(config, now, readable, logRead, fault);
      OneStep(config, start, before, now, step);
      steps, end := before + [step], Next(config, now, step);
      if !readable {
        return false, steps, end;
      }
      var shares := backend.GetRoundShares(block.roundHeight, block.nonce);
      var revenue, minersProfit, poolProfit, roundRewards := CalculateRewards(config, block, shares);
      var ts: int := *;
      var err := backend.WriteMaturedBlock(block, roundRewards, ts, logRead, fault);
      ok := !err;
      backend.ViewFields();
      MaturedLeaves(old(backend.View()), block, ReadLog(old(backend.View()), block, logRead), roundRewards);
    }
  }

  /** The verdict on one more block. */
  lemma ClassifyNext(cfg: Config, blocks: seq<BlockData>, replies: seq<Option<Header>>, i: nat)
    requires |blocks| == |replies| && i < |blocks|
    ensures Classify(cfg, blocks[..i + 1], replies[..i + 1]) ==
              ClassifyOne(cfg, Classify(cfg, blocks[..i], replies[..i]), blocks[i], replies[i])
  {
    hide ClassifyOne;
    assert blocks[..i + 1][..i] == blocks[..i] && replies[..i + 1][..i] == replies[..i];
  }

  /** A failure in the middle of the batch is the verdict on the batch. */
  lemma {:induction false} ClassifyStops(cfg: Config, blocks: seq<BlockData>, replies: seq<Option<Header>>, i: nat)
    requires |blocks| == |replies| && i <= |blocks|
    requires !Classify(cfg, blocks[..i], replies[..i]).Classified?
    ensures Classify(cfg, blocks, replies) == Classify(cfg, blocks[..i], replies[..i])
    decreases |blocks| - i
  {
    if i == |blocks| {
      assert blocks[..i] == blocks && replies[..i] == replies;
    } else {
      ClassifyNext(cfg, blocks, replies, i);
      ClassifyStops(cfg, blocks, replies, i + 1);
    }
  }
}
