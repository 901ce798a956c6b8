/** The pool's accounting as one state machine: the store, the stratum server's share and block
    writes, the payment writes, and the unlocker's two passes, interleaved at transaction
    granularity. Every write may fail, applied or not; every read may fail; the unlocker's
    process may die between any two steps and start over. */
module PoolRun {
  import opened Common
  import opened Sums
  import opened Hex
  import opened Blocks
  import opened Rewards
  import opened RedisStore
  import opened Unlocking

  /** The hash of the block with a given nonce at a given height, as the daemon reports it. */
  type BlockIds = (int, string) -> string

  /** One block paid out to balances: the matured row written for it, the shares that the reward
      computation read, and the rewards written. */
  datatype Credit = Credit(row: BlockRow, shares: map<string, int>, rewards: map<string, int>)

  /** What an observer of the run has written down; the program never reads it. */
  datatype History = History(
    accepted: int,             // difficulty of all shares counted
    retired: int,              // shares of the rounds deleted with their blocks
    keyOf: map<Id, RoundKey>,  // the key under which each found block's round was archived
    roundOf: map<Id, map<string, int>>,  // the round as it was then
    born: set<Id>,             // found blocks that reached blocks:candidates
    log: seq<Credit>)          // blocks credited to balances

  /** Where the unlocker stands: the blocks it has read and still has to write. */
  datatype Pass =
    | Idle
    | PendingOrphans(orphans: seq<BlockData>, todo: seq<BlockData>)
    | PendingBlocks(todo: seq<BlockData>)
    | Maturing(orphans: seq<BlockData>, todo: seq<BlockData>)

  /** `inserting` holds found blocks whose round is archived but whose ZADD is still to come. */
  datatype World = World(store: Store, inserting: map<CandidateRow, int>, pass: Pass, history: History)

  const INIT: World := World(EMPTY_STORE, map[], Idle, History(0, 0, map[], map[], {}, []))

  datatype Step =
    | WriteShare(login: string, diff: int, fault: Fault)
    | ArchiveRound(login: string, diff: int, height: int, found: CandidateRow, fault: Fault)
    | InsertCandidate(row: CandidateRow, fault: Fault)
    | UpdateBalance(login: string, amount: int, fault: Fault)
    | RollbackBalance(login: string, amount: int, fault: Fault)
    | WritePayment(login: string, amount: int, fault: Fault)
    | ReadCandidates(maxHeight: int, rows: seq<CandidateRow>, replies: seq<Option<Header>>)
    | WritePendingOrphans(fault: Fault)
    | WriteImmatureBlock(sharesRead: bool, fault: Fault)
    | ReadImmatureBlocks(maxHeight: int, blockRows: seq<BlockRow>, replies: seq<Option<Header>>)
    | WriteOrphan(logRead: bool, fault: Fault)
    | WriteMaturedBlock(sharesRead: bool, logRead: bool, fault: Fault)
    | Restart

  /** The candidate that a round archived under (height, nonce) produces: its total is read
      back from the archived round, so the caller's `found.totalShares` plays no part. */
  ghost function FoundRow(s: Store, login: string, diff: int, found: CandidateRow): CandidateRow {
    found.(totalShares := Sum(Incr(s.roundCurrent, login, diff)))
  }

  /** The blocks of a range query on a sorted set: every member in range, once, in some order. */
  ghost predicate Ranges<Row(!new)>(rows: seq<Row>, members: map<Row, int>, maxHeight: int) {
    && (forall i | 0 <= i < |rows| :: rows[i] in members && 0 <= members[rows[i]] <= maxHeight)
    && (forall row | row in members && 0 <= members[row] <= maxHeight :: row in rows)
    && (forall i, j | 0 <= i < j < |rows| :: rows[i] != rows[j])
  }

  function ReadRows(rows: seq<CandidateRow>, members: map<CandidateRow, int>): (blocks: seq<BlockData>)
    requires forall i | 0 <= i < |rows| :: rows[i] in members
    ensures |blocks| == |rows|
    ensures forall i | 0 <= i < |rows| :: blocks[i] == FromCandidate(rows[i], members[rows[i]])
  {
    seq(|rows|, i requires 0 <= i < |rows| => FromCandidate(rows[i], members[rows[i]]))
  }

  function ReadBlockRows(rows: seq<BlockRow>, members: map<BlockRow, int>): (blocks: seq<BlockData>)
    requires forall i | 0 <= i < |rows| :: rows[i] in members
    ensures |blocks| == |rows|
    ensures forall i | 0 <= i < |rows| :: blocks[i] == FromBlockRow(rows[i], members[rows[i]])
  {
    seq(|rows|, i requires 0 <= i < |rows| => FromBlockRow(rows[i], members[rows[i]]))
  }

  /** Different blocks at a height have different hashes. */
  ghost predicate ValidIds(ids: BlockIds) {
    forall h, n, m {:trigger ids(h, n), ids(h, m)} :: ids(h, n) == ids(h, m) ==> n == m
  }

  /** The daemon names one block per height and nonce. */
  ghost predicate RepliesAgree(ids: BlockIds, blocks: seq<BlockData>, replies: seq<Option<Header>>) {
    && |replies| == |blocks|
    && forall i | 0 <= i < |replies| && replies[i].Some? ::
         replies[i].value.hash == ids(blocks[i].height, ChainNonceHex(replies[i].value.nonce))
  }

  /** A read whose headers are those of the named blocks. Only what is said of the rows that log
      entries belong to asks for it. */
  ghost predicate Reports(ids: BlockIds, w: World, step: Step) {
    match step
    case ReadCandidates(_, rows, replies) =>
      (forall i | 0 <= i < |rows| :: rows[i] in w.store.candidates)
      && RepliesAgree(ids, ReadRows(rows, w.store.candidates), replies)
    case ReadImmatureBlocks(_, rows, replies) =>
      (forall i | 0 <= i < |rows| :: rows[i] in w.store.immatureBlocks)
      && RepliesAgree(ids, ReadBlockRows(rows, w.store.immatureBlocks), replies)
    case _ => true
  }

  /** A found block that no other has been mistaken for. */
  ghost predicate FreshId(w: World, login: string, diff: int, found: CandidateRow) {
    CandidateId(FoundRow(w.store, login, diff, found)) !in w.history.keyOf
  }

  /** What the stratum server guarantees of a block it archives: positive difficulty, a nonce
      in the accepted spelling, a reward that fits an int64, and no reuse of a round key. */
  ghost predicate FreshBlock(w: World, diff: int, height: int, found: CandidateRow) {
    && diff > 0 && height >= 0
    && IsNonceText(found.nonce)
    && RewardFits(found.coinBase, found.fee)
    && (height, found.nonce) !in w.history.keyOf.Values
  }

  /** Asked only by what is said of rounds and of the amounts that are paid. */
  ghost predicate ProperStep(w: World, step: Step) {
    match step
    case WriteShare(_, diff, _) => diff > 0
    case ArchiveRound(_, diff, height, found, _) => FreshBlock(w, diff, height, found)
    case _ => true
  }

  predicate RewardFits(coinBase: int, fee: int) {
    0 <= coinBase && 0 <= fee && coinBase + fee <= MAX_INT64
  }

  /** Whether a step can be taken. Shares may have any difficulty; found blocks any height, nonce and
      reward, as long as no two become the same row; and the daemon's headers may be anything at
      all. */
  ghost predicate Enabled(w: World, step: Step) {
    match step
    case ArchiveRound(login, diff, _, found, _) => FreshId(w, login, diff, found)
    case InsertCandidate(row, _) => row in w.inserting
    case ReadCandidates(maxHeight, rows, replies) =>
      w.pass.Idle? && Ranges(rows, w.store.candidates, maxHeight) && |replies| == |rows|
    case WritePendingOrphans(_) => w.pass.PendingOrphans?
    case WriteImmatureBlock(_, _) => w.pass.PendingBlocks? && w.pass.todo != []
    case ReadImmatureBlocks(maxHeight, rows, replies) =>
      w.pass.Idle? && Ranges(rows, w.store.immatureBlocks, maxHeight) && |replies| == |rows|
    case WriteOrphan(_, _) => w.pass.Maturing? && w.pass.orphans != []
    case WriteMaturedBlock(_, _, _) => w.pass.Maturing? && w.pass.orphans == [] && w.pass.todo != []
    case _ => true
  }

  ghost function Written(fault: Fault, before: Store, after: Store): Store {
    if fault.NotApplied? then before else after
  }

  /** After an acknowledged write the pass goes on; after any error it is abandoned. */
  function Onward(fault: Fault, next: Pass): Pass {
    if !fault.Ok? then Idle
    else if next.PendingBlocks? && next.todo == [] then Idle
    else if next.Maturing? && next.orphans == [] && next.todo == [] then Idle
    else next
  }

  ghost function Retire(hist: History, s: Store, b: BlockData): History {
    hist.(retired := hist.retired + Sum(ReadHash(s.rounds, (b.roundHeight, b.nonce))))
  }

  ghost function Next(cfg: Config, w: World, step: Step): World {
    var s := w.store;
    var hist := w.history;
    match step
    case WriteShare(login, diff, fault) =>
      if fault.NotApplied? then w
      else w.(store := ShareTx(s, login, diff), history := hist.(accepted := hist.accepted + diff))
    case ArchiveRound(login, diff, height, found, fault) =>
      if fault.NotApplied? then w
      else
        var row := FoundRow(s, login, diff, found);
        w.(store := BlockTx(s, login, diff, height, found.nonce),
           inserting := if fault.Ok? then w.inserting[row := height] else w.inserting,
           history := hist.(accepted := hist.accepted + diff,
                            keyOf := hist.keyOf[CandidateId(row) := (height, row.nonce)],
                            roundOf := hist.roundOf[CandidateId(row) := Incr(s.roundCurrent, login, diff)]))
    case InsertCandidate(row, fault) =>
      if row !in w.inserting then w
      else if fault.NotApplied? then w.(inserting := w.inserting - {row})
      else
        w.(store := CandidateTx(s, row, w.inserting[row]),
           inserting := w.inserting - {row},
           history := hist.(born := hist.born + {CandidateId(row)}))
    case UpdateBalance(login, amount, fault) =>
      w.(store := Written(fault, s, UpdateBalanceTx(s, login, amount)))
    case RollbackBalance(login, amount, fault) =>
      w.(store := Written(fault, s, UpdateBalanceTx(s, login, -amount)))
    case WritePayment(login, amount, fault) =>
      w.(store := Written(fault, s, WritePaymentTx(s, login, amount)))
    case ReadCandidates(_, rows, replies) =>
      if |rows| == |replies| && forall i | 0 <= i < |rows| :: rows[i] in s.candidates then
        match Classify(cfg, ReadRows(rows, s.candidates), replies)
        case Classified(matured, orphaned) => w.(pass := PendingOrphans(orphaned, matured))
        case _ => w
      else w
    case WritePendingOrphans(fault) =>
      if !w.pass.PendingOrphans? then w
      else w.(store := Written(fault, s, PendingOrphansTx(s, w.pass.orphans)),
              pass := Onward(fault, PendingBlocks(w.pass.todo)))
    case WriteImmatureBlock(sharesRead, fault) =>
      if !w.pass.PendingBlocks? || w.pass.todo == [] then w
      else
        var b := w.pass.todo[0];
        var shares := ReadHash(s.rounds, (b.roundHeight, b.nonce));
        if !sharesRead || b.reward.None? || !CanSplit(shares, b.totalShares) then w.(pass := Idle)
        else w.(store := Written(fault, s, ImmatureTx(s, b, RoundRewards(cfg, b, shares))),
                pass := Onward(fault, PendingBlocks(w.pass.todo[1..])))
    case ReadImmatureBlocks(_, rows, replies) =>
      if |rows| == |replies| && forall i | 0 <= i < |rows| :: rows[i] in s.immatureBlocks then
        match Classify(cfg, ReadBlockRows(rows, s.immatureBlocks), replies)
        case Classified(matured, orphaned) => w.(pass := Maturing(orphaned, matured))
        case _ => w
      else w
    case WriteOrphan(logRead, fault) =>
      if !w.pass.Maturing? || w.pass.orphans == [] then w
      else
        var b := w.pass.orphans[0];
        w.(store := Written(fault, s, OrphanTx(s, b, ReadLog(s, b, logRead))),
           pass := Onward(fault, Maturing(w.pass.orphans[1..], w.pass.todo)),
           history := if fault.NotApplied? then hist else Retire(hist, s, b))
    case WriteMaturedBlock(sharesRead, logRead, fault) =>
      if !w.pass.Maturing? || w.pass.orphans != [] || w.pass.todo == [] then w
      else
        var b := w.pass.todo[0];
        var shares := ReadHash(s.rounds, (b.roundHeight, b.nonce));
        if !sharesRead || b.reward.None? || !CanSplit(shares, b.totalShares) then w.(pass := Idle)
        else
          var rewards := RoundRewards(cfg, b, shares);
          w.(store := Written(fault, s, MaturedTx(s, b, ReadLog(s, b, logRead), rewards)),
             pass := Onward(fault, Maturing([], w.pass.todo[1..])),
             history := if fault.NotApplied? then hist
                        else Retire(hist, s, b).(
                          log := hist.log + [Credit(b.Key(), shares, rewards)]))
    case Restart => w.(pass := Idle)
  }

  /** A sequence of worlds, each a step from the one before that was possible there. */
  ghost predicate IsTrace(cfg: Config, worlds: seq<World>, steps: seq<Step>) {
    && |worlds| == |steps| + 1
    && forall i {:trigger steps[i]} | 0 <= i < |steps| ::
         Enabled(worlds[i], steps[i]) && worlds[i + 1] == Next(cfg, worlds[i], steps[i])
  }

  /** A run of the pool from an empty store. */
  ghost predicate IsRun(cfg: Config, worlds: seq<World>, steps: seq<Step>) {
    IsTrace(cfg, worlds, steps) && worlds[0] == INIT
  }

  /** Every share and every found block of the run is as the stratum server sends them. */
  ghost predicate Proper(worlds: seq<World>, steps: seq<Step>) {
    |worlds| == |steps| + 1 && forall i {:trigger steps[i]} | 0 <= i < |steps| :: ProperStep(worlds[i], steps[i])
  }

  /** Every read of the run got the headers of the named blocks. */
  ghost predicate Truthful(ids: BlockIds, worlds: seq<World>, steps: seq<Step>) {
    |worlds| == |steps| + 1 && forall i {:trigger steps[i]} | 0 <= i < |steps| :: Reports(ids, worlds[i], steps[i])
  }

  lemma TraceGrows(cfg: Config, worlds: seq<World>, steps: seq<Step>, step: Step)
    requires IsTrace(cfg, worlds, steps) && Enabled(worlds[|steps|], step)
    ensures IsTrace(cfg, worlds + [Next(cfg, worlds[|steps|], step)], steps + [step])
    ensures Proper(worlds, steps) && ProperStep(worlds[|steps|], step) ==>
              Proper(worlds + [Next(cfg, worlds[|steps|], step)], steps + [step])
  {
    hide Enabled, Next, ProperStep;
  }

  /** A trace that starts where another ends continues it, and is as proper as both are. */
  lemma TracesJoin(cfg: Config, worlds: seq<World>, steps: seq<Step>,
                   later: seq<World>, more: seq<Step>)
    requires IsTrace(cfg, worlds, steps) && IsTrace(cfg, later, more) && worlds[|steps|] == later[0]
    ensures IsTrace(cfg, worlds + later[1..], steps + more)
    ensures Proper(worlds, steps) && Proper(later, more) ==> Proper(worlds + later[1..], steps + more)
  {
    hide Enabled, Next, ProperStep;
    var w, s := worlds + later[1..], steps + more;
    forall i | 0 <= i < |s|
      ensures Enabled(w[i], s[i]) && w[i + 1] == Next(cfg, w[i], s[i])
      ensures Proper(worlds, steps) && Proper(later, more) ==> ProperStep(w[i], s[i])
    {
      if i < |steps| {
        assert s[i] == steps[i];
      } else {
        assert s[i] == more[i - |steps|];
      }
    }
  }
}
