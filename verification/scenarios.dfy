/** Runs that reach the inputs on which the accounting surprises: two blocks that share a nonce at a
    height, a hash that changes between the two passes, and a log that cannot be read. */
module Scenarios {
  import opened Common
  import opened Sums
  import opened Hex
  import opened Blocks
  import opened Rewards
  import opened RedisStore
  import opened Unlocking
  import opened PoolRun
  import opened CreditLog
  import opened Guarantees

  const PLAIN: Config := Config(0.0, false, "", 0, 0)
  const TWIN_NONCE: string := "00000000"
  const HASH: string := "abcdef0123"
  const OTHER_HASH: string := "fedcba9876"
  const ROUND: map<string, int> := map["a" := 1]
  const REWARDS: map<string, int> := map["a" := 10]

  /** A candidate of one share, worth ten; twins differ in their extra nonce and their second, so
      that their proof-of-work triples differ. */
  function Twin(second: int): CandidateRow {
    CandidateRow(TWIN_NONCE, if second == 7 then "00000001" else "00000003", "00000002", second, 1, 1, 10, 0)
  }

  function TwinBlock(second: int): BlockData {
    HandleBlock(PLAIN, FromCandidate(Twin(second), 5), HASH)
  }

  /** The daemon's header of nonce 0 at that height. */
  function Reply(hash: string): Option<Header> {
    Some(Header(0, 10, hash))
  }

  lemma TwinNonceIsZero()
    ensures Decode(TWIN_NONCE) == [0, 0, 0, 0]
  {
    hide Decode;
    assert Digit(0) == '0' && EncodeByte(0) == "00";
    var one: seq<byte> := [0];
    var two: seq<byte> := [0, 0];
    assert Encode(one) == "00" by {
      assert one[1..] == [];
    }
    assert one + one == two && two + two == [0, 0, 0, 0];
    EncodeConcat(one, one);
    EncodeConcat(two, two);
    DecodeEncode(two + two);
    assert ("00" + "00") + ("00" + "00") == TWIN_NONCE;
  }

  /** That header confirms any record with the twin nonce and reward. */
  lemma ReplyConfirms(before: Verdict, b: BlockData, hash: string)
    requires b.nonce == TWIN_NONCE && b.coinBase == 10 && b.fee == 0 && |hash| >= LOGGED_HASH && before.Classified?
    ensures ClassifyOne(PLAIN, before, b, Reply(hash)) ==
              Classified(before.matured + [HandleBlock(PLAIN, b, hash)], before.orphaned)
  {
    hide ChainNonceHex, EqualFold, Decode;
    TwinNonceIsZero();
    NonceTestIsExact(TWIN_NONCE, 0);
  }

  lemma OneConfirmed(b: BlockData, hash: string)
    requires b.nonce == TWIN_NONCE && b.coinBase == 10 && b.fee == 0 && |hash| >= LOGGED_HASH
    ensures Classify(PLAIN, [b], [Reply(hash)]) == Classified([HandleBlock(PLAIN, b, hash)], [])
  {
    hide ClassifyOne;
    ReplyConfirms(Classified([], []), b, hash);
    assert [b][..0] == [] && [Reply(hash)][..0] == [];
  }

  lemma TwoConfirmed(a: BlockData, b: BlockData, hash: string)
    requires a.nonce == b.nonce == TWIN_NONCE && a.coinBase == b.coinBase == 10 && a.fee == b.fee == 0
    requires |hash| >= LOGGED_HASH
    ensures Classify(PLAIN, [a, b], [Reply(hash), Reply(hash)]) ==
              Classified([HandleBlock(PLAIN, a, hash), HandleBlock(PLAIN, b, hash)], [])
  {
    hide ClassifyOne;
    OneConfirmed(a, hash);
    ReplyConfirms(Classified([HandleBlock(PLAIN, a, hash)], []), b, hash);
    assert [a, b][..1] == [a] && [Reply(hash), Reply(hash)][..1] == [Reply(hash)];
  }

  /** The whole reward of ten goes to the one login with shares. */
  lemma TwinRewards(b: BlockData)
    requires b.reward == Some(10) && b.extraReward.None? && b.totalShares == 1
    ensures CanSplit(ROUND, b.totalShares) && RoundRewards(PLAIN, b, ROUND) == REWARDS
  {
    assert 10.0 * (1.0 - 0.0) * (1.0 / 1.0) == 10.0;
    assert Share(1, 1, 10.0) == 10;
  }

  lemma OneShare()
    ensures Incr(map[], "a", 1) == ROUND && Sum(ROUND) == 1
  {
    assert Incr(map[], "a", 1) == ROUND;
    SumRemove(ROUND, "a");
    assert ROUND - {"a"} == map[];
  }

  /** The two steps of a twin being found: its round is archived, and its row inserted. */
  function Archive(second: int): Step {
    ArchiveRound("a", 1, 5, Twin(second), Ok)
  }

  function Insert(second: int): Step {
    InsertCandidate(Twin(second), Ok)
  }

  lemma Found(w: World, second: int) returns (archived: World, listed: World)
    requires w.store.roundCurrent == map[] && w.inserting == map[] && CandidateId(Twin(second)) !in w.history.keyOf
    ensures Enabled(w, Archive(second)) && archived == Next(PLAIN, w, Archive(second))
    ensures Enabled(archived, Insert(second)) && listed == Next(PLAIN, archived, Insert(second))
    ensures listed.store.roundCurrent == map[] && listed.inserting == map[] && listed.pass == w.pass
    ensures listed.store.candidates == w.store.candidates[Twin(second) := 5]
    ensures listed.store.rounds == w.store.rounds[(5, TWIN_NONCE) := ROUND]
    ensures listed.store.immatureBlocks == w.store.immatureBlocks
    ensures listed.store.creditsImmature == w.store.creditsImmature && listed.store.immature == w.store.immature
    ensures listed.store.balance == w.store.balance
    ensures listed.history.keyOf == w.history.keyOf[CandidateId(Twin(second)) := (5, TWIN_NONCE)]
  {
    hide Sum, Incr;
    OneShare();
    var row := Twin(second);
    archived := Next(PLAIN, w, Archive(second));
    assert archived.inserting == map[row := 5];
    listed := Next(PLAIN, archived, Insert(second));
    assert listed.inserting == map[];
  }

  /** No orphan to move: the first pass goes on to credit. */
  lemma Moved(w: World, todo: seq<BlockData>) returns (moved: World)
    requires w.pass == PendingOrphans([], todo) && todo != []
    ensures Enabled(w, WritePendingOrphans(Ok)) && moved == Next(PLAIN, w, WritePendingOrphans(Ok))
    ensures moved == w.(pass := PendingBlocks(todo))
  {
    moved := Next(PLAIN, w, WritePendingOrphans(Ok));
  }

  /** A twin is credited. */
  lemma Credited(w: World, second: int) returns (credited: World)
    requires w.pass.PendingBlocks? && w.pass.todo != [] && w.pass.todo[0] == TwinBlock(second)
    requires (5, TWIN_NONCE) in w.store.rounds && w.store.rounds[(5, TWIN_NONCE)] == ROUND
    ensures Enabled(w, WriteImmatureBlock(true, Ok)) && credited == Next(PLAIN, w, WriteImmatureBlock(true, Ok))
    ensures credited.pass == if |w.pass.todo| > 1 then PendingBlocks(w.pass.todo[1..]) else Idle
    ensures credited.store.rounds == w.store.rounds && credited.store.balance == w.store.balance
    ensures credited.store.immatureBlocks == w.store.immatureBlocks[TwinBlock(second).Key() := 5]
    ensures credited.store.creditsImmature == SetIfAbsent(w.store.creditsImmature, (5, HASH), REWARDS)
    ensures credited.store.immature == Plus(w.store.immature, REWARDS)
    ensures ReadHash(w.store.rounds, (5, TWIN_NONCE)) == ROUND && CanSplit(ROUND, 1)
    ensures TwinBlock(second).reward.Some? && RoundRewards(PLAIN, TwinBlock(second), ROUND) == REWARDS
  {
    hide Sum, RoundRewards, Plus, ImmatureTx, SetIfAbsent;
    var b := TwinBlock(second);
    TwinRewards(b);
    credited := Next(PLAIN, w, WriteImmatureBlock(true, Ok));
    assert credited.store == ImmatureTx(w.store, b, REWARDS);
    CreditsOf(w.store, b, REWARDS);
    ImmatureTxRows(w.store, b, REWARDS);
  }

  lemma ImmatureTxRows(s: Store, b: BlockData, rewards: map<string, int>)
    requires b.roundHeight == b.height
    ensures ImmatureTx(s, b, rewards).immatureBlocks == s.immatureBlocks[b.Key() := b.height]
    ensures ImmatureTx(s, b, rewards).rounds == s.rounds && ImmatureTx(s, b, rewards).balance == s.balance
  {
    hide Sum, Plus, SetIfAbsent;
  }

  // ------------------------------------------------------------------------------------------
  // Two blocks, one nonce

  function TwinSteps(): seq<Step> {
    [Archive(7), Insert(7), Archive(8), Insert(8),
     ReadCandidates(5, [Twin(7), Twin(8)], [Reply(HASH), Reply(HASH)]), WritePendingOrphans(Ok),
     WriteImmatureBlock(true, Ok), WriteImmatureBlock(true, Ok)]
  }

  lemma TwinsInRange(members: map<CandidateRow, int>)
    requires members == map[Twin(7) := 5, Twin(8) := 5]
    ensures Ranges([Twin(7), Twin(8)], members, 5)
    ensures ReadRows([Twin(7), Twin(8)], members) == [FromCandidate(Twin(7), 5), FromCandidate(Twin(8), 5)]
  {
    var rows := [Twin(7), Twin(8)];
    assert rows[0] == Twin(7) && rows[1] == Twin(8);
  }

  lemma TwinsRead(w: World) returns (read: World)
    requires w.store.candidates == map[Twin(7) := 5, Twin(8) := 5] && w.pass == Idle
    ensures var step := ReadCandidates(5, [Twin(7), Twin(8)], [Reply(HASH), Reply(HASH)]);
            Enabled(w, step) && read == Next(PLAIN, w, step)
    ensures read == w.(pass := PendingOrphans([], [TwinBlock(7), TwinBlock(8)]))
  {
    hide Classify, HandleBlock;
    TwinsInRange(w.store.candidates);
    TwoConfirmed(FromCandidate(Twin(7), 5), FromCandidate(Twin(8), 5), HASH);
    read := Next(PLAIN, w, ReadCandidates(5, [Twin(7), Twin(8)], [Reply(HASH), Reply(HASH)]));
  }

  /** The two rewards are credited one after the other under one key. */
  lemma TwinsCredited(w: World) returns (once: World, twice: World)
    requires w.pass == PendingBlocks([TwinBlock(7), TwinBlock(8)])
    requires w.store.rounds == map[(5, TWIN_NONCE) := ROUND] && SameCredits(EMPTY_STORE, w.store)
    ensures Enabled(w, WriteImmatureBlock(true, Ok)) && once == Next(PLAIN, w, WriteImmatureBlock(true, Ok))
    ensures Enabled(once, WriteImmatureBlock(true, Ok)) && twice == Next(PLAIN, once, WriteImmatureBlock(true, Ok))
    ensures Covered(once.store, "a") && Uncovers(PLAIN, once, WriteImmatureBlock(true, Ok), "a")
    ensures !Covered(twice.store, "a")
  {
    hide Next, Enabled, Covered, Sum, RoundRewards, Plus, SetIfAbsent;
    once := Credited(w, 7);
    twice := Credited(once, 8);
    NothingOutstanding("a");
    SameStillCovered(EMPTY_STORE, w.store, "a");
    StepUncovers(PLAIN, w, WriteImmatureBlock(true, Ok), "a");
    EntryIsThere(w.store.creditsImmature);
    StepUncovers(PLAIN, once, WriteImmatureBlock(true, Ok), "a");
  }

  lemma EntryIsThere(credits: map<RoundKey, map<string, int>>)
    ensures "a" in ReadHash(SetIfAbsent(credits, (5, HASH), REWARDS), (5, HASH)) && Get(REWARDS, "a") == 10
  {
  }

  /** Two blocks of one nonce are found at one height and confirmed by the same header: once both
      are credited, immature holds both rewards, and the log one. */
  lemma TwinNoncesLoseCredit() returns (worlds: seq<World>)
    ensures IsRun(PLAIN, worlds, TwinSteps())
    ensures Covered(worlds[7].store, "a") && Uncovers(PLAIN, worlds[7], TwinSteps()[7], "a")
    ensures !Covered(worlds[8].store, "a")
  {
    hide Next, Enabled, Covered, Uncovers;
    var w1, w2 := Found(INIT, 7);
    var w3, w4 := Found(w2, 8);
    var w5 := TwinsRead(w4);
    var w6 := Moved(w5, [TwinBlock(7), TwinBlock(8)]);
    var w7, w8 := TwinsCredited(w6);
    worlds := [INIT, w1, w2, w3, w4, w5, w6, w7, w8];
  }

  lemma SameStillCovered(s: Store, t: Store, login: string)
    requires Covered(s, login) && SameCredits(s, t)
    ensures Covered(t, login)
  {
  }

  // ------------------------------------------------------------------------------------------
  // One block, and what may go wrong in the second pass

  function CreditSteps(): (steps: seq<Step>)
    ensures |steps| == 5
  {
    [Archive(7), Insert(7), ReadCandidates(5, [Twin(7)], [Reply(HASH)]), WritePendingOrphans(Ok),
     WriteImmatureBlock(true, Ok)]
  }

  lemma OneRead(w: World) returns (read: World)
    requires w.store.candidates == map[Twin(7) := 5] && w.pass == Idle
    ensures var step := ReadCandidates(5, [Twin(7)], [Reply(HASH)]); Enabled(w, step) && read == Next(PLAIN, w, step)
    ensures read == w.(pass := PendingOrphans([], [TwinBlock(7)]))
  {
    hide Classify;
    assert ReadRows([Twin(7)], w.store.candidates) == [FromCandidate(Twin(7), 5)];
    OneConfirmed(FromCandidate(Twin(7), 5), HASH);
    read := Next(PLAIN, w, ReadCandidates(5, [Twin(7)], [Reply(HASH)]));
  }

  /** What one credited block leaves. */
  ghost predicate OneBlock(w: World) {
    && w.store.immatureBlocks == map[TwinBlock(7).Key() := 5]
    && w.store.rounds == map[(5, TWIN_NONCE) := ROUND] && w.store.balance == map[]
    && w.store.creditsImmature == map[(5, HASH) := REWARDS] && w.store.immature == REWARDS
  }

  lemma FirstRewards()
    ensures SetIfAbsent<RoundKey>(map[], (5, HASH), REWARDS) == map[(5, HASH) := REWARDS]
    ensures Plus(map[], REWARDS) == REWARDS
  {
    assert "a" in REWARDS;
    FreshHash(map[], (5, HASH), REWARDS);
    assert Plus(map[], REWARDS).Keys == REWARDS.Keys;
  }

  lemma OneCredit(w: World) returns (credited: World)
    requires w.pass == PendingBlocks([TwinBlock(7)]) && w.store.immatureBlocks == map[] && w.store.balance == map[]
    requires w.store.rounds == map[(5, TWIN_NONCE) := ROUND] && SameCredits(EMPTY_STORE, w.store)
    ensures Enabled(w, WriteImmatureBlock(true, Ok)) && credited == Next(PLAIN, w, WriteImmatureBlock(true, Ok))
    ensures credited.pass == Idle && OneBlock(credited)
  {
    hide Next, Enabled, Sum, RoundRewards;
    hide Plus, SetIfAbsent;
    credited := Credited(w, 7);
    FirstRewards();
  }

  /** One block, found and credited to immature. */
  lemma OneCredited() returns (worlds: seq<World>)
    ensures IsRun(PLAIN, worlds, CreditSteps()) && Proper(worlds, CreditSteps())
    ensures worlds[5].pass == Idle && OneBlock(worlds[5])
  {
    hide Next, Enabled, OneBlock, FreshBlock;
    var w1, w2 := Found(INIT, 7);
    var w3 := OneRead(w2);
    var w4 := Moved(w3, [TwinBlock(7)]);
    var w5 := OneCredit(w4);
    worlds := [INIT, w1, w2, w3, w4, w5];
    FoundIsProper(7);
  }

  lemma FoundIsProper(second: int)
    ensures FreshBlock(INIT, 1, 5, Twin(second))
  {
    assert forall i | 0 <= i < |TWIN_NONCE| :: TWIN_NONCE[i] == '0';
    assert INIT.history.keyOf.Values == {};
  }

  /** The second pass reads the row, and a header with the given hash. */
  lemma Maturing(w: World, hash: string) returns (read: World)
    requires OneBlock(w) && w.pass == Idle && |hash| >= LOGGED_HASH
    ensures var step := ReadImmatureBlocks(5, [TwinBlock(7).Key()], [Reply(hash)]);
            Enabled(w, step) && read == Next(PLAIN, w, step)
    ensures read == w.(pass := PoolRun.Maturing([], [HandleBlock(PLAIN, FromBlockRow(TwinBlock(7).Key(), 5), hash)]))
    ensures OneBlock(read)
  {
    hide Classify;
    var row := TwinBlock(7).Key();
    assert ReadBlockRows([row], w.store.immatureBlocks) == [FromBlockRow(row, 5)];
    OneConfirmed(FromBlockRow(row, 5), hash);
    read := Next(PLAIN, w, ReadImmatureBlocks(5, [row], [Reply(hash)]));
  }

  /** A block is credited under one hash, and its header carries another when it is about to mature:
      whether the log is read or not, balance rises and immature does not fall. */
  lemma ChangedHashRun() returns (worlds: seq<World>, steps: seq<Step>)
    ensures IsRun(PLAIN, worlds, steps) && Proper(worlds, steps) && |steps| == 6 && AboutToMature(worlds[6])
    ensures var w := worlds[6];
            && w.pass.todo[0].immatureKey == Some(TwinBlock(7).Key()) && w.pass.todo[0].hash == OTHER_HASH
            && w.store.creditsImmature == map[(5, HASH) := REWARDS]
            && forall logRead ::
                 && Fall(PLAIN, w, WriteMaturedBlock(true, logRead, Ok), "a") == 0
                 && Rise(PLAIN, w, WriteMaturedBlock(true, logRead, Ok), "a") == 10
  {
    hide Next, Enabled, ProperStep, OneBlock, Fall, Rise;
    var first := OneCredited();
    var read := Maturing(first[5], OTHER_HASH);
    steps := CreditSteps() + [ReadImmatureBlocks(5, [TwinBlock(7).Key()], [Reply(OTHER_HASH)])];
    worlds := first + [read];
    ReadIsProper(first[5], steps[5]);
    TraceGrows(PLAIN, first, CreditSteps(), steps[5]);
    RoundBooks.RunBooks(PLAIN, worlds, steps, 6);
    NothingFalls(read);
  }

  lemma NothingFalls(w: World)
    requires RoundBooks.Books(PLAIN, w) && OneBlock(w)
    requires w.pass == PoolRun.Maturing([], [HandleBlock(PLAIN, FromBlockRow(TwinBlock(7).Key(), 5), OTHER_HASH)])
    ensures w.store.creditsImmature == map[(5, HASH) := REWARDS]
    ensures forall logRead ::
              && Fall(PLAIN, w, WriteMaturedBlock(true, logRead, Ok), "a") == 0
              && Rise(PLAIN, w, WriteMaturedBlock(true, logRead, Ok), "a") == 10
  {
    hide Next, RoundBooks.Books, RoundRewards, Fall, Rise;
    TwinRewards(w.pass.todo[0]);
    forall logRead: bool
      ensures Fall(PLAIN, w, WriteMaturedBlock(true, logRead, Ok), "a") == 0
      ensures Rise(PLAIN, w, WriteMaturedBlock(true, logRead, Ok), "a") == 10
    {
      MaturingMoves(PLAIN, w, logRead, "a");
    }
  }

  lemma ReadIsProper(w: World, step: Step)
    requires step.ReadImmatureBlocks? || step.WriteMaturedBlock?
    ensures ProperStep(w, step)
  {
  }

  /** The same block, the same header in both passes, and a log that cannot be read when it matures:
      its entry is deleted, and the login keeps ten in immature beside ten in balance. */
  lemma FailedReadRun() returns (worlds: seq<World>, steps: seq<Step>)
    ensures IsRun(PLAIN, worlds, steps) && Proper(worlds, steps) && |steps| == 7
    ensures steps[6] == WriteMaturedBlock(true, false, Ok) && AboutToMature(worlds[6])
    ensures Covered(worlds[6].store, "a") && Uncovers(PLAIN, worlds[6], steps[6], "a") && !Covered(worlds[7].store, "a")
    ensures Get(worlds[7].store.immature, "a") == Get(worlds[7].store.balance, "a") == 10
    ensures Outstanding(worlds[7].store.creditsImmature, "a") == 0
  {
    hide Next, Enabled, ProperStep, OneBlock, Covered, Outstanding, Uncovers;
    var first := OneCredited();
    var read := Maturing(first[5], HASH);
    var last := MaturedUnread(read);
    var firstSteps := CreditSteps() + [ReadImmatureBlocks(5, [TwinBlock(7).Key()], [Reply(HASH)])];
    steps := firstSteps + [WriteMaturedBlock(true, false, Ok)];
    ReadIsProper(first[5], steps[5]);
    ReadIsProper(read, steps[6]);
    TraceGrows(PLAIN, first, CreditSteps(), steps[5]);
    TraceGrows(PLAIN, first + [read], firstSteps, steps[6]);
    worlds := first + [read] + [last];
  }

  lemma EntryCovers(s: Store)
    requires s.creditsImmature == map[(5, HASH) := REWARDS] && s.immature == REWARDS
    ensures Covered(s, "a")
  {
    var none: map<RoundKey, map<string, int>> := map[];
    NothingOutstanding("a");
    OutstandingAdd(none, (5, HASH), REWARDS, "a");
    assert none[(5, HASH) := REWARDS] == s.creditsImmature;
  }

  /** What the unread transaction leaves. */
  lemma MaturedUnread(w: World) returns (matured: World)
    requires w.pass == PoolRun.Maturing([], [HandleBlock(PLAIN, FromBlockRow(TwinBlock(7).Key(), 5), HASH)])
    requires OneBlock(w)
    ensures var step := WriteMaturedBlock(true, false, Ok);
            && Enabled(w, step) && matured == Next(PLAIN, w, step)
            && Covered(w.store, "a") && Uncovers(PLAIN, w, step, "a")
    ensures var t := matured.store;
            && Get(t.immature, "a") == Get(t.balance, "a") == 10 && Outstanding(t.creditsImmature, "a") == 0
            && !Covered(t, "a")
  {
    hide Sum, RoundRewards, Outstanding, MaturedTx, Covered;
    var b := w.pass.todo[0];
    TwinRewards(b);
    matured := Next(PLAIN, w, WriteMaturedBlock(true, false, Ok));
    var t := matured.store;
    assert t == MaturedTx(w.store, b, map[], REWARDS);
    MaturedMoves(w.store, b, map[], REWARDS, "a");
    assert t.creditsImmature == map[];
    EmptyOutstanding();
    EntryCovers(w.store);
    StepUncovers(PLAIN, w, WriteMaturedBlock(true, false, Ok), "a");
  }

  lemma EmptyOutstanding()
    ensures Outstanding(map[], "a") == 0
  {
    assert PerKey(map[], "a") == map[];
  }
}
