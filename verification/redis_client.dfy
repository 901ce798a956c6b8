/** RedisClient (storage/redis.go): methods that update the key space in place. Each is proved
    to do exactly its transaction, or nothing, according to what happens to the command. */
module RedisClient {
  import opened Common
  import opened Sums
  import opened Text
  import opened Blocks
  import opened RedisStore
  import opened Dedupe
  import opened Reports

  class Client {
    var roundCurrent: map<string, int>
    var roundShares: int
    var rounds: map<RoundKey, map<string, int>>
    var candidates: map<CandidateRow, int>
    var immatureBlocks: map<BlockRow, int>
    var maturedBlocks: map<BlockRow, int>
    var immature: map<string, int>
    var balance: map<string, int>
    var pending: map<string, int>
    var paid: map<string, int>
    var finances: Finances
    var creditsImmature: map<RoundKey, map<string, int>>
    var credits: map<RoundKey, map<string, int>>
    var reports: Reports
    var pow: map<string, int>
    ghost var powCalls: seq<Call>

    ghost function View(): Store
      reads this
    {
      Store(roundCurrent, roundShares, rounds, candidates, immatureBlocks, maturedBlocks,
            immature, balance, pending, paid, finances, creditsImmature, credits)
    }

    lemma ViewFields()
      ensures View().candidates == candidates && View().immatureBlocks == immatureBlocks
    {
    }

    /** The dedupe set is its history of calls. */
    ghost predicate Valid()
      reads this
    {
      pow == Replay(powCalls)
    }

    constructor ()
      ensures Valid() && View() == EMPTY_STORE && reports == NO_REPORTS && powCalls == []
    {
      roundCurrent, roundShares, rounds := map[], 0, map[];
      candidates, immatureBlocks, maturedBlocks := map[], map[], map[];
      immature, balance, pending, paid := map[], map[], map[], map[];
      finances, creditsImmature, credits := Finances(0, 0, 0, 0, 0), map[], map[];
      reports, pow, powCalls := NO_REPORTS, map[], [];
    }

    /** checkPoWExist: the purge may fail unseen; the addition may fail with an error. */
    method CheckPoWExist(height: nat, params: seq<string>, purged: bool, fault: Fault) returns (exist: bool, err: bool)
      requires Valid()
      modifies `pow, `powCalls
      ensures Valid() && err == !fault.Ok? && View() == old(View())
      ensures var call := Call(height, Join(params), purged, !fault.NotApplied?);
              && powCalls == old(powCalls) + [call]
              && (!err ==> (exist <==> IsRepeat(old(powCalls), call)))
    {
      hide Replay, Purge, IsRepeat, Join;
      ghost var call := Call(height, Join(params), purged, !fault.NotApplied?);
      RepeatIsReported(powCalls, call);
      ReplayMore(powCalls, call);
      if purged {
        pow := Purge(pow, height);
      }
      var member := Join(params);
      exist := member in pow;
      if fault != NotApplied {
        pow := pow[member := height];
      }
      err := fault != Ok;
      powCalls := powCalls + [call];
    }

    /** `ms` is the clock, in milliseconds. */
    method WriteShare(login: string, id: string, params: seq<string>, diff: int, height: nat, window: int, ms: int,
                      purged: bool, powFault: Fault, fault: Fault) returns (exist: bool, err: bool)
      requires Valid()
      modifies this
      ensures Valid() && powCalls == old(powCalls) + [Call(height, Join(params), purged, !powFault.NotApplied?)]
      ensures !powFault.Ok? ==> err && !exist
      ensures powFault.Ok? ==> (exist <==> IsRepeat(old(powCalls), Call(height, Join(params), purged, true)))
      ensures !powFault.Ok? || exist || fault.NotApplied? ==> View() == old(View()) && reports == old(reports)
      ensures powFault.Ok? && exist ==> !err
      ensures powFault.Ok? && !exist ==> err == !fault.Ok?
      ensures powFault.Ok? && !exist && !fault.NotApplied? ==>
                && View() == ShareTx(old(View()), login, diff)
                && Raised(old(roundCurrent), roundCurrent, login, diff) && roundShares == old(roundShares) + diff
                && reports == ShareReport(old(reports), login, id, diff, ms, window)
    {
      hide Join, IsRepeat, Replay, ShareTx, ShareReport, Raised;
      exist, err := CheckPoWExist(height, params, purged, powFault);
      if err {
        return false, true;
      }
      if exist {
        return true, false;
      }
      if fault != NotApplied {
        ApplyShare(login, id, diff, ms, window);
      }
      err := fault != Ok;
    }

    /** The transaction of WriteShare. */
    method ApplyShare(login: string, id: string, diff: int, ms: int, window: int)
      modifies `roundCurrent, `roundShares, `reports
      ensures View() == ShareTx(old(View()), login, diff)
      ensures Raised(old(roundCurrent), roundCurrent, login, diff) && roundShares == old(roundShares) + diff
      ensures reports == ShareReport(old(reports), login, id, diff, ms, window)
    {
      hide Incr, Raised, ShareReport;
      CountShare(login, id, diff, ms, window);
      roundShares := roundShares + diff;
    }

    /** writeShare. */
    method CountShare(login: string, id: string, diff: int, ms: int, window: int)
      modifies `roundCurrent, `reports
      ensures roundCurrent == Incr(old(roundCurrent), login, diff)
      ensures Raised(old(roundCurrent), roundCurrent, login, diff)
      ensures reports == ShareReport(old(reports), login, id, diff, ms, window)
    {
      hide Incr, Raised;
      IncrRaises(roundCurrent, login, diff);
      var ts := ms / 1000;
      roundCurrent := Incr(roundCurrent, login, diff);
      reports := reports.(hashrate := reports.hashrate[(diff, login, id, ms) := ts]);
      reports := reports.(hashrateOf := Listed(reports.hashrateOf, login, (diff, id, ms), ts));
      reports := reports.(expiry := reports.expiry[login := window]);
      reports := reports.(lastShare := reports.lastShare[login := ts]);
    }

    /** WriteBlock: the transaction archives the round, and a second command inserts the
        candidate with the total read back from the archive. An error between the two leaves an
        archived round without a candidate. */
    method WriteBlock(login: string, id: string, params: seq<string>, diff: int, roundDiff: int, height: nat,
                      coinBase: int, fee: int, window: int, ms: int,
                      purged: bool, powFault: Fault, fault: Fault, addFault: Fault)
      returns (exist: bool, err: bool)
      requires Valid() && |params| == 3
      modifies this
      ensures Valid() && powCalls == old(powCalls) + [Call(height, Join(params), purged, !powFault.NotApplied?)]
      ensures !powFault.Ok? ==> err && !exist
      ensures powFault.Ok? ==> (exist <==> IsRepeat(old(powCalls), Call(height, Join(params), purged, true)))
      ensures !powFault.Ok? || exist || fault.NotApplied? ==> View() == old(View()) && reports == old(reports)
      ensures powFault.Ok? && exist ==> !err
      ensures powFault.Ok? && !exist ==> err == !(fault.Ok? && addFault.Ok?)
      ensures powFault.Ok? && !exist && !fault.NotApplied? ==>
                var row := CandidateRow(params[0], params[1], params[2], ms / 1000, roundDiff,
                                        Sum(Incr(old(View()).roundCurrent, login, diff)), coinBase, fee);
                var archived := BlockTx(old(View()), login, diff, height, params[0]);
                && View() == (if fault.Ok? && !addFault.NotApplied? then CandidateTx(archived, row, height)
                              else archived)
                && (height, params[0]) in rounds
                && Raised(old(roundCurrent), rounds[(height, params[0])], login, diff)
                && roundCurrent == map[] && roundShares == 0
                && reports == BlockReport(old(reports), login, id, diff, ms, window)
    {
      hide Join, IsRepeat, Replay, Incr, Raised, Sum, BlockReport, View, CandidateTx;
      exist, err := CheckPoWExist(height, params, purged, powFault);
      if err {
        return false, true;
      }
      if exist {
        return true, false;
      }
      if fault != NotApplied {
        ArchiveRound(login, id, diff, height, params[0], ms, window);
      }
      if fault != Ok {
        return false, true;
      }
      var sharesMap := GetRoundShares(height, params[0]);
      var totalShares := TotalOf(sharesMap);
      if addFault != NotApplied {
        var s := CandidateRow(params[0], params[1], params[2], ms / 1000, roundDiff, totalShares, coinBase, fee);
        AddCandidate(s, height);
      }
      err := addFault != Ok;
    }

    /** ZADD to the candidates. */
    method AddCandidate(row: CandidateRow, height: int)
      modifies `candidates
      ensures View() == CandidateTx(old(View()), row, height)
    {
      candidates := candidates[row := height];
    }

    /** The transaction of WriteBlock. */
    method ArchiveRound(login: string, id: string, diff: int, height: int, nonce: string, ms: int, window: int)
      modifies `roundCurrent, `roundShares, `rounds, `reports
      ensures View() == BlockTx(old(View()), login, diff, height, nonce)
      ensures (height, nonce) in rounds && Raised(old(roundCurrent), rounds[(height, nonce)], login, diff)
      ensures roundCurrent == map[] && roundShares == 0
      ensures reports == BlockReport(old(reports), login, id, diff, ms, window)
    {
      hide Incr, Raised, ShareReport;
      CountShare(login, id, diff, ms, window);
      reports := reports.(lastBlockFound := Some(ms / 1000));
      roundShares := 0;
      reports := reports.(finders := Incr(reports.finders, login, 1));
      reports := reports.(blocksFound := Incr(reports.blocksFound, login, 1));
      rounds := rounds[(height, nonce) := roundCurrent];
      roundCurrent := map[];
    }

    /** The loop that totals a round read back from Redis, in any order. */
    static method TotalOf(shares: map<string, int>) returns (total: int)
      ensures total == Sum(shares)
    {
      total := 0;
      var rest := shares;
      while rest != map[]
        invariant total + Sum(rest) == Sum(shares)
        decreases |rest|
      {
        var login :| login in rest;
        SumRemove(rest, login);
        Shrinks(rest, login);
        total := total + rest[login];
        rest := rest - {login};
      }
    }

    method GetRoundShares(height: int, nonce: string) returns (shares: map<string, int>)
      ensures shares == ReadHash(View().rounds, (height, nonce))
    {
      shares := if (height, nonce) in rounds then rounds[(height, nonce)] else map[];
    }

    method UpdateBalance(login: string, amount: int, ts: int, fault: Fault) returns (err: bool)
      modifies this
      ensures err == !fault.Ok? && pow == old(pow) && powCalls == old(powCalls)
      ensures View() == if fault.NotApplied? then old(View()) else UpdateBalanceTx(old(View()), login, amount)
      ensures reports == if fault.NotApplied? then old(reports)
                         else UpdateBalanceReport(old(reports), login, amount, ts)
      ensures !fault.NotApplied? ==>
                && Raised(old(balance), balance, login, -amount) && Raised(old(pending), pending, login, amount)
                && Pays(old(pending), old(reports), Deduct(login, amount, ts), pending, reports)
    {
      hide UpdateBalanceTx, Raised;
      if fault != NotApplied {
        MoveToPending(login, amount);
        RaisedIsAfter(old(pending), Deduct(login, amount, ts), pending);
        reports := reports.(pendingPayments := reports.pendingPayments[(login, amount) := ts]);
      }
      err := fault != Ok;
    }

    method RollbackBalance(login: string, amount: int, fault: Fault) returns (err: bool)
      modifies this
      ensures err == !fault.Ok? && pow == old(pow) && powCalls == old(powCalls)
      ensures View() == if fault.NotApplied? then old(View()) else UpdateBalanceTx(old(View()), login, -amount)
      ensures reports == if fault.NotApplied? then old(reports) else RollbackReport(old(reports), login, amount)
      ensures !fault.NotApplied? ==>
                && Raised(old(balance), balance, login, amount) && Raised(old(pending), pending, login, -amount)
                && Pays(old(pending), old(reports), Rollback(login, amount), pending, reports)
    {
      hide UpdateBalanceTx, Raised;
      if fault != NotApplied {
        MoveToPending(login, amount * -1);
        RaisedIsAfter(old(pending), Rollback(login, amount), pending);
        reports := reports.(pendingPayments := reports.pendingPayments - {(login, amount)});
      }
      err := fault != Ok;
    }

    /** The four increments of UpdateBalance; RollbackBalance sends them with the signs swapped. */
    method MoveToPending(login: string, amount: int)
      modifies `balance, `pending, `finances
      ensures View() == UpdateBalanceTx(old(View()), login, amount)
      ensures Raised(old(balance), balance, login, -amount) && Raised(old(pending), pending, login, amount)
      ensures finances.balance == old(finances.balance) - amount && finances.pending == old(finances.pending) + amount
    {
      hide Incr, Raised;
      IncrRaises(balance, login, -amount);
      IncrRaises(pending, login, amount);
      balance := Incr(balance, login, amount * -1);
      pending := Incr(pending, login, amount);
      finances := finances.(balance := finances.balance + amount * -1);
      finances := finances.(pending := finances.pending + amount);
    }

    method WritePayment(login: string, txHash: string, amount: int, ts: int, fault: Fault) returns (err: bool)
      modifies this
      ensures err == !fault.Ok? && pow == old(pow) && powCalls == old(powCalls)
      ensures View() == if fault.NotApplied? then old(View()) else WritePaymentTx(old(View()), login, amount)
      ensures reports == if fault.NotApplied? then old(reports)
                         else PaymentReport(old(reports), login, txHash, amount, ts)
      ensures !fault.NotApplied? ==>
                && Raised(old(pending), pending, login, -amount) && Raised(old(paid), paid, login, amount)
                && Pays(old(pending), old(reports), Pay(login, txHash, amount, ts), pending, reports)
    {
      hide WritePaymentTx, PaymentReport, Raised;
      if fault != NotApplied {
        MoveToPaid(login, amount);
        RaisedIsAfter(old(pending), Pay(login, txHash, amount, ts), pending);
        ListPayment(login, txHash, amount, ts);
      }
      err := fault != Ok;
    }

    method MoveToPaid(login: string, amount: int)
      modifies `pending, `paid, `finances
      ensures View() == WritePaymentTx(old(View()), login, amount)
      ensures Raised(old(pending), pending, login, -amount) && Raised(old(paid), paid, login, amount)
      ensures finances.pending == old(finances.pending) - amount && finances.paid == old(finances.paid) + amount
    {
      hide Incr, Raised;
      IncrRaises(pending, login, -amount);
      IncrRaises(paid, login, amount);
      pending := Incr(pending, login, amount * -1);
      paid := Incr(paid, login, amount);
      finances := finances.(pending := finances.pending + amount * -1);
      finances := finances.(paid := finances.paid + amount);
    }

    /** The lists that a payment is entered in and taken from, and the lock it releases. */
    method ListPayment(login: string, txHash: string, amount: int, ts: int)
      modifies `reports
      ensures View() == old(View()) && reports == PaymentReport(old(reports), login, txHash, amount, ts)
    {
      hide Listed;
      reports := reports.(payments := reports.payments[(txHash, login, amount) := ts]);
      reports := reports.(paymentsOf := Listed(reports.paymentsOf, login, (txHash, amount), ts));
      reports := reports.(pendingPayments := reports.pendingPayments - {(login, amount)});
      reports := reports.(paymentLock := false);
    }

    /** writeImmatureBlock. */
    method MoveToImmature(block: BlockData)
      modifies `rounds, `candidates, `immatureBlocks
      ensures View() == ToImmature(old(View()), block)
    {
      if block.height != block.roundHeight {
        rounds := Rename(rounds, (block.roundHeight, block.nonce), (block.height, block.nonce));
      }
      if block.candidateKey.Some? {
        candidates := candidates - {block.candidateKey.value};
      }
      immatureBlocks := immatureBlocks[block.Key() := block.height];
    }

    /** writeMaturedBlock. */
    method MoveToMatured(block: BlockData)
      modifies `rounds, `immatureBlocks, `maturedBlocks
      ensures View() == ToMatured(old(View()), block)
    {
      rounds := rounds - {(block.roundHeight, block.nonce)};
      if block.immatureKey.Some? {
        immatureBlocks := immatureBlocks - {block.immatureKey.value};
      }
      maturedBlocks := maturedBlocks[block.Key() := block.height];
    }

    method WriteImmatureBlock(block: BlockData, roundRewards: map<string, int>, fault: Fault) returns (err: bool)
      modifies this
      ensures err == !fault.Ok? && pow == old(pow) && powCalls == old(powCalls) && reports == old(reports)
      ensures View() == if fault.NotApplied? then old(View()) else ImmatureTx(old(View()), block, roundRewards)
    {
      hide ImmatureTx;
      if fault != NotApplied {
        ApplyImmature(block, roundRewards);
      }
      err := fault != Ok;
    }

    /** The transaction of WriteImmatureBlock. */
    method ApplyImmature(block: BlockData, roundRewards: map<string, int>)
      modifies `rounds, `candidates, `immatureBlocks, `immature, `creditsImmature, `finances
      ensures View() == ImmatureTx(old(View()), block, roundRewards)
    {
      hide *;
      ghost var s := View();
      MoveToImmature(block);
      var total := CreditImmature((block.height, block.hash), roundRewards);
      AddToFinances(total, 0, 0);
      IsImmatureTx(s, block, roundRewards);
    }

    /** The loop that credits rewards to the immature balances and logs them. */
    method CreditImmature(key: RoundKey, roundRewards: map<string, int>) returns (total: int)
      modifies `immature, `creditsImmature
      ensures total == Sum(roundRewards)
      ensures View() == LogImmature(old(View()), key, roundRewards)
    {
      hide Plus, SetIfAbsent, SetField, Sum, Incr, Parts;
      total := 0;
      ghost var done: map<string, int> := map[];
      var rest := roundRewards;
      Started(roundRewards);
      NoneYet(old(immature), old(creditsImmature), key);
      while rest != map[]
        invariant Parts(roundRewards, done, rest)
        invariant total == Sum(done) && immature == Plus(old(immature), done)
        invariant creditsImmature == SetIfAbsent(old(creditsImmature), key, done)
        decreases |rest|
      {
        var login :| login in rest;
        var amount := rest[login];
        OneMore(roundRewards, done, rest, login);
        PlusMore(old(immature), done, login, amount);
        SetIfAbsentMore(old(creditsImmature), key, done, login, amount);
        total := total + amount;
        immature := Incr(immature, login, amount);
        creditsImmature := SetField(creditsImmature, key, login, amount);
        rest, done := rest - {login}, done[login := amount];
      }
      Finished(roundRewards, done, rest);
    }

    /** `logRead` says whether the read of the log entry works; the transaction is sent either way. */
    method WriteMaturedBlock(block: BlockData, roundRewards: map<string, int>, ts: int, logRead: bool, fault: Fault)
      returns (err: bool)
      requires block.reward.Some?
      modifies this
      ensures err == !fault.Ok? && pow == old(pow) && powCalls == old(powCalls)
      ensures View() == if fault.NotApplied? then old(View())
                        else MaturedTx(old(View()), block, ReadLog(old(View()), block, logRead), roundRewards)
      ensures reports == if fault.NotApplied? then old(reports) else CreditReport(old(reports), block, ts)
    {
      hide *;
      var immatureCredits := GetImmatureCredits(block, logRead);
      if fault != NotApplied {
        ApplyMatured(block, immatureCredits, roundRewards, ts);
      }
      err := fault != Ok;
    }

    /** The transaction of WriteMaturedBlock. */
    method ApplyMatured(block: BlockData, immatureCredits: map<string, int>, roundRewards: map<string, int>, ts: int)
      requires block.reward.Some?
      modifies `rounds, `immatureBlocks, `maturedBlocks, `immature, `balance, `credits, `creditsImmature
      modifies `finances, `reports
      ensures View() == MaturedTx(old(View()), block, immatureCredits, roundRewards)
      ensures reports == CreditReport(old(reports), block, ts)
    {
      hide *;
      ghost var s := View();
      MoveToMatured(block);
      ListCredit(block, ts);
      var totalImmature := TakeImmature(immatureCredits);
      var total := CreditBalance((block.height, block.hash), roundRewards);
      DropImmatureCredits((block.roundHeight, block.hash));
      AddToFinances(-totalImmature, total, ToInt64(block.reward.value));
      IsMaturedTx(s, block, immatureCredits, roundRewards);
    }

    /** The list of credits, and the last of them. */
    method ListCredit(block: BlockData, ts: int)
      requires block.reward.Some?
      modifies `reports
      ensures View() == old(View()) && reports == CreditReport(old(reports), block, ts)
    {
      reports := reports.(creditsAll := reports.creditsAll[(block.hash, ts, block.reward.value) := block.height]);
      reports := reports.(lastCredit := Some((block.height, block.hash)));
    }

    /** The loop that credits rewards to the balances and logs them. */
    method CreditBalance(key: RoundKey, roundRewards: map<string, int>) returns (total: int)
      modifies `balance, `credits
      ensures total == Sum(roundRewards)
      ensures View() == LogBalance(old(View()), key, roundRewards)
    {
      hide Plus, SetIfAbsent, SetField, Sum, Incr, Parts;
      total := 0;
      ghost var done: map<string, int> := map[];
      var rest := roundRewards;
      Started(roundRewards);
      NoneYet(old(balance), old(credits), key);
      while rest != map[]
        invariant Parts(roundRewards, done, rest)
        invariant total == Sum(done) && balance == Plus(old(balance), done)
        invariant credits == SetIfAbsent(old(credits), key, done)
        decreases |rest|
      {
        var login :| login in rest;
        var amount := rest[login];
        OneMore(roundRewards, done, rest, login);
        PlusMore(old(balance), done, login, amount);
        SetIfAbsentMore(old(credits), key, done, login, amount);
        total := total + amount;
        balance := Incr(balance, login, amount);
        credits := SetField(credits, key, login, amount);
        rest, done := rest - {login}, done[login := amount];
      }
      Finished(roundRewards, done, rest);
    }

    /** HGETALL of a block's log entry; its error goes unseen, and the credits are then empty. */
    method GetImmatureCredits(block: BlockData, logRead: bool) returns (immatureCredits: map<string, int>)
      ensures immatureCredits == ReadLog(View(), block, logRead)
    {
      immatureCredits := map[];
      if logRead {
        immatureCredits := ReadHash(creditsImmature, (block.roundHeight, block.hash));
      }
    }

    /** DEL of a log entry. */
    method DropImmatureCredits(key: RoundKey)
      modifies `creditsImmature
      ensures View() == DropLog(old(View()), key)
    {
      creditsImmature := creditsImmature - {key};
    }

    /** HINCRBY on the pool-wide totals. */
    method AddToFinances(immatureDelta: int, balanceDelta: int, mined: int)
      modifies `finances
      ensures View() == AddTotals(old(View()), immatureDelta, balanceDelta, mined)
    {
      finances := finances.(immature := finances.immature + immatureDelta);
      finances := finances.(balance := finances.balance + balanceDelta, totalMined := finances.totalMined + mined);
    }

    /** The loop that takes logged credits back from the immature balances. */
    method TakeImmature(immatureCredits: map<string, int>) returns (totalImmature: int)
      modifies `immature
      ensures View() == TakeLogged(old(View()), immatureCredits)
      ensures totalImmature == Sum(immatureCredits)
    {
      hide Minus, Sum, Incr, Parts;
      totalImmature := 0;
      ghost var done: map<string, int> := map[];
      var rest := immatureCredits;
      Started(immatureCredits);
      NothingTaken(immature);
      while rest != map[]
        invariant Parts(immatureCredits, done, rest)
        invariant totalImmature == Sum(done) && immature == Minus(old(immature), done)
        decreases |rest|
      {
        var login :| login in rest;
        var amount := rest[login];
        OneMore(immatureCredits, done, rest, login);
        MinusMore(old(immature), done, login, amount);
        totalImmature := totalImmature + amount;
        immature := Incr(immature, login, amount * -1);
        rest, done := rest - {login}, done[login := amount];
      }
      Finished(immatureCredits, done, rest);
    }

    method WriteOrphan(block: BlockData, logRead: bool, fault: Fault) returns (err: bool)
      modifies this
      ensures err == !fault.Ok? && pow == old(pow) && powCalls == old(powCalls) && reports == old(reports)
      ensures View() == if fault.NotApplied? then old(View())
                        else OrphanTx(old(View()), block, ReadLog(old(View()), block, logRead))
    {
      hide *;
      var immatureCredits := GetImmatureCredits(block, logRead);
      if fault != NotApplied {
        ApplyOrphan(block, immatureCredits);
      }
      err := fault != Ok;
    }

    /** The transaction of WriteOrphan. */
    method ApplyOrphan(block: BlockData, immatureCredits: map<string, int>)
      modifies `rounds, `immatureBlocks, `maturedBlocks, `immature, `creditsImmature, `finances
      ensures View() == OrphanTx(old(View()), block, immatureCredits)
    {
      hide *;
      ghost var s := View();
      MoveToMatured(block);
      var totalImmature := TakeImmature(immatureCredits);
      DropImmatureCredits((block.roundHeight, block.hash));
      AddToFinances(-totalImmature, 0, 0);
      IsOrphanTx(s, block, immatureCredits);
    }

    method WritePendingOrphans(blocks: seq<BlockData>, fault: Fault) returns (err: bool)
      modifies this
      ensures err == !fault.Ok? && pow == old(pow) && powCalls == old(powCalls) && reports == old(reports)
      ensures View() == if fault.NotApplied? then old(View()) else PendingOrphansTx(old(View()), blocks)
    {
      hide View, ToImmature;
      if fault != NotApplied {
        for i := 0 to |blocks|
          invariant View() == PendingOrphansTx(old(View()), blocks[..i])
          invariant pow == old(pow) && powCalls == old(powCalls) && reports == old(reports)
        {
          MoveToImmature(blocks[i]);
          assert blocks[..i + 1][..i] == blocks[..i];
        }
        assert blocks[..|blocks|] == blocks;
      }
      err := fault != Ok;
    }
  }

  // The commands of a transaction, one by one.

  ghost function AddTotals(s: Store, immature: int, balance: int, mined: int): Store {
    s.(finances := s.finances.(immature := s.finances.immature + immature,
                               balance := s.finances.balance + balance,
                               totalMined := s.finances.totalMined + mined))
  }

  /** Rewards credited to immature balances and logged. */
  ghost function LogImmature(s: Store, key: RoundKey, rewards: map<string, int>): Store {
    s.(immature := Plus(s.immature, rewards), creditsImmature := SetIfAbsent(s.creditsImmature, key, rewards))
  }

  ghost function LogBalance(s: Store, key: RoundKey, rewards: map<string, int>): Store {
    s.(balance := Plus(s.balance, rewards), credits := SetIfAbsent(s.credits, key, rewards))
  }

  /** Logged amounts taken back from immature balances. */
  ghost function TakeLogged(s: Store, logged: map<string, int>): Store {
    s.(immature := Minus(s.immature, logged))
  }

  ghost function DropLog(s: Store, key: RoundKey): Store {
    s.(creditsImmature := s.creditsImmature - {key})
  }

  lemma IsImmatureTx(s: Store, b: BlockData, rewards: map<string, int>)
    ensures AddTotals(LogImmature(ToImmature(s, b), (b.height, b.hash), rewards), Sum(rewards), 0, 0)
            == ImmatureTx(s, b, rewards)
  {
    hide Plus, SetIfAbsent, Sum, MoveRound;
  }

  lemma IsMaturedTx(s: Store, b: BlockData, logged: map<string, int>, rewards: map<string, int>)
    requires b.reward.Some?
    ensures AddTotals(DropLog(LogBalance(TakeLogged(ToMatured(s, b), logged), (b.height, b.hash), rewards),
                              (b.roundHeight, b.hash)),
                      -Sum(logged), Sum(rewards), ToInt64(b.reward.value)) == MaturedTx(s, b, logged, rewards)
  {
    hide Plus, Minus, SetIfAbsent, Sum, ToInt64;
  }

  lemma IsOrphanTx(s: Store, b: BlockData, logged: map<string, int>)
    ensures AddTotals(DropLog(TakeLogged(ToMatured(s, b), logged), (b.roundHeight, b.hash)), -Sum(logged), 0, 0)
            == OrphanTx(s, b, logged)
  {
    hide Minus, Sum;
  }

  /** A walk over a map: what has been visited and what is left make up the whole. */
  ghost predicate Parts(all: map<string, int>, done: map<string, int>, rest: map<string, int>) {
    done.Keys !! rest.Keys && done + rest == all
  }

  lemma OneMore(all: map<string, int>, done: map<string, int>, rest: map<string, int>, login: string)
    requires Parts(all, done, rest) && login in rest
    ensures login !in done && |rest - {login}| < |rest|
    ensures Parts(all, done[login := rest[login]], rest - {login})
    ensures Sum(done[login := rest[login]]) == Sum(done) + rest[login]
  {
    hide Sum, Parts;
    Apart(all, done, rest, login);
    Shrinks(rest, login);
    SumSet(done, login, rest[login]);
  }

  lemma Apart(all: map<string, int>, done: map<string, int>, rest: map<string, int>, login: string)
    requires Parts(all, done, rest) && login in rest
    ensures login !in done && Parts(all, done[login := rest[login]], rest - {login})
  {
    var more, less := done[login := rest[login]], rest - {login};
    assert more.Keys == done.Keys + {login} && less.Keys == rest.Keys - {login};
    assert (done + rest).Keys == (more + less).Keys;
  }

  lemma Finished(all: map<string, int>, done: map<string, int>, rest: map<string, int>)
    requires Parts(all, done, rest) && rest == map[]
    ensures done == all
  {
    assert done + rest == done;
  }

  lemma Started(all: map<string, int>)
    ensures Parts(all, map[], all)
  {
    assert map[] + all == all;
  }

  lemma PlusMore(m: map<string, int>, d: map<string, int>, k: string, v: int)
    requires k !in d
    ensures Incr(Plus(m, d), k, v) == Plus(m, d[k := v])
  {
  }

  lemma MinusMore(m: map<string, int>, d: map<string, int>, k: string, v: int)
    requires k !in d
    ensures Incr(Minus(m, d), k, v * -1) == Minus(m, d[k := v])
  {
  }

  lemma NoneYet(m: map<string, int>, hashes: map<RoundKey, map<string, int>>, key: RoundKey)
    ensures Plus(m, map[]) == m && SetIfAbsent(hashes, key, map[]) == hashes && Sum<string>(map[]) == 0
  {
  }

  lemma NothingTaken(m: map<string, int>)
    ensures Minus(m, map[]) == m && Sum<string>(map[]) == 0
  {
  }

  /** HSETNX of one field. */
  function SetField(hashes: map<RoundKey, map<string, int>>, key: RoundKey, field: string, value: int)
    : map<RoundKey, map<string, int>>
  {
    var hash := ReadHash(hashes, key);
    if field in hash then hashes else hashes[key := hash[field := value]]
  }

  lemma SetIfAbsentMore(hashes: map<RoundKey, map<string, int>>, key: RoundKey, done: map<string, int>,
                        field: string, value: int)
    requires field !in done
    ensures SetField(SetIfAbsent(hashes, key, done), key, field, value)
            == SetIfAbsent(hashes, key, done[field := value])
  {
    var hash := ReadHash(hashes, key);
    var more := done[field := value] + hash;
    assert more == if field in hash then done + hash else (done + hash)[field := value];
    if done == map[] && field in hash {
      assert done + hash == hash;
      assert hashes[key := hash] == hashes;
    }
    if done == map[] {
      assert done + hash == hash;
    }
  }
}
