/** What each transaction does to the key space, field by field and login by login, stated without
    the functions that define the transactions. */
module Effects {
  import opened Common
  import opened Sums
  import opened Blocks
  import opened RedisStore
  import opened Reports

  /** Every field has moved by what `d` holds for it, in the direction of `sign`, and none else. */
  ghost predicate AllMoved(m: map<string, int>, moved: map<string, int>, d: map<string, int>, sign: int) {
    && moved.Keys == m.Keys + d.Keys
    && forall l | l in m || l in d ::
         moved[l] == (if l in m then m[l] else 0) + sign * (if l in d then d[l] else 0)
  }

  /** Entries added where there were none: a hash keeps the fields it has, and no other hash changes. */
  ghost predicate AddedWhereAbsent(hashes: map<RoundKey, map<string, int>>, more: map<RoundKey, map<string, int>>,
                                   key: RoundKey, entries: map<string, int>)
  {
    && (forall k | k != key :: k in more <==> k in hashes)
    && (forall k | k in hashes && k != key :: more[k] == hashes[k])
    && (key in more <==> key in hashes || exists l :: l in entries)
    && (key in hashes ==> forall l | l in hashes[key] :: l in more[key] && more[key][l] == hashes[key][l])
    && (forall l | l in entries && !(key in hashes && l in hashes[key]) ::
          key in more && l in more[key] && more[key][l] == entries[l])
    && (key in more ==> forall l | l in more[key] :: l in entries || (key in hashes && l in hashes[key]))
  }

  /** A member with this score, and no other change. */
  ghost predicate Entered<Row>(rows: map<Row, int>, more: map<Row, int>, row: Row, score: int) {
    more.Keys == rows.Keys + {row} && more[row] == score && forall r | r in rows && r != row :: more[r] == rows[r]
  }

  /** The raw member that a record was read from is gone, and no other. */
  ghost predicate Left<Row, V>(rows: map<Row, V>, less: map<Row, V>, raw: Option<Row>) {
    && (forall r | r in rows :: r in less || raw == Some(r))
    && (forall r | r in less :: r in rows && raw != Some(r) && less[r] == rows[r])
  }

  /** The member that stands for a record. */
  ghost predicate StandsFor(row: BlockRow, b: BlockData) {
    && row.orphan == b.orphan && row.nonce == b.nonce && row.hash == (if |b.hash| == 0 then "0x0" else b.hash)
    && row.timestamp == b.timestamp && row.difficulty == b.difficulty && row.totalShares == b.totalShares
    && row.coinBase == b.coinBase && row.fee == b.fee
    && row.reward == match b.reward case Some(value) => value case None => 0
  }

  lemma KeyStandsFor(b: BlockData)
    ensures StandsFor(b.Key(), b)
  {
  }

  /** A share raises its own login's count and the total, and touches nothing else. */
  lemma ShareEffect(s: Store, login: string, diff: int)
    ensures var t := ShareTx(s, login, diff);
            && Raised(s.roundCurrent, t.roundCurrent, login, diff) && t.roundShares == s.roundShares + diff
            && s == t.(roundCurrent := s.roundCurrent, roundShares := s.roundShares)
  {
  }

  /** A found block archives the round with its own share under its own key, and starts a new one. */
  lemma BlockEffect(s: Store, login: string, diff: int, height: int, nonce: string)
    ensures var t := BlockTx(s, login, diff, height, nonce);
            && t.rounds.Keys == s.rounds.Keys + {(height, nonce)}
            && Raised(s.roundCurrent, t.rounds[(height, nonce)], login, diff)
            && (forall key | key in s.rounds && key != (height, nonce) :: t.rounds[key] == s.rounds[key])
            && |t.roundCurrent| == 0 && t.roundShares == 0
            && s == t.(rounds := s.rounds, roundCurrent := s.roundCurrent, roundShares := s.roundShares)
  {
    hide Incr, Raised;
    IncrRaises(s.roundCurrent, login, diff);
  }

  lemma CandidateEffect(s: Store, row: CandidateRow, height: int)
    ensures var t := CandidateTx(s, row, height);
            Entered(s.candidates, t.candidates, row, height) && s == t.(candidates := s.candidates)
  {
  }

  /** A round under a key that changes is found under the new key, and no longer under the old. */
  lemma MoveRoundEffect(rounds: map<RoundKey, map<string, int>>, b: BlockData)
    ensures var moved := MoveRound(rounds, b);
            var source, target := (b.roundHeight, b.nonce), (b.height, b.nonce);
            && (forall key | key != source && key != target :: key in moved <==> key in rounds)
            && (forall key | key in moved && key != target :: key in rounds && moved[key] == rounds[key])
            && (source != target && source in rounds ==>
                  source !in moved && target in moved && moved[target] == rounds[source])
            && (source == target || source !in rounds ==> moved == rounds)
  {
  }

  /** The first pass's move: out of the candidates, into the immature rows. */
  lemma ToImmatureEffect(s: Store, b: BlockData)
    ensures var t := ToImmature(s, b);
            && t.rounds == MoveRound(s.rounds, b)
            && Left(s.candidates, t.candidates, b.candidateKey)
            && Entered(s.immatureBlocks, t.immatureBlocks, b.Key(), b.height) && StandsFor(b.Key(), b)
            && s == t.(rounds := s.rounds, candidates := s.candidates, immatureBlocks := s.immatureBlocks)
  {
    hide MoveRound;
  }

  /** The second pass's move: out of the immature rows, into the matured rows, without its round. */
  lemma ToMaturedEffect(s: Store, b: BlockData)
    ensures var t := ToMatured(s, b);
            && Left(s.rounds, t.rounds, Some((b.roundHeight, b.nonce)))
            && Left(s.immatureBlocks, t.immatureBlocks, b.immatureKey)
            && Entered(s.maturedBlocks, t.maturedBlocks, b.Key(), b.height) && StandsFor(b.Key(), b)
            && s == t.(rounds := s.rounds, immatureBlocks := s.immatureBlocks, maturedBlocks := s.maturedBlocks)
  {
  }

  lemma PlusMoves(m: map<string, int>, d: map<string, int>)
    ensures AllMoved(m, Plus(m, d), d, 1) && AllMoved(m, Minus(m, d), d, -1)
  {
  }

  lemma SetIfAbsentAdds(hashes: map<RoundKey, map<string, int>>, key: RoundKey, entries: map<string, int>)
    ensures AddedWhereAbsent(hashes, SetIfAbsent(hashes, key, entries), key, entries)
  {
    if l :| l in entries {
      assert entries != map[];
    } else {
      assert entries == map[];
    }
  }

  /** Crediting to immature: every login gets its reward, once in the log, and the total their sum. */
  lemma ImmatureEffect(s: Store, b: BlockData, rewards: map<string, int>)
    ensures var t := ImmatureTx(s, b, rewards);
            && AllMoved(s.immature, t.immature, rewards, 1)
            && AddedWhereAbsent(s.creditsImmature, t.creditsImmature, (b.height, b.hash), rewards)
            && t.finances == s.finances.(immature := s.finances.immature + Sum(rewards))
            && ToImmature(s, b) ==
                 t.(immature := s.immature, creditsImmature := s.creditsImmature, finances := s.finances)
  {
    hide AllMoved, AddedWhereAbsent, Plus, Minus, SetIfAbsent, Sum, MoveRound;
    PlusMoves(s.immature, rewards);
    SetIfAbsentAdds(s.creditsImmature, (b.height, b.hash), rewards);
  }

  /** Crediting to balance: every login gets its reward, the log of credits lists it, immature gives
      back what was read of its log entry, and the entry is gone. */
  lemma MaturedEffect(s: Store, b: BlockData, logged: map<string, int>, rewards: map<string, int>)
    requires b.reward.Some?
    ensures var t := MaturedTx(s, b, logged, rewards);
            && AllMoved(s.balance, t.balance, rewards, 1) && AllMoved(s.immature, t.immature, logged, -1)
            && AddedWhereAbsent(s.credits, t.credits, (b.height, b.hash), rewards)
            && Left(s.creditsImmature, t.creditsImmature, Some((b.roundHeight, b.hash)))
            && t.finances.immature == s.finances.immature - Sum(logged)
            && t.finances.balance == s.finances.balance + Sum(rewards)
            && t.finances.totalMined == s.finances.totalMined + ToInt64(b.reward.value)
            && t.finances.pending == s.finances.pending && t.finances.paid == s.finances.paid
            && ToMatured(s, b) == t.(immature := s.immature, balance := s.balance, credits := s.credits,
                                     creditsImmature := s.creditsImmature, finances := s.finances)
  {
    hide AllMoved, AddedWhereAbsent, Plus, Minus, SetIfAbsent, Sum, ToInt64;
    PlusMoves(s.balance, rewards);
    PlusMoves(s.immature, logged);
    SetIfAbsentAdds(s.credits, (b.height, b.hash), rewards);
  }

  /** Settling an orphan: immature gives back what was read, and nobody gets anything. */
  lemma OrphanEffect(s: Store, b: BlockData, logged: map<string, int>)
    ensures var t := OrphanTx(s, b, logged);
            && AllMoved(s.immature, t.immature, logged, -1)
            && Left(s.creditsImmature, t.creditsImmature, Some((b.roundHeight, b.hash)))
            && t.finances == s.finances.(immature := s.finances.immature - Sum(logged))
            && ToMatured(s, b) ==
                 t.(immature := s.immature, creditsImmature := s.creditsImmature, finances := s.finances)
  {
    hide AllMoved, Plus, Minus, Sum;
    PlusMoves(s.immature, logged);
  }

  /** A deduction takes the amount from the login's balance into its pending payments. */
  lemma UpdateBalanceEffect(s: Store, login: string, amount: int)
    ensures var t := UpdateBalanceTx(s, login, amount);
            && Raised(s.balance, t.balance, login, -amount) && Raised(s.pending, t.pending, login, amount)
            && t.finances.balance == s.finances.balance - amount && t.finances.pending == s.finances.pending + amount
            && s == t.(balance := s.balance, pending := s.pending,
                       finances := t.finances.(balance := s.finances.balance, pending := s.finances.pending))
  {
  }

  /** A payment takes the amount from the login's pending payments into what it was paid. */
  lemma WritePaymentEffect(s: Store, login: string, amount: int)
    ensures var t := WritePaymentTx(s, login, amount);
            && Raised(s.pending, t.pending, login, -amount) && Raised(s.paid, t.paid, login, amount)
            && t.finances.pending == s.finances.pending - amount && t.finances.paid == s.finances.paid + amount
            && s == t.(pending := s.pending, paid := s.paid,
                       finances := t.finances.(pending := s.finances.pending, paid := s.finances.paid))
  {
  }

  /** One member more in a login's own set, and in nobody else's. */
  ghost predicate EnteredFor<M>(sets: map<string, map<M, int>>, more: map<string, map<M, int>>, login: string,
                                member: M, score: int)
  {
    && more.Keys == sets.Keys + {login}
    && Entered(if login in sets then sets[login] else map[], more[login], member, score)
    && forall l | l in sets && l != login :: more[l] == sets[l]
  }

  lemma Enters<Row>(rows: map<Row, int>, row: Row, score: int)
    ensures Entered(rows, rows[row := score], row, score)
  {
  }

  lemma ListedEnters<M>(sets: map<string, map<M, int>>, login: string, member: M, score: int)
    ensures EnteredFor(sets, Listed(sets, login, member, score), login, member, score)
  {
  }

  /** A share's reports: the hash rate, of the pool and of the login, with the seconds of the clock. */
  ghost predicate ShareReported(r: Reports, t: Reports, login: string, id: string, diff: int, ms: int, window: int) {
    && Entered(r.hashrate, t.hashrate, (diff, login, id, ms), ms / 1000)
    && EnteredFor(r.hashrateOf, t.hashrateOf, login, (diff, id, ms), ms / 1000)
    && Entered(r.expiry, t.expiry, login, window) && Entered(r.lastShare, t.lastShare, login, ms / 1000)
  }

  lemma ShareReportEffect(r: Reports, login: string, id: string, diff: int, ms: int, window: int)
    ensures var t := ShareReport(r, login, id, diff, ms, window);
            && ShareReported(r, t, login, id, diff, ms, window)
            && r == t.(hashrate := r.hashrate, hashrateOf := r.hashrateOf, expiry := r.expiry, lastShare := r.lastShare)
  {
    hide Listed, EnteredFor, Entered;
    ListedEnters(r.hashrateOf, login, (diff, id, ms), ms / 1000);
    Enters(r.hashrate, (diff, login, id, ms), ms / 1000);
    Enters(r.expiry, login, window);
    Enters(r.lastShare, login, ms / 1000);
  }

  /** A found block's reports: its share's, the time, and one more block for its finder in both ranks. */
  lemma BlockReportEffect(r: Reports, login: string, id: string, diff: int, ms: int, window: int)
    ensures var t := BlockReport(r, login, id, diff, ms, window);
            && ShareReported(r, t, login, id, diff, ms, window)
            && t.lastBlockFound == Some(ms / 1000)
            && Raised(r.finders, t.finders, login, 1) && Raised(r.blocksFound, t.blocksFound, login, 1)
            && r == t.(hashrate := r.hashrate, hashrateOf := r.hashrateOf, expiry := r.expiry, lastShare := r.lastShare,
                       lastBlockFound := r.lastBlockFound, finders := r.finders, blocksFound := r.blocksFound)
  {
    hide ShareReported, ShareReport, Incr, Raised;
    ShareReportEffect(r, login, id, diff, ms, window);
    IncrRaises(r.finders, login, 1);
    IncrRaises(r.blocksFound, login, 1);
    SameShareReport(r, ShareReport(r, login, id, diff, ms, window), BlockReport(r, login, id, diff, ms, window),
                    login, id, diff, ms, window);
  }

  lemma SameShareReport(r: Reports, t: Reports, u: Reports, login: string, id: string, diff: int, ms: int, window: int)
    requires ShareReported(r, t, login, id, diff, ms, window)
    requires u.hashrate == t.hashrate && u.hashrateOf == t.hashrateOf && u.expiry == t.expiry
    requires u.lastShare == t.lastShare
    ensures ShareReported(r, u, login, id, diff, ms, window)
  {
  }

  /** A payment's reports: listed for everybody and for the login, no longer pending, and unlocked. */
  lemma PaymentReportEffect(r: Reports, login: string, txHash: string, amount: int, ts: int)
    ensures var t := PaymentReport(r, login, txHash, amount, ts);
            && Entered(r.payments, t.payments, (txHash, login, amount), ts)
            && EnteredFor(r.paymentsOf, t.paymentsOf, login, (txHash, amount), ts)
            && Left(r.pendingPayments, t.pendingPayments, Some((login, amount))) && !t.paymentLock
            && r == t.(payments := r.payments, paymentsOf := r.paymentsOf, pendingPayments := r.pendingPayments,
                       paymentLock := r.paymentLock)
  {
    hide Listed, EnteredFor;
    ListedEnters(r.paymentsOf, login, (txHash, amount), ts);
  }

  lemma BalanceReportEffect(r: Reports, login: string, amount: int, ts: int)
    ensures var t := UpdateBalanceReport(r, login, amount, ts);
            && Entered(r.pendingPayments, t.pendingPayments, (login, amount), ts)
            && r == t.(pendingPayments := r.pendingPayments)
    ensures var t := RollbackReport(r, login, amount);
            && Left(r.pendingPayments, t.pendingPayments, Some((login, amount)))
            && r == t.(pendingPayments := r.pendingPayments)
  {
  }

  lemma CreditReportEffect(r: Reports, b: BlockData, ts: int)
    requires b.reward.Some?
    ensures var t := CreditReport(r, b, ts);
            && Entered(r.creditsAll, t.creditsAll, (b.hash, ts, b.reward.value), b.height)
            && t.lastCredit == Some((b.height, b.hash))
            && r == t.(creditsAll := r.creditsAll, lastCredit := r.lastCredit)
  {
  }
}
