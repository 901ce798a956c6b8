/** The part of the Redis key space that is only reported: hash rates, rankings and payment lists
    (storage/redis.go:198-210, 243-252, 269-275, 432-483, 503-545). The one list that states amounts
    still to be paid, `payments:pending`, is compared with the miners' pending amounts: its member is
    the login and the amount, so that equal payments collapse. */
module Reports {
  import opened Common
  import opened Sums
  import opened Blocks

  /** Members are kept as tuples of the values that are joined with colons. */
  datatype Reports = Reports(
    hashrate: map<(int, string, string, int), int>,         // diff, login, id, ms -> ts
    hashrateOf: map<string, map<(int, string, int), int>>,  // per login: diff, id, ms -> ts
    expiry: map<string, int>,                               // of a login's hash rate set
    lastShare: map<string, int>,
    lastBlockFound: Option<int>,
    finders: map<string, int>,
    blocksFound: map<string, int>,
    pendingPayments: map<(string, int), int>,               // login, amount -> ts
    payments: map<(string, string, int), int>,              // hash, login, amount -> ts
    paymentsOf: map<string, map<(string, int), int>>,       // per login: hash, amount -> ts
    paymentLock: bool,
    creditsAll: map<(string, int, int), int>,               // hash, ts, reward -> height
    lastCredit: Option<(int, string)>)

  const NO_REPORTS: Reports :=
    Reports(map[], map[], map[], map[], None, map[], map[], map[], map[], map[], false, map[], None)

  /** ZADD to a set of sets. */
  function Listed<M>(sets: map<string, map<M, int>>, login: string, member: M, score: int): map<string, map<M, int>> {
    sets[login := (if login in sets then sets[login] else map[])[member := score]]
  }

  /** writeShare, apart from the round. */
  function ShareReport(r: Reports, login: string, id: string, diff: int, ms: int, window: int): Reports {
    r.(hashrate := r.hashrate[(diff, login, id, ms) := ms / 1000],
       hashrateOf := Listed(r.hashrateOf, login, (diff, id, ms), ms / 1000),
       expiry := r.expiry[login := window],
       lastShare := r.lastShare[login := ms / 1000])
  }

  /** The transaction of WriteBlock, apart from the round. */
  function BlockReport(r: Reports, login: string, id: string, diff: int, ms: int, window: int): Reports {
    var s := ShareReport(r, login, id, diff, ms, window);
    s.(lastBlockFound := Some(ms / 1000), finders := Incr(s.finders, login, 1),
       blocksFound := Incr(s.blocksFound, login, 1))
  }

  function UpdateBalanceReport(r: Reports, login: string, amount: int, ts: int): Reports {
    r.(pendingPayments := r.pendingPayments[(login, amount) := ts])
  }

  function RollbackReport(r: Reports, login: string, amount: int): Reports {
    r.(pendingPayments := r.pendingPayments - {(login, amount)})
  }

  function PaymentReport(r: Reports, login: string, txHash: string, amount: int, ts: int): Reports {
    r.(payments := r.payments[(txHash, login, amount) := ts],
       paymentsOf := Listed(r.paymentsOf, login, (txHash, amount), ts),
       pendingPayments := r.pendingPayments - {(login, amount)},
       paymentLock := false)
  }

  function CreditReport(r: Reports, b: BlockData, ts: int): Reports
    requires b.reward.Some?
  {
    r.(creditsAll := r.creditsAll[(b.hash, ts, b.reward.value) := b.height], lastCredit := Some((b.height, b.hash)))
  }

  // ------------------------------------------------------------------------------------------
  // The list of pending payments against the pending amounts

  function AmountsOf(listed: map<(string, int), int>, login: string): map<(string, int), int> {
    map p | p in listed && p.0 == login :: p.1
  }

  /** What the list says is still to be paid to a login. */
  ghost function ListedFor(listed: map<(string, int), int>, login: string): int {
    Sum(AmountsOf(listed, login))
  }

  lemma ListedMore(listed: map<(string, int), int>, login: string, amount: int, ts: int, l: string)
    ensures ListedFor(listed[(login, amount) := ts], l)
            == ListedFor(listed, l) + if l == login && (login, amount) !in listed then amount else 0
  {
    hide Sum;
    var p := (login, amount);
    var before, after := AmountsOf(listed, l), AmountsOf(listed[p := ts], l);
    if l == login {
      SumSet(before, p, amount);
      assert after == before[p := amount];
    } else {
      assert after == before;
    }
  }

  lemma ListedLess(listed: map<(string, int), int>, login: string, amount: int, l: string)
    ensures ListedFor(listed - {(login, amount)}, l)
            == ListedFor(listed, l) - if l == login && (login, amount) in listed then amount else 0
  {
    hide Sum;
    var p := (login, amount);
    var before, after := AmountsOf(listed, l), AmountsOf(listed - {p}, l);
    if l == login && p in listed {
      SumRemove(before, p);
      assert after == before - {p};
    } else {
      assert after == before;
    }
  }

  /** A payment operation, as far as it concerns pending amounts. */
  datatype Payment =
    | Deduct(login: string, amount: int, ts: int)
    | Rollback(login: string, amount: int)
    | Pay(login: string, txHash: string, amount: int, ts: int)

  function PendingAfter(pending: map<string, int>, p: Payment): map<string, int> {
    Incr(pending, p.login, if p.Deduct? then p.amount else -p.amount)
  }

  function ReportAfter(r: Reports, p: Payment): Reports {
    match p
    case Deduct(login, amount, ts) => UpdateBalanceReport(r, login, amount, ts)
    case Rollback(login, amount) => RollbackReport(r, login, amount)
    case Pay(login, txHash, amount, ts) => PaymentReport(r, login, txHash, amount, ts)
  }

  /** What an operation makes of the pending amounts and the reports. */
  ghost predicate Pays(pending: map<string, int>, r: Reports, p: Payment, pending': map<string, int>, r': Reports) {
    pending' == PendingAfter(pending, p) && r' == ReportAfter(r, p)
  }

  /** A pending map in which the operation's field has moved by its amount is the one after it. */
  lemma RaisedIsAfter(pending: map<string, int>, p: Payment, pending': map<string, int>)
    requires Raised(pending, pending', p.login, if p.Deduct? then p.amount else -p.amount)
    ensures pending' == PendingAfter(pending, p)
  {
  }

  ghost predicate PendingIsListed(pending: map<string, int>, r: Reports, login: string) {
    Get(pending, login) == ListedFor(r.pendingPayments, login)
  }

  /** The operation finds its member as it should: a deduction not yet listed, a rollback or a
      payment listed. */
  predicate Fits(r: Reports, p: Payment) {
    p.Deduct? <==> (p.login, p.amount) !in r.pendingPayments
  }

  /** The list keeps saying what is pending for a login exactly if the operation is for another
      login, for nothing, or finds its member as it should. */
  lemma PaymentKeepsList(pending: map<string, int>, r: Reports, p: Payment, login: string)
    requires PendingIsListed(pending, r, login)
    ensures PendingIsListed(PendingAfter(pending, p), ReportAfter(r, p), login)
            <==> login != p.login || p.amount == 0 || Fits(r, p)
  {
    hide ListedFor;
    if p.Deduct? {
      ListedMore(r.pendingPayments, p.login, p.amount, p.ts, login);
    } else {
      ListedLess(r.pendingPayments, p.login, p.amount, login);
    }
  }

  ghost function PendingRun(payments: seq<Payment>): (map<string, int>, Reports) {
    if payments == [] then (map[], NO_REPORTS)
    else
      var before := PendingRun(payments[..|payments| - 1]);
      (PendingAfter(before.0, payments[|payments| - 1]), ReportAfter(before.1, payments[|payments| - 1]))
  }

  /** From nothing pending, after any sequence of payment operations: the list has said what is
      pending for a login at every moment exactly if every operation on that login, for other than
      nothing, found its member as it should. */
  lemma {:induction false} ListedThroughout(payments: seq<Payment>, login: string)
    ensures (forall i | 0 <= i <= |payments| ::
               PendingIsListed(PendingRun(payments[..i]).0, PendingRun(payments[..i]).1, login))
            <==> (forall k | 0 <= k < |payments| ::
                    payments[k].login != login || payments[k].amount == 0
                    || Fits(PendingRun(payments[..k]).1, payments[k]))
  {
    hide PendingRun, PendingIsListed, Fits, PendingAfter, ReportAfter;
    if payments == [] {
      NothingPending(login);
    } else {
      var n := |payments| - 1;
      var before := payments[..n];
      ListedThroughout(before, login);
      assert forall i | 0 <= i <= n :: payments[..i] == before[..i];
      assert payments[..n + 1] == payments && payments[..n] == before[..n];
      LastPayment(payments);
      if PendingIsListed(PendingRun(before).0, PendingRun(before).1, login) {
        PaymentKeepsList(PendingRun(before).0, PendingRun(before).1, payments[n], login);
      }
    }
  }

  lemma LastPayment(payments: seq<Payment>)
    requires payments != []
    ensures var n := |payments| - 1;
            var before := PendingRun(payments[..n]);
            PendingRun(payments) == (PendingAfter(before.0, payments[n]), ReportAfter(before.1, payments[n]))
  {
    hide PendingAfter, ReportAfter;
  }

  lemma NothingPending(login: string)
    ensures PendingIsListed(PendingRun([]).0, PendingRun([]).1, login)
  {
    assert AmountsOf(map[], login) == map[];
  }

  /** Two equal deductions make one member: after the first payment the list is empty, and the other
      amount is still pending. */
  lemma EqualPaymentsCollapse()
    ensures var run := PendingRun([Deduct("a", 5, 1), Deduct("a", 5, 2), Pay("a", "t", 5, 3)]);
            Get(run.0, "a") == 5 && run.1.pendingPayments == map[]
  {
    var ops := [Deduct("a", 5, 1), Deduct("a", 5, 2), Pay("a", "t", 5, 3)];
    assert ops[..2] == [Deduct("a", 5, 1), Deduct("a", 5, 2)] && ops[..2][..1] == [Deduct("a", 5, 1)];
    assert ops[..2][..1][..0] == [];
    LastPayment(ops);
    LastPayment(ops[..2]);
    LastPayment(ops[..2][..1]);
  }
}
