/** Upstream health (rpc/rpc.go:161-233) and the upstream check (stratum/stratum.go:536-581): a
    counter machine with hysteresis, and a window over the rounds, each against its history. */
module Upstream {
  datatype Event = Failure | Success

  /** The fields that markSick and markAlive update. */
  datatype Health = Health(sickRate: nat, successRate: nat, sick: bool, failsCount: nat)

  const HEALTHY: Health := Health(0, 0, false, 0)

  function Step(h: Health, e: Event): Health {
    match e
    case Failure =>
      Health(h.sickRate + 1, 0, h.sick || h.sickRate + 1 >= 5, if h.sick then h.failsCount else h.failsCount + 1)
    case Success =>
      if h.successRate + 1 >= 5 then h.(sick := false, sickRate := 0, successRate := 0)
      else h.(successRate := h.successRate + 1)
  }

  function Replay(events: seq<Event>): Health {
    if events == [] then HEALTHY else Step(Replay(events[..|events| - 1]), events[|events| - 1])
  }

  lemma ReplayMore(events: seq<Event>, e: Event)
    ensures Replay(events + [e]) == Step(Replay(events), e)
  {
    assert (events + [e])[..|events|] == events;
  }

  function Failures(events: seq<Event>): nat {
    if events == [] then 0
    else Failures(events[..|events| - 1]) + if events[|events| - 1].Failure? then 1 else 0
  }

  /** Five successes in a row. */
  ghost predicate HasRun(events: seq<Event>) {
    exists k :: RunAt(events, k)
  }

  ghost predicate RunAt(events: seq<Event>, k: int) {
    0 <= k && k + 5 <= |events| && forall j | k <= j < k + 5 :: events[j].Success?
  }

  /** Some stretch of the history, up to now, has at least five failures and no five successes
      in a row. */
  ghost predicate SickHistory(events: seq<Event>) {
    exists i :: SickSince(events, i)
  }

  ghost predicate SickSince(events: seq<Event>, i: int) {
    0 <= i <= |events| && Failures(events[i..]) >= 5 && !HasRun(events[i..])
  }

  /** How many successes the history ends with. */
  function Trailing(events: seq<Event>): nat {
    if events == [] || events[|events| - 1].Failure? then 0 else 1 + Trailing(events[..|events| - 1])
  }

  lemma {:induction false} TrailingAre(events: seq<Event>)
    ensures Trailing(events) <= |events|
    ensures forall j | |events| - Trailing(events) <= j < |events| :: events[j].Success?
    ensures Trailing(events) < |events| ==> events[|events| - 1 - Trailing(events)].Failure?
  {
    if events != [] && events[|events| - 1].Success? {
      var n := |events| - 1;
      var before := events[..n];
      TrailingAre(before);
      assert Trailing(events) == 1 + Trailing(before);
      forall j | |events| - Trailing(events) <= j < |events|
        ensures events[j].Success?
      {
        assert j < n ==> events[j] == before[j];
      }
    }
  }

  /** A run in a longer history is an earlier one, or the one it ends with. */
  lemma RunGrows(events: seq<Event>, e: Event)
    ensures HasRun(events + [e]) <==> HasRun(events) || Trailing(events + [e]) >= 5
  {
    var more := events + [e];
    TrailingAre(more);
    if HasRun(events) {
      var k :| RunAt(events, k);
      assert RunAt(more, k);
    }
    if Trailing(more) >= 5 {
      assert RunAt(more, |more| - 5);
    }
    if HasRun(more) {
      var k :| RunAt(more, k);
      if k < |more| - 5 {
        assert forall j | 0 <= j < |events| :: events[j] == more[j];
        assert RunAt(events, k);
      }
    }
  }

  /** A point of the history from which the counters count. */
  ghost predicate ResetAt(events: seq<Event>, r: nat) {
    && r <= |events| && (r == 0 || (r >= 5 && forall j | r - 5 <= j < r :: events[j].Success?))
    && !HasRun(events[r..])
  }

  ghost predicate Counts(h: Health, tail: seq<Event>) {
    && h.sickRate == Failures(tail) && h.successRate == Trailing(tail) < 5
    && (h.sick <==> h.sickRate >= 5)
  }

  /** One more event, without a reset and with one. */
  lemma CountsMore(h: Health, tail: seq<Event>, e: Event)
    requires Counts(h, tail) && !HasRun(tail)
    ensures e.Failure? || h.successRate < 4 ==> Counts(Step(h, e), tail + [e]) && !HasRun(tail + [e])
    ensures e.Success? && h.successRate == 4 ==> Counts(Step(h, e), []) && Trailing(tail + [e]) == 5
  {
    assert (tail + [e])[..|tail|] == tail;
    RunGrows(tail, e);
  }

  /** The last reset, and what the counters mean from there on. */
  lemma {:induction false} SinceReset(events: seq<Event>) returns (r: nat)
    ensures ResetAt(events, r) && Counts(Replay(events), events[r..])
  {
    hide HasRun, Counts, Step, Trailing;
    if events == [] {
      r := 0;
      EmptyCounts();
    } else {
      var n := |events| - 1;
      var before, e := events[..n], events[n];
      r := SinceReset(before);
      assert events[r..] == before[r..] + [e];
      CountsMore(Replay(before), before[r..], e);
      if e.Success? && TrailingSuccesses(before[r..]) {
        TrailingAre(events[r..]);
        CountsMeans(Replay(before), before[r..]);
        assert forall j | n + 1 - 5 <= j < n + 1 :: events[j] == events[r..][j - r];
        r := n + 1;
        assert events[r..] == [];
        EmptyCounts();
      } else {
        CountsMeans(Replay(before), before[r..]);
        assert forall j | 0 <= j < n :: events[j] == before[j];
      }
    }
  }

  ghost predicate TrailingSuccesses(tail: seq<Event>) {
    Trailing(tail) == 4
  }

  lemma CountsMeans(h: Health, tail: seq<Event>)
    requires Counts(h, tail)
    ensures h.successRate == Trailing(tail) < 5
  {
  }

  lemma EmptyCounts()
    ensures Counts(HEALTHY, []) && !HasRun([])
  {
  }

  lemma {:induction false} FailuresConcat(a: seq<Event>, b: seq<Event>)
    ensures Failures(a + b) == Failures(a) + Failures(b)
    decreases |b|
  {
    if b == [] {
      assert a + b == a;
    } else {
      FailuresConcat(a, b[..|b| - 1]);
      assert (a + b)[..|a + b| - 1] == a + b[..|b| - 1];
    }
  }

  lemma {:induction false} NoFailures(events: seq<Event>)
    requires forall j | 0 <= j < |events| :: events[j].Success?
    ensures Failures(events) == 0
  {
    if events != [] {
      NoFailures(events[..|events| - 1]);
    }
  }

  /** An upstream is sick exactly when its history says so. */
  lemma SickIsHistory(events: seq<Event>)
    ensures Replay(events).sick <==> SickHistory(events)
  {
    hide HasRun, Failures, Trailing, Replay;
    var r := SinceReset(events);
    if Replay(events).sick {
      assert SickSince(events, r);
    }
    forall i | SickSince(events, i)
      ensures Failures(events[r..]) >= 5
    {
      SinceFails(events, r, i);
    }
  }

  lemma RunBefore(events: seq<Event>, r: nat, i: nat)
    requires r <= |events| && i + 5 <= r && forall j | r - 5 <= j < r :: events[j].Success?
    ensures HasRun(events[i..])
  {
    assert RunAt(events[i..], r - 5 - i);
  }

  /** No stretch without a run has more failures than the stretch since the last reset. */
  lemma SinceFails(events: seq<Event>, r: nat, i: int)
    requires ResetAt(events, r) && SickSince(events, i)
    ensures Failures(events[i..]) <= Failures(events[r..])
  {
    hide HasRun, Failures;
    if i >= r {
      assert events[r..] == events[r..i] + events[i..];
      FailuresConcat(events[r..i], events[i..]);
    } else if i + 5 <= r {
      RunBefore(events, r, i);
      assert false;
    } else {
      assert events[i..] == events[i..r] + events[r..];
      FailuresConcat(events[i..r], events[r..]);
      NoFailures(events[i..r]);
    }
  }

  /** How many failures found the upstream healthy. */
  ghost function FailuresWhileHealthy(events: seq<Event>): nat {
    if events == [] then 0
    else
      var before := events[..|events| - 1];
      FailuresWhileHealthy(before) + if events[|events| - 1].Failure? && !SickHistory(before) then 1 else 0
  }

  /** The statistic that clients report counts exactly those. */
  lemma {:induction false} FailsAreHistory(events: seq<Event>)
    ensures Replay(events).failsCount == FailuresWhileHealthy(events)
  {
    hide SickHistory;
    if events != [] {
      FailsAreHistory(events[..|events| - 1]);
      SickIsHistory(events[..|events| - 1]);
    }
  }

  // ------------------------------------------------------------------------------------------
  // The client and the check

  /** What a check's template request comes to: a reply; an error that marks the upstream sick
      (transport, malformed envelope, error object); an error that does not (HTTP status,
      malformed result). */
  datatype Outcome = Replied | Broken | Refused

  function EventsOf(o: Outcome): seq<Event> {
    match o
    case Replied => [Success]
    case Broken => [Failure]
    case Refused => []
  }

  class RPCClient {
    var sickRate: nat
    var successRate: nat
    var failsCount: nat
    var sick: bool
    ghost var events: seq<Event>

    ghost predicate Valid()
      reads this
    {
      Health(sickRate, successRate, sick, failsCount) == Replay(events)
    }

    constructor ()
      ensures Valid() && events == []
    {
      sickRate, successRate, failsCount, sick := 0, 0, 0, false;
      events := [];
    }

    method MarkSick()
      requires Valid()
      modifies this
      ensures Valid() && events == old(events) + [Failure]
    {
      hide SickHistory;
      ghost var before := events;
      ReplayMore(before, Failure);
      hide Replay;
      if !sick {
        failsCount := failsCount + 1;
      }
      sickRate := sickRate + 1;
      successRate := 0;
      if sickRate >= 5 {
        sick := true;
      }
      events := events + [Failure];
    }

    method MarkAlive()
      requires Valid()
      modifies this
      ensures Valid() && events == old(events) + [Success]
    {
      ghost var before := events;
      ReplayMore(before, Success);
      hide Replay;
      successRate := successRate + 1;
      if successRate >= 5 {
        sick := false;
        sickRate := 0;
        successRate := 0;
      }
      events := events + [Success];
    }

    method Sick() returns (s: bool)
      requires Valid()
      ensures s == sick && (s <==> SickHistory(events))
    {
      s := sick;
      SickIsHistory(events);
    }

    /** Check: whether the upstream passes. */
    method Check(o: Outcome) returns (ok: bool)
      requires Valid()
      modifies this
      ensures Valid() && events == old(events) + EventsOf(o)
      ensures events == old(events) + (match o case Replied => [Success] case Broken => [Failure] case Refused => [])
      ensures ok <==> Passes(old(events), o)
      ensures ok <==> o.Replied? && !SickHistory(events)
    {
      match o {
        case Refused =>
          assert events + [] == events;
          ok := false;
        case Broken =>
          MarkSick();
          ok := false;
        case Replied =>
          MarkAlive();
          var s := Sick();
          ok := !s;
      }
    }
  }

  /** Whether an upstream with this history passes a check that comes to `o`. */
  ghost predicate Passes(events: seq<Event>, o: Outcome) {
    o.Replied? && !SickHistory(events + EventsOf(o))
  }

  const WINDOW: nat := 60

  /** The latest rounds, at most 60. */
  function Latest(rounds: seq<bool>): seq<bool> {
    if |rounds| <= WINDOW then rounds else rounds[|rounds| - WINDOW..]
  }

  class StratumServer {
    const upstreams: seq<RPCClient>
    var upstream: int
    var upstreamsStates: seq<bool>
    /** For every round so far, whether all upstreams were sick at its end. */
    ghost var rounds: seq<bool>

    ghost predicate Valid()
      reads this, upstreams
    {
      && (forall i | 0 <= i < |upstreams| :: upstreams[i].Valid())
      && (forall i, j | 0 <= i < j < |upstreams| :: upstreams[i] != upstreams[j])
      && upstreamsStates == Latest(rounds)
    }

    constructor (clients: seq<RPCClient>)
      requires forall i | 0 <= i < |clients| :: clients[i].Valid()
      requires forall i, j | 0 <= i < j < |clients| :: clients[i] != clients[j]
      ensures Valid() && upstreams == clients && rounds == [] && upstream == 0
    {
      upstreams, upstream := clients, 0;
      upstreamsStates, rounds := [], [];
    }

    /** checkUpstreams; `outcomes` holds what each upstream's check comes to. `fatal` stands for
        the process exit. */
    method CheckUpstreams(outcomes: seq<Outcome>) returns (fatal: bool)
      requires Valid() && |outcomes| == |upstreams|
      modifies this, upstreams
      ensures Valid()
      ensures forall i | 0 <= i < |upstreams| :: upstreams[i].events == old(upstreams[i].events) + EventsOf(outcomes[i])
      ensures rounds == old(rounds) + [forall i | 0 <= i < |upstreams| :: SickHistory(upstreams[i].events)]
      // the selected upstream is the first that passes, or the first of all
      ensures var u := upstream;
              if exists i :: 0 <= i < |upstreams| && Passes(old(upstreams[i].events), outcomes[i])
              then 0 <= u < |upstreams| && Passes(old(upstreams[u].events), outcomes[u])
                   && forall j | 0 <= j < u :: !Passes(old(upstreams[j].events), outcomes[j])
              else u == 0
      ensures fatal <==> |rounds| >= 60 && forall i | |rounds| - 60 <= i < |rounds| :: rounds[i]
    {
      hide Replay, SickHistory, Passes, EventsOf, Latest;
      upstream := SelectUpstream(outcomes);
      var upstreamsAllSick := AllSick();
      fatal := PushRound(upstreamsAllSick);
    }

    /** The window of rounds: append, cut to the latest 60, and test them. */
    method PushRound(upstreamsAllSick: bool) returns (fatal: bool)
      requires upstreamsStates == Latest(rounds)
      modifies `upstreamsStates, `rounds
      ensures rounds == old(rounds) + [upstreamsAllSick] && upstreamsStates == Latest(rounds)
      ensures fatal <==> |rounds| >= 60 && forall i | |rounds| - 60 <= i < |rounds| :: rounds[i]
    {
      ghost var before := rounds;
      rounds := rounds + [upstreamsAllSick];
      upstreamsStates := upstreamsStates + [upstreamsAllSick];
      fatal := false;
      WindowMoves(before, upstreamsAllSick);
      if |upstreamsStates| >= WINDOW {
        upstreamsStates := upstreamsStates[|upstreamsStates| - WINDOW..];
        assert upstreamsStates == rounds[|rounds| - WINDOW..];
        var sickStatusAllTrue := AllTrue(upstreamsStates);
        assert forall i | |rounds| - WINDOW <= i < |rounds| :: rounds[i] == upstreamsStates[i - (|rounds| - WINDOW)];
        assert forall i | 0 <= i < WINDOW :: upstreamsStates[i] == rounds[|rounds| - WINDOW + i];
        fatal := sickStatusAllTrue;
      }
    }

    /** The first loop: every upstream is checked, and the first to pass is the candidate. */
    method SelectUpstream(outcomes: seq<Outcome>) returns (candidate: int)
      requires Valid() && |outcomes| == |upstreams|
      modifies upstreams
      ensures Valid()
      ensures forall i | 0 <= i < |upstreams| :: upstreams[i].events == old(upstreams[i].events) + EventsOf(outcomes[i])
      ensures if exists i :: 0 <= i < |upstreams| && Passes(old(upstreams[i].events), outcomes[i])
              then 0 <= candidate < |upstreams| && Passes(old(upstreams[candidate].events), outcomes[candidate])
                   && forall j | 0 <= j < candidate :: !Passes(old(upstreams[j].events), outcomes[j])
              else candidate == 0
    {
      hide Replay, SickHistory, Passes;
      candidate := 0;
      var backup := false;
      for i := 0 to |upstreams|
        invariant Valid()
        invariant forall k | 0 <= k < |upstreams| ::
                    upstreams[k].events == old(upstreams[k].events) + if k < i then EventsOf(outcomes[k]) else []
        invariant if backup then 0 <= candidate < i && Passes(old(upstreams[candidate].events), outcomes[candidate])
                                 && forall j | 0 <= j < candidate :: !Passes(old(upstreams[j].events), outcomes[j])
                  else candidate == 0 && forall j | 0 <= j < i :: !Passes(old(upstreams[j].events), outcomes[j])
      {
        assert upstreams[i].events == old(upstreams[i].events);
        var ok := upstreams[i].Check(outcomes[i]);
        if ok && !backup {
          candidate := i;
          backup := true;
        }
      }
    }

    /** The second loop. */
    method AllSick() returns (all: bool)
      requires Valid()
      ensures all <==> forall i | 0 <= i < |upstreams| :: SickHistory(upstreams[i].events)
    {
      hide Replay, SickHistory;
      for i := 0 to |upstreams|
        invariant forall j | 0 <= j < i :: SickHistory(upstreams[j].events)
      {
        var s := upstreams[i].Sick();
        if !s { return false; }
      }
      all := true;
    }
  }

  /** The third loop. */
  method AllTrue(states: seq<bool>) returns (all: bool)
    ensures all <==> forall i | 0 <= i < |states| :: states[i]
  {
    for i := 0 to |states|
      invariant forall j | 0 <= j < i :: states[j]
    {
      if !states[i] { return false; }
    }
    all := true;
  }

  lemma WindowMoves(rounds: seq<bool>, r: bool)
    ensures var states := Latest(rounds) + [r];
            && Latest(rounds + [r]) == (if |states| >= WINDOW then states[|states| - WINDOW..] else states)
            && (|states| >= WINDOW <==> |rounds + [r]| >= WINDOW)
  {
  }
}
