/** The `pow` sorted set that stops repeated shares (storage/redis.go:183-196, 228-236): each
    call first forgets entries that lie too far below its height, then adds its own. */
module Dedupe {
  import opened Common

  /** One call of checkPoWExist: the triple's member, and whether the two commands it sends took
      effect. The result of the first command is never looked at. */
  datatype Call = Call(height: nat, member: string, purged: bool, added: bool)

  /** Whether a call at `height` leaves an entry of the given score. The bound `height - 3` is a
      uint64, so it wraps around below height 3. */
  predicate Keeps(height: nat, score: int) {
    score >= (height - 3) % TWO_TO_64
  }

  function Purge(pow: map<string, int>, height: nat): map<string, int> {
    map m | m in pow && Keeps(height, pow[m]) :: pow[m]
  }

  function AfterPurge(pow: map<string, int>, call: Call): map<string, int> {
    if call.purged then Purge(pow, call.height) else pow
  }

  /** ZADD overwrites the score of a member that is already there. */
  function AfterCall(pow: map<string, int>, call: Call): map<string, int> {
    var left := AfterPurge(pow, call);
    if call.added then left[call.member := call.height] else left
  }

  function Replay(calls: seq<Call>): map<string, int> {
    if calls == [] then map[] else AfterCall(Replay(calls[..|calls| - 1]), calls[|calls| - 1])
  }

  lemma ReplayMore(calls: seq<Call>, call: Call)
    ensures Replay(calls + [call]) == AfterCall(Replay(calls), call)
  {
    hide Purge;
    assert (calls + [call])[..|calls|] == calls;
  }

  ghost predicate Submits(calls: seq<Call>, m: string, i: nat) {
    i < |calls| && calls[i].member == m && calls[i].added
  }

  /** Call i is the last that submitted the member, and every call after it left its score. */
  ghost predicate Remembers(calls: seq<Call>, m: string, i: nat) {
    && Submits(calls, m, i)
    && (forall j: nat | i < j < |calls| :: !Submits(calls, m, j))
    && (forall j: nat | i < j < |calls| && calls[j].purged :: Keeps(calls[j].height, calls[i].height))
  }

  /** The set is its history: a member is stored exactly when some call was the last to submit
      it and no purge since then reached its height, and its score is that call's height. */
  lemma {:induction false} StoredIsHistory(calls: seq<Call>, m: string)
    ensures m in Replay(calls) <==> exists i: nat :: Remembers(calls, m, i)
    ensures forall i: nat | i < |calls| && Remembers(calls, m, i) ::
              m in Replay(calls) && Replay(calls)[m] == calls[i].height
  {
    hide Keeps, Remembers;
    if calls == [] {
      assert forall i: nat :: !Remembers(calls, m, i) by { NothingYet(m); }
    } else {
      var n := |calls| - 1;
      var before := calls[..n];
      StoredIsHistory(before, m);
      forall i: nat | i < |calls|
        ensures Remembers(calls, m, i) <==>
                  if i == n then Submits(calls, m, n)
                  else Remembers(before, m, i) && !Submits(calls, m, n)
                       && (calls[n].purged ==> Keeps(calls[n].height, calls[i].height))
      {
        OneMoreCall(calls, m, i);
      }
      forall i: nat | Remembers(calls, m, i)
        ensures i < |calls|
      {
        RememberedSubmits(calls, m, i);
      }
      if Submits(calls, m, n) {
        assert Remembers(calls, m, n);
      } else if m in Replay(before) {
        var i: nat :| Remembers(before, m, i);
        RememberedSubmits(before, m, i);
        assert Remembers(calls, m, i) <==> m in Replay(calls);
      }
      forall i: nat | i < |calls| && Remembers(calls, m, i)
        ensures m in Replay(calls) && Replay(calls)[m] == calls[i].height
      {
        if i != n {
          RememberedSubmits(before, m, i);
        }
      }
    }
  }

  lemma NothingYet(m: string)
    ensures forall i: nat :: !Remembers([], m, i)
  {
  }

  lemma RememberedSubmits(calls: seq<Call>, m: string, i: nat)
    requires Remembers(calls, m, i)
    ensures Submits(calls, m, i)
  {
  }

  lemma OneMoreCall(calls: seq<Call>, m: string, i: nat)
    requires i < |calls|
    ensures var n := |calls| - 1;
            Remembers(calls, m, i) <==>
              if i == n then Submits(calls, m, n)
              else Remembers(calls[..n], m, i) && !Submits(calls, m, n)
                   && (calls[n].purged ==> Keeps(calls[n].height, calls[i].height))
  {
    hide Keeps;
    var n := |calls| - 1;
    var before := calls[..n];
    assert forall j: nat | j < n :: before[j] == calls[j] && (Submits(before, m, j) <==> Submits(calls, m, j));
    if && i < n && Remembers(before, m, i) && !Submits(calls, m, n)
       && (calls[n].purged ==> Keeps(calls[n].height, calls[i].height)) {
      forall j: nat | i < j < |calls|
        ensures !Submits(calls, m, j)
        ensures calls[j].purged ==> Keeps(calls[j].height, calls[i].height)
      {
        if j < n {
          assert !Submits(before, m, j);
          assert before[j] == calls[j];
        }
      }
    }
    if i < n && Remembers(calls, m, i) {
      assert !Submits(calls, m, n);
      assert Submits(before, m, i);
    }
  }

  /** A repeat inside the window: the last submission of the same triple, whether it was itself
      a repeat or not, survives every purge since, this call's included. */
  ghost predicate IsRepeat(calls: seq<Call>, call: Call) {
    exists i: nat :: Remembers(calls, call.member, i) && (call.purged ==> Keeps(call.height, calls[i].height))
  }

  /** A call is told that its triple exists exactly for a repeat inside the window. */
  lemma RepeatIsReported(calls: seq<Call>, call: Call)
    ensures call.member in AfterPurge(Replay(calls), call) <==> IsRepeat(calls, call)
  {
    hide Keeps;
    StoredIsHistory(calls, call.member);
  }

  /** From height 3 on, the window is the three heights below the call's own. */
  lemma WindowIsThree(height: nat, score: int)
    requires 3 <= height < TWO_TO_64
    ensures Keeps(height, score) <==> height <= score + 3
  {
  }

  /** A triple sent at one height and then at another is a repeat exactly within the window. */
  lemma SecondCall(member: string, first: nat, second: nat)
    requires 3 <= second < TWO_TO_64
    ensures IsRepeat([Call(first, member, true, true)], Call(second, member, true, true)) <==> second <= first + 3
  {
    hide Replay, Remembers;
    var calls := [Call(first, member, true, true)];
    var call := Call(second, member, true, true);
    RepeatIsReported(calls, call);
    OneCall(calls[0]);
  }

  lemma OneCall(call: Call)
    ensures Replay([call]) == if call.added then map[call.member := call.height] else map[]
  {
    assert [call][..0] == [];
    assert Replay([]) == map[];
  }

  /** A second submission six heights later is new, where the repository's own test expects a
      repeat (storage/redis_test.go:35-42). */
  lemma SixHeightsLater(member: string)
    ensures !IsRepeat([Call(1010, member, true, true)], Call(1016, member, true, true))
  {
    hide IsRepeat;
    SecondCall(member, 1010, 1016);
  }

  /** Below height 3 the bound has wrapped around: every entry is forgotten. */
  lemma LowHeightsForgetAll(height: nat, score: int)
    requires height < 3 && score <= MAX_INT64
    ensures !Keeps(height, score)
  {
  }
}
