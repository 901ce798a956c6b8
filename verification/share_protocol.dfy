/** Share uniqueness on one endpoint (stratum/miner.go:42-99, stratum/handlers.go:63-93): any
    number of sessions and threads, interleaved at the atomic operations and critical sections
    of the source. A broadcast and a handler may issue jobs to one session at the same time. */
module ShareProtocol {
  import opened Common
  import opened Hex
  import opened Text
  import opened Jobs

  type Thread = nat
  type SessionId = nat
  type JobRef = nat

  /** A job on the heap; sessions and threads refer to it by its place. `draw` is the number of
      the extra nonce it drew. */
  datatype IssuedJob = IssuedJob(height: int, id: string, extraNonce: uint32, draw: nat, submissions: set<string>)

  datatype SessionState = SessionState(lastBlockHeight: int, validJobs: seq<JobRef>)

  /** Where a thread stands inside getJob or handleSubmitRPC. */
  datatype Place =
    | Outside
    | Swapped(session: SessionId, height: int)
    | Drew(session: SessionId, height: int, extraNonce: uint32, draw: nat)
    | Made(session: SessionId, job: JobRef)
    | FoundJob(job: JobRef)

  /** `draws` and `numbers` count the additions to the endpoint's two counters; `passed` lists
      the submissions that were not duplicates. */
  datatype State = State(
    draws: nat, numbers: nat, jobs: seq<IssuedJob>,
    sessions: map<SessionId, SessionState>, threads: map<Thread, Place>,
    passed: seq<(JobRef, string)>)

  const START: State := State(0, 0, [], map[], map[], [])

  datatype Step =
    | Swap(thread: Thread, session: SessionId, height: int)  // SwapInt64(&lastBlockHeight)
    | Draw(thread: Thread)                                   // AddUint32(&extraNonce)
    | Number(thread: Thread)                                 // AddUint64(&jobSequence), new job
    | PushJob(thread: Thread)
    | FindJob(thread: Thread, session: SessionId, id: string)
    | Submit(thread: Thread, nonce: string)                  // noncePattern, then job.submit

  function PlaceOf(s: State, t: Thread): Place {
    if t in s.threads then s.threads[t] else Outside
  }

  function SessionOf(s: State, c: SessionId): SessionState {
    if c in s.sessions then s.sessions[c] else SessionState(0, [])
  }

  function FirstWithId(jobs: seq<IssuedJob>, refs: seq<JobRef>, id: string): Option<JobRef> {
    if refs == [] then None
    else if refs[0] < |jobs| && jobs[refs[0]].id == id then Some(refs[0])
    else FirstWithId(jobs, refs[1..], id)
  }

  /** A step that a thread cannot take where it stands changes nothing. */
  function Next(s: State, step: Step): State {
    match step
    case Swap(t, c, height) =>
      if !PlaceOf(s, t).Outside? then s
      else
        var cs := SessionOf(s, c);
        var s1 := s.(sessions := s.sessions[c := cs.(lastBlockHeight := height)]);
        if cs.lastBlockHeight == height then s1 else s1.(threads := s.threads[t := Swapped(c, height)])
    case Draw(t) =>
      (match PlaceOf(s, t)
       case Swapped(c, height) =>
         s.(draws := s.draws + 1,
            threads := s.threads[t := Drew(c, height, (s.draws + 1) % TWO_TO_32, s.draws + 1)])
       case _ => s)
    case Number(t) =>
      (match PlaceOf(s, t)
       case Drew(c, height, extraNonce, draw) =>
         s.(numbers := s.numbers + 1,
            jobs := s.jobs + [IssuedJob(height, FormatNat((s.numbers + 1) % TWO_TO_64), extraNonce, draw, {})],
            threads := s.threads[t := Made(c, |s.jobs|)])
       case _ => s)
    case PushJob(t) =>
      (match PlaceOf(s, t)
       case Made(c, job) =>
         var cs := SessionOf(s, c);
         s.(sessions := s.sessions[c := cs.(validJobs := Push(cs.validJobs, job))],
            threads := s.threads[t := Outside])
       case _ => s)
    case FindJob(t, c, id) =>
      if !PlaceOf(s, t).Outside? then s
      else
        (match FirstWithId(s.jobs, SessionOf(s, c).validJobs, id)
         case None => s
         case Some(job) => s.(threads := s.threads[t := FoundJob(job)]))
    case Submit(t, nonce) =>
      (match PlaceOf(s, t)
       case FoundJob(job) =>
         var s1 := s.(threads := s.threads[t := Outside]);
         if job >= |s.jobs| || !IsNonceText(nonce) || nonce in s.jobs[job].submissions then s1
         else
           s1.(jobs := s.jobs[job := s.jobs[job].(submissions := s.jobs[job].submissions + {nonce})],
               passed := s.passed + [(job, nonce)])
       case _ => s)
  }

  function Run(steps: seq<Step>): State {
    if steps == [] then START else Next(Run(steps[..|steps| - 1]), steps[|steps| - 1])
  }

  // ------------------------------------------------------------------------------------------

  /** No two holders of an extra nonce drew the same number: neither two jobs, nor two threads on
      the way to a job, nor one of each. */
  ghost predicate DrawsApart(s: State) {
    && (forall i | 0 <= i < |s.jobs| ::
          0 < s.jobs[i].draw <= s.draws && s.jobs[i].extraNonce == s.jobs[i].draw % TWO_TO_32)
    && (forall i, j | 0 <= i < j < |s.jobs| :: s.jobs[i].draw != s.jobs[j].draw)
    && (forall t | t in s.threads && s.threads[t].Drew? ::
          && 0 < s.threads[t].draw <= s.draws && s.threads[t].extraNonce == s.threads[t].draw % TWO_TO_32
          && forall i | 0 <= i < |s.jobs| :: s.jobs[i].draw != s.threads[t].draw)
    && (forall t, u | t in s.threads && u in s.threads && s.threads[t].Drew? && s.threads[u].Drew? && t != u ::
          s.threads[t].draw != s.threads[u].draw)
  }

  /** The submissions recorded with a job are the nonces that passed on it, each once, and have the
      accepted spelling. */
  ghost predicate PassedOnce(s: State) {
    && (forall k | 0 <= k < |s.passed| :: s.passed[k].0 < |s.jobs|)
    && (forall k | 0 <= k < |s.passed| :: s.passed[k].1 in s.jobs[s.passed[k].0].submissions)
    && (forall k | 0 <= k < |s.passed| :: IsNonceText(s.passed[k].1))
    && (forall k, l | 0 <= k < l < |s.passed| :: s.passed[k] != s.passed[l])
  }

  lemma DrawKeepsApart(s: State, t: Thread)
    requires DrawsApart(s)
    ensures DrawsApart(Next(s, Draw(t)))
  {
  }

  lemma NumberKeepsApart(s: State, t: Thread)
    requires DrawsApart(s)
    ensures DrawsApart(Next(s, Number(t)))
  {
    hide FormatNat;
  }

  /** Only the draws count, of jobs and of threads that have drawn. */
  ghost predicate SameDraws(s: State, s': State) {
    && s'.draws == s.draws && |s'.jobs| == |s.jobs|
    && (forall i | 0 <= i < |s.jobs| ::
          s'.jobs[i].draw == s.jobs[i].draw && s'.jobs[i].extraNonce == s.jobs[i].extraNonce)
    && (forall t | t in s'.threads && s'.threads[t].Drew? :: t in s.threads && s'.threads[t] == s.threads[t])
  }

  lemma SameDrawsApart(s: State, s': State)
    requires DrawsApart(s) && SameDraws(s, s')
    ensures DrawsApart(s')
  {
  }

  lemma SubmitKeepsApart(s: State, t: Thread, nonce: string)
    requires DrawsApart(s)
    ensures DrawsApart(Next(s, Submit(t, nonce)))
  {
    hide DrawsApart;
    SameDrawsApart(s, Next(s, Submit(t, nonce)));
  }

  /** A step that touches neither the counters nor the jobs, and lets no thread draw. */
  lemma OtherKeepsApart(s: State, step: Step)
    requires DrawsApart(s) && !step.Draw? && !step.Number? && !step.Submit?
    ensures DrawsApart(Next(s, step))
  {
    hide FirstWithId, Push, DrawsApart;
    SameDrawsApart(s, Next(s, step));
  }

  lemma NextDrawsApart(s: State, step: Step)
    requires DrawsApart(s)
    ensures DrawsApart(Next(s, step))
  {
    hide DrawsApart, Next;
    match step
    case Draw(t) => DrawKeepsApart(s, t);
    case Number(t) => NumberKeepsApart(s, t);
    case Submit(t, nonce) => SubmitKeepsApart(s, t, nonce);
    case _ => OtherKeepsApart(s, step);
  }

  lemma NextPassedOnce(s: State, step: Step)
    requires PassedOnce(s)
    ensures PassedOnce(Next(s, step))
  {
    hide FormatNat, FirstWithId;
  }

  lemma {:induction false} RunKeeps(steps: seq<Step>)
    ensures DrawsApart(Run(steps)) && PassedOnce(Run(steps))
  {
    if steps != [] {
      var before := Run(steps[..|steps| - 1]);
      RunKeeps(steps[..|steps| - 1]);
      NextDrawsApart(before, steps[|steps| - 1]);
      NextPassedOnce(before, steps[|steps| - 1]);
    }
  }

  /** The pair that identifies a submission to the backend; the endpoint's instance id is the
      same for all. */
  function Pair(s: State, k: nat): (uint32, string)
    requires k < |s.passed| && s.passed[k].0 < |s.jobs|
  {
    (s.jobs[s.passed[k].0].extraNonce, s.passed[k].1)
  }

  /** Numbers up to 2^32 have different residues. */
  lemma ResiduesDiffer(a: nat, b: nat)
    requires 0 < a <= TWO_TO_32 && 0 < b <= TWO_TO_32 && a % TWO_TO_32 == b % TWO_TO_32
    ensures a == b
  {
  }

  /** In every interleaving in which at most 2^32 extra nonces have been drawn, no pair of extra
      nonce and nonce has passed twice. */
  lemma ShareUniqueness(steps: seq<Step>, k: nat, l: nat)
    requires k < l < |Run(steps).passed| && Run(steps).draws <= TWO_TO_32
    ensures Run(steps).passed[k].0 < |Run(steps).jobs| && Run(steps).passed[l].0 < |Run(steps).jobs|
    ensures Pair(Run(steps), k) != Pair(Run(steps), l)
  {
    hide Run;
    RunKeeps(steps);
    var s := Run(steps);
    var i, j := s.passed[k].0, s.passed[l].0;
    if s.jobs[i].extraNonce == s.jobs[j].extraNonce {
      ResiduesDiffer(s.jobs[i].draw, s.jobs[j].draw);
      assert i == j;
    }
  }

  // ------------------------------------------------------------------------------------------
  // What the backend is sent

  /** The member of the dedupe set for a submission: nonce, extra nonce and instance id, as
      hexadecimal text joined by colons (stratum/miner.go:184-187, storage/redis.go:186). */
  function PowMember(extraNonce: uint32, nonce: string, instanceId: seq<byte>): string {
    Join([Encode(Decode(nonce)), Encode(BigEndian(extraNonce)), Encode(instanceId)])
  }

  lemma EncodeColonFree(bytes: seq<byte>)
    ensures ColonFree(Encode(bytes))
  {
    hide Encode;
    EncodeShape(bytes);
  }

  /** The member determines the extra nonce, the nonce and the instance id. */
  lemma PowMemberIsExact(e: uint32, f: uint32, n: string, m: string, a: seq<byte>, b: seq<byte>)
    requires IsNonceText(n) && IsNonceText(m)
    ensures PowMember(e, n, a) == PowMember(f, m, b) <==> e == f && n == m && a == b
  {
    hide Encode, Decode, BigEndian, ColonFree, Split, Join;
    var left := [Encode(Decode(n)), Encode(BigEndian(e)), Encode(a)];
    var right := [Encode(Decode(m)), Encode(BigEndian(f)), Encode(b)];
    EncodeColonFree(Decode(n));
    EncodeColonFree(Decode(m));
    EncodeColonFree(BigEndian(e));
    EncodeColonFree(BigEndian(f));
    EncodeColonFree(a);
    EncodeColonFree(b);
    SplitJoin(left);
    SplitJoin(right);
    if PowMember(e, n, a) == PowMember(f, m, b) {
      assert left == right;
      assert left[0] == right[0] && left[1] == right[1] && left[2] == right[2];
      EncodeDecode(n);
      EncodeDecode(m);
      DecodeEncode(BigEndian(e));
      DecodeEncode(BigEndian(f));
      BigEndianInjective(e, f);
      DecodeEncode(a);
      DecodeEncode(b);
    }
  }

  /** So no member of the dedupe set is sent twice by an endpoint: what the backend's window has
      to stop are only the wrapped counter and other endpoints. */
  lemma NoMemberSentTwice(steps: seq<Step>, k: nat, l: nat, instanceId: seq<byte>)
    requires k < l < |Run(steps).passed| && Run(steps).draws <= TWO_TO_32
    ensures Run(steps).passed[k].0 < |Run(steps).jobs| && Run(steps).passed[l].0 < |Run(steps).jobs|
    ensures var s := Run(steps);
            PowMember(Pair(s, k).0, Pair(s, k).1, instanceId) != PowMember(Pair(s, l).0, Pair(s, l).1, instanceId)
  {
    hide Run, PowMember, IsNonceText;
    var s := Run(steps);
    ShareUniqueness(steps, k, l);
    RunKeeps(steps);
    PowMemberIsExact(Pair(s, k).0, Pair(s, l).0, Pair(s, k).1, Pair(s, l).1, instanceId, instanceId);
  }

  // ------------------------------------------------------------------------------------------
  // The bound is tight: with one more draw the 32-bit counter has come round

  lemma RunMore(steps: seq<Step>, step: Step)
    ensures Run(steps + [step]) == Next(Run(steps), step)
  {
    assert (steps + [step])[..|steps|] == steps;
  }

  function Refs(n: nat): (refs: seq<JobRef>)
    ensures |refs| == n && forall i | 0 <= i < n :: refs[i] == i
  {
    seq(n, i requires 0 <= i => i)
  }

  /** Thread 0 is outside, and has issued n jobs to session 0, one after the other. */
  ghost predicate Ready(s: State, n: nat) {
    && PlaceOf(s, 0).Outside? && s.draws == s.numbers == n == |s.jobs|
    && SessionOf(s, 0) == SessionState(if n == 0 then 0 else 1 + n % 2, LastFour(Refs(n)))
    && forall i | 0 <= i < n ::
         s.jobs[i].extraNonce == (i + 1) % TWO_TO_32 && s.jobs[i].id == FormatNat((i + 1) % TWO_TO_64)
  }

  lemma IssueOne(steps: seq<Step>, n: nat) returns (more: seq<Step>)
    requires Ready(Run(steps), n)
    ensures Ready(Run(more), n + 1) && Run(more).passed == Run(steps).passed
    ensures Run(more).jobs[n].submissions == {}
  {
    hide Run, FormatNat, Push, LastFour;
    var h := 1 + (n + 1) % 2;
    RunMore(steps, Swap(0, 0, h));
    var steps1 := steps + [Swap(0, 0, h)];
    assert PlaceOf(Run(steps1), 0) == Swapped(0, h);
    RunMore(steps1, Draw(0));
    var steps2 := steps1 + [Draw(0)];
    assert PlaceOf(Run(steps2), 0) == Drew(0, h, (n + 1) % TWO_TO_32, n + 1);
    RunMore(steps2, Number(0));
    var steps3 := steps2 + [Number(0)];
    assert PlaceOf(Run(steps3), 0) == Made(0, n);
    RunMore(steps3, PushJob(0));
    more := steps3 + [PushJob(0)];
    PushIsLastFour(Refs(n), n);
    assert Refs(n) + [n] == Refs(n + 1);
  }

  lemma {:induction false} IssueUpTo(steps: seq<Step>, n: nat, m: nat) returns (more: seq<Step>)
    requires Ready(Run(steps), n) && n < m
    ensures Ready(Run(more), m) && Run(more).passed == Run(steps).passed
    ensures m - 1 < |Run(more).jobs| && Run(more).jobs[m - 1].submissions == {}
    decreases m - n
  {
    hide Run, FormatNat, LastFour;
    more := IssueOne(steps, n);
    if n + 1 < m {
      more := IssueUpTo(more, n + 1, m);
    }
  }

  lemma {:induction false} FindsNewest(jobs: seq<IssuedJob>, refs: seq<JobRef>, n: nat)
    requires 0 < n < TWO_TO_64 && n <= |jobs| && refs != [] && refs[|refs| - 1] == n - 1
    requires forall k | 0 <= k < |refs| - 1 :: refs[k] < n - 1
    requires forall i | 0 <= i < n :: jobs[i].id == FormatNat((i + 1) % TWO_TO_64)
    ensures FirstWithId(jobs, refs, FormatNat(n % TWO_TO_64)) == Some(n - 1)
  {
    hide FormatNat;
    if |refs| > 1 {
      FormatNatInjective((refs[0] + 1) % TWO_TO_64, n % TWO_TO_64);
      SmallMod64(refs[0] + 1);
      SmallMod64(n);
      FindsNewest(jobs, refs[1..], n);
    }
  }

  lemma ReadyFinds(s: State, n: nat)
    requires Ready(s, n) && 0 < n < TWO_TO_64
    ensures FirstWithId(s.jobs, SessionOf(s, 0).validJobs, FormatNat(n % TWO_TO_64)) == Some(n - 1)
  {
    hide FormatNat, FirstWithId;
    FindsNewest(s.jobs, SessionOf(s, 0).validJobs, n);
  }

  /** A fresh nonce passes on the newest job. */
  lemma SubmitNewest(steps: seq<Step>, n: nat, nonce: string) returns (more: seq<Step>)
    requires Ready(Run(steps), n) && 0 < n < TWO_TO_64 && IsNonceText(nonce)
    requires nonce !in Run(steps).jobs[n - 1].submissions
    ensures Ready(Run(more), n) && Run(more).passed == Run(steps).passed + [(n - 1, nonce)]
  {
    hide Run, FormatNat, FirstWithId, LastFour;
    var id := FormatNat(n % TWO_TO_64);
    ReadyFinds(Run(steps), n);
    RunMore(steps, FindJob(0, 0, id));
    var steps1 := steps + [FindJob(0, 0, id)];
    assert PlaceOf(Run(steps1), 0) == FoundJob(n - 1);
    RunMore(steps1, Submit(0, nonce));
    more := steps1 + [Submit(0, nonce)];
  }

  /** After 2^32 + 1 draws the first job's extra nonce is drawn again, and the same pair passes
      a second time: the bound of ShareUniqueness cannot be raised. */
  lemma WrapAroundRepeats(nonce: string) returns (steps: seq<Step>)
    requires IsNonceText(nonce)
    ensures var s := Run(steps);
            && s.draws == TWO_TO_32 + 1 && |s.passed| == 2
            && s.passed[0].0 < |s.jobs| && s.passed[1].0 < |s.jobs| && Pair(s, 0) == Pair(s, 1)
  {
    hide Run, FormatNat, LastFour;
    StartReady();
    steps := IssueUpTo([], 0, 1);
    steps := SubmitNewest(steps, 1, nonce);
    steps := IssueUpTo(steps, 1, TWO_TO_32 + 1);
    steps := SubmitNewest(steps, TWO_TO_32 + 1, nonce);
  }

  lemma StartReady()
    ensures Ready(Run([]), 0) && Run([]).passed == []
  {
  }
}
