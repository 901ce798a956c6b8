/** Jobs of one session (stratum/miner.go:18-99) and the submit handler (stratum/handlers.go:63-98,
    stratum/miner.go:139-275), with the handlers of a session taking turns. */
module Jobs {
  import opened Common
  import opened Hex
  import opened Text
  import opened Difficulty
  import opened Template

  const WINDOW_SIZE: nat := 4

  /** append, then drop the oldest when there are more than four. */
  function Push<T>(jobs: seq<T>, job: T): seq<T> {
    var more := jobs + [job];
    if |more| > WINDOW_SIZE then more[1..] else more
  }

  function LastFour<T>(jobs: seq<T>): seq<T> {
    if |jobs| <= WINDOW_SIZE then jobs else jobs[|jobs| - WINDOW_SIZE..]
  }

  lemma PushIsLastFour<T>(issued: seq<T>, job: T)
    ensures Push(LastFour(issued), job) == LastFour(issued + [job])
  {
  }

  /** The four latest jobs in the order they were issued, or all of them if there are fewer. */
  lemma LatestFour<T>(issued: seq<T>, i: nat)
    ensures |LastFour(issued)| == if |issued| < 4 then |issued| else 4
    ensures i < |LastFour(issued)| ==> LastFour(issued)[i] == issued[if |issued| < 4 then i else |issued| - 4 + i]
  {
  }

  lemma {:induction false} FormatNatInjective(n: nat, m: nat)
    ensures FormatNat(n) == FormatNat(m) <==> n == m
  {
    hide FormatNat, ParseDigits, AllDigits;
    ParseFormatNat(n);
    ParseFormatNat(m);
  }

  class Job {
    const height: int
    const id: string
    const extraNonce: uint32
    /** The running number that the id spells, and the template whose blob was issued. */
    ghost const number: nat
    ghost const template: BlockTemplate
    var submissions: set<string>

    constructor (id: string, extraNonce: uint32, height: int, ghost number: nat, ghost template: BlockTemplate)
      ensures this.id == id && this.extraNonce == extraNonce && this.height == height && this.number == number
      ensures this.template == template && submissions == {}
    {
      this.id, this.extraNonce, this.height, this.number := id, extraNonce, height, number;
      this.template := template;
      submissions := {};
    }

    /** submit: true for a nonce seen before. */
    method Submit(nonce: string) returns (exist: bool)
      modifies this
      ensures exist <==> nonce in old(submissions)
      ensures submissions == old(submissions) + {nonce}
    {
      if nonce in submissions {
        return true;
      }
      submissions := submissions + {nonce};
      exist := false;
    }
  }

  /** The counters that the sessions of an endpoint share. */
  class Endpoint {
    const instanceId: seq<byte>
    var jobSequence: int
    var extraNonce: uint32
    ghost var issued: nat

    ghost predicate Valid()
      reads this
    {
      jobSequence == issued % TWO_TO_64 && extraNonce == issued % TWO_TO_32 && |instanceId| == 4
    }

    constructor (instanceId: seq<byte>)
      requires |instanceId| == 4
      ensures Valid() && issued == 0 && this.instanceId == instanceId
    {
      this.instanceId := instanceId;
      jobSequence, extraNonce, issued := 0, 0, 0;
    }
  }

  /** The jobs of a session, oldest first: neighbours differ in height, and the ids spell the
      endpoint's job numbers, which grow. */
  ghost predicate WellIssued(issued: seq<Job>, lastHeight: int, total: nat) {
    && lastHeight == (if issued == [] then 0 else issued[|issued| - 1].height)
    && (issued != [] ==> issued[0].height != 0)
    && (forall i | 0 <= i < |issued| - 1 :: issued[i].height != issued[i + 1].height)
    && (forall i | 0 <= i < |issued| :: issued[i].id == FormatNat(issued[i].number % TWO_TO_64))
    && (forall i | 0 <= i < |issued| :: 0 < issued[i].number <= total)
    && (forall i, j | 0 <= i < j < |issued| :: issued[i].number < issued[j].number)
  }

  lemma WellIssuedMore(issued: seq<Job>, lastHeight: int, total: nat, j: Job)
    requires WellIssued(issued, lastHeight, total) && j.height != lastHeight
    requires j.number == total + 1 && j.id == FormatNat(j.number % TWO_TO_64)
    ensures WellIssued(issued + [j], j.height, total + 1)
  {
    hide FormatNat;
  }

  class Session {
    const endpoint: Endpoint
    var lastBlockHeight: int
    var validJobs: seq<Job>
    /** All jobs ever issued on this session. */
    ghost var issued: seq<Job>

    ghost predicate Valid()
      reads this, endpoint
    {
      endpoint.Valid() && validJobs == LastFour(issued) && WellIssued(issued, lastBlockHeight, endpoint.issued)
    }

    constructor (e: Endpoint)
      requires e.Valid()
      ensures Valid() && endpoint == e && issued == []
    {
      endpoint, lastBlockHeight, validJobs, issued := e, 0, [], [];
    }

    /** getJob: the job and the blob of the reply. None stands for the empty reply to a session that
        already has a job at the template's height, even if that was another template. */
    method GetJob(t: BlockTemplate, convert: seq<byte> -> seq<byte>) returns (job: Option<Job>, blob: string)
      requires Valid() && Patchable(t)
      modifies this, endpoint
      ensures Valid() && lastBlockHeight == t.height
      ensures job.None? <==> old(lastBlockHeight) == t.height
      ensures job.None? ==> issued == old(issued) && endpoint.issued == old(endpoint.issued)
      ensures job.Some? ==>
                && issued == old(issued) + [job.value] && endpoint.issued == old(endpoint.issued) + 1
                && job.value.number == endpoint.issued && job.value.extraNonce == endpoint.issued % TWO_TO_32
                && job.value.height == t.height && job.value.template == t
                && fresh(job.value) && job.value.submissions == {}
                && blob == Encode(convert(JobBuffer(t, job.value.extraNonce, endpoint.instanceId)))
    {
      hide FormatNat, WellIssued, Push, LastFour, Encode, JobBuffer;
      var last := lastBlockHeight;
      lastBlockHeight := t.height;
      if last == t.height {
        return None, "";
      }
      Counter32Moves(endpoint.issued);
      Counter64Moves(endpoint.issued);
      endpoint.extraNonce := (endpoint.extraNonce + 1) % TWO_TO_32;
      blob := NextBlob(t, endpoint.extraNonce, endpoint.instanceId, convert);
      endpoint.jobSequence := (endpoint.jobSequence + 1) % TWO_TO_64;
      endpoint.issued := endpoint.issued + 1;
      var j := new Job(FormatNat(endpoint.jobSequence), endpoint.extraNonce, t.height, endpoint.issued, t);
      WellIssuedMore(issued, last, endpoint.issued - 1, j);
      PushIsLastFour(issued, j);
      PushJob(j);
      issued := issued + [j];
      job := Some(j);
    }

    /** pushJob. */
    method PushJob(job: Job)
      modifies `validJobs
      ensures validJobs == Push(old(validJobs), job)
      ensures |old(validJobs)| < 4 ==> validJobs == old(validJobs) + [job]
      ensures |old(validJobs)| >= 4 ==> validJobs == old(validJobs)[1..] + [job]
    {
      validJobs := validJobs + [job];
      if |validJobs| > 4 {
        validJobs := validJobs[1..];
      }
    }

    /** findJob: the job with that id among the last four issued, if there is one; while the
        endpoint has issued fewer than 2^64 jobs, no other issued job has the id. */
    method FindJob(id: string) returns (job: Option<Job>)
      requires Valid()
      ensures job.Some? <==> exists j :: j in LastFour(issued) && j.id == id
      ensures job.Some? ==> job.value in LastFour(issued) && job.value.id == id
      ensures job.Some? && endpoint.issued < TWO_TO_64 ==> forall j | j in issued && j.id == id :: j == job.value
    {
      for i := 0 to |validJobs|
        invariant forall k | 0 <= k < i :: validJobs[k].id != id
      {
        if validJobs[i].id == id {
          if endpoint.issued < TWO_TO_64 {
            forall j | j in issued && j.id == id
              ensures j == validJobs[i]
            {
              UniqueId(j, validJobs[i]);
            }
          }
          return Some(validJobs[i]);
        }
      }
      job := None;
    }

    lemma UniqueId(a: Job, b: Job)
      requires Valid() && endpoint.issued < TWO_TO_64 && a in issued && b in issued && a.id == b.id
      ensures a == b
    {
      hide FormatNat;
      FormatNatInjective(a.number % TWO_TO_64, b.number % TWO_TO_64);
      SmallMod64(a.number);
      SmallMod64(b.number);
    }
  }

  lemma SmallMod64(n: nat)
    ensures n < TWO_TO_64 ==> n % TWO_TO_64 == n
  {
  }

  lemma Residue32(q: int, r: nat)
    requires r < TWO_TO_32
    ensures (q * TWO_TO_32 + r) % TWO_TO_32 == r
  {
  }

  lemma Residue64(q: int, r: nat)
    requires r < TWO_TO_64
    ensures (q * TWO_TO_64 + r) % TWO_TO_64 == r
  {
  }

  lemma Counter32Moves(n: nat)
    ensures (n % TWO_TO_32 + 1) % TWO_TO_32 == (n + 1) % TWO_TO_32
  {
    var q, r := n / TWO_TO_32, n % TWO_TO_32;
    assert n == q * TWO_TO_32 + r;
    if r + 1 < TWO_TO_32 {
      Residue32(q, r + 1);
    } else {
      Residue32(q + 1, 0);
    }
  }

  lemma Counter64Moves(n: nat)
    ensures (n % TWO_TO_64 + 1) % TWO_TO_64 == (n + 1) % TWO_TO_64
  {
    var q, r := n / TWO_TO_64, n % TWO_TO_64;
    assert n == q * TWO_TO_64 + r;
    if r + 1 < TWO_TO_64 {
      Residue64(q, r + 1);
    } else {
      Residue64(q + 1, 0);
    }
  }

  // ------------------------------------------------------------------------------------------
  // Submitting

  /** What processShare makes of a hash. */
  datatype Verdict = BadHash | LowDifficulty | FoundBlock | GoodShare

  /** The hash reaches the difficulty; every hash reaches one that is not positive. */
  predicate Reaches(hash: seq<byte>, diff: int) {
    diff <= 0 || HashValue(hash) <= DIFF_1 / diff
  }

  /** The verdict that the source promises: by the value of the hash against the two targets. */
  predicate IsVerdict(v: Verdict, computed: Option<seq<byte>>, claimed: string, blockDiff: int, shareDiff: int) {
    var hash := if computed.Some? then computed.value else Decode(claimed);
    && (v == BadHash <==> HashValue(hash) == 0 || (computed.Some? && Encode(hash) != claimed))
    && (v != BadHash ==>
          && (v == FoundBlock <==> Reaches(hash, blockDiff))
          && (v == LowDifficulty <==> !Reaches(hash, blockDiff) && !Reaches(hash, shareDiff)))
  }

  lemma DifficultyReaches(hash: seq<byte>, diff: int)
    requires HashValue(hash) != 0
    ensures HashDifficulty(hash).value >= diff <==> Reaches(hash, diff)
  {
    hide HashValue;
    if diff >= 1 {
      DifficultyIsTarget(hash, diff);
    }
  }

  /** The same by difficulties: a hash that is the claimed one and not 0 finds a block, is a good share or
      is too easy by the whole part of 2^256 - 1 over its value. */
  lemma VerdictByDifficulty(v: Verdict, hash: seq<byte>, blockDiff: int, shareDiff: int)
    requires IsVerdict(v, Some(hash), Encode(hash), blockDiff, shareDiff)
    ensures v == BadHash <==> HashValue(hash) == 0
    ensures HashValue(hash) != 0 ==>
              var diff := 0xFFFFFFFF_FFFFFFFF_FFFFFFFF_FFFFFFFF_FFFFFFFF_FFFFFFFF_FFFFFFFF_FFFFFFFF / HashValue(hash);
              v == if diff >= blockDiff then FoundBlock else if diff < shareDiff then LowDifficulty else GoodShare
  {
    hide HashValue, Encode, Reaches;
    if HashValue(hash) != 0 {
      DifficultyReaches(hash, blockDiff);
      DifficultyReaches(hash, shareDiff);
    }
  }

  /** A hash that is not the claimed one is bad. */
  lemma ForgedIsBad(v: Verdict, hash: seq<byte>, claimed: string, blockDiff: int, shareDiff: int)
    requires IsVerdict(v, Some(hash), claimed, blockDiff, shareDiff) && Encode(hash) != claimed
    ensures v == BadHash
  {
    hide HashValue, Encode, Reaches;
  }

  /** `computed` is the hash of the share buffer, None when validation is bypassed; `claimed` is
      the hexadecimal result in the message. */
  method Judge(computed: Option<seq<byte>>, claimed: string, blockDiff: int, shareDiff: int) returns (v: Verdict)
    ensures IsVerdict(v, computed, claimed, blockDiff, shareDiff)
  {
    hide HashValue, Encode, Decode, Reaches, HashDifficulty;
    var hashBytes;
    if computed.None? {
      hashBytes := Decode(claimed);
    } else {
      hashBytes := computed.value;
    }
    if computed.Some? && Encode(hashBytes) != claimed {
      return BadHash;
    }
    var hashDiff := GetHashDifficulty(hashBytes);
    NoDifficulty(hashBytes);
    if hashDiff.None? {
      return BadHash;
    }
    DifficultyReaches(hashBytes, blockDiff);
    DifficultyReaches(hashBytes, shareDiff);
    if hashDiff.value >= blockDiff {
      v := FoundBlock;
    } else if hashDiff.value < shareDiff {
      v := LowDifficulty;
    } else {
      v := GoodShare;
    }
  }

  lemma NoDifficulty(hash: seq<byte>)
    ensures HashDifficulty(hash).None? <==> HashValue(hash) == 0
  {
    hide HashValue;
  }

  datatype SubmitReply = Unauthenticated | InvalidJobId | MalformedNonce | DuplicateShare | BlockExpired
                       | Judged(verdict: Verdict)

  lemma NonceDecodes(nonce: string)
    ensures IsNonceText(nonce) ==> |Decode(nonce)| == 4 && ToLower(nonce) == nonce
  {
    hide Decode, ToLower, Encode;
    if IsNonceText(nonce) {
      EncodeDecode(nonce);
      LowerFixed(nonce);
    }
  }

  /** The part of handleSubmitRPC after the job is found: the nonce is recorded with the job
      before the height is looked at, so a stale share also uses up its nonce. A share of the
      right height is judged on the current template `t`, which need not be the one its job was
      issued from; if it agrees with that outside the patched bytes, the judged buffer is the
      issued one with only the nonce replaced. `hash` stands for ConvertBlob and RxHash. */
  method SubmitTo(job: Job, nonce: string, claimed: string, t: BlockTemplate, instanceId: seq<byte>, shareDiff: int,
                  bypass: bool, hash: (seq<byte>, seq<byte>) -> seq<byte>) returns (reply: SubmitReply)
    requires Patchable(t) && |instanceId| == 4
    modifies job
    ensures reply.MalformedNonce? || reply.DuplicateShare? || reply.BlockExpired? || reply.Judged?
    ensures reply.MalformedNonce? <==> !IsNonceText(nonce)
    ensures reply.DuplicateShare? <==> IsNonceText(nonce) && nonce in old(job.submissions)
    ensures reply.BlockExpired? <==> IsNonceText(nonce) && nonce !in old(job.submissions) && job.height != t.height
    ensures reply.Judged? ==> |Decode(nonce)| == 4
    ensures reply.Judged? && bypass ==> IsVerdict(reply.verdict, None, claimed, t.difficulty, shareDiff)
    ensures reply.Judged? && !bypass ==>
              IsVerdict(reply.verdict,
                        Some(hash(ShareBuffer(t, job.extraNonce, instanceId, Decode(nonce)), t.seedHash)),
                        claimed, t.difficulty, shareDiff)
    ensures reply.Judged? && SameOutside(job.template, t) ==>
              ShareBuffer(t, job.extraNonce, instanceId, Decode(nonce)) ==
                Patch(JobBuffer(job.template, job.extraNonce, instanceId), NONCE_OFFSET, Decode(nonce))
    ensures job.submissions == old(job.submissions) + if IsNonceText(nonce) then {nonce} else {}
  {
    hide IsVerdict, ShareBuffer, JobBuffer, Patch, Decode, ToLower, SameOutside;
    NonceDecodes(nonce);
    if !(|nonce| == 8 && AllLowerHex(nonce)) {
      return MalformedNonce;
    }
    var lower := ToLower(nonce);
    var exist := job.Submit(lower);
    if exist {
      return DuplicateShare;
    }
    if job.height != t.height {
      return BlockExpired;
    }
    IssuedBuffer(job.template, t, job.extraNonce, instanceId, Decode(nonce));
    var computed: Option<seq<byte>> := None;
    if !bypass {
      var shareBuff := BuildShareBuffer(t, job.extraNonce, instanceId, lower);
      computed := Some(hash(shareBuff[..], t.seedHash));
    }
    var v := Judge(computed, claimed, t.difficulty, shareDiff);
    reply := Judged(v);
  }

  lemma IssuedBuffer(t: BlockTemplate, u: BlockTemplate, e: uint32, instanceId: seq<byte>, nonce: seq<byte>)
    requires Patchable(u) && |instanceId| == 4 && |nonce| == 4
    ensures SameOutside(t, u) ==> Patchable(t)
    ensures SameOutside(t, u) ==>
              ShareBuffer(u, e, instanceId, nonce) == Patch(JobBuffer(t, e, instanceId), NONCE_OFFSET, nonce)
  {
    hide ShareBuffer, JobBuffer, Patch;
    if SameOutside(t, u) {
      JudgedIsIssued(t, u, instanceId);
    }
  }

  /** handleSubmitRPC up to the verdict; `known` says whether the miner id is registered, and `t` is
      the current template. */
  method HandleSubmit(cs: Session, known: bool, jobId: string, nonce: string, claimed: string,
                      t: BlockTemplate, shareDiff: int, bypass: bool, hash: (seq<byte>, seq<byte>) -> seq<byte>)
    returns (reply: SubmitReply, job: Option<Job>)
    requires cs.Valid() && Patchable(t)
    modifies cs.validJobs
    ensures reply.Unauthenticated? <==> !known
    ensures known ==> (reply.InvalidJobId? <==> !exists j :: j in LastFour(cs.issued) && j.id == jobId)
    ensures job.None? <==> reply.Unauthenticated? || reply.InvalidJobId?
    ensures reply.Judged? ==> |Decode(nonce)| == 4
    ensures job.Some? ==>
              && job.value in LastFour(cs.issued) && job.value.id == jobId
              && (reply.MalformedNonce? <==> !IsNonceText(nonce))
              && (reply.DuplicateShare? <==> IsNonceText(nonce) && nonce in old(job.value.submissions))
              && (reply.BlockExpired? <==> IsNonceText(nonce) && nonce !in old(job.value.submissions)
                                           && job.value.height != t.height)
              && (reply.Judged? && bypass ==> IsVerdict(reply.verdict, None, claimed, t.difficulty, shareDiff))
              && (reply.Judged? && !bypass ==>
                    IsVerdict(reply.verdict,
                              Some(hash(ShareBuffer(t, job.value.extraNonce, cs.endpoint.instanceId, Decode(nonce)),
                                        t.seedHash)),
                              claimed, t.difficulty, shareDiff))
              && (reply.Judged? && SameOutside(job.value.template, t) ==>
                    ShareBuffer(t, job.value.extraNonce, cs.endpoint.instanceId, Decode(nonce)) ==
                      Patch(JobBuffer(job.value.template, job.value.extraNonce, cs.endpoint.instanceId),
                            NONCE_OFFSET, Decode(nonce)))
              && job.value.submissions == old(job.value.submissions) + if IsNonceText(nonce) then {nonce} else {}
    ensures forall j | j in cs.validJobs && (job.None? || j != job.value) :: j.submissions == old(j.submissions)
  {
    hide LastFour, WellIssued, IsNonceText, IsVerdict, ShareBuffer, JobBuffer, Patch, Decode, SameOutside;
    job := None;
    if !known {
      return Unauthenticated, None;
    }
    job := cs.FindJob(jobId);
    if job.None? {
      return InvalidJobId, None;
    }
    reply := SubmitTo(job.value, nonce, claimed, t, cs.endpoint.instanceId, shareDiff, bypass, hash);
  }
}
