/** One session's atomic segments: judging a submission, the class bucket in front of it, and the policy behind the bucket. */
module StratumClient {
  import opened Bytes
  import opened JobsService
  import D = Difficulty
  import TB = TokenBucket
  import V = Vardiff

  const SAFEST_CAP_HS := 5000.0

  /** A submission as the miner sent it: texts. */
  datatype Submission = Submission(versionMask: string, nonce: string, extraNonce2: string, ntime: string, jobId: string)

  /** What the header is rebuilt from; of the mask only the low 32 bits reach it. */
  datatype Values = Values(versionMask: nat, nonce: int, extraNonce2: seq<byte>, ntime: int)

  function ValuesOf(sub: Submission): Values {
    Values(Word(ParseHexInt(sub.versionMask)), ParseHexInt(sub.nonce), FromHex(sub.extraNonce2), ParseHexInt(sub.ntime))
  }

  /** The text whose hash is the fingerprint: the fields run together. */
  function FingerprintText(sub: Submission): string {
    sub.versionMask + sub.nonce + sub.extraNonce2 + sub.ntime + sub.jobId
  }

  datatype Verdict =
    | DuplicateShare
    | JobNotFound
    | TemplateNotFound
    | JobStale
    | JobParametersChanged
    | DifficultyTooLow
    | ClassCapExceeded
    | Accepted(submitBlock: bool)

  predicate MatchesLock(lock: Option<Lock>, sub: Submission) {
    lock.Some? ==>
      && lock.value.extraNonce2 == ToLower(sub.extraNonce2)
      && lock.value.ntime == ParseHexInt(sub.ntime) && lock.value.versionMask == ParseHexInt(sub.versionMask)
  }

  /** What is known before the header is hashed: the job, if the submission gets that far. */
  function FindJob(s: Service, sessionId: string, hashes: set<string>, sub: Submission, now: int, graceMs: nat): Result<JobRecord, Verdict> {
    if FingerprintText(sub) in hashes then Err(DuplicateShare)
    else if sub.jobId !in s.jobs then Err(JobNotFound)
    else if s.jobs[sub.jobId].owner != sessionId then Err(JobNotFound)
    else
      var job := s.jobs[sub.jobId];
      if job.templateId !in s.blocks then Err(TemplateNotFound)
      else if job.templateId in s.stale && !WithinGrace(s, job.templateId, now, graceMs) then Err(JobStale)
      else if !MatchesLock(job.lock, sub) then Err(JobParametersChanged)
      else Ok(job)
  }

  function Judge(s: Service, sessionId: string, hashes: set<string>, sub: Submission, now: int, graceMs: nat,
                 difficulty: real, share: D.Difficulty, network: D.Difficulty, gateRejected: bool): Verdict {
    match FindJob(s, sessionId, hashes, sub, now, graceMs)
    case Err(verdict) => verdict
    case Ok(job) => Weighed(job.templateId in s.stale, difficulty, share, network, gateRejected)
  }

  function Weighed(stale: bool, difficulty: real, share: D.Difficulty, network: D.Difficulty, gateRejected: bool): Verdict {
    if !D.AtLeast(share, D.Finite(difficulty)) then DifficultyTooLow
    else if gateRejected then ClassCapExceeded
    else Accepted(D.SubmitsBlock(stale, share, difficulty, network, gateRejected))
  }

  /** Accepted means: first of its kind, on an own job of a usable template, under the lock, at the session's difficulty;
      and a block goes out exactly when the template is fresh and the network's difficulty is met as well. */
  lemma AcceptedIff(s: Service, sessionId: string, hashes: set<string>, sub: Submission, now: int, graceMs: nat,
                    difficulty: real, share: D.Difficulty, network: D.Difficulty, gateRejected: bool)
    ensures var v := Judge(s, sessionId, hashes, sub, now, graceMs, difficulty, share, network, gateRejected);
      && (v.Accepted? <==>
            && FingerprintText(sub) !in hashes
            && sub.jobId in s.jobs && s.jobs[sub.jobId].owner == sessionId
            && Usable(s, s.jobs[sub.jobId].templateId, now, graceMs)
            && MatchesLock(s.jobs[sub.jobId].lock, sub)
            && D.AtLeast(share, D.Finite(difficulty)) && !gateRejected)
      && (v.Accepted? ==> (v.submitBlock <==> s.jobs[sub.jobId].templateId !in s.stale && D.AtLeast(share, network)))
  {
  }

  /** The job a submission names, if it belongs to the session. */
  predicate OwnJob(s: Service, sessionId: string, sub: Submission) {
    sub.jobId in s.jobs && s.jobs[sub.jobId].owner == sessionId
  }

  /** One condition for each answer, in the order of the tests. */
  lemma VerdictIff(s: Service, sessionId: string, hashes: set<string>, sub: Submission, now: int, graceMs: nat,
                   difficulty: real, share: D.Difficulty, network: D.Difficulty, gateRejected: bool)
    ensures var v := Judge(s, sessionId, hashes, sub, now, graceMs, difficulty, share, network, gateRejected);
      var isNew := FingerprintText(sub) !in hashes;
      && (v.DuplicateShare? <==> !isNew)
      && (v.JobNotFound? <==> isNew && !OwnJob(s, sessionId, sub))
      && (v.TemplateNotFound? <==> isNew && OwnJob(s, sessionId, sub) && s.jobs[sub.jobId].templateId !in s.blocks)
      && (v.JobStale? <==>
            && isNew && OwnJob(s, sessionId, sub)
            && var id := s.jobs[sub.jobId].templateId;
            id in s.blocks && id in s.stale && now - s.stale[id] > graceMs)
      && (v.JobParametersChanged? <==>
            && isNew && OwnJob(s, sessionId, sub) && Usable(s, s.jobs[sub.jobId].templateId, now, graceMs)
            && !MatchesLock(s.jobs[sub.jobId].lock, sub))
      && (v.DifficultyTooLow? || v.ClassCapExceeded? || v.Accepted? ==>
            && (v.DifficultyTooLow? <==> !D.AtLeast(share, D.Finite(difficulty)))
            && (v.ClassCapExceeded? <==> D.AtLeast(share, D.Finite(difficulty)) && gateRejected))
  {
  }

  // ---------- the fingerprint ----------

  ghost predicate FullWidth(sub: Submission) {
    |sub.nonce| == 8 && |sub.extraNonce2| == 8 && |sub.ntime| == 8
  }

  lemma CutFields(sub: Submission, n: nat)
    requires FullWidth(sub) && n == |sub.versionMask|
    ensures var text := FingerprintText(sub);
      && |text| == n + 24 + |sub.jobId|
      && sub == Submission(text[..n], text[n..n + 8], text[n + 8..n + 16], text[n + 16..n + 24], text[n + 24..])
  {
  }

  /** With full-width fields, submissions of one text are one submission exactly when their masks are equally long. */
  lemma SameTextMeansSameFieldsIff(f: Submission, g: Submission)
    requires FullWidth(f) && FullWidth(g) && FingerprintText(f) == FingerprintText(g)
    ensures f == g <==> |f.versionMask| == |g.versionMask|
  {
    if |f.versionMask| == |g.versionMask| {
      CutFields(f, |f.versionMask|);
      CutFields(g, |g.versionMask|);
    }
  }

  /** The spelling a well-behaved miner keeps to: lower-case digits, full-width fields, and masks of one length. */
  ghost predicate Canonical(sub: Submission, maskWidth: nat) {
    && FullWidth(sub) && |sub.versionMask| == maskWidth
    && IsLowerHex(sub.versionMask) && IsLowerHex(sub.nonce) && IsLowerHex(sub.extraNonce2) && IsLowerHex(sub.ntime)
  }

  lemma SameNumberMeansSameText(s: string, t: string)
    requires IsLowerHex(s) && IsLowerHex(t) && |s| == |t|
    ensures ParseHexInt(s) == ParseHexInt(t) <==> s == t
  {
    ParseHexIntOfDigits(s);
    ParseHexIntOfDigits(t);
    if ParseHexInt(s) == ParseHexInt(t) {
      HexPrefixInjective(s, t);
    }
  }

  lemma SameWordMeansSameText(s: string, t: string)
    requires IsLowerHex(s) && IsLowerHex(t) && |s| == |t| <= 8
    ensures Word(ParseHexInt(s)) == Word(ParseHexInt(t)) <==> s == t
  {
    WordOfDigits(s);
    WordOfDigits(t);
    SameNumberMeansSameText(s, t);
  }

  lemma BlurredTimes(zeros: string, one: string)
    requires IsLowerHex(zeros) && IsLowerHex(one) && |zeros| == |one| == 8 && zeros != one
    requires "0" + zeros + zeros + zeros + "11" == "00" + zeros + zeros + one + "1"
    ensures Blurred(Submission("0", zeros, zeros, zeros, "11"), Submission("00", zeros, zeros, one, "1"))
  {
    JobIds();
    SameNumberMeansSameText(zeros, one);
  }

  /** Masks of different length can make shares of two jobs of one pool share a text, and the second one a false duplicate. */
  lemma MaskWidthBlursFingerprints()
    ensures exists f: Submission, g: Submission :: Blurred(f, g)
  {
    var zeros := seq(8, _ => '0');
    var one := zeros[1..] + "1";
    assert zeros[7] != one[7];
    BlurredTimes(zeros, one);
  }

  ghost predicate Blurred(f: Submission, g: Submission) {
    && FullWidth(f) && FullWidth(g) && FingerprintText(f) == FingerprintText(g)
    && ValuesOf(f).ntime != ValuesOf(g).ntime && f.jobId == NatToHex(17) && g.jobId == NatToHex(1)
  }

  lemma JobIds()
    ensures NatToHex(1) == "1" && NatToHex(17) == "11"
  {
    assert NatToHex(17) == NatToHex(1) + [HexDigit(1)];
  }

  /** Among canonical submissions on one job, with masks of at most eight digits, the same values are the same fingerprint. */
  lemma FingerprintIsTheHeaderIff(f: Submission, g: Submission, maskWidth: nat)
    requires Canonical(f, maskWidth) && Canonical(g, maskWidth) && f.jobId == g.jobId && maskWidth <= 8
    ensures FingerprintText(f) == FingerprintText(g) <==> ValuesOf(f) == ValuesOf(g)
  {
    if FingerprintText(f) == FingerprintText(g) {
      SameTextMeansSameFieldsIff(f, g);
    }
    if ValuesOf(f) == ValuesOf(g) {
      SameWordMeansSameText(f.versionMask, g.versionMask);
      SameNumberMeansSameText(f.nonce, g.nonce);
      SameNumberMeansSameText(f.ntime, g.ntime);
      FromHexInjective(f.extraNonce2, g.extraNonce2);
    }
  }

  /** A mask of nine digits or more is another spelling of the word in its last eight. */
  lemma WideMaskIsTheSameHeader(sub: Submission, mask: string)
    requires IsLowerHex(mask) && |mask| >= 8
    ensures var f, g := sub.(versionMask := "0" + mask), sub.(versionMask := "1" + mask);
      && ValuesOf(f) == ValuesOf(g) && FingerprintText(f) != FingerprintText(g)
      && (Canonical(sub.(versionMask := mask), |mask|) ==> Canonical(f, |mask| + 1) && Canonical(g, |mask| + 1))
  {
    var f, g := sub.(versionMask := "0" + mask), sub.(versionMask := "1" + mask);
    NinthDigitIsLost(mask, '0');
    NinthDigitIsLost(mask, '1');
    assert FingerprintText(f)[0] != FingerprintText(g)[0];
    LowerHexCons(mask, '0');
    LowerHexCons(mask, '1');
  }

  lemma LowerHexCons(s: string, c: char)
    requires IsLowerHex(s) && HexValue(c) >= 0 && LowerChar(c) == c
    ensures IsLowerHex([c] + s)
  {
    var longer := [c] + s;
    forall i | 0 <= i < |longer| ensures HexValue(longer[i]) >= 0 && ToLower(longer)[i] == longer[i] {
      if i > 0 {
        assert longer[i] == s[i - 1] && ToLower(s)[i - 1] == s[i - 1];
      }
    }
  }

  /** On one job, canonical submissions of one header always have one fingerprint exactly when masks have at most eight digits. */
  lemma OneHeaderOneFingerprintIff(maskWidth: nat)
    ensures (forall f: Submission, g: Submission ::
               Canonical(f, maskWidth) && Canonical(g, maskWidth) && f.jobId == g.jobId && ValuesOf(f) == ValuesOf(g) ==>
               FingerprintText(f) == FingerprintText(g))
            <==> maskWidth <= 8
  {
    if maskWidth <= 8 {
      forall f: Submission, g: Submission
        | Canonical(f, maskWidth) && Canonical(g, maskWidth) && f.jobId == g.jobId && ValuesOf(f) == ValuesOf(g)
        ensures FingerprintText(f) == FingerprintText(g)
      {
        FingerprintIsTheHeaderIff(f, g, maskWidth);
      }
    } else {
      var zeros, mask := seq(8, _ => '0'), seq(maskWidth - 1, _ => '0');
      var sub := Submission(mask, zeros, zeros, zeros, "1");
      assert Canonical(sub, |mask|);
      WideMaskIsTheSameHeader(sub, mask);
      var f, g := sub.(versionMask := "0" + mask), sub.(versionMask := "1" + mask);
      assert Canonical(f, maskWidth) && Canonical(g, maskWidth);
    }
  }

  /** Another spelling of a submission: a leading zero in front of the nonce. */
  function Respelled(sub: Submission): Submission {
    sub.(nonce := "0" + sub.nonce)
  }

  /** It is the same header and passes the same lock, under another fingerprint. */
  lemma RespelledIsTheSameShare(sub: Submission)
    requires IsHex(sub.nonce)
    ensures ValuesOf(Respelled(sub)) == ValuesOf(sub)
    ensures FingerprintText(Respelled(sub)) != FingerprintText(sub)
    ensures forall lock :: MatchesLock(lock, Respelled(sub)) <==> MatchesLock(lock, sub)
  {
    var nonce := "0" + sub.nonce;
    assert nonce[1..] == sub.nonce;
    forall i | 0 <= i < |nonce| ensures HexValue(nonce[i]) >= 0 {
      assert i > 0 ==> HexValue(sub.nonce[i - 1]) >= 0;
    }
    ParseHexIntOfDigits(nonce);
    ParseHexIntOfDigits(sub.nonce);
    assert |FingerprintText(Respelled(sub))| == |FingerprintText(sub)| + 1;
  }

  // ---------- the class policy ----------

  /** An authorization result as far as the class policy reads it; both fields may be missing. */
  datatype Policy = Policy(bypass: bool, targetHashrate: Option<real>)

  /** A missing or nonpositive target falls back to the safest cap. */
  function TargetOf(p: Policy): real {
    if p.targetHashrate.Some? && p.targetHashrate.value > 0.0 then p.targetHashrate.value else SAFEST_CAP_HS
  }

  function AfterPolicy(bucket: Option<TB.State>, p: Policy, floor: real, now: int): Option<TB.State> {
    if p.bypass then None
    else if bucket.None? then Some(TB.Created(TargetOf(p), floor, now))
    else Some(TB.Updated(bucket.value, TargetOf(p), floor, now))
  }

  /** Any result without a usable target caps the device; a refresh never adds credit the clock has not earned. */
  lemma PolicyFailsClosed(bucket: Option<TB.State>, p: Policy, floor: real, now: int)
    requires bucket.Some? ==> TB.Sound(bucket.value)
    ensures var after := AfterPolicy(bucket, p, floor, now);
      && (after.None? <==> p.bypass)
      && (after.Some? ==>
            && TB.Sound(after.value)
            && (p.targetHashrate.None? || p.targetHashrate.value <= 0.0 ==> after.value.rate == 5000.0)
            && (p.targetHashrate.Some? && p.targetHashrate.value >= 1.0 ==> after.value.rate == p.targetHashrate.value)
            && (p.targetHashrate.Some? && 0.0 < p.targetHashrate.value < 1.0 ==> after.value.rate == 1.0)
            && after.value.units <= (if bucket.None? then 0.0 else TB.Refilled(bucket.value, now).units))
  {
    if bucket.Some? {
      TB.StepBound(bucket.value, TB.Update(TargetOf(p), floor, now));
    } else {
      TB.CreatedSound(TargetOf(p), floor, now);
    }
  }

  /** The gate turns a share away only when it is enforced and there is a bucket that lacks the units. */
  function GateRejects(bucket: Option<TB.State>, difficulty: real, now: int, enforced: bool): bool {
    bucket.Some? && !TB.Accepts(bucket.value, TB.ShareCostUnits(difficulty), now) && enforced
  }

  /** The bucket behind a verdict: units are tried for exactly the shares that passed every other test. */
  function Charged(bucket: Option<TB.State>, v: Verdict, difficulty: real, now: int): Option<TB.State> {
    if bucket.Some? && (v.Accepted? || v.ClassCapExceeded?) then Some(TB.AfterTry(bucket.value, TB.ShareCostUnits(difficulty), now))
    else bucket
  }

  // ---------- the cap over a whole session ----------

  /** What touches a session's bucket: a policy refresh, and a submission that has passed every test but the cap. */
  datatype SessionOp = Refresh(policy: Policy, floor: real, now: int) | Share(difficulty: real, now: int)

  function SessionStep(bucket: Option<TB.State>, op: SessionOp): Option<TB.State> {
    match op
    case Refresh(p, floor, now) => AfterPolicy(bucket, p, floor, now)
    case Share(difficulty, now) =>
      if bucket.None? then None else Some(TB.AfterTry(bucket.value, TB.ShareCostUnits(difficulty), now))
  }

  /** The expected work behind the shares that an enforced gate lets through. */
  function AdmittedWork(bucket: Option<TB.State>, ops: seq<SessionOp>): real
    decreases |ops|
  {
    if ops == [] then 0.0
    else
      (if ops[0].Share? && !GateRejects(bucket, ops[0].difficulty, ops[0].now, true)
       then TB.ShareCostUnits(ops[0].difficulty) else 0.0)
      + AdmittedWork(SessionStep(bucket, ops[0]), ops[1..])
  }

  ghost predicate Capped(ops: seq<SessionOp>, maxRate: real) {
    forall i :: 0 <= i < |ops| ==>
      match ops[i]
      case Refresh(p, _, _) => !p.bypass && TargetOf(p) <= maxRate
      case Share(difficulty, _) => difficulty >= 0.0
  }

  function BucketOp(op: SessionOp): TB.Op {
    match op
    case Refresh(p, floor, now) => TB.Update(TargetOf(p), floor, now)
    case Share(difficulty, now) => TB.Try(TB.ShareCostUnits(difficulty), now)
  }

  function BucketOps(ops: seq<SessionOp>): (r: seq<TB.Op>)
    ensures |r| == |ops| && forall i :: 0 <= i < |r| ==> r[i] == BucketOp(ops[i])
  {
    seq(|ops|, i requires 0 <= i < |ops| => BucketOp(ops[i]))
  }

  /** Without a bypass a session is its bucket. */
  lemma {:induction false} WorkIsSpent(bucket: TB.State, ops: seq<SessionOp>, maxRate: real)
    requires Capped(ops, maxRate)
    ensures AdmittedWork(Some(bucket), ops) == TB.Spent(bucket, BucketOps(ops))
    decreases |ops|
  {
    if ops != [] {
      assert SessionStep(Some(bucket), ops[0]) == Some(TB.Step(bucket, BucketOp(ops[0])));
      WorkIsSpent(TB.Step(bucket, BucketOp(ops[0])), ops[1..], maxRate);
      assert BucketOps(ops)[1..] == BucketOps(ops[1..]);
      TB.RunHead(bucket, BucketOps(ops));
    }
  }

  lemma SessionYields(first: Policy, floor: real, start: int, ops: seq<SessionOp>, maxRate: real)
    requires !first.bypass && TargetOf(first) <= maxRate && 1.0 <= maxRate && Capped(ops, maxRate)
    ensures var bucket := TB.Created(TargetOf(first), floor, start);
      AdmittedWork(Some(bucket), ops) <= TB.Yield(TB.Run(bucket, BucketOps(ops)).last - start, maxRate)
  {
    WorkIsSpent(TB.Created(TargetOf(first), floor, start), ops, maxRate);
    TB.CreatedRunYields(TargetOf(first), floor, start, BucketOps(ops), maxRate);
  }

  /** From its first policy on, while no policy is a bypass, an enforced gate lets through no more work than the
      highest rate times the time the clock advanced, whatever it submits and however the policy changes. */
  lemma SessionIsCapped(first: Policy, floor: real, start: int, ops: seq<SessionOp>, maxRate: real)
    requires !first.bypass && TargetOf(first) <= maxRate && 1.0 <= maxRate && Capped(ops, maxRate)
    ensures var bucket := TB.Created(TargetOf(first), floor, start);
      && AfterPolicy(None, first, floor, start) == Some(bucket)
      && AdmittedWork(Some(bucket), ops) <= (TB.Run(bucket, BucketOps(ops)).last - start) as real / 1000.0 * maxRate
  {
    var bucket := TB.Created(TargetOf(first), floor, start);
    var work := AdmittedWork(Some(bucket), ops);
    SessionYields(first, floor, start, ops, maxRate);
    TB.AtMostYield(work, work, TB.Run(bucket, BucketOps(ops)).last - start, maxRate);
  }

  /** The cap binds exactly the sessions with a bucket: without one every share is let through. */
  lemma {:induction false} UncappedAdmitsAll(ops: seq<SessionOp>)
    requires forall i :: 0 <= i < |ops| ==> ops[i].Share? || ops[i].policy.bypass
    ensures AdmittedWork(None, ops) == Submitted(ops)
    decreases |ops|
  {
    if ops != [] {
      UncappedAdmitsAll(ops[1..]);
    }
  }

  function Submitted(ops: seq<SessionOp>): real {
    if ops == [] then 0.0
    else (if ops[0].Share? then TB.ShareCostUnits(ops[0].difficulty) else 0.0) + Submitted(ops[1..])
  }

  class StratumV1Client {
    const extraNonceAndSessionId: string
    var miningSubmissionHashes: set<string>
    var sessionDifficulty: real
    var classTokenBucket: TB.Bucket?

    constructor (sessionId: string, difficulty: real)
      ensures extraNonceAndSessionId == sessionId && sessionDifficulty == difficulty
      ensures miningSubmissionHashes == {} && classTokenBucket == null
    {
      extraNonceAndSessionId, sessionDifficulty := sessionId, difficulty;
      miningSubmissionHashes, classTokenBucket := {}, null;
    }

    function BucketView(): Option<TB.State>
      reads this, classTokenBucket
    {
      if classTokenBucket == null then None else Some(classTokenBucket.View())
    }

    method ApplyClassPolicy(p: Policy, floor: real, now: int)
      modifies this`classTokenBucket, classTokenBucket
      ensures BucketView() == AfterPolicy(old(BucketView()), p, floor, now)
      ensures classTokenBucket == null || classTokenBucket == old(classTokenBucket) || fresh(classTokenBucket)
    {
      if p.bypass {
        classTokenBucket := null;
        return;
      }
      if classTokenBucket == null {
        classTokenBucket := new TB.Bucket(TargetOf(p), floor, now);
      } else {
        classTokenBucket.UpdateParams(TargetOf(p), floor, now);
      }
    }

    method ClassBucketGateRejected(difficulty: real, now: int, enforced: bool) returns (rejected: bool)
      modifies classTokenBucket
      ensures rejected == GateRejects(old(BucketView()), difficulty, now, enforced)
      ensures !enforced || old(classTokenBucket) == null ==> !rejected
      ensures enforced && old(classTokenBucket) != null ==> (rejected <==> !TB.Accepts(old(BucketView()).value, difficulty * 4294967296.0, now))
      ensures old(classTokenBucket) == classTokenBucket
      ensures BucketView() == if old(BucketView()).None? then None
                              else Some(TB.AfterTry(old(BucketView()).value, TB.ShareCostUnits(difficulty), now))
    {
      if classTokenBucket == null {
        return false;
      }
      var consumed := classTokenBucket.TryConsume(TB.ShareCostUnits(difficulty), now);
      rejected := !consumed && enforced;
    }

    /** A template arrives: a clearing one empties the fingerprints. */
    method ReceiveTemplate(clearJobs: bool)
      modifies this`miningSubmissionHashes
      ensures miningSubmissionHashes == if clearJobs then {} else old(miningSubmissionHashes)
    {
      if clearJobs {
        miningSubmissionHashes := {};
      }
    }

    /** The periodic check, given the statistics' suggestion. */
    method CheckDifficulty(suggestion: V.Suggestion, minDiff: real, maxDiff: real) returns (sent: bool)
      modifies this`sessionDifficulty
      ensures (sessionDifficulty, sent) == V.Adjusted(old(sessionDifficulty), suggestion, minDiff, maxDiff)
      ensures sent && minDiff <= maxDiff ==> minDiff <= sessionDifficulty <= maxDiff
    {
      if suggestion.NoChange? {
        return false;
      }
      if suggestion.value != sessionDifficulty {
        sessionDifficulty := V.Clamp(suggestion.value, minDiff, maxDiff);
        return true;
      }
      sent := false;
    }

    /** The lookups of a submission, up to the job whose header is rebuilt. */
    method FindSubmittedJob(service: StratumV1JobsService, sub: Submission, now: int, graceMs: nat)
      returns (r: Result<JobRecord, Verdict>)
      modifies this`miningSubmissionHashes
      ensures r == FindJob(service.View(), extraNonceAndSessionId, old(miningSubmissionHashes), sub, now, graceMs)
      ensures miningSubmissionHashes == old(miningSubmissionHashes) + {FingerprintText(sub)}
    {
      if FingerprintText(sub) in miningSubmissionHashes {
        assert miningSubmissionHashes == miningSubmissionHashes + {FingerprintText(sub)};
        return Err(DuplicateShare);
      } else {
        miningSubmissionHashes := miningSubmissionHashes + {FingerprintText(sub)};
      }
      if sub.jobId !in service.jobs {
        return Err(JobNotFound);
      }
      var job := service.jobs[sub.jobId];
      if job.owner != extraNonceAndSessionId {
        return Err(JobNotFound);
      }
      if job.templateId !in service.blocks {
        return Err(TemplateNotFound);
      }
      var stale := job.templateId in service.staleTemplateSinceMs;
      if stale && !WithinGrace(service.View(), job.templateId, now, graceMs) {
        return Err(JobStale);
      }
      if !MatchesLock(job.lock, sub) {
        return Err(JobParametersChanged);
      }
      r := Ok(job);
    }

    /** The rest of it, once the header's difficulty is known. */
    method WeighShare(stale: bool, now: int, share: D.Difficulty, network: D.Difficulty, enforced: bool) returns (v: Verdict)
      modifies classTokenBucket
      ensures v == Weighed(stale, sessionDifficulty, share, network, GateRejects(old(BucketView()), sessionDifficulty, now, enforced))
      ensures classTokenBucket == old(classTokenBucket)
      ensures BucketView() == Charged(old(BucketView()), v, sessionDifficulty, now)
      ensures v.Accepted? || v.ClassCapExceeded? || BucketView() == old(BucketView())
    {
      if !D.AtLeast(share, D.Finite(sessionDifficulty)) {
        return DifficultyTooLow;
      }
      var rejected := ClassBucketGateRejected(sessionDifficulty, now, enforced);
      if rejected {
        return ClassCapExceeded;
      }
      v := Accepted(!stale && D.AtLeast(share, network));
    }

    /** The segment of a submission between its last await and its outcome. Units are taken only from a share
        that has passed every other test. */
    method CheckSubmission(service: StratumV1JobsService, sub: Submission, now: int, graceMs: nat,
                           share: D.Difficulty, network: D.Difficulty, enforced: bool)
      returns (v: Verdict)
      modifies this`miningSubmissionHashes, classTokenBucket
      ensures v == Judge(service.View(), extraNonceAndSessionId, old(miningSubmissionHashes), sub, now, graceMs,
                         sessionDifficulty, share, network, GateRejects(old(BucketView()), sessionDifficulty, now, enforced))
      ensures miningSubmissionHashes == old(miningSubmissionHashes) + {FingerprintText(sub)}
      ensures service.View() == old(service.View())
      ensures BucketView() == Charged(old(BucketView()), v, sessionDifficulty, now)
      ensures v.Accepted? || v.ClassCapExceeded? || BucketView() == old(BucketView())
      ensures classTokenBucket == old(classTokenBucket)
    {
      var found := FindSubmittedJob(service, sub, now, graceMs);
      match found
      case Err(verdict) =>
        v := verdict;
      case Ok(job) =>
        v := WeighShare(job.templateId in service.staleTemplateSinceMs, now, share, network, enforced);
    }
  }
}
