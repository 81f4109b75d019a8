/** A submission from its text to the node: lookups, the rebuilt header, its difficulty, and the block that is sent. */
module ShareCheck {
  import opened Bytes
  import opened Script
  import opened Coinbase
  import opened Merkle
  import opened MiningJob
  import opened JobsService
  import opened StratumClient
  import opened ShareHeader
  import D = Difficulty

  /** `Unserializable` when the time or the nonce does not fit the header. */
  datatype Outcome = Answered(verdict: Verdict) | Unserializable

  /** The record the service keeps of a job object. */
  ghost predicate Describes(record: JobRecord, job: Job)
    reads job
  {
    && record.owner == job.ownerSessionId && record.templateId == job.jobTemplateId
    && record.lock == if job.signetLocked then Some(Lock(job.lockedExtraNonce2, job.lockedNtime, job.lockedVersionMask)) else None
  }

  /** The lock test on a record is the job's own. */
  lemma LockTestsAgree(record: JobRecord, job: Job, sub: Submission)
    requires Describes(record, job)
    ensures MatchesLock(record.lock, sub)
            <==> job.MatchesLockedSubmission(sub.extraNonce2, ParseHexInt(sub.ntime), ParseHexInt(sub.versionMask))
    ensures MatchesLock(record.lock, sub)
            <==> !job.signetLocked || (job.lockedExtraNonce2 == ToLower(sub.extraNonce2)
                                       && job.lockedNtime == ParseHexInt(sub.ntime)
                                       && job.lockedVersionMask == ParseHexInt(sub.versionMask))
  {
  }

  /** A new fingerprint, under the lock, on an own job of a fresh template. */
  ghost predicate Submittable(s: Service, sessionId: string, hashes: set<string>, sub: Submission) {
    && FingerprintText(sub) !in hashes
    && sub.jobId in s.jobs && s.jobs[sub.jobId].owner == sessionId
    && s.jobs[sub.jobId].templateId in s.blocks && s.jobs[sub.jobId].templateId !in s.stale
    && MatchesLock(s.jobs[sub.jobId].lock, sub)
  }

  /** Of such a submission, a hash that meets the target makes a block, whatever the rounding. */
  lemma ValidBlockIsAccepted(s: Service, sessionId: string, hashes: set<string>, sub: Submission, now: int, graceMs: nat,
                             difficulty: real, digest: Digest, bits: nat, maxTarget: nat, round: real -> real)
    requires Submittable(s, sessionId, hashes, sub) && D.Monotone(round)
    requires LeValue(digest) <= D.TargetFromBits(bits)
    requires D.AtLeast(D.CalculateDifficultyFromBits(bits, maxTarget, round), D.Finite(difficulty))
    ensures Judge(s, sessionId, hashes, sub, now, graceMs, difficulty, D.SubmissionDifficulty(digest, maxTarget, round),
                  D.CalculateDifficultyFromBits(bits, maxTarget, round), false) == Accepted(true)
  {
    D.NoValidBlockWithheld(digest, bits, maxTarget, round, difficulty);
    AcceptedIff(s, sessionId, hashes, sub, now, graceMs, difficulty, D.SubmissionDifficulty(digest, maxTarget, round),
                D.CalculateDifficultyFromBits(bits, maxTarget, round), false);
  }

  /** What a notified miner hashes for this submission. */
  ghost function HashedHeader(hash: Hash, n: Notify, sessionId: string, sub: Submission): Option<seq<byte>>
    requires Readable(n)
  {
    MinerHeader(hash, n, sessionId, sub.extraNonce2, ParseHexInt(sub.versionMask), ParseHexInt(sub.ntime), ParseHexInt(sub.nonce))
  }

  /** The header is some notified miner's, with an extranonce of eight digits, and it meets the target. */
  ghost predicate Solves(hash: Hash, t: Template, tx: CoinbaseTx, sessionId: string, sub: Submission, header: seq<byte>)
    requires WellFormed(hash, t)
  {
    && IsHex8(sub.extraNonce2) && LeValue(hash(header)) <= D.TargetFromBits(t.bits)
    && exists n: Notify :: Notifies(n, t, tx) && Readable(n) && HashedHeader(hash, n, sessionId, sub) == Some(header)
  }

  function BlockBytes(header: seq<byte>, t: Template, tx: CoinbaseTx): seq<byte> {
    header + CompactSize(1 + |t.others|) + WithWitness(tx) + OtherBytes(t.others)
  }

  /** Header and block of a submission on its job; the header is that of every miner who was notified of the job. */
  method RebuildSubmission(job: Job, hash: Hash, t: Template, sub: Submission)
    returns (header: Option<seq<byte>>, full: Option<seq<byte>>)
    requires WellFormed(hash, t) && IsHex8(job.ownerSessionId)
    modifies job.coinbaseTransaction
    ensures job.coinbaseTransaction.Value() == WithExtranonces(old(job.coinbaseTransaction.Value()), job.ownerSessionId, sub)
    ensures header == PoolHeader(hash, t, job.coinbaseTransaction.Value(), sub)
    ensures header.Some? ==> full == Some(BlockBytes(header.value, t, job.coinbaseTransaction.Value()))
    ensures forall built: CoinbaseTx ::
      old(SameHead(built, job.coinbaseTransaction.Value())) ==> header == HeaderOf(hash, t, built, job.ownerSessionId, sub)
    ensures forall h: seq<byte> ::
      old(Solves(hash, t, job.coinbaseTransaction.Value(), job.ownerSessionId, sub, h)) ==> header == Some(h)
  {
    ghost var before := job.coinbaseTransaction.Value();
    forall built: CoinbaseTx | SameHead(built, before)
      ensures HeaderOf(hash, t, built, job.ownerSessionId, sub) == HeaderOf(hash, t, before, job.ownerSessionId, sub)
    {
      SameHeadSameHeader(hash, t, built, before, job.ownerSessionId, sub);
    }
    header, full := RebuildShare(job, hash, t, ParseHexInt(sub.versionMask), ParseHexInt(sub.nonce), sub.extraNonce2,
      ParseHexInt(sub.ntime));
  }

  /** The verdict on a header, and whether its block is sent. */
  ghost function VerdictFor(s: Service, sessionId: string, hashes: set<string>, sub: Submission, now: int, graceMs: nat,
                            difficulty: real, digest: Digest, bits: nat, maxTarget: nat, round: real -> real, gateRejected: bool): Verdict {
    Judge(s, sessionId, hashes, sub, now, graceMs, difficulty, D.SubmissionDifficulty(digest, maxTarget, round),
      D.CalculateDifficultyFromBits(bits, maxTarget, round), gateRejected)
  }

  /** The segment of a submission between its last await and its outcome. A block is sent exactly on the verdict that
      says so, and it begins with the header that was judged. */
  method HandleMiningSubmission(client: StratumV1Client, service: StratumV1JobsService, job: Job, t: Template, sub: Submission,
                                now: int, graceMs: nat, hash: Hash, maxTarget: nat, round: real -> real, enforced: bool)
    returns (r: Outcome, sent: Option<seq<byte>>, ghost judged: Option<seq<byte>>)
    requires WellFormed(hash, t) && IsHex8(client.extraNonceAndSessionId)
    requires sub.jobId in service.jobs && service.jobs[sub.jobId].owner == client.extraNonceAndSessionId ==>
      Describes(service.jobs[sub.jobId], job) && t.id == job.jobTemplateId
    modifies client`miningSubmissionHashes, client.classTokenBucket, job.coinbaseTransaction
    ensures client.miningSubmissionHashes == old(client.miningSubmissionHashes) + {FingerprintText(sub)}
    ensures sent.Some? <==> r == Answered(Accepted(true))
    ensures sent.Some? ==> judged.Some? && sent.value == BlockBytes(judged.value, t, job.coinbaseTransaction.Value())
    ensures judged.Some? ==>
      && sub.jobId in service.jobs
      && (old(SameHead(service.jobs[sub.jobId].coinbase, job.coinbaseTransaction.Value())) ==>
            judged == HeaderOf(hash, t, service.jobs[sub.jobId].coinbase, client.extraNonceAndSessionId, sub))
    ensures judged.Some? ==>
      && judged == PoolHeader(hash, t, job.coinbaseTransaction.Value(), sub)
      && r == Answered(VerdictFor(service.View(), client.extraNonceAndSessionId, old(client.miningSubmissionHashes), sub, now,
                                  graceMs, client.sessionDifficulty, hash(judged.value), t.bits, maxTarget, round,
                                  GateRejects(old(client.BucketView()), client.sessionDifficulty, now, enforced)))
    ensures Submittable(service.View(), client.extraNonceAndSessionId, old(client.miningSubmissionHashes), sub) ==>
      forall h: seq<byte> ::
        old(Solves(hash, t, job.coinbaseTransaction.Value(), client.extraNonceAndSessionId, sub, h)) ==> judged == Some(h)
  {
    judged, sent := None, None;
    var found := client.FindSubmittedJob(service, sub, now, graceMs);
    if found.Err? {
      return Answered(found.error), None, None;
    }
    var stale := found.value.templateId in service.staleTemplateSinceMs;
    var header, full := RebuildSubmission(job, hash, t, sub);
    if header.None? {
      return Unserializable, None, None;
    }
    judged := header;
    var share := D.SubmissionDifficulty(hash(header.value), maxTarget, round);
    var v := client.WeighShare(stale, now, share, D.CalculateDifficultyFromBits(t.bits, maxTarget, round), enforced);
    r := Answered(v);
    if v == Accepted(true) {
      sent := full;
    }
  }

  /** No valid block is withheld: a notified miner's header that meets the target of a fresh template is sent, at the front
      of a block, when its submission is new and under the lock, the gate is open and the session asks no more than the network. */
  method SolvedBlockIsSent(client: StratumV1Client, service: StratumV1JobsService, job: Job, t: Template, sub: Submission,
                           now: int, graceMs: nat, hash: Hash, maxTarget: nat, round: real -> real, enforced: bool)
    returns (r: Outcome, sent: Option<seq<byte>>)
    requires WellFormed(hash, t) && IsHex8(client.extraNonceAndSessionId)
    requires sub.jobId in service.jobs && service.jobs[sub.jobId].owner == client.extraNonceAndSessionId ==>
      Describes(service.jobs[sub.jobId], job) && t.id == job.jobTemplateId
    modifies client`miningSubmissionHashes, client.classTokenBucket, job.coinbaseTransaction
    ensures
      (&& D.Monotone(round)
       && Submittable(service.View(), client.extraNonceAndSessionId, old(client.miningSubmissionHashes), sub)
       && D.AtLeast(D.CalculateDifficultyFromBits(t.bits, maxTarget, round), D.Finite(client.sessionDifficulty))
       && !GateRejects(old(client.BucketView()), client.sessionDifficulty, now, enforced)) ==>
      forall header: seq<byte> ::
        old(Solves(hash, t, job.coinbaseTransaction.Value(), client.extraNonceAndSessionId, sub, header)) ==>
        && r == Answered(Accepted(true)) && sent.Some?
        && sent.value == BlockBytes(header, t, job.coinbaseTransaction.Value()) && header <= sent.value
  {
    ghost var judged;
    ghost var s, hashes := service.View(), client.miningSubmissionHashes;
    r, sent, judged := HandleMiningSubmission(client, service, job, t, sub, now, graceMs, hash, maxTarget, round, enforced);
    if D.Monotone(round) && Submittable(s, client.extraNonceAndSessionId, hashes, sub) && judged.Some?
       && LeValue(hash(judged.value)) <= D.TargetFromBits(t.bits)
       && D.AtLeast(D.CalculateDifficultyFromBits(t.bits, maxTarget, round), D.Finite(client.sessionDifficulty)) {
      ValidBlockIsAccepted(s, client.extraNonceAndSessionId, hashes, sub, now, graceMs,
        client.sessionDifficulty, hash(judged.value), t.bits, maxTarget, round);
    }
  }
}
