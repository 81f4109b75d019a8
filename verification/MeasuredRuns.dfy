/** Runs of the share protocol in which shares are weighed by the headers that are rebuilt for them. */
module MeasuredRuns {
  import opened Bytes
  import opened Coinbase
  import opened MiningJob
  import opened JobsService
  import opened StratumClient
  import opened ShareHeader
  import opened ShareLifecycle
  import D = Difficulty

  /** What the difficulties depend on. Template ids are never given twice, so templates are a function of them. */
  datatype World = World(hash: Hash, maxTarget: nat, round: real -> real, templates: string -> Template)

  function RebuiltHeader(w: World, job: JobRecord, sub: Submission): Option<seq<byte>> {
    HeaderOf(w.hash, w.templates(job.templateId), job.coinbase, job.owner, sub)
  }

  function NetworkDifficulty(w: World, job: JobRecord): D.Difficulty {
    D.CalculateDifficultyFromBits(w.templates(job.templateId).bits, w.maxTarget, w.round)
  }

  ghost predicate Measured(w: World, job: JobRecord, sub: Submission, share: D.Difficulty, network: D.Difficulty) {
    && RebuiltHeader(w, job, sub).Some?
    && share == D.SubmissionDifficulty(w.hash(RebuiltHeader(w, job, sub).value), w.maxTarget, w.round)
    && network == NetworkDifficulty(w, job)
  }

  /** Every check of the run weighs a share by its rebuilt header. */
  ghost predicate MeasuredRun(w: World, s: State, actions: seq<Action>, graceMs: nat) {
    RunPermitted(s, actions, graceMs, (job, sub, share, network) => Measured(w, job, sub, share, network))
  }

  lemma AdmissionIsMeasured(w: World, actions: seq<Action>, graceMs: nat, n: nat)
    requires MeasuredRun(w, INIT, actions, graceMs) && n < |Run(actions, graceMs).admissions|
    ensures var a := Run(actions, graceMs).admissions[n];
      Measured(w, a.job, a.sub, a.share, a.network)
  {
    RunStaysPermitted(INIT, actions, graceMs, (job, sub, share, network) => Measured(w, job, sub, share, network));
  }

  /** A comparison passed with rounded quotients is the target test, but for quotients that rounding made one. */
  lemma PassedMeansTarget(digest: Digest, bits: nat, maxTarget: nat, round: real -> real)
    requires D.Monotone(round)
    requires D.AtLeast(D.SubmissionDifficulty(digest, maxTarget, round), D.CalculateDifficultyFromBits(bits, maxTarget, round))
    ensures LeValue(digest) <= D.TargetFromBits(bits)
      || D.SubmissionDifficulty(digest, maxTarget, round) == D.CalculateDifficultyFromBits(bits, maxTarget, round)
  {
    D.Le256IsValue(digest);
    if 0 < D.TargetFromBits(bits) < LeValue(digest) {
      D.NearMissPassesIff(digest, bits, maxTarget, round);
    }
  }

  /** Every block that goes out, in every run, carries a header that meets the target of a template nothing has superseded,
      or misses it by less than the rounding of the two quotients shows. */
  lemma BlocksMeetTheTarget(w: World, actions: seq<Action>, graceMs: nat, n: nat)
    requires D.Monotone(w.round) && MeasuredRun(w, INIT, actions, graceMs)
    requires n < |Run(actions, graceMs).admissions| && Run(actions, graceMs).admissions[n].blockSubmitted
    ensures var s := Run(actions, graceMs);
      var a := s.admissions[n];
      && a.emitted <= |s.emissions|
      && (exists i: nat :: CheckedAgainst(a, s.emissions[..a.emitted], i, graceMs) && SupersededAt(s.emissions[..a.emitted], i).None?)
      && RebuiltHeader(w, a.job, a.sub).Some?
      && var digest := w.hash(RebuiltHeader(w, a.job, a.sub).value);
      && D.AtLeast(D.SubmissionDifficulty(digest, w.maxTarget, w.round), NetworkDifficulty(w, a.job))
      && (LeValue(digest) <= D.TargetFromBits(w.templates(a.job.templateId).bits)
          || D.SubmissionDifficulty(digest, w.maxTarget, w.round) == NetworkDifficulty(w, a.job))
  {
    AdmissionIsMeasured(w, actions, graceMs, n);
    RunKeeps(actions, graceMs);
    var s := Run(actions, graceMs);
    var a := s.admissions[n];
    assert Justified(a, s.clients, s.emissions, s.built, graceMs);
    var i: nat :| CheckedAgainst(a, s.emissions[..a.emitted], i, graceMs);
    PassedMeansTarget(w.hash(RebuiltHeader(w, a.job, a.sub).value), w.templates(a.job.templateId).bits, w.maxTarget, w.round);
  }

  /** A credited share's header has at least the difficulty it was checked at. */
  lemma CreditsMeetTheirDifficulty(w: World, actions: seq<Action>, graceMs: nat, i: nat)
    requires MeasuredRun(w, INIT, actions, graceMs) && i < |Run(actions, graceMs).credits|
    ensures var s := Run(actions, graceMs);
      && s.credits[i].admission < |s.admissions|
      && var a := s.admissions[s.credits[i].admission];
      && RebuiltHeader(w, a.job, a.sub).Some?
      && D.AtLeast(D.SubmissionDifficulty(w.hash(RebuiltHeader(w, a.job, a.sub).value), w.maxTarget, w.round), D.Finite(a.difficulty))
  {
    CreditsAreJustified(actions, graceMs, i);
    AdmissionIsMeasured(w, actions, graceMs, Run(actions, graceMs).credits[i].admission);
  }

  /** A job as the pool builds them. */
  ghost predicate Regular(w: World, job: JobRecord) {
    w.templates(job.templateId).version < 0x1_0000_0000 && 8 <= |job.coinbase.script| < 253 && IsHex8(job.owner)
  }

  /** When every submission is canonical, with masks of at most eight digits, no header of a job is credited twice between
      two clears, but for a collision of the hash. */
  lemma NoHeaderCreditedTwice(w: World, actions: seq<Action>, graceMs: nat, maskWidth: nat, i: nat, j: nat)
    requires MeasuredRun(w, INIT, actions, graceMs) && AllCanonical(actions, maskWidth) && maskWidth <= 8
    requires i < j < |Run(actions, graceMs).credits|
    ensures var s := Run(actions, graceMs);
      && s.credits[i].admission < |s.admissions| && s.credits[j].admission < |s.admissions|
      && var a, b := s.admissions[s.credits[i].admission], s.admissions[s.credits[j].admission];
      (a.client == b.client && a.epoch == b.epoch && a.sub.jobId == b.sub.jobId && a.job == b.job && Regular(w, a.job) ==>
         || RebuiltHeader(w, a.job, a.sub) != RebuiltHeader(w, b.job, b.sub)
         || Collides(w.hash, w.templates(a.job.templateId), WithExtranonces(a.job.coinbase, a.job.owner, a.sub),
                     WithExtranonces(a.job.coinbase, a.job.owner, b.sub)))
  {
    var s := Run(actions, graceMs);
    AtMostOneCreditPerShare(actions, graceMs, maskWidth, i, j);
    RunStaysCanonical(INIT, actions, graceMs, maskWidth);
    AdmissionIsMeasured(w, actions, graceMs, s.credits[i].admission);
    var a, b := s.admissions[s.credits[i].admission], s.admissions[s.credits[j].admission];
    if a.client == b.client && a.epoch == b.epoch && a.sub.jobId == b.sub.jobId && a.job == b.job && Regular(w, a.job)
       && RebuiltHeader(w, a.job, a.sub) == RebuiltHeader(w, b.job, b.sub) {
      assert Measured(w, a.job, a.sub, a.share, a.network);
      HeaderTellsTheValues(w.hash, w.templates(a.job.templateId), a.job.coinbase, a.job.owner, a.sub, b.sub);
    }
  }
}
