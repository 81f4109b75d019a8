/** What the share protocol does not rule out, each case from every state that allows it. */
module ShareLimits {
  import opened Bytes
  import opened Coinbase
  import opened JobsService
  import opened StratumClient
  import opened ShareLifecycle
  import D = Difficulty

  lemma FourSteps(s: State, a: Action, b: Action, c: Action, d: Action, graceMs: nat)
    ensures StepAll(s, [a, b, c, d], graceMs) == Step(Step(Step(Step(s, a, graceMs), b, graceMs), c, graceMs), d, graceMs)
  {
    var s3 := Step(Step(Step(s, a, graceMs), b, graceMs), c, graceMs);
    assert [a, b, c, d][1..] == [b, c, d] && [b, c, d][1..] == [c, d] && [c, d][1..] == [d] && [d][1..] == [];
    assert StepAll(s3, [d], graceMs) == StepAll(Step(s3, d, graceMs), [], graceMs);
    assert StepAll(Step(Step(s, a, graceMs), b, graceMs), [c, d], graceMs) == StepAll(s3, [d], graceMs);
  }

  /** Whenever two sessions build jobs before either is registered they get one job id: the later registration overwrites
      the earlier one, and the first miner's shares are turned away. */
  lemma OverlappingSendsCollide(s: State, t: nat, u: nat, first: Action, second: Action, sub: Submission, now: int, graceMs: nat,
                                share: D.Difficulty, network: D.Difficulty, enforced: bool)
    requires t in s.tasks && u in s.tasks && t != u && s.tasks[t].Sending? && s.tasks[u].Sending?
    requires s.tasks[t].client < |s.clients| && s.tasks[u].client < |s.clients|
    requires s.clients[s.tasks[t].client].sessionId != s.clients[s.tasks[u].client].sessionId
    requires first.Build? && first.task == t && second.Build? && second.task == u
    requires sub.jobId == NatToHex(s.service.latestJobId)
    requires FingerprintText(sub) !in s.clients[s.tasks[t].client].hashes
    ensures var c, d := s.tasks[t].client, s.tasks[u].client;
      var end := StepAll(s, [first, second, Add(t), Add(u)], graceMs);
      && Built(c, sub.jobId, JobRecord(s.clients[c].sessionId, TemplateId(s.tasks[t].template), first.now, first.lock, first.coinbase)) in end.built
      && Built(d, sub.jobId, JobRecord(s.clients[d].sessionId, TemplateId(s.tasks[u].template), second.now, second.lock, second.coinbase)) in end.built
      && end.clients == s.clients
      && sub.jobId in end.service.jobs && end.service.jobs[sub.jobId].owner == s.clients[d].sessionId
      && VerdictOn(end, c, sub, now, graceMs, share, network, enforced) == JobNotFound
  {
    FourSteps(s, first, second, Add(t), Add(u), graceMs);
  }

  /** The premise is met as soon as one template reaches two sessions. */
  lemma OverlappingSendsReachable(graceMs: nat)
    ensures var s := StepAll(Run([Connect("0000000a", 1.0), Connect("0000000b", 1.0)], graceMs),
                             [Emit(Emission(0, 0, false)), Deliver(0, 0, false), Deliver(1, 0, false)], graceMs);
      && s.tasks == map[0 := Sending(0, 0), 1 := Sending(1, 0)] && |s.clients| == 2
      && s.clients[0].sessionId != s.clients[1].sessionId
  {
    var pair := [Connect("0000000a", 1.0), Connect("0000000b", 1.0)];
    var a, b := Client("0000000a", {}, 0, 1.0, None), Client("0000000b", {}, 0, 1.0, None);
    var s1 := Step(INIT, pair[0], graceMs);
    var s2 := Step(s1, pair[1], graceMs);
    assert s2.clients == [a, b];
    assert pair[1..] == [pair[1]] && pair[1..][1..] == [];
    assert StepAll(s1, pair[1..], graceMs) == StepAll(s2, [], graceMs);
    var more := [Emit(Emission(0, 0, false)), Deliver(0, 0, false), Deliver(1, 0, false)];
    var s3 := Step(s2, more[0], graceMs);
    var s4 := Step(s3, more[1], graceMs);
    var s5 := Step(s4, more[2], graceMs);
    assert more[1..] == [more[1], more[2]] && more[1..][1..] == [more[2]] && [more[2]][1..] == [];
    assert StepAll(s4, [more[2]], graceMs) == StepAll(s5, [], graceMs);
    assert StepAll(s3, more[1..], graceMs) == s5;
    assert "0000000a"[7] != "0000000b"[7];
  }

  /** "At most once" ends with a clear: a share that was a duplicate is accepted again on the same job. */
  lemma ClearLetsAShareCountAgain(s: State, c: nat, template: nat, sub: Submission, now: int, graceMs: nat,
                                  share: D.Difficulty, network: D.Difficulty)
    requires c < |s.clients| && template < |s.emissions| && FingerprintText(sub) in s.clients[c].hashes
    requires sub.jobId in s.service.jobs && s.service.jobs[sub.jobId].owner == s.clients[c].sessionId
    requires Usable(s.service, s.service.jobs[sub.jobId].templateId, now, graceMs) && MatchesLock(s.service.jobs[sub.jobId].lock, sub)
    requires D.AtLeast(share, D.Finite(s.clients[c].difficulty))
    ensures VerdictOn(s, c, sub, now, graceMs, share, network, false) == DuplicateShare
    ensures VerdictOn(Step(s, Deliver(c, template, true), graceMs), c, sub, now, graceMs, share, network, false).Accepted?
    ensures VerdictOn(Step(s, Deliver(c, template, false), graceMs), c, sub, now, graceMs, share, network, false) == DuplicateShare
  {
    AcceptedIff(s.service, s.clients[c].sessionId, {}, sub, now, graceMs, s.clients[c].difficulty, share, network, false);
  }

  /** A block is credited when the node answers, at the difficulty the session has by then, not the one it was checked at. */
  lemma BlockCreditedAtLaterDifficulty(s: State, task: nat, difficulty: real, graceMs: nat)
    requires Inv(s, graceMs) && task in s.tasks && s.tasks[task].AwaitingNode?
    ensures TaskFits(s, s.tasks[task]) && Remembered(s.admissions[s.tasks[task].admission], s.clients)
    ensures var a := s.tasks[task].admission;
      var c := s.admissions[a].client;
      Step(Step(s, SetDifficulty(c, difficulty), graceMs), NodeAnswered(task), graceMs).credits == s.credits + [Credit(a, difficulty)]
  {
    assert TaskFits(s, s.tasks[task]);
    assert Remembered(s.admissions[s.tasks[task].admission], s.clients);
  }

  // ---------- one header, two credits ----------

  /** Credited, remembered and charged, and nothing else but task numbers. */
  function AfterShare(s: State, c: nat, a: Admission, text: string): State
    requires c < |s.clients|
  {
    Admitted(WithClient(s, c, Touched(s.clients[c], text, Accepted(false), a.at)), a).(nextTask := s.nextTask + 1)
  }

  lemma CheckedShareIsCredited(s: State, c: nat, sub: Submission, now: int, graceMs: nat, share: D.Difficulty, network: D.Difficulty)
    requires c < |s.clients| && s.nextTask !in s.tasks
    requires VerdictOn(s, c, sub, now, graceMs, share, network, false) == Accepted(false)
    ensures sub.jobId in s.service.jobs
    ensures var a := AdmissionOf(s, c, sub, now, share, network, false);
      Step(Step(s, Submit(c, sub), graceMs), Check(s.nextTask, now, share, network, false), graceMs)
      == AfterShare(s, c, a, FingerprintText(sub))
  {
    var started := Step(s, Submit(c, sub), graceMs);
    assert started.tasks - {s.nextTask} == s.tasks;
  }

  lemma AnotherTextIsStillAccepted(s: State, a: Admission, c: nat, g: Submission, text: string, now: int, graceMs: nat,
                                   share: D.Difficulty, network: D.Difficulty)
    requires c < |s.clients| && FingerprintText(g) != text
    ensures var next := AfterShare(s, c, a, text);
      && VerdictOn(next, c, g, now, graceMs, share, network, false) == VerdictOn(s, c, g, now, graceMs, share, network, false)
      && (g.jobId in s.service.jobs ==>
            AdmissionOf(next, c, g, now, share, network, false) == AdmissionOf(s, c, g, now, share, network, false))
  {
  }

  lemma SecondIsCredited(s: State, a: Admission, c: nat, g: Submission, text: string, now: int, graceMs: nat,
                         share: D.Difficulty, network: D.Difficulty)
    requires c < |s.clients| && s.nextTask + 1 !in s.tasks && FingerprintText(g) != text
    requires VerdictOn(s, c, g, now, graceMs, share, network, false) == Accepted(false)
    ensures g.jobId in s.service.jobs
    ensures var next, b := AfterShare(s, c, a, text), AdmissionOf(s, c, g, now, share, network, false);
      Step(Step(next, Submit(c, g), graceMs), Check(s.nextTask + 1, now, share, network, false), graceMs)
      == AfterShare(next, c, b, FingerprintText(g))
  {
    AnotherTextIsStillAccepted(s, a, c, g, text, now, graceMs, share, network);
    CheckedShareIsCredited(AfterShare(s, c, a, text), c, g, now, graceMs, share, network);
  }

  /** Two submissions that each pass in some state, under different fingerprints, are both credited there. */
  lemma BothAreCredited(s: State, c: nat, f: Submission, g: Submission, now: int, graceMs: nat, share: D.Difficulty, network: D.Difficulty)
    requires c < |s.clients| && s.nextTask !in s.tasks && s.nextTask + 1 !in s.tasks
    requires VerdictOn(s, c, f, now, graceMs, share, network, false) == Accepted(false)
    requires VerdictOn(s, c, g, now, graceMs, share, network, false) == Accepted(false)
    requires FingerprintText(f) != FingerprintText(g)
    ensures f.jobId in s.service.jobs && g.jobId in s.service.jobs
    ensures var t, n := s.nextTask, |s.admissions|;
      var end := StepAll(s, [Submit(c, f), Check(t, now, share, network, false),
                             Submit(c, g), Check(t + 1, now, share, network, false)], graceMs);
      && end.admissions == s.admissions + [AdmissionOf(s, c, f, now, share, network, false), AdmissionOf(s, c, g, now, share, network, false)]
      && end.credits == s.credits + [Credit(n, s.clients[c].difficulty), Credit(n + 1, s.clients[c].difficulty)]
  {
    var t := s.nextTask;
    CheckedShareIsCredited(s, c, f, now, graceMs, share, network);
    var a := AdmissionOf(s, c, f, now, share, network, false);
    var next := AfterShare(s, c, a, FingerprintText(f));
    SecondIsCredited(s, a, c, g, FingerprintText(f), now, graceMs, share, network);
    var b := AdmissionOf(s, c, g, now, share, network, false);
    FourSteps(s, Submit(c, f), Check(t, now, share, network, false), Submit(c, g), Check(t + 1, now, share, network, false), graceMs);
    AdmittedTwice(s, c, a, b, FingerprintText(f), FingerprintText(g));
  }

  lemma AdmittedTwice(s: State, c: nat, a: Admission, b: Admission, first: string, second: string)
    requires c < |s.clients|
    ensures var end := AfterShare(AfterShare(s, c, a, first), c, b, second);
      && end.admissions == s.admissions + [a, b]
      && end.credits == s.credits + [Credit(|s.admissions|, a.difficulty), Credit(|s.admissions| + 1, b.difficulty)]
  {
  }

  /** A share written with a leading zero in its nonce is the same header on the same job, and is credited again. */
  lemma RespelledShareIsCreditedAgain(s: State, c: nat, sub: Submission, now: int, graceMs: nat, share: D.Difficulty, network: D.Difficulty)
    requires c < |s.clients| && s.nextTask !in s.tasks && s.nextTask + 1 !in s.tasks
    requires IsHex(sub.nonce) && FingerprintText(Respelled(sub)) !in s.clients[c].hashes
    requires VerdictOn(s, c, sub, now, graceMs, share, network, false) == Accepted(false)
    ensures var t, n := s.nextTask, |s.admissions|;
      var end := StepAll(s, [Submit(c, sub), Check(t, now, share, network, false),
                             Submit(c, Respelled(sub)), Check(t + 1, now, share, network, false)], graceMs);
      && end.credits == s.credits + [Credit(n, s.clients[c].difficulty), Credit(n + 1, s.clients[c].difficulty)]
      && |end.admissions| == n + 2 && SameShare(end.admissions[n], end.admissions[n + 1])
      && end.admissions[n].job == end.admissions[n + 1].job
  {
    RespelledIsTheSameShare(sub);
    BothAreCredited(s, c, sub, Respelled(sub), now, graceMs, share, network);
  }

  /** So is a share whose mask differs only above the word: canonical, with masks of nine digits or more. */
  lemma WideMaskShareIsCreditedAgain(s: State, c: nat, sub: Submission, mask: string, now: int, graceMs: nat,
                                     share: D.Difficulty, network: D.Difficulty)
    requires c < |s.clients| && s.nextTask !in s.tasks && s.nextTask + 1 !in s.tasks
    requires IsLowerHex(mask) && |mask| >= 8
    requires VerdictOn(s, c, sub.(versionMask := "0" + mask), now, graceMs, share, network, false) == Accepted(false)
    requires s.service.jobs[sub.jobId].lock.None? && FingerprintText(sub.(versionMask := "1" + mask)) !in s.clients[c].hashes
    ensures var t, n := s.nextTask, |s.admissions|;
      var f, g := sub.(versionMask := "0" + mask), sub.(versionMask := "1" + mask);
      var end := StepAll(s, [Submit(c, f), Check(t, now, share, network, false),
                             Submit(c, g), Check(t + 1, now, share, network, false)], graceMs);
      && end.credits == s.credits + [Credit(n, s.clients[c].difficulty), Credit(n + 1, s.clients[c].difficulty)]
      && |end.admissions| == n + 2 && SameShare(end.admissions[n], end.admissions[n + 1])
      && end.admissions[n].job == end.admissions[n + 1].job
  {
    WideMaskIsTheSameHeader(sub, mask);
    BothAreCredited(s, c, sub.(versionMask := "0" + mask), sub.(versionMask := "1" + mask), now, graceMs, share, network);
  }

  /** So is the same header on another job a session was sent for one template. */
  lemma ResentTemplateIsCreditedAgain(s: State, c: nat, sub: Submission, other: string, now: int, graceMs: nat,
                                      share: D.Difficulty, network: D.Difficulty)
    requires c < |s.clients| && s.nextTask !in s.tasks && s.nextTask + 1 !in s.tasks
    requires sub.jobId != other && other in s.service.jobs && sub.jobId in s.service.jobs
    requires var job, resent := s.service.jobs[sub.jobId], s.service.jobs[other];
      resent.owner == job.owner && resent.templateId == job.templateId && resent.lock == job.lock && resent.coinbase == job.coinbase
    requires FingerprintText(sub.(jobId := other)) !in s.clients[c].hashes
    requires VerdictOn(s, c, sub, now, graceMs, share, network, false) == Accepted(false)
    ensures var t, n := s.nextTask, |s.admissions|;
      var end := StepAll(s, [Submit(c, sub), Check(t, now, share, network, false),
                             Submit(c, sub.(jobId := other)), Check(t + 1, now, share, network, false)], graceMs);
      end.credits == s.credits + [Credit(n, s.clients[c].difficulty), Credit(n + 1, s.clients[c].difficulty)]
  {
    OtherJobOtherText(sub, other);
    BothAreCredited(s, c, sub, sub.(jobId := other), now, graceMs, share, network);
  }

  lemma OtherJobOtherText(sub: Submission, other: string)
    requires sub.jobId != other
    ensures FingerprintText(sub.(jobId := other)) != FingerprintText(sub)
  {
    var front := sub.versionMask + sub.nonce + sub.extraNonce2 + sub.ntime;
    assert FingerprintText(sub)[|front|..] == sub.jobId;
    assert FingerprintText(sub.(jobId := other))[|front|..] == other;
  }

  // ---------- runs that get there ----------

  const FIRST_JOB := JobRecord("0000000a", "1", 0, None, CoinbaseTx([], [], []))
  const FIRST_SHARE := Submission("0", "1", "00000000", "00000000", "1")

  /** One session, one template and one job on it; the session has submitted nothing. */
  ghost predicate HasFirstJob(s: State) {
    && s.clients == [Client("0000000a", {}, 0, 1.0, None)] && s.emissions == [Emission(0, 0, false)] && s.tasks == map[]
    && s.service == START.(blocks := map["1" := 0], latestTemplateId := 2, jobs := map["1" := FIRST_JOB], latestJobId := 2)
    && s.admissions == [] && s.credits == []
  }

  lemma FirstJob(s: State, graceMs: nat)
    requires s == INIT.(clients := [Client("0000000a", {}, 0, 1.0, None)])
    ensures HasFirstJob(Step(Step(Step(Step(s, Emit(Emission(0, 0, false)), graceMs), Deliver(0, 0, false), graceMs),
                                  Build(0, 0, None, FIRST_JOB.coinbase), graceMs), Add(0), graceMs))
  {
    var s2 := Step(s, Emit(Emission(0, 0, false)), graceMs);
    assert s2.service == START.(blocks := map["1" := 0], latestTemplateId := 2);
    var s3 := Step(s2, Deliver(0, 0, false), graceMs);
    assert s3.clients == s.clients && s3.tasks == map[0 := Sending(0, 0)] && s3.service == s2.service;
    var s4 := Step(s3, Build(0, 0, None, FIRST_JOB.coinbase), graceMs);
    assert s4.tasks == map[0 := Building(Built(0, "1", FIRST_JOB))];
    var end := Step(s4, Add(0), graceMs);
    assert end.service == s2.service.(jobs := map["1" := FIRST_JOB], latestJobId := 2);
  }

  /** Reached from the start by five steps. */
  lemma FirstJobReachable(graceMs: nat)
    ensures HasFirstJob(Run([Connect("0000000a", 1.0), Emit(Emission(0, 0, false)), Deliver(0, 0, false),
                             Build(0, 0, None, FIRST_JOB.coinbase), Add(0)], graceMs))
  {
    var a1, a2, a3, a4, a5 := Connect("0000000a", 1.0), Emit(Emission(0, 0, false)), Deliver(0, 0, false),
                              Build(0, 0, None, FIRST_JOB.coinbase), Add(0);
    var s1 := Step(INIT, a1, graceMs);
    assert s1 == INIT.(clients := [Client("0000000a", {}, 0, 1.0, None)]);
    assert StepAll(INIT, [a1, a2, a3, a4, a5], graceMs) == StepAll(s1, [a2, a3, a4, a5], graceMs) by {
      assert [a1, a2, a3, a4, a5][1..] == [a2, a3, a4, a5];
    }
    FourSteps(s1, a2, a3, a4, a5, graceMs);
    FirstJob(s1, graceMs);
  }

  /** There a share is accepted, as a block exactly when it meets the network's difficulty too. */
  lemma FirstShareIsAccepted(s: State, graceMs: nat, network: D.Difficulty)
    requires HasFirstJob(s)
    ensures VerdictOn(s, 0, FIRST_SHARE, 0, graceMs, D.Finite(1.0), network, false)
            == Accepted(D.AtLeast(D.Finite(1.0), network))
  {
  }

  /** So the premises of a respelled share hold there. */
  lemma RespelledShareReachable(s: State, graceMs: nat)
    requires HasFirstJob(s)
    ensures s.nextTask !in s.tasks && s.nextTask + 1 !in s.tasks && s.clients[0].hashes == {} && IsHex(FIRST_SHARE.nonce)
    ensures VerdictOn(s, 0, FIRST_SHARE, 0, graceMs, D.Finite(1.0), D.Infinite, false) == Accepted(false)
  {
    FirstShareIsAccepted(s, graceMs, D.Infinite);
  }

  /** One submission later, those of a share that counts again after a clear. */
  lemma ClearedShareReachable(s: State, graceMs: nat)
    requires HasFirstJob(s)
    ensures var next := Step(Step(s, Submit(0, FIRST_SHARE), graceMs), Check(s.nextTask, 0, D.Finite(1.0), D.Infinite, false), graceMs);
      && |next.clients| == 1 && |next.emissions| == 1 && FingerprintText(FIRST_SHARE) in next.clients[0].hashes
      && next.service == s.service && next.service.jobs["1"] == FIRST_JOB && FIRST_JOB.owner == next.clients[0].sessionId
      && Usable(next.service, "1", 0, graceMs) && MatchesLock(None, FIRST_SHARE)
      && D.AtLeast(D.Finite(1.0), D.Finite(next.clients[0].difficulty))
  {
    FirstShareIsAccepted(s, graceMs, D.Infinite);
    CheckedShareIsCredited(s, 0, FIRST_SHARE, 0, graceMs, D.Finite(1.0), D.Infinite);
  }

  /** One resend later, those of the same header on a second job. */
  lemma ResentTemplateReachable(s: State, graceMs: nat)
    requires HasFirstJob(s)
    ensures var t := s.nextTask;
      var next := Step(Step(Step(s, Deliver(0, 0, false), graceMs), Build(t, 0, None, FIRST_JOB.coinbase), graceMs), Add(t), graceMs);
      && next.tasks == map[] && next.clients == s.clients && next.service.jobs == map["1" := FIRST_JOB, "2" := FIRST_JOB]
      && VerdictOn(next, 0, FIRST_SHARE, 0, graceMs, D.Finite(1.0), D.Infinite, false) == Accepted(false)
  {
    var t := s.nextTask;
    var sent := Step(s, Deliver(0, 0, false), graceMs);
    assert sent.tasks == map[t := Sending(0, 0)] && sent.clients == s.clients && sent.service == s.service;
    var built := Step(sent, Build(t, 0, None, FIRST_JOB.coinbase), graceMs);
    assert built.tasks == map[t := Building(Built(0, "2", FIRST_JOB))] && built.service == s.service;
    var next := Step(built, Add(t), graceMs);
    assert next.service == s.service.(jobs := map["1" := FIRST_JOB, "2" := FIRST_JOB], latestJobId := 3);
  }

  /** And one block later, those of a block that waits for the node. */
  lemma WaitingBlockReachable(s: State, graceMs: nat)
    requires HasFirstJob(s)
    ensures var t := s.nextTask;
      var next := Step(Step(s, Submit(0, FIRST_SHARE), graceMs), Check(t, 0, D.Finite(1.0), D.Finite(1.0), false), graceMs);
      t in next.tasks && next.tasks[t] == AwaitingNode(0) && |next.admissions| == 1 && next.admissions[0].client == 0
  {
    FirstShareIsAccepted(s, graceMs, D.Finite(1.0));
  }
}
