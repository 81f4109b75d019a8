/** The objects take the segments of the share protocol as its steps do. */
module ShareSegments {
  import opened Bytes
  import opened JobsService
  import opened StratumClient
  import opened ShareLifecycle
  import D = Difficulty
  import TB = TokenBucket

  method RunServiceSegment(service: StratumV1JobsService, s: State, action: Action, graceMs: nat)
    requires service.View() == s.service
    modifies service
    ensures service.View() == Step(s, action, graceMs).service
  {
    match action
    case Emit(e) =>
      var id := service.Emit(e.creation, e.now, e.clearJobs);
    case Add(task) =>
      if task in s.tasks && s.tasks[task].Building? {
        service.AddJob(s.tasks[task].job.jobId, s.tasks[task].job.job);
      }
    case Disconnect(c) =>
      if c < |s.clients| {
        service.RemoveJobsBySession(s.clients[c].sessionId);
      }
    case _ =>
  }

  /** The object of a client; how often its fingerprints were cleared is not kept. */
  ghost predicate Shows(client: StratumV1Client, v: Client)
    reads client, client.classTokenBucket
  {
    && client.extraNonceAndSessionId == v.sessionId && client.miningSubmissionHashes == v.hashes
    && client.sessionDifficulty == v.difficulty && client.BucketView() == v.bucket
  }

  /** What a step does to one client. */
  function ClientNext(s: State, action: Action, graceMs: nat, c: nat): Client
    requires c < |s.clients|
  {
    var v := s.clients[c];
    match action
    case Deliver(d, template, clearJobs) => if c == d && template < |s.emissions| then Received(v, clearJobs) else v
    case Check(task, now, share, network, enforced) =>
      if task in s.tasks && s.tasks[task].Submitting? && s.tasks[task].client == c
      then Touched(v, FingerprintText(s.tasks[task].sub), VerdictOn(s, c, s.tasks[task].sub, now, graceMs, share, network, enforced), now)
      else v
    case SetDifficulty(d, difficulty) => if c == d then v.(difficulty := difficulty) else v
    case ApplyPolicy(d, policy, floor, now) => if c == d then v.(bucket := AfterPolicy(v.bucket, policy, floor, now)) else v
    case _ => v
  }

  lemma StepTakesClient(s: State, action: Action, graceMs: nat, c: nat)
    requires c < |s.clients|
    ensures c < |Step(s, action, graceMs).clients| && Step(s, action, graceMs).clients[c] == ClientNext(s, action, graceMs, c)
  {
    if action.Check? && action.task in s.tasks && s.tasks[action.task].Submitting? && s.tasks[action.task].client < |s.clients| {
      var Submitting(d, sub) := s.tasks[action.task];
      CheckedClients(s, action.task, d, sub, action.now, action.share, action.network,
        VerdictOn(s, d, sub, action.now, graceMs, action.share, action.network, action.enforced));
    }
  }

  method RunCheck(client: StratumV1Client, service: StratumV1JobsService, c: nat, s: State, sub: Submission, now: int, graceMs: nat,
                  share: D.Difficulty, network: D.Difficulty, enforced: bool)
    requires c < |s.clients| && Shows(client, s.clients[c]) && service.View() == s.service
    modifies client, client.classTokenBucket
    ensures Shows(client, Touched(s.clients[c], FingerprintText(sub), VerdictOn(s, c, sub, now, graceMs, share, network, enforced), now))
  {
    var v := client.CheckSubmission(service, sub, now, graceMs, share, network, enforced);
    assert v == VerdictOn(s, c, sub, now, graceMs, share, network, enforced);
  }

  /** One client's part of a segment. */
  method RunClientSegment(client: StratumV1Client, service: StratumV1JobsService, c: nat, s: State, action: Action, graceMs: nat)
    requires c < |s.clients| && Shows(client, s.clients[c]) && service.View() == s.service
    modifies client, client.classTokenBucket
    ensures c < |Step(s, action, graceMs).clients| && Shows(client, Step(s, action, graceMs).clients[c])
  {
    StepTakesClient(s, action, graceMs, c);
    match action
    case Deliver(d, template, clearJobs) =>
      if c == d && template < |s.emissions| {
        client.ReceiveTemplate(clearJobs);
      }
    case Check(task, now, share, network, enforced) =>
      if task in s.tasks && s.tasks[task].Submitting? && s.tasks[task].client == c {
        RunCheck(client, service, c, s, s.tasks[task].sub, now, graceMs, share, network, enforced);
      }
    case SetDifficulty(d, difficulty) =>
      if c == d {
        client.sessionDifficulty := difficulty;
      }
    case ApplyPolicy(d, policy, floor, now) =>
      if c == d {
        client.ApplyClassPolicy(policy, floor, now);
      }
    case _ =>
  }
}
