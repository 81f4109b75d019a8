/** Shares, jobs and templates over every interleaving of sessions, emissions and disconnects. */
module ShareLifecycle {
  import opened Bytes
  import opened Coinbase
  import opened JobsService
  import opened StratumClient
  import D = Difficulty
  import TB = TokenBucket

  /** `epoch` counts how often the session's fingerprints were cleared. */
  datatype Client = Client(sessionId: string, hashes: set<string>, epoch: nat, difficulty: real, bucket: Option<TB.State>)

  /** A handler between two of its atomic segments. */
  datatype Task =
    | Sending(client: nat, template: nat)
    | Building(job: Built)
    | Submitting(client: nat, sub: Submission)
    | AwaitingNode(admission: nat)

  /** A job made for a client under an id that was read before the job was registered. */
  datatype Built = Built(client: nat, jobId: string, job: JobRecord)

  /** A share that passed every test, with what was seen at that moment. */
  datatype Admission = Admission(client: nat, sub: Submission, epoch: nat, job: JobRecord, at: int, emitted: nat,
                                 difficulty: real, share: D.Difficulty, network: D.Difficulty, blockSubmitted: bool)

  datatype Credit = Credit(admission: nat, difficulty: real)

  datatype State = State(
    service: Service,
    emissions: seq<Emission>,
    clients: seq<Client>,
    tasks: map<nat, Task>,
    nextTask: nat,
    built: set<Built>,
    admissions: seq<Admission>,
    credits: seq<Credit>)

  const INIT := State(START, [], [], map[], 0, {}, [], [])

  datatype Action =
    | Connect(sessionId: string, startDifficulty: real)
    | Emit(emission: Emission)
    | Deliver(client: nat, template: nat, clearJobs: bool)
    | Build(task: nat, now: int, lock: Option<Lock>, coinbase: CoinbaseTx)
    | Add(task: nat)
    | Submit(client: nat, sub: Submission)
    | Check(task: nat, now: int, share: D.Difficulty, network: D.Difficulty, enforced: bool)
    | NodeAnswered(task: nat)
    | GiveUp(task: nat)
    | SetDifficulty(client: nat, difficulty: real)
    | ApplyPolicy(client: nat, policy: Policy, floor: real, now: int)
    | Disconnect(client: nat)

  function Start(s: State, t: Task): State {
    s.(tasks := s.tasks[s.nextTask := t], nextTask := s.nextTask + 1)
  }

  function End(s: State, task: nat): State {
    s.(tasks := s.tasks - {task})
  }

  function WithClient(s: State, c: nat, client: Client): State
    requires c < |s.clients|
  {
    s.(clients := s.clients[c := client])
  }

  /** A notification reaches a session: a clearing one empties its fingerprints first. */
  function Received(client: Client, clearJobs: bool): Client {
    if clearJobs then client.(hashes := {}, epoch := client.epoch + 1) else client
  }

  function Delivered(s: State, c: nat, template: nat, clearJobs: bool): State
    requires c < |s.clients|
  {
    Start(WithClient(s, c, Received(s.clients[c], clearJobs)), Sending(c, template))
  }

  function JobBuilt(s: State, task: nat, c: nat, template: nat, now: int, lock: Option<Lock>, coinbase: CoinbaseTx): State
    requires c < |s.clients|
  {
    var b := Built(c, NatToHex(s.service.latestJobId), JobRecord(s.clients[c].sessionId, TemplateId(template), now, lock, coinbase));
    s.(tasks := s.tasks[task := Building(b)], built := s.built + {b})
  }

  /** The handler that checks a submission leaves its fingerprint behind and charges the bucket. */
  function Touched(client: Client, fingerprint: string, v: Verdict, now: int): Client {
    client.(hashes := client.hashes + {fingerprint}, bucket := Charged(client.bucket, v, client.difficulty, now))
  }

  function Seen(s: State, task: nat, c: nat, client: Client): State
    requires c < |s.clients|
  {
    End(WithClient(s, c, client), task)
  }

  function VerdictOn(s: State, c: nat, sub: Submission, now: int, graceMs: nat,
                     share: D.Difficulty, network: D.Difficulty, enforced: bool): (v: Verdict)
    requires c < |s.clients|
    ensures v.Accepted? ==> sub.jobId in s.service.jobs
  {
    var client := s.clients[c];
    Judge(s.service, client.sessionId, client.hashes, sub, now, graceMs, client.difficulty, share, network,
      GateRejects(client.bucket, client.difficulty, now, enforced))
  }

  function AdmissionOf(s: State, c: nat, sub: Submission, now: int, share: D.Difficulty, network: D.Difficulty,
                       submitBlock: bool): Admission
    requires c < |s.clients| && sub.jobId in s.service.jobs
  {
    Admission(c, sub, s.clients[c].epoch, s.service.jobs[sub.jobId], now, |s.emissions|, s.clients[c].difficulty, share, network,
      submitBlock)
  }

  function Admitted(s: State, a: Admission): State {
    s.(admissions := s.admissions + [a], credits := s.credits + [Credit(|s.admissions|, a.difficulty)])
  }

  function AdmittedBlock(s: State, a: Admission, task: nat): State {
    s.(admissions := s.admissions + [a], tasks := s.tasks[task := AwaitingNode(|s.admissions|)])
  }

  /** The atomic check of a submission: an accepted share is credited at once, a block first goes to the node. */
  function Checked(s: State, task: nat, c: nat, sub: Submission, now: int, share: D.Difficulty, network: D.Difficulty, v: Verdict): State
    requires c < |s.clients| && (v.Accepted? ==> sub.jobId in s.service.jobs)
  {
    var seen := Seen(s, task, c, Touched(s.clients[c], FingerprintText(sub), v, now));
    if v.Accepted? then Recorded(seen, AdmissionOf(s, c, sub, now, share, network, v.submitBlock), task) else seen
  }

  function Recorded(s: State, a: Admission, task: nat): State {
    if a.blockSubmitted then AdmittedBlock(s, a, task) else Admitted(s, a)
  }

  /** One atomic segment; an action that does not fit the state changes nothing. */
  function Step(s: State, action: Action, graceMs: nat): State {
    match action
    case Connect(sessionId, difficulty) => s.(clients := s.clients + [Client(sessionId, {}, 0, difficulty, None)])
    case Emit(e) => s.(service := Emitted(s.service, e.creation, e.now, e.clearJobs), emissions := s.emissions + [e])
    case Deliver(c, template, clearJobs) =>
      if c < |s.clients| && template < |s.emissions| then Delivered(s, c, template, clearJobs) else s
    case Build(task, now, lock, coinbase) =>
      if task in s.tasks && s.tasks[task].Sending? && s.tasks[task].client < |s.clients|
      then JobBuilt(s, task, s.tasks[task].client, s.tasks[task].template, now, lock, coinbase) else s
    case Add(task) =>
      if task in s.tasks && s.tasks[task].Building?
      then End(s, task).(service := WithJob(s.service, s.tasks[task].job.jobId, s.tasks[task].job.job)) else s
    case Submit(c, sub) => if c < |s.clients| then Start(s, Submitting(c, sub)) else s
    case Check(task, now, share, network, enforced) =>
      if task in s.tasks && s.tasks[task].Submitting? && s.tasks[task].client < |s.clients|
      then
        var c, sub := s.tasks[task].client, s.tasks[task].sub;
        Checked(s, task, c, sub, now, share, network, VerdictOn(s, c, sub, now, graceMs, share, network, enforced))
      else s
    case NodeAnswered(task) =>
      if task in s.tasks && s.tasks[task].AwaitingNode? && s.tasks[task].admission < |s.admissions|
         && s.admissions[s.tasks[task].admission].client < |s.clients|
      then
        var a := s.tasks[task].admission;
        End(s, task).(credits := s.credits + [Credit(a, s.clients[s.admissions[a].client].difficulty)])
      else s
    case GiveUp(task) => if task in s.tasks then End(s, task) else s
    case SetDifficulty(c, difficulty) =>
      if c < |s.clients| then WithClient(s, c, s.clients[c].(difficulty := difficulty)) else s
    case ApplyPolicy(c, policy, floor, now) =>
      if c < |s.clients| then WithClient(s, c, s.clients[c].(bucket := AfterPolicy(s.clients[c].bucket, policy, floor, now))) else s
    case Disconnect(c) =>
      if c < |s.clients| then s.(service := WithoutSession(s.service, s.clients[c].sessionId)) else s
  }

  function StepAll(s: State, actions: seq<Action>, graceMs: nat): State
    decreases |actions|
  {
    if actions == [] then s else StepAll(Step(s, actions[0], graceMs), actions[1..], graceMs)
  }

  function Run(actions: seq<Action>, graceMs: nat): State {
    StepAll(INIT, actions, graceMs)
  }

  // ---------- the invariant ----------

  ghost predicate BuiltForClient(b: Built, clients: seq<Client>, emitted: nat) {
    && b.client < |clients| && b.job.owner == clients[b.client].sessionId
    && exists i: nat :: i < emitted && b.job.templateId == TemplateId(i)
  }

  ghost predicate JobsAreBuilt(s: State) {
    && (forall b :: b in s.built ==> BuiltForClient(b, s.clients, |s.emissions|))
    && (forall id :: id in s.service.jobs ==> exists c: nat :: Built(c, id, s.service.jobs[id]) in s.built)
  }

  ghost predicate TaskFits(s: State, t: Task) {
    match t
    case Sending(c, template) => c < |s.clients| && template < |s.emissions|
    case Building(b) => b in s.built
    case Submitting(c, sub) => c < |s.clients|
    case AwaitingNode(a) => a < |s.admissions| && s.admissions[a].blockSubmitted && !IsCredited(s.credits, a)
  }

  ghost predicate IsCredited(credits: seq<Credit>, a: nat) {
    exists i :: 0 <= i < |credits| && credits[i].admission == a
  }

  ghost predicate TasksFit(s: State) {
    && (forall t :: t in s.tasks ==> t < s.nextTask && TaskFits(s, s.tasks[t]))
    && (forall t, u :: t in s.tasks && u in s.tasks && t != u && s.tasks[t].AwaitingNode? && s.tasks[u].AwaitingNode? ==>
          s.tasks[t].admission != s.tasks[u].admission)
  }

  /** What was true of a credited share when it was checked, in terms of what happened, not of the maps. */
  ghost predicate Justified(a: Admission, clients: seq<Client>, emissions: seq<Emission>, built: set<Built>, graceMs: nat) {
    && a.client < |clients| && a.job.owner == clients[a.client].sessionId
    && (exists c: nat :: Built(c, a.sub.jobId, a.job) in built)
    && MatchesLock(a.job.lock, a.sub)
    && D.AtLeast(a.share, D.Finite(a.difficulty))
    && a.emitted <= |emissions|
    && exists i: nat :: CheckedAgainst(a, emissions[..a.emitted], i, graceMs)
  }

  /** The i-th template was neither expired nor superseded for longer than the grace time; and a block went out exactly
      when the template was not superseded at all and the network's difficulty was met. */
  ghost predicate CheckedAgainst(a: Admission, before: seq<Emission>, i: nat, graceMs: nat) {
    && i < |before| && a.job.templateId == TemplateId(i) && Unexpired(before, i)
    && (SupersededAt(before, i).Some? ==> a.at - SupersededAt(before, i).value <= graceMs)
    && (a.blockSubmitted <==> SupersededAt(before, i).None? && D.AtLeast(a.share, a.network))
  }

  ghost predicate AdmissionsJustified(s: State, graceMs: nat) {
    forall n :: 0 <= n < |s.admissions| ==> Justified(s.admissions[n], s.clients, s.emissions, s.built, graceMs)
  }

  ghost predicate SameKey(a: Admission, b: Admission) {
    a.client == b.client && a.epoch == b.epoch && FingerprintText(a.sub) == FingerprintText(b.sub)
  }

  /** A fingerprint admitted since the last clear is still remembered. */
  ghost predicate Remembered(a: Admission, clients: seq<Client>) {
    && a.client < |clients| && a.epoch <= clients[a.client].epoch
    && (a.epoch == clients[a.client].epoch ==> FingerprintText(a.sub) in clients[a.client].hashes)
  }

  ghost predicate AdmissionsDistinct(s: State) {
    && (forall n :: 0 <= n < |s.admissions| ==> Remembered(s.admissions[n], s.clients))
    && (forall m, n :: 0 <= m < n < |s.admissions| ==> !SameKey(s.admissions[m], s.admissions[n]))
  }

  ghost predicate CreditsDistinct(s: State) {
    && (forall i :: 0 <= i < |s.credits| ==> s.credits[i].admission < |s.admissions|)
    && (forall i, j :: 0 <= i < j < |s.credits| ==> s.credits[i].admission != s.credits[j].admission)
    && (forall i :: 0 <= i < |s.credits| && !s.admissions[s.credits[i].admission].blockSubmitted ==>
          s.credits[i].difficulty == s.admissions[s.credits[i].admission].difficulty)
  }

  ghost predicate Inv(s: State, graceMs: nat) {
    && StaleMeansSuperseded(s.service, s.emissions)
    && JobsAreBuilt(s)
    && TasksFit(s)
    && AdmissionsJustified(s, graceMs)
    && AdmissionsDistinct(s)
    && CreditsDistinct(s)
  }

  // ---------- what later events leave alone ----------

  /** Clients keep their sessions and never forget within an epoch; everything else only grows. */
  ghost predicate Extends(s: State, next: State) {
    && |s.clients| <= |next.clients|
    && (forall c :: 0 <= c < |s.clients| ==>
          && next.clients[c].sessionId == s.clients[c].sessionId
          && next.clients[c].epoch >= s.clients[c].epoch
          && (next.clients[c].epoch == s.clients[c].epoch ==> s.clients[c].hashes <= next.clients[c].hashes))
    && s.emissions <= next.emissions
    && s.built <= next.built
  }

  lemma JustifiedStays(s: State, next: State, a: Admission, graceMs: nat)
    requires Extends(s, next) && Justified(a, s.clients, s.emissions, s.built, graceMs)
    ensures Justified(a, next.clients, next.emissions, next.built, graceMs)
  {
    assert next.emissions[..a.emitted] == s.emissions[..a.emitted];
    var c: nat :| Built(c, a.sub.jobId, a.job) in s.built;
    assert Built(c, a.sub.jobId, a.job) in next.built;
  }

  lemma BuiltStays(b: Built, s: State, next: State)
    requires Extends(s, next) && BuiltForClient(b, s.clients, |s.emissions|)
    ensures BuiltForClient(b, next.clients, |next.emissions|)
  {
    var i: nat :| i < |s.emissions| && b.job.templateId == TemplateId(i);
    assert i < |next.emissions|;
  }

  /** A step that admits and credits nothing and keeps jobs and tasks in order keeps the invariant. */
  lemma QuietStep(s: State, next: State, graceMs: nat)
    requires Inv(s, graceMs) && Extends(s, next)
    requires next.admissions == s.admissions && next.credits == s.credits
    requires StaleMeansSuperseded(next.service, next.emissions)
    requires forall b :: b in next.built - s.built ==> BuiltForClient(b, next.clients, |next.emissions|)
    requires forall id :: id in next.service.jobs ==> exists c: nat :: Built(c, id, next.service.jobs[id]) in next.built
    requires TasksFit(next)
    ensures Inv(next, graceMs)
  {
    forall n | 0 <= n < |s.admissions| ensures Justified(next.admissions[n], next.clients, next.emissions, next.built, graceMs) {
      JustifiedStays(s, next, s.admissions[n], graceMs);
    }
    forall b | b in next.built ensures BuiltForClient(b, next.clients, |next.emissions|) {
      if b in s.built {
        BuiltStays(b, s, next);
      }
    }
    forall n | 0 <= n < |s.admissions| ensures Remembered(s.admissions[n], next.clients) {
      assert Remembered(s.admissions[n], s.clients);
    }
  }

  // ---------- every action keeps the invariant ----------

  lemma EmitKeeps(s: State, e: Emission, graceMs: nat)
    requires Inv(s, graceMs)
    ensures Inv(Step(s, Emit(e), graceMs), graceMs)
  {
    var next := Step(s, Emit(e), graceMs);
    EmissionKeepsMeaning(s.service, s.emissions, e);
    forall id | id in next.service.jobs ensures exists c: nat :: Built(c, id, next.service.jobs[id]) in next.built {
      assert id in s.service.jobs && next.service.jobs[id] == s.service.jobs[id];
    }
    QuietStep(s, next, graceMs);
  }

  lemma TaskStaysFitLater(s: State, next: State, t: Task)
    requires TaskFits(s, t) && |s.clients| <= |next.clients| && |s.emissions| <= |next.emissions| && s.built <= next.built
    requires next.admissions == s.admissions && next.credits == s.credits
    ensures TaskFits(next, t)
  {
  }

  /** Task numbers are fresh, so a new task disturbs no other. */
  lemma StartKeeps(s: State, t: Task, graceMs: nat)
    requires Inv(s, graceMs) && TaskFits(s, t) && !t.AwaitingNode?
    ensures Inv(Start(s, t), graceMs)
  {
    var next := Start(s, t);
    forall u | u in next.tasks ensures u < next.nextTask && TaskFits(next, next.tasks[u]) {
      TaskStaysFitLater(s, next, next.tasks[u]);
    }
    QuietStep(s, next, graceMs);
  }

  lemma EndKeeps(s: State, task: nat, graceMs: nat)
    requires Inv(s, graceMs)
    ensures Inv(End(s, task), graceMs)
  {
    var next := End(s, task);
    forall u | u in next.tasks ensures u < next.nextTask && TaskFits(next, next.tasks[u]) {
      TaskStaysFitLater(s, next, s.tasks[u]);
    }
    QuietStep(s, next, graceMs);
  }

  /** A client may move on to a later epoch or remember more. */
  lemma WithClientKeeps(s: State, c: nat, client: Client, graceMs: nat)
    requires Inv(s, graceMs) && c < |s.clients| && client.sessionId == s.clients[c].sessionId
    requires client.epoch > s.clients[c].epoch || (client.epoch == s.clients[c].epoch && s.clients[c].hashes <= client.hashes)
    ensures Inv(WithClient(s, c, client), graceMs)
  {
    var next := WithClient(s, c, client);
    forall u | u in next.tasks ensures u < next.nextTask && TaskFits(next, next.tasks[u]) {
      TaskStaysFitLater(s, next, s.tasks[u]);
    }
    QuietStep(s, next, graceMs);
  }

  lemma ConnectKeeps(s: State, client: Client, graceMs: nat)
    requires Inv(s, graceMs)
    ensures Inv(s.(clients := s.clients + [client]), graceMs)
  {
    var next := s.(clients := s.clients + [client]);
    forall u | u in next.tasks ensures u < next.nextTask && TaskFits(next, next.tasks[u]) {
      TaskStaysFitLater(s, next, s.tasks[u]);
    }
    QuietStep(s, next, graceMs);
  }

  lemma DeliverKeeps(s: State, c: nat, template: nat, clearJobs: bool, graceMs: nat)
    requires Inv(s, graceMs) && c < |s.clients| && template < |s.emissions|
    ensures Inv(Delivered(s, c, template, clearJobs), graceMs)
  {
    var mid, t := WithClient(s, c, Received(s.clients[c], clearJobs)), Sending(c, template);
    WithClientKeeps(s, c, Received(s.clients[c], clearJobs), graceMs);
    assert TaskFits(mid, t);
    StartKeeps(mid, t, graceMs);
  }

  lemma ClientStepKeeps(s: State, action: Action, graceMs: nat)
    requires Inv(s, graceMs) && (action.Connect? || action.Deliver? || action.Submit? || action.SetDifficulty? || action.ApplyPolicy?)
    ensures Inv(Step(s, action, graceMs), graceMs)
  {
    match action
    case Connect(sessionId, difficulty) => ConnectKeeps(s, Client(sessionId, {}, 0, difficulty, None), graceMs);
    case Deliver(c, template, clearJobs) =>
      if c < |s.clients| && template < |s.emissions| {
        DeliverKeeps(s, c, template, clearJobs, graceMs);
      }
    case Submit(c, sub) =>
      if c < |s.clients| {
        StartKeeps(s, Submitting(c, sub), graceMs);
      }
    case SetDifficulty(c, difficulty) =>
      if c < |s.clients| {
        WithClientKeeps(s, c, s.clients[c].(difficulty := difficulty), graceMs);
      }
    case ApplyPolicy(c, policy, floor, now) =>
      if c < |s.clients| {
        WithClientKeeps(s, c, s.clients[c].(bucket := AfterPolicy(s.clients[c].bucket, policy, floor, now)), graceMs);
      }
  }

  lemma BuildKeeps(s: State, action: Action, graceMs: nat)
    requires Inv(s, graceMs) && action.Build?
    ensures Inv(Step(s, action, graceMs), graceMs)
  {
    var next := Step(s, action, graceMs);
    if next != s {
      var template := s.tasks[action.task].template;
      assert TaskFits(s, s.tasks[action.task]);
      forall b | b in next.built - s.built ensures BuiltForClient(b, next.clients, |next.emissions|) {
        assert b.job.templateId == TemplateId(template);
      }
      forall t | t in next.tasks ensures t < next.nextTask && TaskFits(next, next.tasks[t]) {
        assert TaskFits(s, s.tasks[t]);
      }
      forall id | id in next.service.jobs ensures exists c: nat :: Built(c, id, next.service.jobs[id]) in next.built {
        var c: nat :| Built(c, id, s.service.jobs[id]) in s.built;
        assert Built(c, id, next.service.jobs[id]) in next.built;
      }
      QuietStep(s, next, graceMs);
    }
  }

  lemma WithJobKeeps(s: State, b: Built, graceMs: nat)
    requires Inv(s, graceMs) && b in s.built
    ensures Inv(s.(service := WithJob(s.service, b.jobId, b.job)), graceMs)
  {
    var next := s.(service := WithJob(s.service, b.jobId, b.job));
    forall id | id in next.service.jobs ensures exists c: nat :: Built(c, id, next.service.jobs[id]) in next.built {
      if id == b.jobId {
        assert Built(b.client, id, next.service.jobs[id]) == b;
      } else {
        assert id in s.service.jobs && next.service.jobs[id] == s.service.jobs[id];
      }
    }
    JobsDoNotMatter(s, next, graceMs);
  }

  /** Templates and tasks do not depend on which jobs are registered. */
  lemma JobsDoNotMatter(s: State, next: State, graceMs: nat)
    requires Inv(s, graceMs) && next == s.(service := next.service)
    requires next.service == s.service.(jobs := next.service.jobs, latestJobId := next.service.latestJobId)
    requires forall id :: id in next.service.jobs ==> exists c: nat :: Built(c, id, next.service.jobs[id]) in next.built
    ensures Inv(next, graceMs)
  {
    forall id | id in next.service.blocks ensures exists i: nat :: IsEmission(next.service, next.emissions, id, i) {
      var i: nat :| IsEmission(s.service, s.emissions, id, i);
      assert IsEmission(next.service, next.emissions, id, i);
    }
    forall u | u in next.tasks ensures TaskFits(next, next.tasks[u]) {
      TaskStaysFitLater(s, next, s.tasks[u]);
    }
    QuietStep(s, next, graceMs);
  }

  lemma DisconnectKeeps(s: State, sessionId: string, graceMs: nat)
    requires Inv(s, graceMs)
    ensures Inv(s.(service := WithoutSession(s.service, sessionId)), graceMs)
  {
    var next := s.(service := WithoutSession(s.service, sessionId));
    forall id | id in next.service.jobs ensures exists c: nat :: Built(c, id, next.service.jobs[id]) in next.built {
      assert id in s.service.jobs && next.service.jobs[id] == s.service.jobs[id];
    }
    JobsDoNotMatter(s, next, graceMs);
  }

  lemma ServiceStepKeeps(s: State, action: Action, graceMs: nat)
    requires Inv(s, graceMs) && (action.Add? || action.Disconnect? || action.GiveUp?)
    ensures Inv(Step(s, action, graceMs), graceMs)
  {
    match action
    case Add(task) =>
      if task in s.tasks && s.tasks[task].Building? {
        assert TaskFits(s, s.tasks[task]);
        EndKeeps(s, task, graceMs);
        WithJobKeeps(End(s, task), s.tasks[task].job, graceMs);
      }
    case GiveUp(task) => EndKeeps(s, task, graceMs);
    case Disconnect(c) =>
      if c < |s.clients| {
        DisconnectKeeps(s, s.clients[c].sessionId, graceMs);
      }
  }

  lemma SeenKeeps(s: State, task: nat, c: nat, client: Client, graceMs: nat)
    requires Inv(s, graceMs) && c < |s.clients| && client.sessionId == s.clients[c].sessionId
    requires client.epoch == s.clients[c].epoch && s.clients[c].hashes <= client.hashes
    ensures Inv(Seen(s, task, c, client), graceMs)
  {
    WithClientKeeps(s, c, client, graceMs);
    EndKeeps(WithClient(s, c, client), task, graceMs);
  }

  /** What the judge accepted is justified by the events so far, and is new. */
  lemma AcceptedIsJustified(s: State, c: nat, sub: Submission, now: int, graceMs: nat,
                            share: D.Difficulty, network: D.Difficulty, enforced: bool)
    requires Inv(s, graceMs) && c < |s.clients|
    requires VerdictOn(s, c, sub, now, graceMs, share, network, enforced).Accepted?
    ensures sub.jobId in s.service.jobs
    ensures var a := AdmissionOf(s, c, sub, now, share, network, VerdictOn(s, c, sub, now, graceMs, share, network, enforced).submitBlock);
      && Justified(a, s.clients, s.emissions, s.built, graceMs)
      && (forall n :: 0 <= n < |s.admissions| ==> !SameKey(s.admissions[n], a))
  {
    AcceptedIff(s.service, s.clients[c].sessionId, s.clients[c].hashes, sub, now, graceMs,
                s.clients[c].difficulty, share, network, GateRejects(s.clients[c].bucket, s.clients[c].difficulty, now, enforced));
    var a := AdmissionOf(s, c, sub, now, share, network, VerdictOn(s, c, sub, now, graceMs, share, network, enforced).submitBlock);
    UsableIsCheckedAgainst(s, a, graceMs);
    forall n | 0 <= n < |s.admissions| ensures !SameKey(s.admissions[n], a) {
      assert Remembered(s.admissions[n], s.clients);
    }
  }

  /** In terms of the emissions: what a usable template of a registered job is. */
  lemma UsableIsCheckedAgainst(s: State, a: Admission, graceMs: nat)
    requires Inv(s, graceMs) && a.emitted == |s.emissions|
    requires a.sub.jobId in s.service.jobs && s.service.jobs[a.sub.jobId] == a.job
    requires Usable(s.service, a.job.templateId, a.at, graceMs)
    requires a.blockSubmitted <==> a.job.templateId !in s.service.stale && D.AtLeast(a.share, a.network)
    ensures exists c: nat :: Built(c, a.sub.jobId, a.job) in s.built
    ensures exists i: nat :: CheckedAgainst(a, s.emissions[..a.emitted], i, graceMs)
  {
    var builder: nat :| Built(builder, a.sub.jobId, a.job) in s.built;
    assert BuiltForClient(Built(builder, a.sub.jobId, a.job), s.clients, |s.emissions|);
    var i: nat :| i < |s.emissions| && a.job.templateId == TemplateId(i);
    UsableIff(s.service, s.emissions, i, a.at, graceMs);
    FreshIff(s.service, s.emissions, i);
    assert s.emissions[..a.emitted] == s.emissions;
    assert CheckedAgainst(a, s.emissions[..a.emitted], i, graceMs);
  }

  lemma FreshIff(s: Service, h: seq<Emission>, i: nat)
    requires StaleMeansSuperseded(s, h) && i < |h| && TemplateId(i) in s.blocks
    ensures TemplateId(i) !in s.stale <==> SupersededAt(h, i).None?
  {
    var j: nat :| IsEmission(s, h, TemplateId(i), j);
    NatToHexInjective(i + 1, j + 1);
  }

  lemma AdmissionAdded(s: State, next: State, a: Admission, graceMs: nat)
    requires Inv(s, graceMs) && next.admissions == s.admissions + [a]
    requires next.service == s.service && next.emissions == s.emissions && next.clients == s.clients && next.built == s.built
    requires Justified(a, s.clients, s.emissions, s.built, graceMs) && Remembered(a, s.clients)
    requires forall n :: 0 <= n < |s.admissions| ==> !SameKey(s.admissions[n], a)
    requires TasksFit(next) && CreditsDistinct(next)
    ensures Inv(next, graceMs)
  {
  }

  lemma CreditedOnlyBefore(credits: seq<Credit>, last: Credit, a: nat)
    requires last.admission != a
    ensures IsCredited(credits + [last], a) <==> IsCredited(credits, a)
  {
    if i :| 0 <= i < |credits| && credits[i].admission == a {
      assert (credits + [last])[i].admission == a;
    }
  }

  lemma TaskStaysFit(s: State, t: nat, a: Admission, last: Credit)
    requires TasksFit(s) && t in s.tasks && last.admission == |s.admissions|
    ensures TaskFits(s.(admissions := s.admissions + [a], credits := s.credits + [last]), s.tasks[t])
    ensures TaskFits(s.(admissions := s.admissions + [a]), s.tasks[t])
  {
    assert TaskFits(s, s.tasks[t]);
    if s.tasks[t].AwaitingNode? {
      CreditedOnlyBefore(s.credits, last, s.tasks[t].admission);
    }
  }

  lemma AdmitShare(s: State, a: Admission, graceMs: nat)
    requires Inv(s, graceMs) && !a.blockSubmitted
    requires Justified(a, s.clients, s.emissions, s.built, graceMs) && Remembered(a, s.clients)
    requires forall n :: 0 <= n < |s.admissions| ==> !SameKey(s.admissions[n], a)
    ensures Inv(Admitted(s, a), graceMs)
  {
    var last := Credit(|s.admissions|, a.difficulty);
    forall t | t in s.tasks ensures TaskFits(Admitted(s, a), s.tasks[t]) {
      TaskStaysFit(s, t, a, last);
    }
    AdmissionAdded(s, Admitted(s, a), a, graceMs);
  }

  lemma AdmitBlock(s: State, a: Admission, task: nat, graceMs: nat)
    requires Inv(s, graceMs) && a.blockSubmitted && task !in s.tasks && task < s.nextTask
    requires Justified(a, s.clients, s.emissions, s.built, graceMs) && Remembered(a, s.clients)
    requires forall n :: 0 <= n < |s.admissions| ==> !SameKey(s.admissions[n], a)
    ensures Inv(AdmittedBlock(s, a, task), graceMs)
  {
    var next := AdmittedBlock(s, a, task);
    forall t | t in next.tasks ensures TaskFits(next, next.tasks[t]) {
      if t != task {
        TaskStaysFit(s, t, a, Credit(|s.admissions|, 0.0));
        assert TaskFits(s.(admissions := s.admissions + [a]), s.tasks[t]);
      }
    }
    forall t | t in s.tasks && s.tasks[t].AwaitingNode? ensures s.tasks[t].admission < |s.admissions| {
      assert TaskFits(s, s.tasks[t]);
    }
    AdmissionAdded(s, next, a, graceMs);
  }

  ghost predicate Recordable(s: State, a: Admission, task: nat, graceMs: nat) {
    && Justified(a, s.clients, s.emissions, s.built, graceMs) && Remembered(a, s.clients)
    && (forall n :: 0 <= n < |s.admissions| ==> !SameKey(s.admissions[n], a))
    && task !in s.tasks && task < s.nextTask
  }

  lemma RecordKeeps(s: State, a: Admission, task: nat, graceMs: nat)
    requires Inv(s, graceMs) && Recordable(s, a, task, graceMs)
    ensures Inv(Recorded(s, a, task), graceMs)
  {
    if a.blockSubmitted {
      AdmitBlock(s, a, task, graceMs);
    } else {
      AdmitShare(s, a, graceMs);
    }
  }

  lemma SeenMakesRecordable(s: State, task: nat, a: Admission, client: Client, graceMs: nat)
    requires Inv(s, graceMs) && task in s.tasks && a.client < |s.clients| && a.epoch == s.clients[a.client].epoch
    requires client.sessionId == s.clients[a.client].sessionId && client.epoch == a.epoch
    requires s.clients[a.client].hashes + {FingerprintText(a.sub)} <= client.hashes
    requires Justified(a, s.clients, s.emissions, s.built, graceMs)
    requires forall n :: 0 <= n < |s.admissions| ==> !SameKey(s.admissions[n], a)
    ensures Recordable(Seen(s, task, a.client, client), a, task, graceMs)
  {
    JustifiedStays(s, Seen(s, task, a.client, client), a, graceMs);
  }

  lemma CheckKeeps(s: State, task: nat, c: nat, sub: Submission, now: int, graceMs: nat, share: D.Difficulty,
                   network: D.Difficulty, v: Verdict)
    requires Inv(s, graceMs) && task in s.tasks && c < |s.clients|
    requires v.Accepted? ==>
      && sub.jobId in s.service.jobs
      && var a := AdmissionOf(s, c, sub, now, share, network, v.submitBlock);
      && Justified(a, s.clients, s.emissions, s.built, graceMs)
      && (forall n :: 0 <= n < |s.admissions| ==> !SameKey(s.admissions[n], a))
    ensures Inv(Checked(s, task, c, sub, now, share, network, v), graceMs)
  {
    var client := Touched(s.clients[c], FingerprintText(sub), v, now);
    SeenKeeps(s, task, c, client, graceMs);
    if v.Accepted? {
      var a := AdmissionOf(s, c, sub, now, share, network, v.submitBlock);
      SeenMakesRecordable(s, task, a, client, graceMs);
      RecordKeeps(Seen(s, task, c, client), a, task, graceMs);
    }
  }

  /** The admissions and clients a check leaves behind. */
  lemma CheckedClients(s: State, task: nat, c: nat, sub: Submission, now: int, share: D.Difficulty, network: D.Difficulty, v: Verdict)
    requires c < |s.clients| && (v.Accepted? ==> sub.jobId in s.service.jobs)
    ensures var next := Checked(s, task, c, sub, now, share, network, v);
      && next.clients == s.clients[c := Touched(s.clients[c], FingerprintText(sub), v, now)]
      && next.admissions == if v.Accepted? then s.admissions + [AdmissionOf(s, c, sub, now, share, network, v.submitBlock)] else s.admissions
  {
  }

  lemma OthersAdmitNothing(s: State, action: Action, graceMs: nat)
    requires !action.Check?
    ensures Step(s, action, graceMs).admissions == s.admissions
  {
  }

  /** A step admits nothing, or one share: that of the check it is. */
  lemma StepAdmits(s: State, action: Action, graceMs: nat)
    ensures var next := Step(s, action, graceMs).admissions;
      || next == s.admissions
      || (&& action.Check? && action.task in s.tasks && s.tasks[action.task].Submitting?
          && var sub := s.tasks[action.task].sub;
          && sub.jobId in s.service.jobs && |next| == |s.admissions| + 1 && next[..|s.admissions|] == s.admissions
          && var a := next[|s.admissions|];
          a.job == s.service.jobs[sub.jobId] && a.sub == sub && a.share == action.share && a.network == action.network)
  {
    if !action.Check? {
      OthersAdmitNothing(s, action, graceMs);
    } else if action.task in s.tasks && s.tasks[action.task].Submitting? && s.tasks[action.task].client < |s.clients| {
      var Submitting(c, sub) := s.tasks[action.task];
      CheckedClients(s, action.task, c, sub, action.now, action.share, action.network,
        VerdictOn(s, c, sub, action.now, graceMs, action.share, action.network, action.enforced));
    }
  }

  lemma CheckVerdictKeeps(s: State, task: nat, now: int, share: D.Difficulty, network: D.Difficulty, enforced: bool, graceMs: nat)
    requires Inv(s, graceMs) && task in s.tasks && s.tasks[task].Submitting? && s.tasks[task].client < |s.clients|
    ensures var Submitting(c, sub) := s.tasks[task];
      Inv(Checked(s, task, c, sub, now, share, network, VerdictOn(s, c, sub, now, graceMs, share, network, enforced)), graceMs)
  {
    var Submitting(c, sub) := s.tasks[task];
    var v := VerdictOn(s, c, sub, now, graceMs, share, network, enforced);
    if v.Accepted? {
      AcceptedIsJustified(s, c, sub, now, graceMs, share, network, enforced);
    }
    CheckKeeps(s, task, c, sub, now, graceMs, share, network, v);
  }

  lemma CheckActionKeeps(s: State, action: Action, graceMs: nat)
    requires Inv(s, graceMs) && action.Check?
    ensures Inv(Step(s, action, graceMs), graceMs)
  {
    if action.task in s.tasks && s.tasks[action.task].Submitting? && s.tasks[action.task].client < |s.clients| {
      CheckVerdictKeeps(s, action.task, action.now, action.share, action.network, action.enforced, graceMs);
    }
  }

  lemma CreditKeeps(s: State, task: nat, difficulty: real, graceMs: nat)
    requires Inv(s, graceMs) && task in s.tasks && s.tasks[task].AwaitingNode?
    ensures Inv(End(s, task).(credits := s.credits + [Credit(s.tasks[task].admission, difficulty)]), graceMs)
  {
    var a := s.tasks[task].admission;
    var last := Credit(a, difficulty);
    var next := End(s, task).(credits := s.credits + [last]);
    assert TaskFits(s, s.tasks[task]);
    forall i | 0 <= i < |s.credits| ensures s.credits[i].admission != a {
      assert !IsCredited(s.credits, a);
    }
    forall t | t in next.tasks ensures TaskFits(next, next.tasks[t]) {
      assert TaskFits(s, s.tasks[t]);
      if s.tasks[t].AwaitingNode? {
        CreditedOnlyBefore(s.credits, last, s.tasks[t].admission);
      }
    }
  }

  lemma NodeAnsweredKeeps(s: State, action: Action, graceMs: nat)
    requires Inv(s, graceMs) && action.NodeAnswered?
    ensures Inv(Step(s, action, graceMs), graceMs)
  {
    var next := Step(s, action, graceMs);
    if next != s {
      CreditKeeps(s, action.task, s.clients[s.admissions[s.tasks[action.task].admission].client].difficulty, graceMs);
    }
  }

  lemma StepKeeps(s: State, action: Action, graceMs: nat)
    requires Inv(s, graceMs)
    ensures Inv(Step(s, action, graceMs), graceMs)
  {
    match action
    case Emit(e) => EmitKeeps(s, e, graceMs);
    case Build(_, _, _, _) => BuildKeeps(s, action, graceMs);
    case Check(_, _, _, _, _) => CheckActionKeeps(s, action, graceMs);
    case NodeAnswered(_) => NodeAnsweredKeeps(s, action, graceMs);
    case Connect(_, _) => ClientStepKeeps(s, action, graceMs);
    case Deliver(_, _, _) => ClientStepKeeps(s, action, graceMs);
    case Submit(_, _) => ClientStepKeeps(s, action, graceMs);
    case SetDifficulty(_, _) => ClientStepKeeps(s, action, graceMs);
    case ApplyPolicy(_, _, _, _) => ClientStepKeeps(s, action, graceMs);
    case Add(_) => ServiceStepKeeps(s, action, graceMs);
    case GiveUp(_) => ServiceStepKeeps(s, action, graceMs);
    case Disconnect(_) => ServiceStepKeeps(s, action, graceMs);
  }

  lemma {:induction false} StepAllKeeps(s: State, actions: seq<Action>, graceMs: nat)
    requires Inv(s, graceMs)
    ensures Inv(StepAll(s, actions, graceMs), graceMs)
    decreases |actions|
  {
    if actions != [] {
      StepKeeps(s, actions[0], graceMs);
      StepAllKeeps(Step(s, actions[0], graceMs), actions[1..], graceMs);
    }
  }

  lemma RunKeeps(actions: seq<Action>, graceMs: nat)
    ensures Inv(Run(actions, graceMs), graceMs)
  {
    StepAllKeeps(INIT, actions, graceMs);
  }

  // ---------- the theorems ----------

  /** Every credit stands for a share checked against a job of the crediting session, built from an emitted template
      that had not expired and was superseded by no more than the grace time; and a block went out exactly when that
      template was not superseded and the network's difficulty was met. */
  lemma CreditsAreJustified(actions: seq<Action>, graceMs: nat, i: nat)
    requires i < |Run(actions, graceMs).credits|
    ensures var s := Run(actions, graceMs);
      && s.credits[i].admission < |s.admissions|
      && Justified(s.admissions[s.credits[i].admission], s.clients, s.emissions, s.built, graceMs)
  {
    RunKeeps(actions, graceMs);
  }

  /** Between two clears of a session's fingerprints, each fingerprint is admitted and credited at most once. */
  lemma AtMostOneCreditPerFingerprint(actions: seq<Action>, graceMs: nat, i: nat, j: nat)
    requires i < j < |Run(actions, graceMs).credits|
    ensures var s := Run(actions, graceMs);
      && s.credits[i].admission < |s.admissions| && s.credits[j].admission < |s.admissions|
      && !SameKey(s.admissions[s.credits[i].admission], s.admissions[s.credits[j].admission])
  {
    RunKeeps(actions, graceMs);
  }

  /** A share that is not a block is credited with the difficulty it was checked at, and met it. */
  lemma SharesCreditedAtCheckedDifficulty(actions: seq<Action>, graceMs: nat, i: nat)
    requires i < |Run(actions, graceMs).credits|
    ensures var s := Run(actions, graceMs);
      && s.credits[i].admission < |s.admissions|
      && var a := s.admissions[s.credits[i].admission];
      && (a.blockSubmitted || s.credits[i].difficulty == a.difficulty)
      && D.AtLeast(a.share, D.Finite(a.difficulty))
  {
    RunKeeps(actions, graceMs);
  }

  /** In every reachable state the maps mean what the emissions say. */
  lemma StalenessInEveryState(actions: seq<Action>, graceMs: nat)
    ensures var s := Run(actions, graceMs); StaleMeansSuperseded(s.service, s.emissions)
  {
    RunKeeps(actions, graceMs);
  }

  // ---------- one credit a header, for well-behaved miners ----------

  ghost predicate AllCanonical(actions: seq<Action>, maskWidth: nat) {
    forall i :: 0 <= i < |actions| && actions[i].Submit? ==> Canonical(actions[i].sub, maskWidth)
  }

  ghost predicate OnlyCanonical(s: State, maskWidth: nat) {
    && (forall t :: t in s.tasks && s.tasks[t].Submitting? ==> Canonical(s.tasks[t].sub, maskWidth))
    && (forall n :: 0 <= n < |s.admissions| ==> Canonical(s.admissions[n].sub, maskWidth))
  }

  lemma StepStaysCanonical(s: State, action: Action, graceMs: nat, maskWidth: nat)
    requires OnlyCanonical(s, maskWidth) && (action.Submit? ==> Canonical(action.sub, maskWidth))
    ensures OnlyCanonical(Step(s, action, graceMs), maskWidth)
  {
  }

  lemma {:induction false} RunStaysCanonical(s: State, actions: seq<Action>, graceMs: nat, maskWidth: nat)
    requires OnlyCanonical(s, maskWidth) && AllCanonical(actions, maskWidth)
    ensures OnlyCanonical(StepAll(s, actions, graceMs), maskWidth)
    decreases |actions|
  {
    if actions != [] {
      StepStaysCanonical(s, actions[0], graceMs, maskWidth);
      RunStaysCanonical(Step(s, actions[0], graceMs), actions[1..], graceMs, maskWidth);
    }
  }

  /** Two admissions of one session between two clears for the same work: one job, and one header rebuilt from it. */
  ghost predicate SameShare(a: Admission, b: Admission) {
    a.client == b.client && a.epoch == b.epoch && a.sub.jobId == b.sub.jobId && ValuesOf(a.sub) == ValuesOf(b.sub)
  }

  /** When every submission is spelled canonically, with masks of one width up to eight digits, no work on a job is
      credited twice between two clears. */
  lemma AtMostOneCreditPerShare(actions: seq<Action>, graceMs: nat, maskWidth: nat, i: nat, j: nat)
    requires AllCanonical(actions, maskWidth) && maskWidth <= 8
    requires i < j < |Run(actions, graceMs).credits|
    ensures var s := Run(actions, graceMs);
      && s.credits[i].admission < |s.admissions| && s.credits[j].admission < |s.admissions|
      && !SameShare(s.admissions[s.credits[i].admission], s.admissions[s.credits[j].admission])
  {
    var s := Run(actions, graceMs);
    AtMostOneCreditPerFingerprint(actions, graceMs, i, j);
    RunStaysCanonical(INIT, actions, graceMs, maskWidth);
    var a, b := s.admissions[s.credits[i].admission], s.admissions[s.credits[j].admission];
    if a.sub.jobId == b.sub.jobId {
      FingerprintIsTheHeaderIff(a.sub, b.sub, maskWidth);
    }
  }

  // ---------- what a session forgets ----------

  predicate Clears(s: State, action: Action, c: nat) {
    action.Deliver? && action.client == c && action.clearJobs && action.template < |s.emissions|
  }

  function ClearCount(s: State, actions: seq<Action>, c: nat, graceMs: nat): nat
    decreases |actions|
  {
    if actions == [] then 0
    else (if Clears(s, actions[0], c) then 1 else 0) + ClearCount(Step(s, actions[0], graceMs), actions[1..], c, graceMs)
  }

  lemma StepRemembers(s: State, action: Action, c: nat, graceMs: nat)
    requires c < |s.clients|
    ensures var next := Step(s, action, graceMs);
      && c < |next.clients|
      && next.clients[c].epoch == s.clients[c].epoch + (if Clears(s, action, c) then 1 else 0)
      && (if Clears(s, action, c) then next.clients[c].hashes == {} else s.clients[c].hashes <= next.clients[c].hashes)
  {
  }

  /** Over every run a session's epoch counts the clearing templates delivered to it, and without one it forgets nothing. */
  lemma {:induction false} RunRemembers(s: State, actions: seq<Action>, c: nat, graceMs: nat)
    requires c < |s.clients|
    ensures var end := StepAll(s, actions, graceMs);
      && c < |end.clients|
      && end.clients[c].epoch == s.clients[c].epoch + ClearCount(s, actions, c, graceMs)
      && (ClearCount(s, actions, c, graceMs) == 0 ==> s.clients[c].hashes <= end.clients[c].hashes)
    decreases |actions|
  {
    if actions != [] {
      StepRemembers(s, actions[0], c, graceMs);
      RunRemembers(Step(s, actions[0], graceMs), actions[1..], c, graceMs);
    }
  }

  // ---------- when two jobs share an id ----------

  predicate Builds(s: State, action: Action) {
    action.Build? && action.task in s.tasks && s.tasks[action.task].Sending? && s.tasks[action.task].client < |s.clients|
  }

  predicate Adds(s: State, action: Action) {
    action.Add? && action.task in s.tasks && s.tasks[action.task].Building?
  }

  function AddCount(s: State, actions: seq<Action>, graceMs: nat): nat
    decreases |actions|
  {
    if actions == [] then 0
    else (if Adds(s, actions[0]) then 1 else 0) + AddCount(Step(s, actions[0], graceMs), actions[1..], graceMs)
  }

  lemma StepCountsAdds(s: State, action: Action, graceMs: nat)
    ensures Step(s, action, graceMs).service.latestJobId == s.service.latestJobId + (if Adds(s, action) then 1 else 0)
  {
  }

  lemma {:induction false} RunCountsAdds(s: State, actions: seq<Action>, graceMs: nat)
    ensures StepAll(s, actions, graceMs).service.latestJobId == s.service.latestJobId + AddCount(s, actions, graceMs)
    decreases |actions|
  {
    if actions != [] {
      StepCountsAdds(s, actions[0], graceMs);
      RunCountsAdds(Step(s, actions[0], graceMs), actions[1..], graceMs);
    }
  }

  lemma BuildReadsCounter(s: State, action: Action, graceMs: nat)
    requires Builds(s, action)
    ensures var next := Step(s, action, graceMs);
      && action.task in next.tasks && next.tasks[action.task].Building?
      && next.tasks[action.task].job.jobId == NatToHex(s.service.latestJobId)
      && next.service == s.service
  {
  }

  /** Two jobs are built under one id exactly when no job is registered between the two buildings. */
  lemma SameJobIdIffNoAddBetween(s: State, first: Action, between: seq<Action>, second: Action, graceMs: nat)
    requires Builds(s, first) && Builds(StepAll(Step(s, first, graceMs), between, graceMs), second)
    ensures var s1 := Step(s, first, graceMs);
      var s2 := StepAll(s1, between, graceMs);
      var s3 := Step(s2, second, graceMs);
      && first.task in s1.tasks && s1.tasks[first.task].Building?
      && second.task in s3.tasks && s3.tasks[second.task].Building?
      && (s1.tasks[first.task].job.jobId == s3.tasks[second.task].job.jobId <==> AddCount(s1, between, graceMs) == 0)
  {
    var s1 := Step(s, first, graceMs);
    BuildReadsCounter(s, first, graceMs);
    RunCountsAdds(s1, between, graceMs);
    BuildReadsCounter(StepAll(s1, between, graceMs), second, graceMs);
    if NatToHex(s.service.latestJobId) == NatToHex(s.service.latestJobId + AddCount(s1, between, graceMs)) {
      NatToHexInjective(s.service.latestJobId, s.service.latestJobId + AddCount(s1, between, graceMs));
    }
  }

  // ---------- how long a job is found ----------

  /** The registration of another job under the id, the end of the owner's session, or an emission that finds the job
      more than five minutes old. */
  ghost predicate Removes(s: State, action: Action, id: string, job: JobRecord) {
    || (Adds(s, action) && s.tasks[action.task].job.jobId == id && s.tasks[action.task].job.job != job)
    || (action.Disconnect? && action.client < |s.clients| && s.clients[action.client].sessionId == job.owner)
    || (action.Emit? && action.emission.now - job.creation > 300000)
  }

  ghost predicate Spares(s: State, actions: seq<Action>, id: string, job: JobRecord, graceMs: nat)
    decreases |actions|
  {
    actions != [] ==> !Removes(s, actions[0], id, job) && Spares(Step(s, actions[0], graceMs), actions[1..], id, job, graceMs)
  }

  ghost predicate Registered(s: State, id: string, job: JobRecord) {
    id in s.service.jobs && s.service.jobs[id] == job
  }

  lemma AddRegisters(s: State, action: Action, graceMs: nat)
    requires Adds(s, action)
    ensures Registered(Step(s, action, graceMs), s.tasks[action.task].job.jobId, s.tasks[action.task].job.job)
  {
  }

  /** A registered job is gone after a step exactly when the step removes it. */
  lemma StaysRegisteredIff(s: State, action: Action, id: string, job: JobRecord, graceMs: nat)
    requires Registered(s, id, job)
    ensures Registered(Step(s, action, graceMs), id, job) <==> !Removes(s, action, id, job)
  {
  }

  lemma {:induction false} RunStaysRegistered(s: State, actions: seq<Action>, id: string, job: JobRecord, graceMs: nat)
    requires Registered(s, id, job) && Spares(s, actions, id, job, graceMs)
    ensures Registered(StepAll(s, actions, graceMs), id, job)
    decreases |actions|
  {
    if actions != [] {
      StaysRegisteredIff(s, actions[0], id, job, graceMs);
      RunStaysRegistered(Step(s, actions[0], graceMs), actions[1..], id, job, graceMs);
    }
  }

  /** From its registration on a job is found for its owner, over every run, until one of these steps removes it. */
  lemma RegisteredJobIsFound(s: State, add: Action, actions: seq<Action>, c: nat, sub: Submission, now: int, graceMs: nat,
                             share: D.Difficulty, network: D.Difficulty, enforced: bool)
    requires Adds(s, add)
    requires var b := s.tasks[add.task].job;
      var end := StepAll(Step(s, add, graceMs), actions, graceMs);
      && Spares(Step(s, add, graceMs), actions, b.jobId, b.job, graceMs)
      && c < |end.clients| && end.clients[c].sessionId == b.job.owner && sub.jobId == b.jobId
    ensures var b := s.tasks[add.task].job;
      var end := StepAll(Step(s, add, graceMs), actions, graceMs);
      Registered(end, b.jobId, b.job) && !VerdictOn(end, c, sub, now, graceMs, share, network, enforced).JobNotFound?
  {
    var b := s.tasks[add.task].job;
    AddRegisters(s, add, graceMs);
    RunStaysRegistered(Step(s, add, graceMs), actions, b.jobId, b.job, graceMs);
    var end := StepAll(Step(s, add, graceMs), actions, graceMs);
    VerdictIff(end.service, end.clients[c].sessionId, end.clients[c].hashes, sub, now, graceMs, end.clients[c].difficulty, share,
               network, GateRejects(end.clients[c].bucket, end.clients[c].difficulty, now, enforced));
  }

  // ---------- what every check is permitted, every admission has ----------

  /** A condition on a job, a submission and the two difficulties it is weighed by. */
  type Condition = (JobRecord, Submission, D.Difficulty, D.Difficulty) -> bool

  ghost predicate StepPermitted(s: State, action: Action, p: Condition) {
    action.Check? && action.task in s.tasks && s.tasks[action.task].Submitting? && s.tasks[action.task].sub.jobId in s.service.jobs ==>
      p(s.service.jobs[s.tasks[action.task].sub.jobId], s.tasks[action.task].sub, action.share, action.network)
  }

  ghost predicate RunPermitted(s: State, actions: seq<Action>, graceMs: nat, p: Condition)
    decreases |actions|
  {
    actions != [] ==> StepPermitted(s, actions[0], p) && RunPermitted(Step(s, actions[0], graceMs), actions[1..], graceMs, p)
  }

  ghost predicate AllPermitted(admissions: seq<Admission>, p: Condition) {
    forall n :: 0 <= n < |admissions| ==>
      p(admissions[n].job, admissions[n].sub, admissions[n].share, admissions[n].network)
  }

  lemma OneMorePermitted(admissions: seq<Admission>, next: seq<Admission>, p: Condition)
    requires AllPermitted(admissions, p) && |next| == |admissions| + 1 && next[..|admissions|] == admissions
    requires var a := next[|admissions|]; p(a.job, a.sub, a.share, a.network)
    ensures AllPermitted(next, p)
  {
    forall n | 0 <= n < |next| ensures p(next[n].job, next[n].sub, next[n].share, next[n].network) {
      assert n < |admissions| ==> next[n] == next[..|admissions|][n];
    }
  }

  lemma StepStaysPermitted(s: State, action: Action, graceMs: nat, p: Condition)
    requires AllPermitted(s.admissions, p) && StepPermitted(s, action, p)
    ensures AllPermitted(Step(s, action, graceMs).admissions, p)
  {
    var next := Step(s, action, graceMs).admissions;
    StepAdmits(s, action, graceMs);
    if next != s.admissions {
      OneMorePermitted(s.admissions, next, p);
    }
  }

  lemma {:induction false} RunStaysPermitted(s: State, actions: seq<Action>, graceMs: nat, p: Condition)
    requires AllPermitted(s.admissions, p) && RunPermitted(s, actions, graceMs, p)
    ensures AllPermitted(StepAll(s, actions, graceMs).admissions, p)
    decreases |actions|
  {
    if actions != [] {
      StepStaysPermitted(s, actions[0], graceMs, p);
      RunStaysPermitted(Step(s, actions[0], graceMs), actions[1..], graceMs, p);
    }
  }
}
