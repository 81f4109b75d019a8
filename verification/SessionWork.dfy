/** What a capped session is let through with, over every run of the share protocol. */
module SessionWork {
  import opened Bytes
  import opened StratumClient
  import opened ShareLifecycle
  import D = Difficulty
  import TB = TokenBucket

  /** The expected work behind a client's admitted shares, at the difficulties they were checked at. */
  function Work(admissions: seq<Admission>, c: nat): real {
    if admissions == [] then 0.0
    else
      var last := admissions[|admissions| - 1];
      Work(admissions[..|admissions| - 1], c) + (if last.client == c then TB.ShareCostUnits(last.difficulty) else 0.0)
  }

  function DifficultySum(admissions: seq<Admission>, c: nat): real {
    if admissions == [] then 0.0
    else
      var last := admissions[|admissions| - 1];
      DifficultySum(admissions[..|admissions| - 1], c) + (if last.client == c then last.difficulty else 0.0)
  }

  lemma {:induction false} WorkIsDifficulty(admissions: seq<Admission>, c: nat)
    ensures Work(admissions, c) == DifficultySum(admissions, c) * 4294967296.0
  {
    if admissions != [] {
      WorkIsDifficulty(admissions[..|admissions| - 1], c);
    }
  }

  lemma WorkSnoc(admissions: seq<Admission>, a: Admission, c: nat)
    ensures Work(admissions + [a], c) == Work(admissions, c) + (if a.client == c then TB.ShareCostUnits(a.difficulty) else 0.0)
  {
    assert (admissions + [a])[..|admissions|] == admissions;
  }

  /** The gate is enforced, and the client's policies are no bypass and no faster than the given rate. */
  predicate Capped(action: Action, c: nat, maxRate: real) {
    match action
    case Check(_, _, _, _, enforced) => enforced
    case ApplyPolicy(client, policy, _, _) => client == c ==> !policy.bypass && TargetOf(policy) <= maxRate
    case SetDifficulty(client, difficulty) => client == c ==> difficulty >= 0.0
    case _ => true
  }

  ghost predicate HasBucket(s: State, c: nat, maxRate: real) {
    && c < |s.clients| && s.clients[c].bucket.Some? && s.clients[c].difficulty >= 0.0
    && TB.Sound(s.clients[c].bucket.value) && s.clients[c].bucket.value.rate <= maxRate
  }

  /** Work let through and units left grow together by no more than the rate yields. */
  ghost predicate Within(s: State, next: State, c: nat, maxRate: real)
    requires HasBucket(s, c, maxRate) && HasBucket(next, c, maxRate)
  {
    var a, b := s.clients[c].bucket.value, next.clients[c].bucket.value;
    a.last <= b.last && Work(next.admissions, c) + b.units <= Work(s.admissions, c) + a.units + TB.Yield(b.last - a.last, maxRate)
  }

  lemma BucketStep(b: TB.State, op: TB.Op, maxRate: real)
    requires TB.Sound(b) && b.rate <= maxRate && 1.0 <= maxRate && (op.Try? ==> op.cost >= 0.0) && (op.Update? ==> op.target <= maxRate)
    ensures var next := TB.Step(b, op);
      && TB.Sound(next) && next.rate <= maxRate && b.last <= next.last
      && next.units + TB.Paid(b, op) <= b.units + TB.Yield(next.last - b.last, maxRate)
  {
    TB.StepBound(b, op);
    TB.StepEarns(b, op, maxRate);
  }

  lemma NothingYielded(s: State, next: State, c: nat, maxRate: real)
    requires HasBucket(s, c, maxRate) && HasBucket(next, c, maxRate)
    requires next.clients[c].bucket == s.clients[c].bucket && Work(next.admissions, c) == Work(s.admissions, c)
    ensures Within(s, next, c, maxRate)
  {
    TB.YieldsAdd(0, 0, 0, maxRate);
  }

  /** A verdict charges the bucket for exactly what it lets through. */
  lemma VerdictCharges(s: State, c: nat, sub: Submission, now: int, graceMs: nat, share: D.Difficulty, network: D.Difficulty, maxRate: real)
    requires HasBucket(s, c, maxRate) && 1.0 <= maxRate
    ensures var client := s.clients[c];
      var v := VerdictOn(s, c, sub, now, graceMs, share, network, true);
      var after := Charged(client.bucket, v, client.difficulty, now);
      && after.Some? && TB.Sound(after.value) && after.value.rate <= maxRate && client.bucket.value.last <= after.value.last
      && after.value.units + (if v.Accepted? then TB.ShareCostUnits(client.difficulty) else 0.0)
         <= client.bucket.value.units + TB.Yield(after.value.last - client.bucket.value.last, maxRate)
  {
    var client := s.clients[c];
    BucketStep(client.bucket.value, TB.Try(TB.ShareCostUnits(client.difficulty), now), maxRate);
    TB.YieldsAdd(0, 0, 0, maxRate);
    AcceptedIff(s.service, client.sessionId, client.hashes, sub, now, graceMs, client.difficulty, share, network,
                GateRejects(client.bucket, client.difficulty, now, true));
    if VerdictOn(s, c, sub, now, graceMs, share, network, true).ClassCapExceeded? {
      CapExceededMeansRejected(s, c, sub, now, graceMs, share, network);
    }
  }

  lemma CapExceededMeansRejected(s: State, c: nat, sub: Submission, now: int, graceMs: nat, share: D.Difficulty, network: D.Difficulty)
    requires c < |s.clients| && VerdictOn(s, c, sub, now, graceMs, share, network, true).ClassCapExceeded?
    ensures GateRejects(s.clients[c].bucket, s.clients[c].difficulty, now, true)
  {
  }

  lemma CheckIsWithin(s: State, task: nat, now: int, share: D.Difficulty, network: D.Difficulty, graceMs: nat, c: nat, maxRate: real)
    requires HasBucket(s, c, maxRate) && 1.0 <= maxRate
    requires task in s.tasks && s.tasks[task].Submitting? && s.tasks[task].client < |s.clients|
    ensures var Submitting(d, sub) := s.tasks[task];
      var next := Checked(s, task, d, sub, now, share, network, VerdictOn(s, d, sub, now, graceMs, share, network, true));
      HasBucket(next, c, maxRate) && Within(s, next, c, maxRate)
  {
    var Submitting(d, sub) := s.tasks[task];
    var v := VerdictOn(s, d, sub, now, graceMs, share, network, true);
    var next := Checked(s, task, d, sub, now, share, network, v);
    CheckedClients(s, task, d, sub, now, share, network, v);
    if v.Accepted? {
      WorkSnoc(s.admissions, AdmissionOf(s, d, sub, now, share, network, v.submitBlock), c);
    }
    if d == c {
      VerdictCharges(s, c, sub, now, graceMs, share, network, maxRate);
    } else {
      NothingYielded(s, next, c, maxRate);
    }
  }

  lemma PolicyIsWithin(s: State, c: nat, policy: Policy, floor: real, now: int, maxRate: real)
    requires HasBucket(s, c, maxRate) && 1.0 <= maxRate && !policy.bypass && TargetOf(policy) <= maxRate
    ensures var next := WithClient(s, c, s.clients[c].(bucket := AfterPolicy(s.clients[c].bucket, policy, floor, now)));
      HasBucket(next, c, maxRate) && Within(s, next, c, maxRate)
  {
    BucketStep(s.clients[c].bucket.value, TB.Update(TargetOf(policy), floor, now), maxRate);
  }

  /** Every other action leaves the client's bucket and the admissions alone. */
  lemma OtherStep(s: State, action: Action, graceMs: nat, c: nat, maxRate: real)
    requires HasBucket(s, c, maxRate) && Capped(action, c, maxRate) && !action.Check? && !action.ApplyPolicy?
    ensures var next := Step(s, action, graceMs);
      HasBucket(next, c, maxRate) && next.clients[c].bucket == s.clients[c].bucket && next.admissions == s.admissions
  {
  }

  lemma StepIsWithin(s: State, action: Action, graceMs: nat, c: nat, maxRate: real)
    requires HasBucket(s, c, maxRate) && 1.0 <= maxRate && Capped(action, c, maxRate)
    ensures HasBucket(Step(s, action, graceMs), c, maxRate) && Within(s, Step(s, action, graceMs), c, maxRate)
  {
    if action.Check? && action.task in s.tasks && s.tasks[action.task].Submitting? && s.tasks[action.task].client < |s.clients| {
      CheckIsWithin(s, action.task, action.now, action.share, action.network, graceMs, c, maxRate);
    } else if action.ApplyPolicy? && action.client == c {
      PolicyIsWithin(s, c, action.policy, action.floor, action.now, maxRate);
    } else {
      if !action.Check? && !action.ApplyPolicy? {
        OtherStep(s, action, graceMs, c, maxRate);
      }
      NothingYielded(s, Step(s, action, graceMs), c, maxRate);
    }
  }

  lemma WithinTwice(s: State, mid: State, end: State, c: nat, maxRate: real)
    requires HasBucket(s, c, maxRate) && HasBucket(mid, c, maxRate) && HasBucket(end, c, maxRate)
    requires Within(s, mid, c, maxRate) && Within(mid, end, c, maxRate)
    ensures Within(s, end, c, maxRate)
  {
    TB.YieldsAdd(s.clients[c].bucket.value.last, mid.clients[c].bucket.value.last, end.clients[c].bucket.value.last, maxRate);
  }

  lemma {:induction false} RunIsWithin(s: State, actions: seq<Action>, graceMs: nat, c: nat, maxRate: real)
    requires HasBucket(s, c, maxRate) && 1.0 <= maxRate && forall i :: 0 <= i < |actions| ==> Capped(actions[i], c, maxRate)
    ensures HasBucket(StepAll(s, actions, graceMs), c, maxRate) && Within(s, StepAll(s, actions, graceMs), c, maxRate)
    decreases |actions|
  {
    if actions == [] {
      NothingYielded(s, s, c, maxRate);
    } else {
      var next := Step(s, actions[0], graceMs);
      StepIsWithin(s, actions[0], graceMs, c, maxRate);
      RunIsWithin(next, actions[1..], graceMs, c, maxRate);
      WithinTwice(s, next, StepAll(next, actions[1..], graceMs), c, maxRate);
    }
  }

  lemma SessionWorkYields(s: State, c: nat, policy: Policy, floor: real, start: int, actions: seq<Action>, graceMs: nat, maxRate: real)
    requires c < |s.clients| && s.clients[c].bucket.None? && s.clients[c].difficulty >= 0.0
    requires !policy.bypass && TargetOf(policy) <= maxRate && 1.0 <= maxRate
    requires forall i :: 0 <= i < |actions| ==> Capped(actions[i], c, maxRate)
    ensures var end := StepAll(Step(s, ApplyPolicy(c, policy, floor, start), graceMs), actions, graceMs);
      && c < |end.clients| && end.clients[c].bucket.Some?
      && Work(end.admissions, c) - Work(s.admissions, c) <= TB.Yield(end.clients[c].bucket.value.last - start, maxRate)
      && Work(end.admissions, c) == DifficultySum(end.admissions, c) * 4294967296.0
      && Work(s.admissions, c) == DifficultySum(s.admissions, c) * 4294967296.0
  {
    TB.CreatedSound(TargetOf(policy), floor, start);
    var first := Step(s, ApplyPolicy(c, policy, floor, start), graceMs);
    assert first.clients[c].bucket == Some(TB.Created(TargetOf(policy), floor, start)) && first.admissions == s.admissions;
    RunIsWithin(first, actions, graceMs, c, maxRate);
    WorkIsDifficulty(StepAll(first, actions, graceMs).admissions, c);
    WorkIsDifficulty(s.admissions, c);
  }

  /** From the first policy of a session on, over every run of all sessions: while no policy is a bypass and the gate is
      enforced, the session is let through with no more work than the highest rate times the time its clock advanced. */
  lemma SessionWorkIsCapped(s: State, c: nat, policy: Policy, floor: real, start: int, actions: seq<Action>, graceMs: nat, maxRate: real)
    requires c < |s.clients| && s.clients[c].bucket.None? && s.clients[c].difficulty >= 0.0
    requires !policy.bypass && TargetOf(policy) <= maxRate && 1.0 <= maxRate
    requires forall i :: 0 <= i < |actions| ==> Capped(actions[i], c, maxRate)
    ensures var end := StepAll(Step(s, ApplyPolicy(c, policy, floor, start), graceMs), actions, graceMs);
      && c < |end.clients| && end.clients[c].bucket.Some?
      && var seconds := (end.clients[c].bucket.value.last - start) as real / 1000.0;
      && Work(end.admissions, c) - Work(s.admissions, c) <= seconds * maxRate
      && (DifficultySum(end.admissions, c) - DifficultySum(s.admissions, c)) * 4294967296.0 <= seconds * maxRate
  {
    SessionWorkYields(s, c, policy, floor, start, actions, graceMs, maxRate);
    var end := StepAll(Step(s, ApplyPolicy(c, policy, floor, start), graceMs), actions, graceMs);
    CappedSum(Work(end.admissions, c), Work(s.admissions, c), DifficultySum(end.admissions, c), DifficultySum(s.admissions, c),
      end.clients[c].bucket.value.last - start, maxRate);
  }

  lemma CappedSum(work: real, before: real, sum: real, sumBefore: real, ms: int, rate: real)
    requires work == sum * 4294967296.0 && before == sumBefore * 4294967296.0 && work - before <= TB.Yield(ms, rate)
    ensures work - before <= ms as real / 1000.0 * rate
    ensures (sum - sumBefore) * 4294967296.0 <= ms as real / 1000.0 * rate
  {
    TB.YieldIs(ms, rate);
  }
}
