/** When a session may start mining, and which device it is bound to, over every interleaving of its handlers. */
module SessionStart {
  import opened Bytes

  datatype Binding = Binding(deviceId: string, wallet: string)

  datatype Challenge = Challenge(id: string, nonce: string, expiresAt: int, binding: Binding)

  /** The fields the handlers share. */
  datatype Core = Core(
    requiresDeviceAuth: bool,
    subscribed: bool,
    authorized: bool,
    initialized: bool,
    deviceAuthorized: bool,
    deviceSession: Option<Binding>,
    pending: Option<Challenge>)

  function Initial(requiresDeviceAuth: bool): Core {
    Core(requiresDeviceAuth, false, false, false, !requiresDeviceAuth, None, None)
  }

  /** The presented device, wallet and challenge id are those of the pending, unexpired challenge. */
  predicate Matches(s: Core, b: Binding, challengeId: string, now: int) {
    s.pending.Some? && s.pending.value.id == challengeId && s.pending.value.binding == b && !(s.pending.value.expiresAt < now)
  }

  function Bound(s: Core, b: Binding): Core {
    s.(deviceAuthorized := true, deviceSession := Some(b), pending := None)
  }

  function Unbound(s: Core): Core {
    s.(deviceAuthorized := false, deviceSession := None)
  }

  predicate MayStart(s: Core) {
    s.subscribed && s.authorized && !s.initialized && (!s.requiresDeviceAuth || s.deviceAuthorized)
  }

  class Session {
    const requiresDeviceAuth: bool
    var clientSubscription: bool
    var clientAuthorization: bool
    var stratumInitialized: bool
    var deviceAuthorized: bool
    var deviceSession: Option<Binding>
    var pendingChallenge: Option<Challenge>

    function View(): Core
      reads this
    {
      Core(requiresDeviceAuth, clientSubscription, clientAuthorization, stratumInitialized,
           deviceAuthorized, deviceSession, pendingChallenge)
    }

    constructor (requiresDeviceAuth: bool)
      ensures View() == Initial(requiresDeviceAuth)
    {
      this.requiresDeviceAuth := requiresDeviceAuth;
      clientSubscription, clientAuthorization, stratumInitialized := false, false, false;
      deviceAuthorized, deviceSession, pendingChallenge := !requiresDeviceAuth, None, None;
    }

    method AcceptSubscription()
      modifies this
      ensures View() == old(View()).(subscribed := true)
    {
      clientSubscription := true;
    }

    method AcceptAuthorization()
      modifies this
      ensures View() == old(View()).(authorized := true)
    {
      clientAuthorization := true;
    }

    method IssueChallenge(c: Challenge)
      modifies this
      ensures View() == old(View()).(pending := Some(c))
    {
      pendingChallenge := Some(c);
    }

    /** The segment of a device authorization before the backend is asked. */
    method PresentChallenge(b: Binding, challengeId: string, now: int) returns (c: Option<Challenge>)
      ensures c == if Matches(View(), b, challengeId, now) then pendingChallenge else None
      ensures c.Some? <==>
        pendingChallenge.Some? && pendingChallenge.value.id == challengeId && pendingChallenge.value.binding == b
        && now <= pendingChallenge.value.expiresAt
    {
      if pendingChallenge.None? || pendingChallenge.value.id != challengeId || pendingChallenge.value.binding != b
         || pendingChallenge.value.expiresAt < now {
        return None;
      }
      c := pendingChallenge;
    }

    method BindDevice(b: Binding)
      modifies this
      ensures View() == Bound(old(View()), b)
      ensures deviceAuthorized && deviceSession == Some(b) && pendingChallenge.None? && stratumInitialized == old(stratumInitialized)
      ensures forall c: Binding, challengeId: string, now: int :: !Matches(View(), c, challengeId, now)
    {
      deviceAuthorized := true;
      deviceSession := Some(b);
      pendingChallenge := None;
    }

    /** The segment after the backend has answered a repeated authorization. */
    method RecheckAnswered(allowed: bool)
      modifies this
      ensures View() == if allowed then old(View()) else Unbound(old(View()))
      ensures !allowed ==> !deviceAuthorized && deviceSession.None? && pendingChallenge == old(pendingChallenge)
      ensures requiresDeviceAuth && !allowed ==> !MayStart(View())
    {
      if !allowed {
        deviceAuthorized := false;
        deviceSession := None;
      }
    }

    /** The test at the end of every handler. */
    method FinishMessage() returns (started: bool)
      modifies this
      ensures started == MayStart(old(View()))
      ensures started <==>
        old(clientSubscription) && old(clientAuthorization) && !old(stratumInitialized) && (!requiresDeviceAuth || old(deviceAuthorized))
      ensures stratumInitialized <==> old(stratumInitialized) || started
      ensures View() == if started then old(View()).(initialized := true) else old(View())
    {
      started := clientSubscription && clientAuthorization && !stratumInitialized && (!requiresDeviceAuth || deviceAuthorized);
      if started {
        stratumInitialized := true;
      }
    }
  }

  // ---------- handlers in flight ----------

  datatype Event =
    | Subscribed
    | Authorized
    | Issued(challenge: Challenge)
    | Presented(binding: Binding, challengeId: string, now: int, challenge: Challenge)
    | VerifyAllowed(at: nat, binding: Binding, challenge: Challenge)
    | AuthorizeAllowed(at: nat, binding: Binding, challenge: Challenge)
    | Revoked
    | Started

  /** A handler that waits for the backend, or for its last answer to be written; it keeps the device and wallet of its
      own message, and `at` is the place of its presentation in the log. */
  datatype Task =
    | Verifying(at: nat, binding: Binding, challenge: Challenge)
    | Authorizing(at: nat, binding: Binding, challenge: Challenge)
    | Rechecking
    | Finishing

  datatype State = State(core: Core, tasks: map<nat, Task>, nextTask: nat, log: seq<Event>)

  datatype Action =
    | Subscribe
    | Authorize
    | RequestChallenge(challenge: Challenge)
    | Present(binding: Binding, challengeId: string, now: int)
    | VerifyAnswered(task: nat, allowed: bool)
    | AuthorizeAnswered(task: nat, allowed: bool)
    | Recheck
    | RecheckAnswered(task: nat, allowed: bool)
    | OtherMessage
    | Finish(task: nat)
    | GiveUp(task: nat)

  function Begin(s: State, t: Task): State {
    s.(tasks := s.tasks[s.nextTask := t], nextTask := s.nextTask + 1)
  }

  function Record(s: State, core: Core, e: Event): State {
    s.(core := core, log := s.log + [e])
  }

  function Continue(s: State, task: nat, t: Task): State {
    s.(tasks := s.tasks[task := t])
  }

  /** One atomic segment; an action that does not fit the state changes nothing. */
  function Step(s: State, a: Action): State {
    match a
    case Subscribe => Begin(Record(s, s.core.(subscribed := true), Subscribed), Finishing)
    case Authorize => Begin(Record(s, s.core.(authorized := true), Authorized), Finishing)
    case RequestChallenge(c) => Begin(Record(s, s.core.(pending := Some(c)), Issued(c)), Finishing)
    case Present(b, challengeId, now) =>
      if Matches(s.core, b, challengeId, now)
      then Begin(Record(s, s.core, Presented(b, challengeId, now, s.core.pending.value)),
                 Verifying(|s.log|, b, s.core.pending.value))
      else Begin(s, Finishing)
    case VerifyAnswered(task, allowed) =>
      if task in s.tasks && s.tasks[task].Verifying? then
        var Verifying(at, b, c) := s.tasks[task];
        if allowed then Continue(Record(s, s.core, VerifyAllowed(at, b, c)), task, Authorizing(at, b, c)) else Continue(s, task, Finishing)
      else s
    case AuthorizeAnswered(task, allowed) =>
      if task in s.tasks && s.tasks[task].Authorizing? then
        var Authorizing(at, b, c) := s.tasks[task];
        if allowed then Continue(Record(s, Bound(s.core, b), AuthorizeAllowed(at, b, c)), task, Finishing) else Continue(s, task, Finishing)
      else s
    case Recheck => if s.core.requiresDeviceAuth && s.core.deviceSession.Some? then Begin(s, Rechecking) else s
    case RecheckAnswered(task, allowed) =>
      if task in s.tasks && s.tasks[task].Rechecking? then
        var rest := s.(tasks := s.tasks - {task});
        if allowed then rest else Record(rest, Unbound(s.core), Revoked)
      else s
    case OtherMessage => Begin(s, Finishing)
    case Finish(task) =>
      if task in s.tasks && s.tasks[task].Finishing? then
        var rest := s.(tasks := s.tasks - {task});
        if MayStart(s.core) then Record(rest, s.core.(initialized := true), Started) else rest
      else s
    case GiveUp(task) => s.(tasks := s.tasks - {task})
  }

  function StepAll(s: State, actions: seq<Action>): State
    decreases |actions|
  {
    if actions == [] then s else StepAll(Step(s, actions[0]), actions[1..])
  }

  function Run(requiresDeviceAuth: bool, actions: seq<Action>): State {
    StepAll(State(Initial(requiresDeviceAuth), map[], 0, []), actions)
  }

  /** The session object takes every segment as the step does. */
  method RunSegment(session: Session, s: State, a: Action)
    requires session.View() == s.core
    modifies session
    ensures session.View() == Step(s, a).core
  {
    match a
    case Subscribe => session.AcceptSubscription();
    case Authorize => session.AcceptAuthorization();
    case RequestChallenge(c) => session.IssueChallenge(c);
    case Present(b, challengeId, now) =>
      var c := session.PresentChallenge(b, challengeId, now);
      assert c.Some? <==> Matches(s.core, b, challengeId, now);
    case AuthorizeAnswered(task, allowed) =>
      if allowed && task in s.tasks && s.tasks[task].Authorizing? {
        session.BindDevice(s.tasks[task].binding);
      }
    case RecheckAnswered(task, allowed) =>
      if task in s.tasks && s.tasks[task].Rechecking? {
        session.RecheckAnswered(allowed);
      }
    case Finish(task) =>
      if task in s.tasks && s.tasks[task].Finishing? {
        var started := session.FinishMessage();
      }
    case _ =>
  }

  // ---------- what the log shows, each stage after the one before ----------

  /** Issued, with no binding since. */
  ghost predicate UnspentSince(log: seq<Event>, c: Challenge, q: nat)
    requires q < |log|
  {
    log[q] == Issued(c) && forall m :: q < m < |log| ==> !log[m].AuthorizeAllowed?
  }

  ghost predicate Unspent(log: seq<Event>, c: Challenge) {
    exists q :: 0 <= q < |log| && UnspentSince(log, c, q)
  }

  function PresentedTime(e: Event): int {
    if e.Presented? then e.now else 0
  }

  /** The j-th event presented the challenge under its own id, device and wallet, in time, and not yet spent. */
  ghost predicate PresentedAt(log: seq<Event>, c: Challenge, j: nat)
    requires j < |log|
  {
    && log[j] == Presented(c.binding, c.id, PresentedTime(log[j]), c)
    && PresentedTime(log[j]) <= c.expiresAt && Unspent(log[..j], c)
  }

  ghost predicate VerifiedAt(log: seq<Event>, at: nat, c: Challenge, k: nat)
    requires k < |log|
  {
    at < k && log[k] == VerifyAllowed(at, c.binding, c) && PresentedAt(log, c, at)
  }

  ghost predicate WasVerified(log: seq<Event>, at: nat, c: Challenge) {
    exists k :: 0 <= k < |log| && VerifiedAt(log, at, c, k)
  }

  /** The l-th event authorized a device for a challenge presented and then verified before. */
  ghost predicate BoundAt(log: seq<Event>, l: nat)
    requires l < |log|
  {
    && log[l].AuthorizeAllowed? && log[l].challenge.binding == log[l].binding
    && WasVerified(log[..l], log[l].at, log[l].challenge)
  }

  /** Since then nothing was revoked. */
  ghost predicate StandsSince(log: seq<Event>, b: Binding, l: nat)
    requires l < |log|
  {
    BoundAt(log, l) && log[l].binding == b && forall m :: l < m < |log| ==> log[m] != Revoked
  }

  ghost predicate Stands(log: seq<Event>, b: Binding) {
    exists l :: 0 <= l < |log| && StandsSince(log, b, l)
  }

  lemma UnspentStays(log: seq<Event>, e: Event, c: Challenge)
    requires Unspent(log, c) && !e.AuthorizeAllowed?
    ensures Unspent(log + [e], c)
  {
    var q :| 0 <= q < |log| && UnspentSince(log, c, q);
    assert UnspentSince(log + [e], c, q);
  }

  lemma PresentedStays(log: seq<Event>, e: Event, c: Challenge, j: nat)
    requires j < |log| && PresentedAt(log, c, j)
    ensures PresentedAt(log + [e], c, j)
  {
    assert (log + [e])[..j] == log[..j];
  }

  lemma VerifiedStays(log: seq<Event>, e: Event, at: nat, c: Challenge)
    requires WasVerified(log, at, c)
    ensures WasVerified(log + [e], at, c)
  {
    var k :| 0 <= k < |log| && VerifiedAt(log, at, c, k);
    PresentedStays(log, e, c, at);
    assert VerifiedAt(log + [e], at, c, k);
  }

  lemma StandsStays(log: seq<Event>, e: Event, b: Binding)
    requires Stands(log, b) && e != Revoked
    ensures Stands(log + [e], b)
  {
    var l :| 0 <= l < |log| && StandsSince(log, b, l);
    assert (log + [e])[..l] == log[..l];
    assert StandsSince(log + [e], b, l);
  }

  // ---------- the invariant ----------

  /** A start is preceded by a subscription and an authorization, and when required by a device that still stands. */
  ghost predicate StartJustified(before: seq<Event>, requiresDeviceAuth: bool) {
    && Subscribed in before && Authorized in before && Started !in before
    && (requiresDeviceAuth ==> exists b :: Stands(before, b))
  }

  /** What each kind of event needs before it. */
  ghost predicate EventJustified(log: seq<Event>, n: nat, requiresDeviceAuth: bool)
    requires n < |log|
  {
    match log[n]
    case Started => StartJustified(log[..n], requiresDeviceAuth)
    case Presented(_, _, _, c) => PresentedAt(log, c, n)
    case AuthorizeAllowed(_, _, _) => BoundAt(log, n)
    case _ => true
  }

  ghost predicate EventsJustified(log: seq<Event>, requiresDeviceAuth: bool) {
    forall n :: 0 <= n < |log| ==> EventJustified(log, n, requiresDeviceAuth)
  }

  ghost predicate TaskJustified(log: seq<Event>, t: Task) {
    match t
    case Verifying(at, b, c) => at < |log| && c.binding == b && PresentedAt(log, c, at)
    case Authorizing(at, b, c) => c.binding == b && WasVerified(log, at, c)
    case _ => true
  }

  ghost predicate CoreJustified(s: State) {
    && (s.core.subscribed ==> Subscribed in s.log)
    && (s.core.authorized ==> Authorized in s.log)
    && (s.core.initialized <==> Started in s.log)
    && (s.core.pending.Some? ==> Unspent(s.log, s.core.pending.value))
    && (s.core.deviceSession.Some? ==> Stands(s.log, s.core.deviceSession.value))
    && (s.core.requiresDeviceAuth ==> (s.core.deviceAuthorized <==> s.core.deviceSession.Some?))
  }

  ghost predicate TasksJustified(tasks: map<nat, Task>, nextTask: nat, log: seq<Event>) {
    forall t :: t in tasks ==> t < nextTask && TaskJustified(log, tasks[t])
  }

  ghost predicate Inv(s: State) {
    && CoreJustified(s)
    && EventsJustified(s.log, s.core.requiresDeviceAuth)
    && TasksJustified(s.tasks, s.nextTask, s.log)
  }

  lemma TasksStayJustified(s: State, e: Event)
    requires TasksJustified(s.tasks, s.nextTask, s.log)
    ensures TasksJustified(s.tasks, s.nextTask, s.log + [e])
  {
    forall t | t in s.tasks ensures TaskJustified(s.log + [e], s.tasks[t]) {
      match s.tasks[t]
      case Verifying(at, _, c) => PresentedStays(s.log, e, c, at);
      case Authorizing(at, _, c) => VerifiedStays(s.log, e, at, c);
      case _ =>
    }
  }

  lemma EventStaysJustified(log: seq<Event>, e: Event, n: nat, requiresDeviceAuth: bool)
    requires n < |log| && EventJustified(log, n, requiresDeviceAuth)
    ensures EventJustified(log + [e], n, requiresDeviceAuth)
  {
    assert (log + [e])[..n] == log[..n];
  }

  lemma EventsStayJustified(log: seq<Event>, e: Event, requiresDeviceAuth: bool)
    requires EventsJustified(log, requiresDeviceAuth)
    requires EventJustified(log + [e], |log|, requiresDeviceAuth)
    ensures EventsJustified(log + [e], requiresDeviceAuth)
  {
    forall n | 0 <= n < |log| ensures EventJustified(log + [e], n, requiresDeviceAuth) {
      EventStaysJustified(log, e, n, requiresDeviceAuth);
    }
  }

  /** Recording an event keeps the invariant when it and the new fields are justified by the longer log. */
  lemma RecordKeeps(s: State, core: Core, e: Event)
    requires Inv(s) && core.requiresDeviceAuth == s.core.requiresDeviceAuth
    requires CoreJustified(Record(s, core, e))
    requires EventJustified(s.log + [e], |s.log|, core.requiresDeviceAuth)
    ensures Inv(Record(s, core, e))
  {
    TasksStayJustified(s, e);
    EventsStayJustified(s.log, e, core.requiresDeviceAuth);
  }

  /** Events that bind, revoke and start nothing leave a standing device standing and a challenge unspent. */
  lemma CoreStaysJustified(s: State, core: Core, e: Event)
    requires CoreJustified(s) && !e.AuthorizeAllowed? && e != Revoked && e != Started
    requires core.requiresDeviceAuth == s.core.requiresDeviceAuth && core.initialized == s.core.initialized
    requires core.deviceSession == s.core.deviceSession && core.deviceAuthorized == s.core.deviceAuthorized
    requires core.subscribed ==> s.core.subscribed || e == Subscribed
    requires core.authorized ==> s.core.authorized || e == Authorized
    requires core.pending.Some? ==> core.pending == s.core.pending || e == Issued(core.pending.value)
    ensures CoreJustified(Record(s, core, e))
  {
    if s.core.deviceSession.Some? {
      StandsStays(s.log, e, s.core.deviceSession.value);
    }
    if core.pending.Some? {
      if core.pending == s.core.pending {
        UnspentStays(s.log, e, core.pending.value);
      } else {
        assert UnspentSince(s.log + [e], core.pending.value, |s.log|);
      }
    }
  }

  lemma BeginKeeps(s: State, t: Task)
    requires Inv(s) && TaskJustified(s.log, t)
    ensures Inv(Begin(s, t))
  {
  }

  lemma ContinueKeeps(s: State, task: nat, t: Task)
    requires Inv(s) && task in s.tasks && TaskJustified(s.log, t)
    ensures Inv(Continue(s, task, t))
  {
  }

  lemma DropKeeps(s: State, task: nat)
    requires Inv(s)
    ensures Inv(s.(tasks := s.tasks - {task}))
  {
  }

  lemma SimpleRecordKeeps(s: State, core: Core, e: Event)
    requires Inv(s) && (e.Subscribed? || e.Authorized? || e.Issued?)
    requires core == s.core.(subscribed := core.subscribed, authorized := core.authorized, pending := core.pending)
    requires core.subscribed ==> s.core.subscribed || e == Subscribed
    requires core.authorized ==> s.core.authorized || e == Authorized
    requires core.pending.Some? ==> core.pending == s.core.pending || e == Issued(core.pending.value)
    ensures Inv(Begin(Record(s, core, e), Finishing))
  {
    CoreStaysJustified(s, core, e);
    RecordKeeps(s, core, e);
    BeginKeeps(Record(s, core, e), Finishing);
  }

  lemma MessageKeeps(s: State, a: Action)
    requires Inv(s) && (a.Subscribe? || a.Authorize? || a.RequestChallenge? || a.OtherMessage?)
    ensures Inv(Step(s, a))
  {
    match a
    case Subscribe => SimpleRecordKeeps(s, s.core.(subscribed := true), Subscribed);
    case Authorize => SimpleRecordKeeps(s, s.core.(authorized := true), Authorized);
    case RequestChallenge(c) => SimpleRecordKeeps(s, s.core.(pending := Some(c)), Issued(c));
    case OtherMessage => BeginKeeps(s, Finishing);
  }

  lemma PresentedNow(log: seq<Event>, c: Challenge, now: int)
    requires Unspent(log, c) && now <= c.expiresAt
    ensures PresentedAt(log + [Presented(c.binding, c.id, now, c)], c, |log|)
  {
    var e := Presented(c.binding, c.id, now, c);
    assert (log + [e])[..|log|] == log && PresentedTime(e) == now;
  }

  lemma PresentKeeps(s: State, b: Binding, challengeId: string, now: int)
    requires Inv(s) && Matches(s.core, b, challengeId, now)
    ensures var c := s.core.pending.value;
      Inv(Begin(Record(s, s.core, Presented(b, challengeId, now, c)), Verifying(|s.log|, b, c)))
  {
    var c := s.core.pending.value;
    var e := Presented(b, challengeId, now, c);
    PresentedNow(s.log, c, now);
    CoreStaysJustified(s, s.core, e);
    RecordKeeps(s, s.core, e);
    BeginKeeps(Record(s, s.core, e), Verifying(|s.log|, b, c));
  }

  lemma VerifiedNow(log: seq<Event>, at: nat, c: Challenge)
    requires at < |log| && PresentedAt(log, c, at)
    ensures WasVerified(log + [VerifyAllowed(at, c.binding, c)], at, c)
  {
    var e := VerifyAllowed(at, c.binding, c);
    PresentedStays(log, e, c, at);
    assert VerifiedAt(log + [e], at, c, |log|);
  }

  lemma VerifyKeeps(s: State, task: nat)
    requires Inv(s) && task in s.tasks && s.tasks[task].Verifying?
    ensures var Verifying(at, b, c) := s.tasks[task];
      Inv(Continue(Record(s, s.core, VerifyAllowed(at, b, c)), task, Authorizing(at, b, c)))
  {
    assert TaskJustified(s.log, s.tasks[task]);
    var Verifying(at, b, c) := s.tasks[task];
    var e := VerifyAllowed(at, b, c);
    CoreStaysJustified(s, s.core, e);
    RecordKeeps(s, s.core, e);
    VerifiedNow(s.log, at, c);
    ContinueKeeps(Record(s, s.core, e), task, Authorizing(at, b, c));
  }

  lemma BoundNow(log: seq<Event>, at: nat, c: Challenge)
    requires WasVerified(log, at, c)
    ensures var longer := log + [AuthorizeAllowed(at, c.binding, c)];
      BoundAt(longer, |log|) && Stands(longer, c.binding)
  {
    var longer := log + [AuthorizeAllowed(at, c.binding, c)];
    assert longer[..|log|] == log;
    assert StandsSince(longer, c.binding, |log|);
  }

  lemma BindKeeps(s: State, task: nat)
    requires Inv(s) && task in s.tasks && s.tasks[task].Authorizing?
    ensures var Authorizing(at, b, c) := s.tasks[task];
      Inv(Continue(Record(s, Bound(s.core, b), AuthorizeAllowed(at, b, c)), task, Finishing))
  {
    assert TaskJustified(s.log, s.tasks[task]);
    var Authorizing(at, b, c) := s.tasks[task];
    var core, e := Bound(s.core, b), AuthorizeAllowed(at, b, c);
    BoundNow(s.log, at, c);
    RecordKeeps(s, core, e);
    ContinueKeeps(Record(s, core, e), task, Finishing);
  }

  lemma AnswerKeeps(s: State, a: Action)
    requires Inv(s) && (a.VerifyAnswered? || a.AuthorizeAnswered?)
    ensures Inv(Step(s, a))
  {
    if a.task in s.tasks {
      if s.tasks[a.task].Verifying? && a.VerifyAnswered? && a.allowed {
        VerifyKeeps(s, a.task);
      } else if s.tasks[a.task].Authorizing? && a.AuthorizeAnswered? && a.allowed {
        BindKeeps(s, a.task);
      } else {
        ContinueKeeps(s, a.task, Finishing);
      }
    }
  }

  lemma UnbindKeeps(s: State)
    requires Inv(s)
    ensures Inv(Record(s, Unbound(s.core), Revoked))
  {
    if s.core.pending.Some? {
      UnspentStays(s.log, Revoked, s.core.pending.value);
    }
    RecordKeeps(s, Unbound(s.core), Revoked);
  }

  lemma StartKeeps(s: State)
    requires Inv(s) && MayStart(s.core)
    ensures Inv(Record(s, s.core.(initialized := true), Started))
  {
    if s.core.deviceSession.Some? {
      StandsStays(s.log, Started, s.core.deviceSession.value);
    }
    if s.core.pending.Some? {
      UnspentStays(s.log, Started, s.core.pending.value);
    }
    assert (s.log + [Started])[..|s.log|] == s.log;
    RecordKeeps(s, s.core.(initialized := true), Started);
  }

  lemma EndingKeeps(s: State, a: Action)
    requires Inv(s) && (a.RecheckAnswered? || a.Finish? || a.GiveUp?)
    ensures Inv(Step(s, a))
  {
    DropKeeps(s, a.task);
    var rest := s.(tasks := s.tasks - {a.task});
    if a.RecheckAnswered? {
      UnbindKeeps(rest);
    } else if a.Finish? && MayStart(s.core) {
      StartKeeps(rest);
    }
  }

  lemma StepKeeps(s: State, a: Action)
    requires Inv(s)
    ensures Inv(Step(s, a))
  {
    if a.Present? {
      if Matches(s.core, a.binding, a.challengeId, a.now) {
        PresentKeeps(s, a.binding, a.challengeId, a.now);
      } else {
        BeginKeeps(s, Finishing);
      }
    } else if a.Recheck? {
      BeginKeeps(s, Rechecking);
    } else if a.VerifyAnswered? || a.AuthorizeAnswered? {
      AnswerKeeps(s, a);
    } else if a.RecheckAnswered? || a.Finish? || a.GiveUp? {
      EndingKeeps(s, a);
    } else {
      MessageKeeps(s, a);
    }
  }

  lemma {:induction false} StepAllKeeps(s: State, actions: seq<Action>)
    requires Inv(s)
    ensures Inv(StepAll(s, actions))
    decreases |actions|
  {
    if actions != [] {
      StepKeeps(s, actions[0]);
      StepAllKeeps(Step(s, actions[0]), actions[1..]);
    }
  }

  lemma StepRequirement(s: State, a: Action)
    ensures Step(s, a).core.requiresDeviceAuth == s.core.requiresDeviceAuth
  {
  }

  lemma {:induction false} RequirementStays(s: State, actions: seq<Action>)
    ensures StepAll(s, actions).core.requiresDeviceAuth == s.core.requiresDeviceAuth
    decreases |actions|
  {
    if actions != [] {
      StepRequirement(s, actions[0]);
      RequirementStays(Step(s, actions[0]), actions[1..]);
    }
  }

  lemma RunKeeps(requiresDeviceAuth: bool, actions: seq<Action>)
    ensures Inv(Run(requiresDeviceAuth, actions))
    ensures Run(requiresDeviceAuth, actions).core.requiresDeviceAuth == requiresDeviceAuth
  {
    StepAllKeeps(State(Initial(requiresDeviceAuth), map[], 0, []), actions);
    RequirementStays(State(Initial(requiresDeviceAuth), map[], 0, []), actions);
  }

  lemma RunJustifies(requiresDeviceAuth: bool, actions: seq<Action>, n: nat)
    requires n < |Run(requiresDeviceAuth, actions).log|
    ensures EventJustified(Run(requiresDeviceAuth, actions).log, n, requiresDeviceAuth)
  {
    RunKeeps(requiresDeviceAuth, actions);
  }

  // ---------- the theorems ----------

  /** Mining starts at most once, after subscription and authorization, and when required while a device stands. */
  lemma StartsOnceAndJustified(requiresDeviceAuth: bool, actions: seq<Action>, n: nat)
    requires n < |Run(requiresDeviceAuth, actions).log| && Run(requiresDeviceAuth, actions).log[n] == Started
    ensures var log := Run(requiresDeviceAuth, actions).log;
      && StartJustified(log[..n], requiresDeviceAuth)
      && forall m :: 0 <= m < |log| && log[m] == Started ==> m == n
  {
    var log := Run(requiresDeviceAuth, actions).log;
    RunJustifies(requiresDeviceAuth, actions, n);
    forall m | 0 <= m < |log| && log[m] == Started ensures m == n {
      RunJustifies(requiresDeviceAuth, actions, m);
      StartsAreOne(log, m, n);
    }
  }

  lemma StartsAreOne(log: seq<Event>, m: nat, n: nat)
    requires m < |log| && n < |log| && log[m] == log[n] == Started
    requires Started !in log[..m] && Started !in log[..n]
    ensures m == n
  {
    EarlierAreIn(log);
  }

  lemma EarlierAreIn(log: seq<Event>)
    ensures forall m, n :: 0 <= m < n < |log| ==> log[m] in log[..n]
  {
    forall m, n | 0 <= m < n < |log| ensures log[m] in log[..n] {
      assert log[..n][m] == log[m];
    }
  }

  /** And it does start: at the end of the first message that finds everything in place. */
  lemma StartsWhenReady(s: State, task: nat)
    requires task in s.tasks && s.tasks[task].Finishing?
    ensures var c := s.core;
      Step(s, Finish(task)).log == s.log + [Started]
      <==> c.subscribed && c.authorized && !c.initialized && (!c.requiresDeviceAuth || c.deviceAuthorized)
  {
  }

  /** An allowed authorization binds the device and wallet of its own message, whatever happened in between. */
  lemma AllowedAuthorizationBinds(s: State, task: nat)
    requires task in s.tasks && s.tasks[task].Authorizing?
    ensures var core := Step(s, AuthorizeAnswered(task, true)).core;
      core.deviceAuthorized && core.deviceSession == Some(s.tasks[task].binding) && core.pending.None?
    ensures Step(s, AuthorizeAnswered(task, false)).core == s.core
  {
  }

  /** A bound device and wallet were issued a challenge, presented it in time, were verified and then authorized, in
      this order, and no revocation came since. */
  lemma BoundDeviceStands(requiresDeviceAuth: bool, actions: seq<Action>)
    ensures var s := Run(requiresDeviceAuth, actions);
      s.core.deviceSession.Some? ==> Stands(s.log, s.core.deviceSession.value)
  {
    RunKeeps(requiresDeviceAuth, actions);
  }

  /** After a revocation a session that needs a device does not start until a device is authorized again. */
  lemma NoStartAfterRevocation(actions: seq<Action>, m: nat, n: nat)
    requires m < n < |Run(true, actions).log| && Run(true, actions).log[m] == Revoked && Run(true, actions).log[n] == Started
    ensures var log := Run(true, actions).log; exists l :: m < l < n && log[l].AuthorizeAllowed?
  {
    var log := Run(true, actions).log;
    RunJustifies(true, actions, n);
    var l := StandingBinding(log[..n]);
    assert log[..n][m] == Revoked && log[..n][l] == log[l];
    assert m < l;
  }

  lemma StandingBinding(log: seq<Event>) returns (l: nat)
    requires exists b :: Stands(log, b)
    ensures l < |log| && log[l].AuthorizeAllowed? && forall m :: l < m < |log| ==> log[m] != Revoked
  {
    var b :| Stands(log, b);
    l :| 0 <= l < |log| && StandsSince(log, b, l);
  }

  // ---------- how often a challenge serves ----------

  /** Once a device was bound, a challenge passes again only if it was issued since. */
  lemma SpentChallengeNeedsReissue(requiresDeviceAuth: bool, actions: seq<Action>, l: nat, p: nat)
    requires l < p < |Run(requiresDeviceAuth, actions).log|
    requires Run(requiresDeviceAuth, actions).log[l].AuthorizeAllowed? && Run(requiresDeviceAuth, actions).log[p].Presented?
    ensures var log := Run(requiresDeviceAuth, actions).log;
      exists q :: l < q < p && log[q] == Issued(log[p].challenge)
  {
    var log := Run(requiresDeviceAuth, actions).log;
    RunJustifies(requiresDeviceAuth, actions, p);
    var q :| 0 <= q < p && UnspentSince(log[..p], log[p].challenge, q);
    assert log[..p][l] == log[l] && log[..p][q] == log[q];
    assert l < q;
  }

  function AtOf(t: Task): Option<nat> {
    match t
    case Verifying(at, _, _) => Some(at)
    case Authorizing(at, _, _) => Some(at)
    case _ => None
  }

  /** No binding came of the presentation at `at` yet. */
  ghost predicate Unanswered(log: seq<Event>, at: nat) {
    forall l :: 0 <= l < |log| && log[l].AuthorizeAllowed? ==> log[l].at != at
  }

  ghost predicate TasksUnanswered(tasks: map<nat, Task>, log: seq<Event>) {
    forall t :: t in tasks && AtOf(tasks[t]).Some? ==> AtOf(tasks[t]).value < |log| && Unanswered(log, AtOf(tasks[t]).value)
  }

  ghost predicate TasksApart(tasks: map<nat, Task>) {
    forall t, u :: t in tasks && u in tasks && t != u && AtOf(tasks[t]).Some? ==> AtOf(tasks[t]) != AtOf(tasks[u])
  }

  ghost predicate BindingsApart(log: seq<Event>) {
    && (forall l :: 0 <= l < |log| && log[l].AuthorizeAllowed? ==> log[l].at < |log|)
    && (forall l, m :: 0 <= l < m < |log| && log[l].AuthorizeAllowed? && log[m].AuthorizeAllowed? ==> log[l].at != log[m].at)
  }

  /** Every presentation is answered by at most one binding. */
  ghost predicate AnsweredOnce(s: State) {
    && TasksUnanswered(s.tasks, s.log) && TasksApart(s.tasks) && BindingsApart(s.log)
    && forall t :: t in s.tasks ==> t < s.nextTask
  }

  lemma PlainRecordAnswersOnce(s: State, core: Core, e: Event)
    requires AnsweredOnce(s) && !e.AuthorizeAllowed?
    ensures AnsweredOnce(Record(s, core, e))
  {
  }

  lemma BindAnswersOnce(s: State, core: Core, task: nat, b: Binding, c: Challenge)
    requires AnsweredOnce(s) && task in s.tasks && AtOf(s.tasks[task]).Some?
    ensures AnsweredOnce(Continue(Record(s, core, AuthorizeAllowed(AtOf(s.tasks[task]).value, b, c)), task, Finishing))
  {
    var at := AtOf(s.tasks[task]).value;
    var log := s.log + [AuthorizeAllowed(at, b, c)];
    var tasks := s.tasks[task := Finishing];
    forall t | t in tasks && AtOf(tasks[t]).Some? ensures Unanswered(log, AtOf(tasks[t]).value) {
      assert Unanswered(s.log, AtOf(s.tasks[t]).value);
    }
  }

  lemma ContinueAnswersOnce(s: State, task: nat, t: Task)
    requires AnsweredOnce(s) && task in s.tasks && (AtOf(t).None? || AtOf(t) == AtOf(s.tasks[task]))
    ensures AnsweredOnce(Continue(s, task, t))
  {
  }

  lemma BeginAnswersOnce(s: State, t: Task)
    requires AnsweredOnce(s)
    requires AtOf(t).Some? ==> AtOf(t).value < |s.log| && Unanswered(s.log, AtOf(t).value)
    requires AtOf(t).Some? ==> forall u :: u in s.tasks ==> AtOf(s.tasks[u]) != AtOf(t)
    ensures AnsweredOnce(Begin(s, t))
  {
  }

  lemma PresentAnswersOnce(s: State, a: Action)
    requires AnsweredOnce(s) && a.Present? && Matches(s.core, a.binding, a.challengeId, a.now)
    ensures AnsweredOnce(Step(s, a))
  {
    var e := Presented(a.binding, a.challengeId, a.now, s.core.pending.value);
    PlainRecordAnswersOnce(s, s.core, e);
    forall u | u in s.tasks ensures AtOf(s.tasks[u]) != Some(|s.log|) {
      assert AtOf(s.tasks[u]).Some? ==> AtOf(s.tasks[u]).value < |s.log|;
    }
    BeginAnswersOnce(Record(s, s.core, e), Verifying(|s.log|, a.binding, s.core.pending.value));
  }

  lemma AnswerAnswersOnce(s: State, a: Action)
    requires AnsweredOnce(s) && (a.VerifyAnswered? || a.AuthorizeAnswered?)
    ensures AnsweredOnce(Step(s, a))
  {
    if a.task in s.tasks {
      ContinueAnswersOnce(s, a.task, Finishing);
      match s.tasks[a.task]
      case Verifying(at, b, c) =>
        PlainRecordAnswersOnce(s, s.core, VerifyAllowed(at, b, c));
        ContinueAnswersOnce(Record(s, s.core, VerifyAllowed(at, b, c)), a.task, Authorizing(at, b, c));
      case Authorizing(at, b, c) => BindAnswersOnce(s, Bound(s.core, b), a.task, b, c);
      case _ =>
    }
  }

  lemma DropAnswersOnce(s: State, task: nat)
    requires AnsweredOnce(s)
    ensures AnsweredOnce(s.(tasks := s.tasks - {task}))
  {
  }

  lemma EndingAnswersOnce(s: State, a: Action)
    requires AnsweredOnce(s) && (a.RecheckAnswered? || a.Finish? || a.GiveUp?)
    ensures AnsweredOnce(Step(s, a))
  {
    var rest := s.(tasks := s.tasks - {a.task});
    DropAnswersOnce(s, a.task);
    PlainRecordAnswersOnce(rest, Unbound(s.core), Revoked);
    PlainRecordAnswersOnce(rest, s.core.(initialized := true), Started);
  }

  lemma MessageAnswersOnce(s: State, a: Action)
    requires AnsweredOnce(s) && (a.Subscribe? || a.Authorize? || a.RequestChallenge? || a.OtherMessage? || a.Recheck?)
    ensures AnsweredOnce(Step(s, a))
  {
    match a
    case Subscribe =>
      PlainRecordAnswersOnce(s, s.core.(subscribed := true), Subscribed);
      BeginAnswersOnce(Record(s, s.core.(subscribed := true), Subscribed), Finishing);
    case Authorize =>
      PlainRecordAnswersOnce(s, s.core.(authorized := true), Authorized);
      BeginAnswersOnce(Record(s, s.core.(authorized := true), Authorized), Finishing);
    case RequestChallenge(c) =>
      PlainRecordAnswersOnce(s, s.core.(pending := Some(c)), Issued(c));
      BeginAnswersOnce(Record(s, s.core.(pending := Some(c)), Issued(c)), Finishing);
    case OtherMessage => BeginAnswersOnce(s, Finishing);
    case Recheck => BeginAnswersOnce(s, Rechecking);
  }

  lemma StepAnswersOnce(s: State, a: Action)
    requires AnsweredOnce(s)
    ensures AnsweredOnce(Step(s, a))
  {
    if a.Present? {
      if Matches(s.core, a.binding, a.challengeId, a.now) {
        PresentAnswersOnce(s, a);
      } else {
        BeginAnswersOnce(s, Finishing);
      }
    } else if a.VerifyAnswered? || a.AuthorizeAnswered? {
      AnswerAnswersOnce(s, a);
    } else if a.RecheckAnswered? || a.Finish? || a.GiveUp? {
      EndingAnswersOnce(s, a);
    } else {
      MessageAnswersOnce(s, a);
    }
  }

  lemma {:induction false} RunAnswersOnce(s: State, actions: seq<Action>)
    requires AnsweredOnce(s)
    ensures AnsweredOnce(StepAll(s, actions))
    decreases |actions|
  {
    if actions != [] {
      StepAnswersOnce(s, actions[0]);
      RunAnswersOnce(Step(s, actions[0]), actions[1..]);
    }
  }

  ghost predicate IssuedOnce(log: seq<Event>, c: Challenge) {
    forall q, r :: 0 <= q < |log| && 0 <= r < |log| && log[q] == Issued(c) && log[r] == Issued(c) ==> q == r
  }

  /** A challenge issued once is presented only before the first binding that follows. */
  lemma PresentedBeforeBinding(requiresDeviceAuth: bool, actions: seq<Action>, l: nat, p: nat, issued: nat)
    requires var log := Run(requiresDeviceAuth, actions).log;
      && issued < l < |log| && p < |log| && log[l].AuthorizeAllowed? && log[p].Presented?
      && log[issued] == Issued(log[p].challenge) && IssuedOnce(log, log[p].challenge)
    ensures p < l
  {
    var log := Run(requiresDeviceAuth, actions).log;
    if l < p {
      SpentChallengeNeedsReissue(requiresDeviceAuth, actions, l, p);
    }
  }

  /** A challenge issued once binds twice only through two presentations that both came before the first binding. */
  lemma ServesTwiceOnlyIfPresentedBefore(requiresDeviceAuth: bool, actions: seq<Action>, first: nat, second: nat)
    requires var log := Run(requiresDeviceAuth, actions).log;
      && first < second < |log| && log[first].AuthorizeAllowed? && log[second].AuthorizeAllowed?
      && log[first].challenge == log[second].challenge && IssuedOnce(log, log[first].challenge)
    ensures var log := Run(requiresDeviceAuth, actions).log;
      var p, q, c := log[first].at, log[second].at, log[first].challenge;
      p != q && p < first && q < first && PresentedAt(log, c, p) && PresentedAt(log, c, q)
  {
    var log := Run(requiresDeviceAuth, actions).log;
    var c, p, q := log[first].challenge, log[first].at, log[second].at;
    RunAnswersOnce(State(Initial(requiresDeviceAuth), map[], 0, []), actions);
    RunJustifies(requiresDeviceAuth, actions, first);
    RunJustifies(requiresDeviceAuth, actions, second);
    BoundWasPresented(log, first);
    BoundWasPresented(log, second);
    var issued := PresentedWasIssued(log, c, p);
    PresentedBeforeBinding(requiresDeviceAuth, actions, first, q, issued);
  }

  lemma PresentedWasIssued(log: seq<Event>, c: Challenge, p: nat) returns (issued: nat)
    requires p < |log| && PresentedAt(log, c, p)
    ensures issued < p && log[issued] == Issued(c)
  {
    issued :| 0 <= issued < p && UnspentSince(log[..p], c, issued);
    assert log[..p][issued] == log[issued];
  }

  lemma BoundWasPresented(log: seq<Event>, l: nat)
    requires l < |log| && BoundAt(log, l)
    ensures log[l].at < l && PresentedAt(log, log[l].challenge, log[l].at)
  {
    var at, c := log[l].at, log[l].challenge;
    var k :| 0 <= k < l && VerifiedAt(log[..l], at, c, k);
    assert log[..l][at] == log[at] && log[..l][..at] == log[..at];
  }

  /** And such presentations do both bind, in every state with a pending challenge: it is cleared only after the second
      answer of the first handler. */
  lemma ChallengeServesTwice(s: State, b: Binding, challengeId: string, now: int)
    requires Matches(s.core, b, challengeId, now)
    ensures var c, t, u, n := s.core.pending.value, s.nextTask, s.nextTask + 1, |s.log|;
      var present := Present(b, challengeId, now);
      var verified := Step(Step(Step(Step(s, present), present), VerifyAnswered(t, true)), VerifyAnswered(u, true));
      Step(Step(verified, AuthorizeAnswered(t, true)), AuthorizeAnswered(u, true)).log
      == s.log + [Presented(b, challengeId, now, c), Presented(b, challengeId, now, c)]
               + [VerifyAllowed(n, b, c), VerifyAllowed(n + 1, b, c), AuthorizeAllowed(n, b, c), AuthorizeAllowed(n + 1, b, c)]
  {
    var c, t, u, n := s.core.pending.value, s.nextTask, s.nextTask + 1, |s.log|;
    var once := Step(s, Present(b, challengeId, now));
    var twice := Step(once, Present(b, challengeId, now));
    assert twice.tasks == s.tasks[t := Verifying(n, b, c)][u := Verifying(n + 1, b, c)] && twice.core == s.core;
    BothAnswersBind(twice, t, u);
  }

  lemma BothAnswersBind(s: State, t: nat, u: nat)
    requires t in s.tasks && u in s.tasks && t != u && s.tasks[t].Verifying? && s.tasks[u].Verifying?
    ensures var Verifying(p, b, c) := s.tasks[t];
      var Verifying(q, d, e) := s.tasks[u];
      var verified := Step(Step(s, VerifyAnswered(t, true)), VerifyAnswered(u, true));
      Step(Step(verified, AuthorizeAnswered(t, true)), AuthorizeAnswered(u, true)).log
      == s.log + [VerifyAllowed(p, b, c), VerifyAllowed(q, d, e), AuthorizeAllowed(p, b, c), AuthorizeAllowed(q, d, e)]
  {
  }
}
