/** Templates and jobs of the pool: ids, staleness and pruning, over every sequence of emissions. */
module JobsService {
  import opened Bytes
  import opened Coinbase

  const STATE_TTL_MS := 300000

  /** Ids made from different counters differ. */
  lemma NatToHexInjective(a: nat, b: nat)
    requires NatToHex(a) == NatToHex(b)
    ensures a == b
  {
    ParseOfNatToHex(a);
    ParseOfNatToHex(b);
  }

  // ---------- the service's state ----------

  /** Extranonce2, time and version mask a signet job is pinned to. */
  datatype Lock = Lock(extraNonce2: string, ntime: int, versionMask: int)

  /** A job as it is registered, with its coinbase as built. */
  datatype JobRecord = JobRecord(owner: string, templateId: string, creation: int, lock: Option<Lock>, coinbase: CoinbaseTx)

  /** `blocks` holds the creation time of each retained template. */
  datatype Service = Service(
    latestJobId: nat,
    latestTemplateId: nat,
    jobs: map<string, JobRecord>,
    blocks: map<string, int>,
    stale: map<string, int>)

  const START := Service(1, 1, map[], map[], map[])

  predicate Expired(creation: int, now: int) {
    now - creation > STATE_TTL_MS
  }

  function Marked(s: Service, now: int): Service {
    s.(stale := map id | id in s.blocks.Keys + s.stale.Keys :: if id in s.stale then s.stale[id] else now)
  }

  function Pruned(s: Service, now: int): Service {
    s.(blocks := map id | id in s.blocks && !Expired(s.blocks[id], now) :: s.blocks[id],
       stale := map id | id in s.stale && !(id in s.blocks && Expired(s.blocks[id], now)) :: s.stale[id],
       jobs := map id | id in s.jobs && !Expired(s.jobs[id].creation, now) :: s.jobs[id])
  }

  /** A new template: `creation` is read when it is built, `now` when the old state is swept. */
  function Emitted(s: Service, creation: int, now: int, clearJobs: bool): Service {
    var id := NatToHex(s.latestTemplateId);
    var swept := Pruned(if clearJobs then Marked(s, now) else s, now);
    swept.(blocks := swept.blocks[id := creation], latestTemplateId := s.latestTemplateId + 1)
  }

  function WithJob(s: Service, id: string, job: JobRecord): Service {
    s.(jobs := s.jobs[id := job], latestJobId := s.latestJobId + 1)
  }

  function WithoutSession(s: Service, sessionId: string): Service {
    s.(jobs := map id | id in s.jobs && s.jobs[id].owner != sessionId :: s.jobs[id])
  }

  predicate WithinGrace(s: Service, templateId: string, now: int, graceMs: nat) {
    templateId in s.stale && now - s.stale[templateId] <= graceMs
  }

  /** A template against which a share may be checked. */
  predicate Usable(s: Service, templateId: string, now: int, graceMs: nat) {
    templateId in s.blocks && (templateId !in s.stale || WithinGrace(s, templateId, now, graceMs))
  }

  class StratumV1JobsService {
    var latestJobId: nat
    var latestJobTemplateId: nat
    var jobs: map<string, JobRecord>
    var blocks: map<string, int>
    var staleTemplateSinceMs: map<string, int>

    function View(): Service
      reads this
    {
      Service(latestJobId, latestJobTemplateId, jobs, blocks, staleTemplateSinceMs)
    }

    constructor ()
      ensures View() == START
    {
      latestJobId, latestJobTemplateId := 1, 1;
      jobs, blocks, staleTemplateSinceMs := map[], map[], map[];
    }

    method MarkTemplatesStale(now: int)
      modifies this
      ensures View() == Marked(old(View()), now)
      ensures forall id :: id in staleTemplateSinceMs <==> id in old(staleTemplateSinceMs) || id in blocks
      ensures forall id :: id in staleTemplateSinceMs ==>
        staleTemplateSinceMs[id] == if id in old(staleTemplateSinceMs) then old(staleTemplateSinceMs)[id] else now
    {
      var todo := blocks.Keys;
      ghost var before := staleTemplateSinceMs;
      while todo != {}
        invariant View() == old(View()).(stale := staleTemplateSinceMs)
        invariant todo <= blocks.Keys
        invariant staleTemplateSinceMs.Keys == before.Keys + (blocks.Keys - todo)
        invariant forall id :: id in staleTemplateSinceMs ==>
          staleTemplateSinceMs[id] == if id in before then before[id] else now
      {
        var id :| id in todo;
        if id !in staleTemplateSinceMs {
          staleTemplateSinceMs := staleTemplateSinceMs[id := now];
        }
        todo := todo - {id};
      }
    }

    method PruneOldState(now: int)
      modifies this
      ensures View() == Pruned(old(View()), now)
      ensures forall id :: id in jobs <==> id in old(jobs) && now - old(jobs)[id].creation <= 300000
      ensures forall id :: id in jobs ==> jobs[id] == old(jobs)[id]
      ensures forall id :: id in blocks <==> id in old(blocks) && now - old(blocks)[id] <= 300000
      ensures forall id :: id in blocks ==> blocks[id] == old(blocks)[id]
    {
      PruneTemplates(now);
      PruneJobs(now);
    }

    method PruneTemplates(now: int)
      modifies this
      ensures View() == Pruned(old(View()), now).(jobs := old(jobs))
    {
      var todo := blocks.Keys;
      ghost var before, since := blocks, staleTemplateSinceMs;
      while todo != {}
        invariant View() == old(View()).(blocks := blocks, stale := staleTemplateSinceMs)
        invariant todo <= blocks.Keys <= before.Keys
        invariant forall id :: id in blocks <==> id in before && (id in todo || !Expired(before[id], now))
        invariant forall id :: id in blocks ==> blocks[id] == before[id]
        invariant forall id :: id in staleTemplateSinceMs <==>
          id in since && (id in todo || !(id in before && Expired(before[id], now)))
        invariant forall id :: id in staleTemplateSinceMs ==> staleTemplateSinceMs[id] == since[id]
      {
        var id :| id in todo;
        if Expired(blocks[id], now) {
          blocks := blocks - {id};
          staleTemplateSinceMs := staleTemplateSinceMs - {id};
        }
        todo := todo - {id};
      }
    }

    method PruneJobs(now: int)
      modifies this
      ensures View() == old(View()).(jobs := Pruned(old(View()), now).jobs)
    {
      var todo := jobs.Keys;
      ghost var before := jobs;
      while todo != {}
        invariant View() == old(View()).(jobs := jobs)
        invariant todo <= jobs.Keys <= before.Keys
        invariant forall id :: id in jobs <==> id in before && (id in todo || !Expired(before[id].creation, now))
        invariant forall id :: id in jobs ==> jobs[id] == before[id]
      {
        var id :| id in todo;
        if Expired(jobs[id].creation, now) {
          jobs := jobs - {id};
        }
        todo := todo - {id};
      }
    }

    method Emit(creation: int, now: int, clearJobs: bool) returns (id: string)
      modifies this
      ensures View() == Emitted(old(View()), creation, now, clearJobs)
      ensures id == NatToHex(old(latestJobTemplateId)) && id in blocks && blocks[id] == creation
      ensures forall id :: id in jobs <==> id in old(jobs) && now - old(jobs)[id].creation <= 300000
      ensures forall id :: id in jobs ==> jobs[id] == old(jobs)[id]
      ensures forall other :: other != id ==> (other in blocks <==> other in old(blocks) && now - old(blocks)[other] <= 300000)
    {
      id := NatToHex(latestJobTemplateId);
      latestJobTemplateId := latestJobTemplateId + 1;
      if clearJobs {
        MarkTemplatesStale(now);
      }
      PruneOldState(now);
      blocks := blocks[id := creation];
    }

    method AddJob(id: string, job: JobRecord)
      modifies this
      ensures View() == WithJob(old(View()), id, job)
      ensures id in jobs && jobs[id] == job && latestJobId == old(latestJobId) + 1
      ensures forall other :: other != id ==>
        (other in jobs <==> other in old(jobs)) && (other in jobs ==> jobs[other] == old(jobs)[other])
    {
      jobs := jobs[id := job];
      latestJobId := latestJobId + 1;
    }

    method RemoveJobsBySession(sessionId: string)
      modifies this
      ensures View() == WithoutSession(old(View()), sessionId)
      ensures forall id :: id in jobs <==> id in old(jobs) && old(jobs)[id].owner != sessionId
      ensures forall id :: id in jobs ==> jobs[id] == old(jobs)[id]
    {
      var todo := jobs.Keys;
      ghost var before := jobs;
      while todo != {}
        invariant View() == old(View()).(jobs := jobs)
        invariant todo <= jobs.Keys <= before.Keys
        invariant forall id :: id in jobs <==> id in before && (id in todo || before[id].owner != sessionId)
        invariant forall id :: id in jobs ==> jobs[id] == before[id]
      {
        var id :| id in todo;
        if jobs[id].owner == sessionId {
          jobs := jobs - {id};
        }
        todo := todo - {id};
      }
    }
  }

  // ---------- staleness over a history of emissions ----------

  datatype Emission = Emission(creation: int, now: int, clearJobs: bool)

  /** Id of the i-th emission. */
  function TemplateId(i: nat): string {
    NatToHex(i + 1)
  }

  /** When the first clearing emission after the i-th came. */
  function SupersededAt(h: seq<Emission>, i: nat): Option<int> {
    if |h| <= i + 1 then None
    else
      match SupersededAt(h[..|h| - 1], i)
      case Some(t) => Some(t)
      case None => if h[|h| - 1].clearJobs then Some(h[|h| - 1].now) else None
  }

  ghost predicate FirstClear(h: seq<Emission>, i: nat, j: int) {
    i < j < |h| && h[j].clearJobs && forall k :: i < k < j ==> !h[k].clearJobs
  }

  /** Superseded exactly when a clearing emission followed, and dated by the first of them. */
  lemma {:induction false} SupersededMeans(h: seq<Emission>, i: nat)
    ensures SupersededAt(h, i).Some? <==> exists j :: FirstClear(h, i, j)
    ensures forall j :: FirstClear(h, i, j) ==> SupersededAt(h, i) == Some(h[j].now)
    ensures SupersededAt(h, i).None? ==> forall j :: i < j < |h| ==> !h[j].clearJobs
  {
    if |h| > i + 1 {
      var n := |h| - 1;
      SupersededMeans(h[..n], i);
      forall j | FirstClear(h[..n], i, j) ensures FirstClear(h, i, j) {}
      forall j | FirstClear(h, i, j) && j < n ensures FirstClear(h[..n], i, j) {}
      if SupersededAt(h[..n], i).None? {
        forall j | i < j < n ensures !h[j].clearJobs {
          assert !h[..n][j].clearJobs;
        }
        if h[n].clearJobs {
          assert FirstClear(h, i, n);
        }
      } else {
        var j :| FirstClear(h[..n], i, j);
        assert FirstClear(h, i, j);
      }
    }
  }

  /** What the maps say of the emissions so far: every retained template is one of them, and is marked stale
      exactly when a clearing emission came after it, since the first of these. */
  ghost predicate StaleMeansSuperseded(s: Service, h: seq<Emission>) {
    && s.latestTemplateId == |h| + 1
    && s.stale.Keys <= s.blocks.Keys
    && (forall id :: id in s.blocks ==> exists i: nat :: IsEmission(s, h, id, i))
    && (forall i: nat :: i < |h| && Unexpired(h, i) ==> TemplateId(i) in s.blocks)
  }

  /** No later emission found the i-th template older than the time to live. */
  ghost predicate Unexpired(h: seq<Emission>, i: nat)
    requires i < |h|
  {
    forall k :: i < k < |h| ==> !Expired(h[i].creation, h[k].now)
  }

  ghost predicate IsEmission(s: Service, h: seq<Emission>, id: string, i: nat) {
    && i < |h| && id == TemplateId(i)
    && id in s.blocks && s.blocks[id] == h[i].creation && Unexpired(h, i)
    && match SupersededAt(h, i)
       case None => id !in s.stale
       case Some(t) => id in s.stale && s.stale[id] == t
  }

  lemma EmissionKeepsEntry(s: Service, h: seq<Emission>, e: Emission, id: string, i: nat)
    requires StaleMeansSuperseded(s, h) && IsEmission(s, h, id, i)
    requires !Expired(s.blocks[id], e.now)
    ensures IsEmission(Emitted(s, e.creation, e.now, e.clearJobs), h + [e], id, i)
  {
    assert (h + [e])[..|h|] == h;
    if id == NatToHex(s.latestTemplateId) {
      NatToHexInjective(i + 1, s.latestTemplateId);
    }
  }

  lemma EmissionAddsEntry(s: Service, h: seq<Emission>, e: Emission)
    requires StaleMeansSuperseded(s, h)
    ensures TemplateId(|h|) !in s.blocks
    ensures IsEmission(Emitted(s, e.creation, e.now, e.clearJobs), h + [e], TemplateId(|h|), |h|)
  {
    if TemplateId(|h|) in s.blocks {
      var i: nat :| IsEmission(s, h, TemplateId(|h|), i);
      NatToHexInjective(i + 1, |h| + 1);
    }
  }

  /** One more emission keeps the meaning of the maps, whatever the clock shows. */
  lemma EmissionKeepsMeaning(s: Service, h: seq<Emission>, e: Emission)
    requires StaleMeansSuperseded(s, h)
    ensures StaleMeansSuperseded(Emitted(s, e.creation, e.now, e.clearJobs), h + [e])
  {
    var next := Emitted(s, e.creation, e.now, e.clearJobs);
    EmissionAddsEntry(s, h, e);
    forall id | id in next.blocks ensures exists i: nat :: IsEmission(next, h + [e], id, i) {
      if id == TemplateId(|h|) {
        assert IsEmission(next, h + [e], id, |h|);
      } else {
        var i: nat :| IsEmission(s, h, id, i);
        EmissionKeepsEntry(s, h, e, id, i);
      }
    }
    forall i: nat | i <= |h| && Unexpired(h + [e], i) ensures TemplateId(i) in next.blocks {
      if i < |h| {
        UnexpiredBefore(h, e, i);
        var j: nat :| IsEmission(s, h, TemplateId(i), j);
        NatToHexInjective(i + 1, j + 1);
      }
    }
  }

  lemma UnexpiredBefore(h: seq<Emission>, e: Emission, i: nat)
    requires i < |h| && Unexpired(h + [e], i)
    ensures Unexpired(h, i) && !Expired(h[i].creation, e.now)
  {
    forall k | i < k < |h| ensures !Expired(h[i].creation, h[k].now) {
      assert (h + [e])[k] == h[k];
    }
    assert (h + [e])[|h|] == e;
  }

  /** Whatever is emitted later, a superseded template keeps its moment; one not superseded becomes so exactly when a
      clearing emission is among the later ones. */
  lemma {:induction false} SupersededForGood(h: seq<Emission>, more: seq<Emission>, i: nat)
    requires i < |h|
    ensures SupersededAt(h, i).Some? ==> SupersededAt(h + more, i) == SupersededAt(h, i)
    ensures SupersededAt(h, i).None? ==> (SupersededAt(h + more, i).Some? <==> exists e :: e in more && e.clearJobs)
  {
    if more == [] {
      assert h + more == h;
    } else {
      var n := |more| - 1;
      SupersededForGood(h, more[..n], i);
      assert (h + more)[..|h + more| - 1] == h + more[..n];
      assert more == more[..n] + [more[n]];
    }
  }

  /** A share passes the template test exactly when its template has not expired and was not superseded, or not for long. */
  lemma UsableIff(s: Service, h: seq<Emission>, i: nat, now: int, graceMs: nat)
    requires StaleMeansSuperseded(s, h) && i < |h|
    ensures Usable(s, TemplateId(i), now, graceMs)
            <==> Unexpired(h, i) && (SupersededAt(h, i).None? || now - SupersededAt(h, i).value <= graceMs)
  {
    if TemplateId(i) in s.blocks {
      var j: nat :| IsEmission(s, h, TemplateId(i), j);
      NatToHexInjective(i + 1, j + 1);
    }
  }
}
