/** The store of backup-browse jobs: a bounded map of records that requests create, agents pick and
    finish, and time expires. */
module Browse {
  import opened Options
  import opened Text

  type Time = int

  const SECOND := 1_000_000_000
  const QUEUED_TTL := 90 * SECOND
  const RUNNING_TTL := 360 * SECOND
  const RESULT_TTL := 600 * SECOND
  const GLOBAL_CAP := 256
  const HOST_CAP := 4

  datatype JobState = Queued | Running | Finished | Failed

  datatype Result = Result(errorKind: string, error: string, entries: seq<string>)

  datatype Request = Request(host: int, repo: string, snapshot: string, path: string)

  /** `done` is the finish time; None is Go's zero time. */
  datatype Job = Job(request: Request, state: JobState, created: Time, picked: Time, done: Option<Time>, result: Option<Result>)

  type Jobs = map<string, Job>

  const UNREACHABLE: Result := Result("agent_unreachable", "the agent has not picked this up yet", [])
  const TIMED_OUT: Result := Result("timed_out", "the agent did not finish the backup browse request in time", [])

  predicate Active(j: Job) { j.state.Queued? || j.state.Running? }

  predicate Ended(j: Job) { j.state.Finished? || j.state.Failed? }

  // ----- what each call does -----

  /** cleanupLocked for one job; None deletes it. */
  function Aged(j: Job, now: Time): Option<Job> {
    match j.state
    case Queued =>
      Some(if now - j.created > QUEUED_TTL then j.(state := Failed, done := Some(now), result := Some(UNREACHABLE)) else j)
    case Running =>
      Some(if now - j.picked > RUNNING_TTL then j.(state := Failed, done := Some(now), result := Some(TIMED_OUT)) else j)
    case _ => if j.done.Some? && now - j.done.value > RESULT_TTL then None else Some(j)
  }

  function Cleaned(m: Jobs, now: Time): Jobs {
    map id | id in m && Aged(m[id], now).Some? :: Aged(m[id], now).value
  }

  /** The time by which makeRoomLocked orders: the finish of an ended job, else its creation. */
  function AgeKey(j: Job): Time {
    if Ended(j) && j.done.Some? then j.done.value else j.created
  }

  /** `id` sorts first: an ended job before every active one, and the oldest first. */
  ghost predicate IsOldest(m: Jobs, id: string) {
    && id in m
    && forall x :: x in m ==> (Ended(m[x]) ==> Ended(m[id])) && (Ended(m[x]) == Ended(m[id]) ==> AgeKey(m[id]) <= AgeKey(m[x]))
  }

  predicate SameRequest(j: Job, q: Request) {
    j.request == q && !j.state.Failed?
  }

  function ActiveOn(m: Jobs, host: int): set<string> {
    set id | id in m && m[id].request.host == host && Active(m[id])
  }

  function Picked(m: Jobs, host: int, now: Time): Jobs {
    map id | id in m ::
      if m[id].request.host == host && m[id].state.Queued? then m[id].(state := Running, picked := now) else m[id]
  }

  predicate MayFinish(m: Jobs, host: int, id: string) {
    && id in m && m[id].request.host == host
    && (m[id].state.Running? || (m[id].state.Failed? && m[id].result.Some? && m[id].result.value.errorKind == "timed_out"))
  }

  function FinishedBy(j: Job, r: Result, now: Time): Job {
    j.(result := Some(r), done := Some(now), state := if r.error != "" then Failed else Finished)
  }

  // ----- the store's invariant -----

  ghost predicate Valid(m: Jobs) {
    && |m| <= GLOBAL_CAP
    && (forall host :: |ActiveOn(m, host)| <= HOST_CAP)
    && (forall a, b :: a in m && b in m && Active(m[a]) && Active(m[b]) && m[a].request == m[b].request ==> a == b)
    && (forall id :: id in m && Ended(m[id]) ==> m[id].done.Some? && m[id].result.Some?)
  }

  /** Nothing new: every job of `m'` was in `m`, and is active or queued only if it was. */
  ghost predicate Shrinks(m: Jobs, m': Jobs) {
    && m'.Keys <= m.Keys
    && (forall id :: id in m' ==> m'[id].request == m[id].request && (Active(m'[id]) ==> Active(m[id])))
    && (forall id :: id in m' && Ended(m'[id]) && !Ended(m[id]) ==> m'[id].done.Some? && m'[id].result.Some?)
    && (forall id :: id in m' && Ended(m[id]) ==> m'[id].done.Some? && m'[id].result.Some?)
  }

  lemma SubsetSize<T>(a: set<T>, b: set<T>)
    requires a <= b
    ensures |a| <= |b|
  {
    assert b == a + (b - a);
  }

  lemma ShrinkValid(m: Jobs, m': Jobs)
    requires Valid(m) && Shrinks(m, m')
    ensures Valid(m')
  {
    SubsetSize(m'.Keys, m.Keys);
    assert |m'| == |m'.Keys| && |m| == |m.Keys|;
    forall host ensures |ActiveOn(m', host)| <= HOST_CAP {
      SubsetSize(ActiveOn(m', host), ActiveOn(m, host));
    }
  }

  lemma CleanedValid(m: Jobs, now: Time)
    requires Valid(m)
    ensures Valid(Cleaned(m, now))
  {
    ShrinkValid(m, Cleaned(m, now));
  }

  lemma PickedValid(m: Jobs, host: int, now: Time)
    requires Valid(m)
    ensures Valid(Picked(m, host, now))
  {
    ShrinkValid(m, Picked(m, host, now));
  }

  lemma FinishedValid(m: Jobs, host: int, id: string, r: Result, now: Time)
    requires Valid(m) && MayFinish(m, host, id)
    ensures Valid(m[id := FinishedBy(m[id], r, now)])
  {
    ShrinkValid(m, m[id := FinishedBy(m[id], r, now)]);
  }

  function Fresh(q: Request, now: Time): Job {
    Job(q, Queued, now, 0, None, None)
  }

  lemma CreatedActive(m: Jobs, id: string, q: Request, now: Time, host: int)
    requires id !in m
    ensures ActiveOn(m[id := Fresh(q, now)], host) == if host == q.host then ActiveOn(m, host) + {id} else ActiveOn(m, host)
  {}

  /** A new job fits if its request is not active, its host has a free place and the store has room. */
  lemma CreatedValid(m: Jobs, id: string, q: Request, now: Time)
    requires Valid(m) && id !in m && |m| < GLOBAL_CAP && |ActiveOn(m, q.host)| < HOST_CAP
    requires forall x :: x in m ==> !(m[x].request == q && Active(m[x]))
    ensures Valid(m[id := Fresh(q, now)])
  {
    hide ActiveOn;
    var m' := m[id := Fresh(q, now)];
    assert m'.Keys == m.Keys + {id};
    forall host ensures |ActiveOn(m', host)| <= HOST_CAP { CreatedActive(m, id, q, now, host); }
  }

  // ----- which job answers a repeated request -----

  /** A finished job before an active one, then the newer, then the greater id. */
  predicate Beats(ida: string, a: Job, idb: string, b: Job) {
    || (a.state.Finished? && !b.state.Finished?)
    || (a.state.Finished? == b.state.Finished? && (a.created > b.created || (a.created == b.created && Before(idb, ida))))
  }

  lemma BeatsTransitive(ida: string, a: Job, idb: string, b: Job, idc: string, c: Job)
    requires Beats(ida, a, idb, b) && Beats(idb, b, idc, c)
    ensures Beats(ida, a, idc, c)
  {
    if Before(idb, ida) && Before(idc, idb) { BeforeTransitive(idc, idb, ida); }
  }

  /** The best answer among the jobs `ids`. */
  ghost predicate IsBest(m: Jobs, ids: set<string>, q: Request, best: Option<string>) {
    && ids <= m.Keys
    && (best.None? ==> forall x :: x in ids ==> !SameRequest(m[x], q))
    && (best.Some? ==> best.value in ids && SameRequest(m[best.value], q))
    && (best.Some? ==> forall x :: x in ids && SameRequest(m[x], q) ==> !Beats(x, m[x], best.value, m[best.value]))
  }

  lemma BestStep(m: Jobs, ids: set<string>, q: Request, best: Option<string>, id: string)
    requires IsBest(m, ids, q, best) && id in m && id !in ids
    ensures var better := SameRequest(m[id], q) && (best.None? || Beats(id, m[id], best.value, m[best.value]));
      IsBest(m, ids + {id}, q, if better then Some(id) else best)
  {
    var better := SameRequest(m[id], q) && (best.None? || Beats(id, m[id], best.value, m[best.value]));
    if better {
      BeforeIrreflexive(id);
      forall x | x in ids + {id} && SameRequest(m[x], q) ensures !Beats(x, m[x], id, m[id]) {
        if x != id && best.Some? && Beats(x, m[x], id, m[id]) {
          BeatsTransitive(x, m[x], id, m[id], best.value, m[best.value]);
          assert false;
        }
      }
    }
  }

  // ----- one call as a relation between stores -----

  datatype CreateError = HostCap | GlobalCap | NoRandom
  datatype Created = Reused(id: string, job: Job) | New(id: string, job: Job) | Refused(error: CreateError)

  /** The store has room, or gets it by evicting an oldest ended job. */
  ghost predicate Roomed(c: Jobs, r: Jobs) {
    && |r| < GLOBAL_CAP
    && (r == c || (|c| >= GLOBAL_CAP && exists v :: IsOldest(c, v) && Ended(c[v]) && r == c - {v}))
  }

  ghost predicate CreateStep(m: Jobs, q: Request, id: string, now: Time, m': Jobs, out: Created) {
    var c := Cleaned(m, now);
    match out
    case Reused(x, job) => m' == c && IsBest(c, c.Keys, q, Some(x)) && job == c[x]
    case New(x, job) =>
      && IsBest(c, c.Keys, q, None) && |ActiveOn(c, q.host)| < HOST_CAP
      && x == id && job == Fresh(q, now) && exists r :: Roomed(c, r) && m' == r[id := job]
    case Refused(HostCap) => m' == c && IsBest(c, c.Keys, q, None) && |ActiveOn(c, q.host)| >= HOST_CAP
    case Refused(GlobalCap) =>
      m' == c && IsBest(c, c.Keys, q, None) && |ActiveOn(c, q.host)| < HOST_CAP && |c| >= GLOBAL_CAP && forall x :: x in c ==> Active(c[x])
    case Refused(NoRandom) => IsBest(c, c.Keys, q, None) && |ActiveOn(c, q.host)| < HOST_CAP && Roomed(c, m')
  }

  function QueuedOn(m: Jobs, host: int): set<string> {
    set id | id in m && m[id].request.host == host && m[id].state.Queued?
  }

  lemma BestExists(m: Jobs, q: Request, id: string)
    requires IsBest(m, m.Keys, q, Some(id))
    ensures id in m
  {}

  lemma RoomedActive(c: Jobs, r: Jobs, host: int)
    requires Roomed(c, r)
    ensures |ActiveOn(r, host)| <= |ActiveOn(c, host)| && r.Keys <= c.Keys
  {
    hide IsOldest;
    SubsetSize(ActiveOn(r, host), ActiveOn(c, host));
  }

  lemma RoomedValid(c: Jobs, r: Jobs)
    requires Valid(c) && Roomed(c, r)
    ensures Valid(r)
  {
    hide ActiveOn, IsOldest;
    ShrinkValid(c, r);
  }

  lemma CreatedFits(c: Jobs, r: Jobs, q: Request, id: string, now: Time)
    requires Valid(c) && Roomed(c, r) && IsBest(c, c.Keys, q, None) && |ActiveOn(c, q.host)| < HOST_CAP && id !in c
    ensures Valid(r[id := Fresh(q, now)])
  {
    hide ActiveOn, IsOldest, Beats;
    RoomedActive(c, r, q.host);
    RoomedValid(c, r);
    CreatedValid(r, id, q, now);
  }

  /** Each job once, in the order of creation. */
  ghost predicate OldestFirst(m: Jobs, ids: seq<string>) {
    && (forall i :: 0 <= i < |ids| ==> ids[i] in m)
    && (forall i, j :: 0 <= i < j < |ids| ==> ids[i] != ids[j] && m[ids[i]].created <= m[ids[j]].created)
  }

  method Enqueue(m: Jobs, ids: seq<string>, id: string) returns (out: seq<string>)
    requires OldestFirst(m, ids) && id in m && id !in ids
    ensures OldestFirst(m, out) && forall x :: x in out <==> x in ids || x == id
  {
    var k := 0;
    while k < |ids| && m[ids[k]].created <= m[id].created
      invariant 0 <= k <= |ids| && forall i :: 0 <= i < k ==> m[ids[i]].created <= m[id].created
    {
      k := k + 1;
    }
    out := ids[..k] + [id] + ids[k..];
    InsertedOrder(m, ids, id, k);
    InsertedMembers(ids, id, k);
    hide OldestFirst;
  }

  lemma InsertedOrder(m: Jobs, ids: seq<string>, id: string, k: nat)
    requires OldestFirst(m, ids) && id in m && id !in ids && k <= |ids|
    requires forall i :: 0 <= i < k ==> m[ids[i]].created <= m[id].created
    requires k < |ids| ==> m[id].created < m[ids[k]].created
    ensures OldestFirst(m, ids[..k] + [id] + ids[k..])
  {
    var out := ids[..k] + [id] + ids[k..];
    forall i | 0 <= i < |out| ensures out[i] == if i < k then ids[i] else if i == k then id else ids[i - 1] {}
    forall i | k <= i < |ids| ensures m[id].created <= m[ids[i]].created {}
  }

  lemma InsertedMembers(ids: seq<string>, id: string, k: nat)
    requires k <= |ids|
    ensures forall x :: x in ids[..k] + [id] + ids[k..] <==> x in ids || x == id
  {
    var before, after := ids[..k], ids[k..];
    assert ids == before + after;
  }

  class BrowseStore {
    var jobs: Jobs

    constructor ()
      ensures jobs == map[] && Valid(jobs)
    {
      jobs := map[];
      new;
      assert forall host :: ActiveOn(jobs, host) == {};
    }

    method Cleanup(now: Time)
      requires Valid(jobs)
      modifies this
      ensures jobs == Cleaned(old(jobs), now) && Valid(jobs) && jobs.Keys <= old(jobs).Keys
    {
      hide Valid;
      ghost var m := jobs;
      var ids := jobs.Keys;
      while ids != {}
        invariant ids <= jobs.Keys <= m.Keys
        invariant forall id :: id in ids ==> jobs[id] == m[id]
        invariant forall id :: id in m && id !in ids ==>
          (id in jobs <==> Aged(m[id], now).Some?) && (id in jobs ==> jobs[id] == Aged(m[id], now).value)
      {
        var id :| id in ids;
        ids := ids - {id};
        var job := jobs[id];
        match job.state {
          case Queued =>
            if now - job.created > QUEUED_TTL {
              jobs := jobs[id := job.(state := Failed, done := Some(now), result := Some(UNREACHABLE))];
            }
          case Running =>
            if now - job.picked > RUNNING_TTL {
              jobs := jobs[id := job.(state := Failed, done := Some(now), result := Some(TIMED_OUT))];
            }
          case _ =>
            if job.done.Some? && now - job.done.value > RESULT_TTL {
              jobs := jobs - {id};
            }
        }
      }
      assert jobs.Keys == Cleaned(m, now).Keys;
      CleanedValid(m, now);
    }

    /** Eviction removes one ended job, one with the earliest finish, and only when the store is full. */
    method MakeRoom() returns (ok: bool)
      requires Valid(jobs)
      modifies this
      ensures Valid(jobs)
      ensures ok ==> Roomed(old(jobs), jobs)
      ensures !ok ==> jobs == old(jobs) && |jobs| >= GLOBAL_CAP && forall id :: id in jobs ==> Active(jobs[id])
    {
      if |jobs| < GLOBAL_CAP { return true; }
      var first := Oldest();
      if Active(jobs[first]) { return false; }
      assert |jobs.Keys - {first}| == |jobs.Keys| - 1;
      ShrinkValid(jobs, jobs - {first});
      jobs := jobs - {first};
      return true;
    }

    /** The first job in the order of makeRoomLocked's sort. */
    method Oldest() returns (first: string)
      requires jobs != map[]
      ensures IsOldest(jobs, first)
    {
      var ids := jobs.Keys;
      first :| first in ids;
      ids := ids - {first};
      while ids != {}
        invariant ids <= jobs.Keys && first in jobs && first !in ids
        invariant forall x :: x in jobs && x !in ids ==>
          (Ended(jobs[x]) ==> Ended(jobs[first])) && (Ended(jobs[x]) == Ended(jobs[first]) ==> AgeKey(jobs[first]) <= AgeKey(jobs[x]))
      {
        var id :| id in ids;
        ids := ids - {id};
        var a, b := jobs[id], jobs[first];
        if Ended(a) != Ended(b) {
          if Ended(a) { first := id; }
        } else if AgeKey(a) < AgeKey(b) {
          first := id;
        }
      }
    }

    /** `id` is a new random identifier, if one could be drawn. An eviction for a job without one stands. */
    method Create(q: Request, drawn: bool, id: string, now: Time) returns (out: Created)
      requires Valid(jobs) && id !in jobs
      modifies this
      ensures Valid(jobs) && CreateStep(old(jobs), q, id, now, jobs, out)
      ensures (out.New? ==> drawn) && (out == Refused(NoRandom) ==> !drawn)
    {
      hide Cleaned, IsBest, ActiveOn, Roomed, Valid;
      Cleanup(now);
      ghost var c := jobs;
      var reusable, active := Survey(q);
      if reusable.Some? {
        BestExists(c, q, reusable.value);
        return Reused(reusable.value, jobs[reusable.value]);
      }
      if active >= HOST_CAP { return Refused(HostCap); }
      var room := MakeRoom();
      if !room { return Refused(GlobalCap); }
      if !drawn { return Refused(NoRandom); }
      CreatedFits(c, jobs, q, id, now);
      var job := Job(q, Queued, now, 0, None, None);
      jobs := jobs[id := job];
      return New(id, job);
    }

    /** One pass over the jobs: the best answer to a repeated request, and the host's active jobs. */
    method Survey(q: Request) returns (reusable: Option<string>, active: nat)
      ensures IsBest(jobs, jobs.Keys, q, reusable)
      ensures active == |ActiveOn(jobs, q.host)|
    {
      reusable, active := None, 0;
      var ids := jobs.Keys;
      ghost var counted: set<string> := {};
      while ids != {}
        invariant ids <= jobs.Keys && IsBest(jobs, jobs.Keys - ids, q, reusable)
        invariant counted == (set x | x in jobs.Keys - ids && jobs[x].request.host == q.host && Active(jobs[x])) && active == |counted|
      {
        var id :| id in ids;
        BestStep(jobs, jobs.Keys - ids, q, reusable, id);
        assert jobs.Keys - (ids - {id}) == jobs.Keys - ids + {id};
        ids := ids - {id};
        var job := jobs[id];
        if SameRequest(job, q) && (reusable.None? || Beats(id, job, reusable.value, jobs[reusable.value])) {
          reusable := Some(id);
        }
        if job.request.host == q.host && Active(job) {
          counted := counted + {id};
          active := active + 1;
        }
      }
      assert jobs.Keys - ids == jobs.Keys;
      assert counted == ActiveOn(jobs, q.host);
    }

    method HasPending(host: int, now: Time) returns (pending: bool)
      requires Valid(jobs)
      modifies this
      ensures Valid(jobs) && jobs == Cleaned(old(jobs), now) && (pending <==> QueuedOn(jobs, host) != {})
    {
      Cleanup(now);
      var ids := jobs.Keys;
      while ids != {}
        invariant ids <= jobs.Keys && forall x :: x in jobs && x !in ids ==> x !in QueuedOn(jobs, host)
      {
        var id :| id in ids;
        ids := ids - {id};
        if jobs[id].request.host == host && jobs[id].state.Queued? {
          assert id in QueuedOn(jobs, host);
          return true;
        }
      }
      return false;
    }

    /** All queued jobs of the host go out, oldest first, and are running from now on. */
    method Pick(host: int, now: Time) returns (out: seq<string>)
      requires Valid(jobs)
      modifies this
      ensures Valid(jobs)
      ensures jobs == Picked(Cleaned(old(jobs), now), host, now)
      ensures OldestFirst(Cleaned(old(jobs), now), out) && (forall x :: x in out <==> x in QueuedOn(Cleaned(old(jobs), now), host))
    {
      hide Cleaned, Valid;
      Cleanup(now);
      ghost var c := jobs;
      out := SortedQueue(host);
      for i := 0 to |out|
        invariant jobs.Keys == c.Keys
        invariant forall x :: x in c ==> jobs[x] == if x in out[..i] then Picked(c, host, now)[x] else c[x]
      {
        assert out[..i + 1] == out[..i] + [out[i]];
        var id := out[i];
        assert id in QueuedOn(c, host) && id !in out[..i];
        jobs := jobs[id := jobs[id].(state := Running, picked := now)];
      }
      assert out[..|out|] == out;
      assert jobs.Keys == Picked(c, host, now).Keys;
      assert jobs == Picked(c, host, now);
      PickedValid(c, host, now);
    }

    method SortedQueue(host: int) returns (out: seq<string>)
      ensures OldestFirst(jobs, out) && forall x :: x in out <==> x in QueuedOn(jobs, host)
    {
      out := [];
      var ids := jobs.Keys;
      while ids != {}
        invariant ids <= jobs.Keys && OldestFirst(jobs, out)
        invariant forall x :: x in out <==> x in QueuedOn(jobs, host) && x !in ids
      {
        var id :| id in ids;
        ids := ids - {id};
        if jobs[id].request.host == host && jobs[id].state.Queued? {
          out := Enqueue(jobs, out, id);
        }
      }
    }

    method Finish(host: int, id: string, result: Result, now: Time) returns (ok: bool)
      requires Valid(jobs)
      modifies this
      ensures Valid(jobs)
      ensures var c := Cleaned(old(jobs), now);
        ok == MayFinish(c, host, id) && jobs == if ok then c[id := FinishedBy(c[id], result, now)] else c
    {
      Cleanup(now);
      if id !in jobs { return false; }
      var job := jobs[id];
      var late := job.state.Failed? && job.result.Some? && job.result.value.errorKind == "timed_out";
      if job.request.host != host || (!job.state.Running? && !late) { return false; }
      FinishedValid(jobs, host, id, result, now);
      jobs := jobs[id := job.(result := Some(result), done := Some(now), state := if result.error != "" then Failed else Finished)];
      return true;
    }

    method Get(host: int, id: string, now: Time) returns (job: Option<Job>)
      requires Valid(jobs)
      modifies this
      ensures Valid(jobs) && jobs == Cleaned(old(jobs), now)
      ensures job == if id in jobs && jobs[id].request.host == host then Some(jobs[id]) else None
    {
      Cleanup(now);
      if id !in jobs || jobs[id].request.host != host { return None; }
      return Some(jobs[id]);
    }
  }

  // ----- whole runs -----

  datatype Op =
    | Creating(request: Request, newId: string)
    | Picking(host: int)
    | Finishing(host: int, id: string, result: Result)
    | Looking

  datatype Call = Call(op: Op, now: Time, created: Option<Created>)

  ghost predicate Next(m: Jobs, c: Call, m': Jobs) {
    match c.op
    case Creating(q, id) => c.created.Some? && CreateStep(m, q, id, c.now, m', c.created.value)
    case Picking(host) => m' == Picked(Cleaned(m, c.now), host, c.now)
    case Finishing(host, id, r) =>
      var k := Cleaned(m, c.now);
      m' == if MayFinish(k, host, id) then k[id := FinishedBy(k[id], r, c.now)] else k
    case Looking => m' == Cleaned(m, c.now)
  }

  /** Stores linked by calls, from an empty one; identifiers of new jobs never recur. */
  ghost predicate IsRun(ms: seq<Jobs>, cs: seq<Call>) {
    && |ms| == |cs| + 1 && ms[0] == map[]
    && (forall i :: 0 <= i < |cs| ==> Next(ms[i], cs[i], ms[i + 1]))
    && (forall i :: 0 <= i < |cs| && cs[i].op.Creating? ==>
          forall j :: 0 <= j <= i ==> cs[i].op.newId !in ms[j])
  }

  predicate HandsOut(m: Jobs, c: Call, id: string) {
    c.op.Picking? && id in QueuedOn(Cleaned(m, c.now), c.op.host)
  }

  lemma StepValid(m: Jobs, c: Call, m': Jobs)
    requires Valid(m) && Next(m, c, m') && (c.op.Creating? ==> c.op.newId !in m)
    ensures Valid(m')
  {
    hide Valid, IsBest, ActiveOn, Aged, Roomed;
    var k := Cleaned(m, c.now);
    CleanedValid(m, c.now);
    match c.op
    case Creating(q, id) =>
      if c.created.value.New? {
        var r :| Roomed(k, r) && m' == r[id := Fresh(q, c.now)];
        CreatedFits(k, r, q, id, c.now);
      } else if c.created.value == Refused(NoRandom) {
        RoomedValid(k, m');
      }
    case Picking(host) => PickedValid(k, host, c.now);
    case Finishing(host, id, r) => if MayFinish(k, host, id) { FinishedValid(k, host, id, r, c.now); }
    case Looking =>
  }

  /** Over every run: at most 256 jobs, at most 4 active per host, never two active jobs for one request. */
  lemma {:induction false} StoreStaysBounded(ms: seq<Jobs>, cs: seq<Call>, i: nat)
    requires IsRun(ms, cs) && i < |ms|
    ensures forall j :: 0 <= j <= i ==> Valid(ms[j])
  {
    EmptyValid();
    if i > 0 {
      StoreStaysBounded(ms, cs, i - 1);
      StepValid(ms[i - 1], cs[i - 1], ms[i]);
    }
    hide Valid, Next;
  }

  lemma EmptyValid()
    ensures Valid(map[])
  {
    assert forall host :: ActiveOn(map[], host) == {};
  }

  lemma CleanOnJob(m: Jobs, now: Time, id: string)
    ensures var k := Cleaned(m, now); id in k ==>
      && id in m && k[id].request == m[id].request
      && (k[id].state.Queued? ==> m[id].state.Queued?)
      && (m[id].state.Finished? ==> k[id] == m[id])
  {}

  lemma CreateOnJob(m: Jobs, c: Call, m': Jobs, id: string)
    requires c.op.Creating? && c.op.newId != id && Next(m, c, m')
    ensures id in m' ==> id in Cleaned(m, c.now) && m'[id] == Cleaned(m, c.now)[id]
  {
    hide Cleaned, IsBest, ActiveOn, IsOldest;
    if c.created.value.New? {
      var r :| Roomed(Cleaned(m, c.now), r) && m' == r[c.op.newId := Fresh(c.op.request, c.now)];
    }
  }

  /** How one job may change in a call that did not create it. */
  lemma StepOnJob(m: Jobs, c: Call, m': Jobs, id: string)
    requires Next(m, c, m') && (c.op.Creating? ==> c.op.newId != id)
    ensures id in m' ==> id in m && m'[id].request == m[id].request
    ensures id in m' && m'[id].state.Queued? ==> m[id].state.Queued? && !HandsOut(m, c, id)
    ensures id in m' && m[id].state.Finished? ==> m'[id] == m[id]
  {
    hide Cleaned, CreateStep;
    CleanOnJob(m, c.now, id);
    if c.op.Creating? { CreateOnJob(m, c, m', id); }
  }

  lemma {:induction false} NeverQueuedAgain(ms: seq<Jobs>, cs: seq<Call>, id: string, i: nat, j: nat)
    requires IsRun(ms, cs) && i <= j < |ms| && id in ms[i] && !ms[i][id].state.Queued?
    ensures id in ms[j] ==> !ms[j][id].state.Queued?
  {
    if i < j {
      NeverQueuedAgain(ms, cs, id, i, j - 1);
      assert cs[j - 1].op.Creating? ==> cs[j - 1].op.newId !in ms[i];
      StepOnJob(ms[j - 1], cs[j - 1], ms[j], id);
    }
  }

  /** Each job is handed out at most once, and only to its own host. */
  lemma HandedOutOnce(ms: seq<Jobs>, cs: seq<Call>, id: string, i: nat, j: nat)
    requires IsRun(ms, cs) && i < |cs| && j < |cs| && HandsOut(ms[i], cs[i], id) && HandsOut(ms[j], cs[j], id)
    ensures i == j && id in ms[i] && ms[i][id].request.host == cs[i].op.host
  {
    if i < j {
      NeverQueuedAgain(ms, cs, id, i + 1, j);
    } else if j < i {
      NeverQueuedAgain(ms, cs, id, j + 1, i);
    }
  }

  /** In every later state that still has the job, the record of a finished job is the same. */
  lemma {:induction false} FinishedIsFinal(ms: seq<Jobs>, cs: seq<Call>, id: string, i: nat, j: nat)
    requires IsRun(ms, cs) && i <= j < |ms| && id in ms[i] && ms[i][id].state.Finished?
    ensures id in ms[j] ==> ms[j][id] == ms[i][id]
  {
    if i < j {
      FinishedIsFinal(ms, cs, id, i, j - 1);
      assert cs[j - 1].op.Creating? ==> cs[j - 1].op.newId !in ms[i];
      StepOnJob(ms[j - 1], cs[j - 1], ms[j], id);
    }
  }

  lemma CreateEvicts(m: Jobs, c: Call, m': Jobs, id: string)
    requires c.op.Creating? && Next(m, c, m')
    ensures var k := Cleaned(m, c.now); id in k && id !in m' ==> |k| >= GLOBAL_CAP && IsOldest(k, id) && Ended(k[id])
  {
    hide Cleaned, IsBest, ActiveOn, IsOldest;
    if c.created.value.New? {
      var k := Cleaned(m, c.now);
      var r :| Roomed(k, r) && m' == r[c.op.newId := Fresh(c.op.request, c.now)];
    }
  }

  /** A job that vanishes had ended, and had expired or was an oldest ended job of a full store. */
  lemma EvictsOnlyOldestEnded(m: Jobs, c: Call, m': Jobs, id: string)
    requires Next(m, c, m') && id in m && id !in m'
    ensures Aged(m[id], c.now).None? ||
      (c.op.Creating? && |Cleaned(m, c.now)| >= GLOBAL_CAP && IsOldest(Cleaned(m, c.now), id) && Ended(Cleaned(m, c.now)[id]))
    ensures Aged(m[id], c.now).None? ==> Ended(m[id])
  {
    hide CreateStep;
    if c.op.Creating? { CreateEvicts(m, c, m', id); }
  }
}
