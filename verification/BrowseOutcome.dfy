/** The life of each browse job, what a repeated request gets, and where every record of a run comes from. */
module BrowseOutcome {
  import opened Options
  import opened Text
  import opened Browse

  // ----- one call, job by job -----

  predicate Underway(j: Job) {
    j.state == Queued || j.state == Running
  }

  /** The call is a report by the host of the job. */
  predicate Reports(c: Call, id: string, j: Job) {
    c.op.Finishing? && c.op.id == id && c.op.host == j.request.host
  }

  predicate AwaitsResult(j: Job) {
    j.state.Running? || (j.state.Failed? && j.result.Some? && j.result.value.errorKind == "timed_out")
  }

  predicate GivenUp(j: Job, kind: string, now: Time, j': Job) {
    && j' == Job(j.request, Failed, j.created, j.picked, Some(now), j'.result)
    && j'.result.Some? && j'.result.value.errorKind == kind && j'.result.value.error != "" && j'.result.value.entries == []
  }

  /** What a call makes of a job that it leaves in the store: given up when the agent took too long, running
      once its host has picked it, ended by the first report of its host, and the same otherwise. */
  predicate Becomes(j: Job, c: Call, id: string, j': Job) {
    if j.state.Queued? && c.now - j.created > 90 * SECOND then GivenUp(j, "agent_unreachable", c.now, j')
    else if j.state.Queued? && c.op == Picking(j.request.host) then j' == Job(j.request, Running, j.created, c.now, j.done, j.result)
    else if AwaitsResult(j) && Reports(c, id, j) then
      j' == Job(j.request, if c.op.result.error == "" then Finished else Failed, j.created, j.picked, Some(c.now), Some(c.op.result))
    else if j.state.Running? && c.now - j.picked > 360 * SECOND then GivenUp(j, "timed_out", c.now, j')
    else j' == j
  }

  /** A job is kept for ten minutes after its end. */
  predicate Expired(j: Job, now: Time) {
    !Underway(j) && j.done.Some? && now - j.done.value > 600 * SECOND
  }

  /** The store as a call at that time finds it. */
  ghost predicate FoundAt(m: Jobs, now: Time, k: Jobs) {
    Next(m, Call(Looking, now, None), k)
  }

  /** The call makes room in a full store, and of the ended jobs there none ended earlier. */
  ghost predicate Evicted(m: Jobs, c: Call, id: string) {
    && c.op.Creating?
    && exists k :: FoundAt(m, c.now, k) && |k| >= 256 && id in k && EndedFirst(k, id)
  }

  predicate EndedFirst(k: Jobs, id: string)
    requires id in k
  {
    && !Underway(k[id]) && k[id].done.Some?
    && forall x :: x in k && !Underway(k[x]) ==> k[x].done.Some? && k[id].done.value <= k[x].done.value
  }

  lemma AgedBecomes(m: Jobs, now: Time, id: string)
    requires id in m
    ensures var k := Cleaned(m, now);
      && (id in k <==> !Expired(m[id], now))
      && (id in k ==> Becomes(m[id], Call(Looking, now, None), id, k[id]))
  {}

  lemma OldestEndedFirst(k: Jobs, id: string)
    requires Valid(k) && IsOldest(k, id) && Ended(k[id])
    ensures EndedFirst(k, id)
  {
    forall x | x in k && !Underway(k[x]) ensures k[x].done.Some? && k[id].done.value <= k[x].done.value {
      assert Ended(k[x]) && Ended(k[id]);
    }
  }

  lemma FinishBecomes(m: Jobs, c: Call, m': Jobs, id: string)
    requires c.op.Finishing? && Next(m, c, m') && id in m
    ensures id in m' <==> !Expired(m[id], c.now)
    ensures id in m' ==> Becomes(m[id], c, id, m'[id])
  {}

  lemma PickBecomes(m: Jobs, c: Call, m': Jobs, id: string)
    requires c.op.Picking? && Next(m, c, m') && id in m
    ensures id in m' <==> !Expired(m[id], c.now)
    ensures id in m' ==> Becomes(m[id], c, id, m'[id])
  {}

  lemma CreateBecomes(m: Jobs, c: Call, m': Jobs, id: string)
    requires c.op.Creating? && c.op.newId != id && Valid(m) && Next(m, c, m') && id in m
    ensures id in m' ==> !Expired(m[id], c.now) && Becomes(m[id], c, id, m'[id])
    ensures id !in m' ==> Expired(m[id], c.now) || Evicted(m, c, id)
  {
    var k := Cleaned(m, c.now);
    hide CreateStep, Cleaned, Valid, EndedFirst, IsOldest;
    AgedBecomes(m, c.now, id);
    CreateOnJob(m, c, m', id);
    if id in k && id !in m' {
      CleanedValid(m, c.now);
      CreateEvicts(m, c, m', id);
      OldestEndedFirst(k, id);
      assert FoundAt(m, c.now, k);
    }
  }

  /** Every call changes every job that it does not create in exactly this way, and removes only those that
      expired and one that it evicts. */
  lemma JobChangesExactly(m: Jobs, c: Call, m': Jobs, id: string)
    requires Valid(m) && Next(m, c, m') && id in m && (c.op.Creating? ==> c.op.newId != id)
    ensures id in m' ==> !Expired(m[id], c.now) && Becomes(m[id], c, id, m'[id])
    ensures id !in m' ==> Expired(m[id], c.now) || Evicted(m, c, id)
  {
    match c.op
    case Creating(_, _) => CreateBecomes(m, c, m', id);
    case Finishing(_, _, _) => FinishBecomes(m, c, m', id);
    case Picking(_) => PickBecomes(m, c, m', id);
    case Looking => AgedBecomes(m, c.now, id);
    hide Valid, Next, Evicted, Becomes;
  }

  // ----- over whole runs -----

  /** As of that moment, no job has been waiting, running or kept for too long. */
  predicate OnTime(m: Jobs, now: Time) {
    forall id :: id in m ==>
      match m[id].state
      case Queued => now - m[id].created <= 90 * SECOND
      case Running => now - m[id].picked <= 360 * SECOND
      case _ => m[id].done.Some? && m[id].result.Some? && now - m[id].done.value <= 600 * SECOND
  }

  /** Over every run, after every call: nothing is overdue. */
  lemma NothingIsOverdue(ms: seq<Jobs>, cs: seq<Call>, i: nat)
    requires IsRun(ms, cs) && i < |cs|
    ensures OnTime(ms[i + 1], cs[i].now)
  {
    var m, c, m' := ms[i], cs[i], ms[i + 1];
    StoreStaysBounded(ms, cs, i + 1);
    assert Valid(m) && Valid(m') && Next(m, c, m');
    hide IsRun, Next, ActiveOn;
    forall id | id in m' ensures OnTime(map[id := m'[id]], c.now) {
      if c.op.Creating? && c.op.newId == id {
        CreatedNow(ms, cs, i);
      } else {
        StepOnJob(m, c, m', id);
        JobChangesExactly(m, c, m', id);
      }
    }
    assert forall id :: id in m' ==> map[id := m'[id]][id] == m'[id];
  }

  lemma CreatedNow(ms: seq<Jobs>, cs: seq<Call>, i: nat)
    requires IsRun(ms, cs) && i < |cs| && cs[i].op.Creating? && cs[i].op.newId in ms[i + 1]
    ensures cs[i].created == Some(New(cs[i].op.newId, ms[i + 1][cs[i].op.newId]))
    ensures ms[i + 1][cs[i].op.newId] == Job(cs[i].op.request, Queued, cs[i].now, 0, None, None)
  {
    var m, c, m' := ms[i], cs[i], ms[i + 1];
    assert Next(m, c, m') && c.op.newId !in m;
    hide IsRun, IsBest, ActiveOn, IsOldest;
    CleanOnJob(m, c.now, c.op.newId);
    hide Cleaned;
    if c.created.value.New? {
      var r :| Roomed(Cleaned(m, c.now), r) && m' == r[c.op.newId := Fresh(c.op.request, c.now)];
    }
  }

  /** The call that created a record, the one that picked it and the one that reported its result. */
  ghost predicate CreatedBy(cs: seq<Call>, n: nat, id: string, j: Job)
    requires n <= |cs|
  {
    exists i :: 0 <= i < n && cs[i].op == Creating(j.request, id) && cs[i].now == j.created && cs[i].created.Some? && cs[i].created.value.New?
  }

  ghost predicate PickedBy(cs: seq<Call>, n: nat, j: Job)
    requires n <= |cs|
  {
    exists i :: 0 <= i < n && cs[i].op == Picking(j.request.host) && cs[i].now == j.picked && j.picked - j.created <= 90 * SECOND
  }

  ghost predicate ReportedBy(cs: seq<Call>, n: nat, id: string, j: Job)
    requires n <= |cs|
  {
    exists i :: 0 <= i < n && j.result.Some? && cs[i].op == Finishing(j.request.host, id, j.result.value) && Some(cs[i].now) == j.done
  }

  /** The server's own verdicts, and when it may give them. */
  predicate GaveUp(j: Job) {
    && j.result.Some? && j.done.Some?
    && (|| (j.result.value.errorKind == "agent_unreachable" && j.done.value - j.created > 90 * SECOND)
        || (j.result.value.errorKind == "timed_out" && j.done.value - j.picked > 360 * SECOND))
  }

  ghost predicate Explained(cs: seq<Call>, n: nat, id: string, j: Job)
    requires n <= |cs|
  {
    && CreatedBy(cs, n, id, j)
    && (AwaitsResult(j) || j.state.Finished? ==> PickedBy(cs, n, j))
    && (j.state.Finished? ==> ReportedBy(cs, n, id, j) && j.result.value.error == "")
    && (j.state.Failed? ==> GaveUp(j) || (PickedBy(cs, n, j) && ReportedBy(cs, n, id, j) && j.result.value.error != ""))
  }

  lemma ExplainedLater(cs: seq<Call>, n: nat, id: string, j: Job)
    requires n < |cs| && Explained(cs, n, id, j)
    ensures Explained(cs, n + 1, id, j)
  {}

  lemma ExplainedStep(cs: seq<Call>, n: nat, id: string, j: Job, j': Job)
    requires n < |cs| && Explained(cs, n, id, j) && Becomes(j, cs[n], id, j')
    ensures Explained(cs, n + 1, id, j')
  {
    ExplainedLater(cs, n, id, j);
    var c := cs[n];
    if j' != j {
      if j.state.Queued? && c.op == Picking(j.request.host) && !(c.now - j.created > 90 * SECOND) {
        assert PickedBy(cs, n + 1, j');
      } else if AwaitsResult(j) && Reports(c, id, j) {
        assert ReportedBy(cs, n + 1, id, j');
      }
    }
  }

  lemma RecordExplained(m: Jobs, m': Jobs, cs: seq<Call>, n: nat, id: string)
    requires n < |cs| && Valid(m) && Next(m, cs[n], m') && id in m' && (cs[n].op.Creating? ==> cs[n].op.newId != id)
    requires id in m ==> Explained(cs, n, id, m[id])
    ensures Explained(cs, n + 1, id, m'[id])
  {
    hide Next, Valid, Becomes, Explained, Evicted;
    StepOnJob(m, cs[n], m', id);
    JobChangesExactly(m, cs[n], m', id);
    ExplainedStep(cs, n, id, m[id], m'[id]);
  }

  lemma NewRecordExplained(ms: seq<Jobs>, cs: seq<Call>, n: nat)
    requires IsRun(ms, cs) && n < |cs| && cs[n].op.Creating? && cs[n].op.newId in ms[n + 1]
    ensures Explained(cs, n + 1, cs[n].op.newId, ms[n + 1][cs[n].op.newId])
  {
    CreatedNow(ms, cs, n);
    hide IsRun;
    var c := cs[n];
    assert cs[n].op == Creating(c.op.request, c.op.newId);
  }

  /** Over every run, every record in the store: it was created by a request for it at the time it says; it
      is running because its host picked it in time; it is finished because its host reported success, and
      failed because its host reported an error or, after 90 or 360 seconds, the server gave up. */
  lemma {:induction false} EveryRecordExplained(ms: seq<Jobs>, cs: seq<Call>, n: nat)
    requires IsRun(ms, cs) && n < |ms|
    ensures forall id :: id in ms[n] ==> Explained(cs, n, id, ms[n][id])
  {
    hide Next, Valid, Explained;
    assert |ms| == |cs| + 1 && ms[0] == map[];
    if n > 0 {
      EveryRecordExplained(ms, cs, n - 1);
      StoreStaysBounded(ms, cs, n - 1);
      assert Valid(ms[n - 1]) && Next(ms[n - 1], cs[n - 1], ms[n]);
      forall id | id in ms[n] ensures Explained(cs, n, id, ms[n][id]) {
        if cs[n - 1].op.Creating? && cs[n - 1].op.newId == id {
          NewRecordExplained(ms, cs, n - 1);
        } else {
          RecordExplained(ms[n - 1], ms[n], cs, n - 1, id);
        }
      }
    }
  }

  // ----- what a request for a job gets -----

  predicate Answers(j: Job, q: Request) {
    j.request == q && !j.state.Failed?
  }

  /** The best answer: a finished job if there is one; of those the newest; of those the greatest id. */
  ghost predicate BestAnswer(k: Jobs, q: Request, x: string) {
    && x in k && Answers(k[x], q)
    && forall y :: y in k && Answers(k[y], q) && y != x ==>
         && (k[y].state.Finished? ==> k[x].state.Finished?)
         && (k[y].state.Finished? == k[x].state.Finished? ==> k[y].created <= k[x].created && (k[y].created == k[x].created ==> Before(y, x)))
  }

  function UnderwayOn(k: Jobs, host: int): set<string> {
    set id | id in k && k[id].request.host == host && Underway(k[id])
  }

  ghost predicate NoAnswer(k: Jobs, q: Request) {
    forall x :: x in k ==> !Answers(k[x], q)
  }

  lemma {:induction false} BeforeTotal(a: string, b: string)
    ensures a == b || Before(a, b) || Before(b, a)
  {
    if a != "" && b != "" && a[0] == b[0] {
      BeforeTotal(a[1..], b[1..]);
      assert a[1..] == b[1..] ==> a == [a[0]] + a[1..] == [b[0]] + b[1..] == b;
    }
  }

  lemma BestMeans(k: Jobs, q: Request, x: string)
    requires IsBest(k, k.Keys, q, Some(x))
    ensures BestAnswer(k, q, x)
  {
    forall y | y in k && Answers(k[y], q) && y != x
      ensures (k[y].state.Finished? ==> k[x].state.Finished?)
      ensures k[y].state.Finished? == k[x].state.Finished? ==> k[y].created <= k[x].created && (k[y].created == k[x].created ==> Before(y, x))
    {
      assert SameRequest(k[y], q) && !Beats(y, k[y], x, k[x]);
      BeforeTotal(x, y);
      hide Before;
    }
  }

  /** A request gets the best earlier job for the same request that has not failed, if there is one; else it
      is refused if its host has four jobs under way, or if 256 jobs are stored and all are under way; else
      it gets a new queued job, unless no identifier could be drawn. */
  lemma RequestAnsweredExactly(m: Jobs, c: Call, m': Jobs)
    requires Valid(m) && c.op.Creating? && Next(m, c, m')
    ensures exists k :: FoundAt(m, c.now, k) && AnsweredExactly(k, c)
  {
    var k := Cleaned(m, c.now);
    assert FoundAt(m, c.now, k);
    CreateAnswered(m, c, m');
  }

  lemma CreateAnswered(m: Jobs, c: Call, m': Jobs)
    requires Valid(m) && c.op.Creating? && Next(m, c, m')
    ensures AnsweredExactly(Cleaned(m, c.now), c)
  {
    hide Cleaned, Valid, Fresh, ActiveOn, UnderwayOn, IsBest, BestAnswer, NoAnswer, HasRoom, Roomed;
    var q, k, out := c.op.request, Cleaned(m, c.now), c.created.value;
    assert CreateStep(m, q, c.op.newId, c.now, m', out);
    hide Next;
    SameUnderway(k, q.host);
    NoneMeans(k, q);
    match out
    case Reused(x, _) => BestMeans(k, q, x);
    case New(_, _) =>
      var r :| Roomed(k, r) && m' == r[c.op.newId := Fresh(q, c.now)];
      RoomedMeans(k, r);
      FreshMeans(q, c.now);
    case Refused(NoRandom) => RoomedMeans(k, m');
    case Refused(GlobalCap) => FullMeans(k);
    case Refused(HostCap) =>
  }

  lemma SameUnderway(k: Jobs, host: int)
    ensures UnderwayOn(k, host) == ActiveOn(k, host)
  {}

  lemma FullMeans(k: Jobs)
    requires |k| >= GLOBAL_CAP && forall x :: x in k ==> Active(k[x])
    ensures !HasRoom(k)
  {}

  lemma FreshMeans(q: Request, now: Time)
    ensures Fresh(q, now) == Job(q, Queued, now, 0, None, None)
  {}

  lemma NoneMeans(k: Jobs, q: Request)
    ensures IsBest(k, k.Keys, q, None) <==> NoAnswer(k, q)
  {}

  lemma RoomedMeans(k: Jobs, r: Jobs)
    requires Roomed(k, r)
    ensures HasRoom(k)
  {
    if r != k {
      var v :| IsOldest(k, v) && Ended(k[v]) && r == k - {v};
      assert !Underway(k[v]);
    }
  }

  ghost predicate AnsweredExactly(k: Jobs, c: Call)
    requires c.op.Creating? && c.created.Some?
  {
    var q := c.op.request;
    match c.created.value
    case Reused(x, job) => BestAnswer(k, q, x) && job == k[x]
    case New(x, job) =>
      NoAnswer(k, q) && |UnderwayOn(k, q.host)| < 4 && HasRoom(k) && x == c.op.newId && job == Job(q, Queued, c.now, 0, None, None)
    case Refused(HostCap) => NoAnswer(k, q) && |UnderwayOn(k, q.host)| >= 4
    case Refused(GlobalCap) => NoAnswer(k, q) && |UnderwayOn(k, q.host)| < 4 && !HasRoom(k)
    case Refused(NoRandom) => NoAnswer(k, q) && |UnderwayOn(k, q.host)| < 4 && HasRoom(k)
  }

  predicate HasRoom(k: Jobs) {
    |k| < 256 || exists x :: x in k && !Underway(k[x])
  }

  /** A pick hands out the queued jobs of its host that are not overdue, and leaves none of them queued. */
  lemma PickTakesAll(m: Jobs, c: Call, m': Jobs)
    requires c.op.Picking? && Next(m, c, m')
    ensures forall id :: HandsOut(m, c, id) <==>
      id in m && m[id].request.host == c.op.host && m[id].state.Queued? && c.now - m[id].created <= 90 * SECOND
    ensures forall id :: id in m' && m'[id].request.host == c.op.host ==> !m'[id].state.Queued?
    ensures forall id :: HandsOut(m, c, id) ==> id in m' && m'[id].state.Running? && m'[id].picked == c.now
  {}
}
