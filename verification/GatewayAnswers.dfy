/** What the gateway answers, over every run, and what becomes of store and usage when a request is alone. */
module GatewayAnswers {
  import opened Gateway
  import Registry

  // ----- what a request met in a run -----

  ghost predicate Own(labels: seq<Label>, j: nat, k: nat)
    requires j < |labels|
  {
    labels[j].Act? && labels[j].i == k
  }

  /** None of the request's own calls failed before state i. */
  ghost predicate Smooth(labels: seq<Label>, i: nat, k: nat)
    requires i <= |labels|
  {
    forall j :: 0 <= j < i && Own(labels, j, k) ==> !labels[j].fail
  }

  /** The request asks the store for its name, or tries to put its object there. */
  predicate Asks(q: Request) {
    q.Upload? && (q.pc.Look? || q.pc.DupSize? || q.pc.DupOpen? || q.pc.Link? || q.pc.LinkRefused?)
  }

  ghost predicate AsksAt(run: seq<State>, labels: seq<Label>, j: nat, k: nat)
    requires j < |labels| < |run|
  {
    Own(labels, j, k) && k < |run[j].requests| && Asks(run[j].requests[k])
  }

  /** Step j is the last one before state i in which the request asks. */
  ghost predicate AsksLast(run: seq<State>, labels: seq<Label>, j: nat, i: nat, k: nat)
    requires i <= |labels| < |run|
  {
    j < i && AsksAt(run, labels, j, k) && forall m :: j < m < i ==> !AsksAt(run, labels, m, k)
  }

  /** The store holds exactly the bytes of the upload, under a name that is theirs. */
  predicate HoldsIt(s: State, ref: Ref, body: Bytes) {
    ref in s.store && s.store[ref] == body && (ref.typ.Config? || ref.name == Digest(body))
  }

  /** When the upload last asked, the store held its bytes, or did not. */
  ghost predicate LastFound(run: seq<State>, labels: seq<Label>, i: nat, k: nat, ref: Ref, body: Bytes, held: bool)
    requires i <= |labels| < |run|
  {
    exists j: nat :: AsksLast(run, labels, j, i, k) && (HoldsIt(run[j], ref, body) <==> held)
  }

  /** A step of the request puts its object into an empty place of the store. */
  ghost predicate CommitsAt(run: seq<State>, labels: seq<Label>, j: nat, k: nat, ref: Ref, body: Bytes)
    requires j < |labels| < |run| && j + 1 < |run|
  {
    Own(labels, j, k) && ref !in run[j].store && ref in run[j + 1].store && run[j + 1].store[ref] == body
  }

  ghost predicate Committed(run: seq<State>, labels: seq<Label>, i: nat, k: nat, ref: Ref, body: Bytes)
    requires i <= |labels| < |run|
  {
    exists j :: 0 <= j < i && CommitsAt(run, labels, j, k, ref, body)
  }

  ghost predicate Explains(run: seq<State>, labels: seq<Label>, i: nat, k: nat, ref: Ref, body: Bytes, result: Result)
    requires i <= |labels| < |run|
  {
    match result
    case Committed => ValidRef(ref) && Committed(run, labels, i, k, ref, body)
    case Identical => ValidRef(ref) && !Committed(run, labels, i, k, ref, body) && LastFound(run, labels, i, k, ref, body, true)
    case Invalid => !ValidRef(ref) && !Committed(run, labels, i, k, ref, body)
    case Ambiguous => false
    case _ => ValidRef(ref) && !Committed(run, labels, i, k, ref, body) && LastFound(run, labels, i, k, ref, body, false)
  }

  /** What an upload without failing calls knows at each point. */
  ghost predicate Knows(run: seq<State>, labels: seq<Label>, i: nat, k: nat, q: Request)
    requires i <= |labels| < |run| && q.Upload?
  {
    match q.pc
    case Settle(_, result) => Explains(run, labels, i, k, q.ref, q.body, result)
    case Answered(_, result, status) => Explains(run, labels, i, k, q.ref, q.body, result) && status == StatusOf(result)
    case Arrive => !Committed(run, labels, i, k, q.ref, q.body)
    case Probe => !Committed(run, labels, i, k, q.ref, q.body)
    case Look(_) => !Committed(run, labels, i, k, q.ref, q.body)
    case Refused(_) => !Committed(run, labels, i, k, q.ref, q.body)
    case DupOpen(_) => ValidRef(q.ref) && !Committed(run, labels, i, k, q.ref, q.body) && (q.ref.typ.Config? || q.ref.name == Digest(q.body))
    case LinkRefused(_, existed) => ValidRef(q.ref) && !Committed(run, labels, i, k, q.ref, q.body) && existed
    case _ => ValidRef(q.ref) && !Committed(run, labels, i, k, q.ref, q.body)
  }

  /** One step of an upload that does not fail: if it ends the asking, it says what the store held. */
  ghost predicate Concludes(s: State, s': State, q: Request, q': Request)
    requires q.Upload? && q'.Upload?
  {
    && q'.ref == q.ref && q'.body == q.body
    && (q.pc.Answered? ==> q'.pc == q.pc)
    && (q.pc.Settle? ==> q'.pc == Answered(q.pc.held, q.pc.result, StatusOf(q.pc.result)))
    && (q'.pc.Settle? ==> Asks(q) && Concluded(s, s', q, q'.pc.result))
    && (q'.pc.Answered? ==> q.pc.Settle? || q.pc.Answered?)
    && (q'.pc.DupOpen? ==> ValidRef(q.ref) && (q.ref.typ.Config? || q.ref.name == Digest(q.body)))
    && (q'.pc.LinkRefused? ==> q'.pc.exists_)
    && (q'.pc.DupSize? || q'.pc.Copy? || q'.pc.Link? || q'.pc.LinkRefused? ==> ValidRef(q.ref))
    && (q.ref !in s.store && q.ref in s'.store ==> q'.pc.Settle? && q'.pc.result.Committed?)
  }

  ghost predicate Concluded(s: State, s': State, q: Request, result: Result) {
    q.Upload? &&
    match result
    case Committed => ValidRef(q.ref) && q.ref !in s.store && q.ref in s'.store && s'.store[q.ref] == q.body
    case Identical => ValidRef(q.ref) && HoldsIt(s, q.ref, q.body)
    case Invalid => !ValidRef(q.ref)
    case Ambiguous => false
    case _ => ValidRef(q.ref) && !HoldsIt(s, q.ref, q.body)
  }

  /** What an upload relies on at a point, apart from the past. */
  predicate Ready(q: Request) {
    q.Upload? &&
    match q.pc
    case DupOpen(_) => ValidRef(q.ref) && (q.ref.typ.Config? || q.ref.name == Digest(q.body))
    case LinkRefused(_, existed) => ValidRef(q.ref) && existed
    case DupSize(_) => ValidRef(q.ref)
    case Copy(_) => ValidRef(q.ref)
    case Link(_) => ValidRef(q.ref)
    case _ => true
  }

  lemma UploadConcludes(s: State, q: Request)
    requires Ready(q)
    ensures var e := UploadStep(s, q, false);
      e.request.Upload? && Concludes(s, s.(store := e.store), q, e.request)
  {}

  lemma AskedNext(run: seq<State>, labels: seq<Label>, i: nat, k: nat, ref: Ref, body: Bytes, held: bool)
    requires IsRun(run, labels) && i < |labels|
    ensures AsksAt(run, labels, i, k) && (HoldsIt(run[i], ref, body) <==> held) ==> LastFound(run, labels, i + 1, k, ref, body, held)
    ensures !AsksAt(run, labels, i, k) && LastFound(run, labels, i, k, ref, body, held) ==> LastFound(run, labels, i + 1, k, ref, body, held)
  {
    assert |run| == |labels| + 1;
    hide AsksAt, HoldsIt, IsRun;
    if AsksAt(run, labels, i, k) && (HoldsIt(run[i], ref, body) <==> held) {
      assert AsksLast(run, labels, i, i + 1, k);
    }
    if !AsksAt(run, labels, i, k) && LastFound(run, labels, i, k, ref, body, held) {
      var j: nat :| AsksLast(run, labels, j, i, k) && (HoldsIt(run[j], ref, body) <==> held);
      assert AsksLast(run, labels, j, i + 1, k);
    }
  }

  lemma CommittedNext(run: seq<State>, labels: seq<Label>, i: nat, k: nat, ref: Ref, body: Bytes)
    requires IsRun(run, labels) && i < |labels|
    ensures Committed(run, labels, i + 1, k, ref, body) <==> Committed(run, labels, i, k, ref, body) || CommitsAt(run, labels, i, k, ref, body)
  {
    assert |run| == |labels| + 1;
    hide CommitsAt, IsRun;
    if Committed(run, labels, i, k, ref, body) {
      var j :| 0 <= j < i && CommitsAt(run, labels, j, k, ref, body);
      assert 0 <= j < i + 1;
    }
  }

  lemma KnowsNext(run: seq<State>, labels: seq<Label>, i: nat, k: nat)
    requires IsRun(run, labels) && i < |labels| && k < |run[i].requests| && run[i].requests[k].Upload?
    requires Knows(run, labels, i, k, run[i].requests[k])
    requires Own(labels, i, k) ==> !labels[i].fail
    ensures k < |run[i + 1].requests| && run[i + 1].requests[k].Upload? && Knows(run, labels, i + 1, k, run[i + 1].requests[k])
  {
    var s, s', q := run[i], run[i + 1], run[i].requests[k];
    var q' := s'.requests[k];
    if Own(labels, i, k) {
      UploadConcludes(s, q);
    } else {
      assert q' == q;
    }
    assert AsksAt(run, labels, i, k) <==> Own(labels, i, k) && Asks(q);
    CommittedNext(run, labels, i, k, q.ref, q.body);
    AskedNext(run, labels, i, k, q.ref, q.body, true);
    AskedNext(run, labels, i, k, q.ref, q.body, false);
    hide UploadStep, DeleteStep, Apply, Enabled, IsRun, LastFound, Committed, AsksAt, HoldsIt, StatusOf;
  }

  lemma {:induction false} UploadKnows(run: seq<State>, labels: seq<Label>, i: nat, k: nat)
    requires IsRun(run, labels) && i < |run| && k < |run[i].requests| && run[i].requests[k].Upload? && Smooth(labels, i, k)
    ensures Knows(run, labels, i, k, run[i].requests[k])
  {
    if i > 0 {
      if k < |run[i - 1].requests| {
        StaysUpload(run[i - 1], labels[i - 1], k);
        UploadKnows(run, labels, i - 1, k);
        KnowsNext(run, labels, i - 1, k);
      } else {
        NothingBefore(run, labels, i, k);
      }
    }
  }

  lemma StaysUpload(s: State, l: Label, k: nat)
    requires Enabled(s, l) && k < |s.requests|
    ensures k < |Apply(s, l).requests| && (Apply(s, l).requests[k].Upload? <==> s.requests[k].Upload?)
  {}

  lemma {:induction false} FewerBefore(run: seq<State>, labels: seq<Label>, j: nat, i: nat)
    requires IsRun(run, labels) && j <= i < |run|
    ensures |run[j].requests| <= |run[i].requests|
  {
    if j < i { FewerBefore(run, labels, j, i - 1); }
  }

  /** A request that has just arrived has taken no step. */
  lemma NothingBefore(run: seq<State>, labels: seq<Label>, i: nat, k: nat)
    requires IsRun(run, labels) && 0 < i < |run| && |run[i - 1].requests| <= k
    ensures forall j :: 0 <= j < i ==> !Own(labels, j, k)
  {
    forall j | 0 <= j < i ensures !Own(labels, j, k) { FewerBefore(run, labels, j, i - 1); }
  }

  /** The answer to an upload none of whose own calls failed, whatever else goes on. It is 200 if and only
      if the upload committed, or the store held exactly its bytes under that name when it last asked, and
      the name is the config or their digest; else 400 for a name that is not valid, and 403 for any other. */
  lemma AnswersExactly(run: seq<State>, labels: seq<Label>, i: nat, k: nat)
    requires IsRun(run, labels) && i < |run| && k < |run[i].requests| && Smooth(labels, i, k)
    requires run[i].requests[k].Upload? && run[i].requests[k].pc.Answered?
    ensures var q := run[i].requests[k];
      && (q.pc.status == 200 <==>
            && ValidRef(q.ref)
            && (Committed(run, labels, i, k, q.ref, q.body) || LastFound(run, labels, i, k, q.ref, q.body, true)))
      && (q.pc.status != 200 ==> q.pc.status == if ValidRef(q.ref) then 403 else 400)
  {
    var q := run[i].requests[k];
    UploadKnows(run, labels, i, k);
    OneLastLook(run, labels, i, k, q.ref, q.body);
    hide IsRun, Committed, AsksAt, HoldsIt, ValidRef, LastFound;
  }

  lemma OneLastLook(run: seq<State>, labels: seq<Label>, i: nat, k: nat, ref: Ref, body: Bytes)
    requires IsRun(run, labels) && i <= |labels|
    ensures !(LastFound(run, labels, i, k, ref, body, true) && LastFound(run, labels, i, k, ref, body, false))
  {}

  // ----- refusals and errors -----

  /** The bytes fit: there are none, or the target may be written and has no quota or room for them. */
  predicate Fits(t: Registry.Target, n: nat) {
    n == 0 || (t.ready && !t.revoked && (t.quota <= 0 || (n <= t.quota && t.used + n <= t.quota)))
  }

  ghost predicate Refuses(s: State, q: Request) {
    q.Upload? && (
      || (q.pc.Arrive? && |q.body| > s.maxBlob)
      || (q.pc.Arrive? && !Fits(s.target, |q.body|) && q.ref.typ.Locks?)
      || (q.pc.Probe? && !(ValidRef(q.ref) && q.ref in s.store)))
  }

  ghost predicate RefusedBefore(run: seq<State>, labels: seq<Label>, i: nat, k: nat)
    requires i <= |labels| < |run|
  {
    exists j :: 0 <= j < i && Own(labels, j, k) && k < |run[j].requests| && Refuses(run[j], run[j].requests[k])
  }

  ghost predicate OverQuotaBefore(run: seq<State>, labels: seq<Label>, i: nat, k: nat)
    requires i <= |labels| < |run|
  {
    exists j :: 0 <= j < i && Own(labels, j, k) && k < |run[j].requests| && OverQuotaAt(run[j], run[j].requests[k])
  }

  predicate OverQuotaAt(s: State, q: Request) {
    q.Upload? && q.pc.Arrive? && !Fits(s.target, |q.body|)
  }

  /** The step fails so that nobody can tell whether the object was committed. */
  ghost predicate Breaks(s: State, q: Request, fail: bool) {
    q.Upload? &&
    match q.pc
    case Look(_) => fail && ValidRef(q.ref)
    case Copy(_) => fail
    case LinkRefused(_, existed) => !existed && (fail || q.ref !in s.store)
    case _ => false
  }

  ghost predicate BrokenBefore(run: seq<State>, labels: seq<Label>, i: nat, k: nat)
    requires i <= |labels| < |run|
  {
    exists j :: 0 <= j < i && Own(labels, j, k) && k < |run[j].requests| && Breaks(run[j], run[j].requests[k], labels[j].fail)
  }

  predicate Unsure(q: Request) {
    q.Upload? && (q.pc.Settle? || q.pc.Answered?) && q.pc.result.Ambiguous?
  }

  /** An upload is answered 413 if and only if its body is too large, or there is no room for it and it is a
      lock or was not found in the store; and it goes on without a reservation only if there was no room. */
  lemma {:induction false} RefusedExactly(run: seq<State>, labels: seq<Label>, i: nat, k: nat)
    requires IsRun(run, labels) && i < |run| && k < |run[i].requests| && run[i].requests[k].Upload? && Smooth(labels, i, k)
    ensures run[i].requests[k].pc.Refused? <==> RefusedBefore(run, labels, i, k)
    ensures run[i].requests[k].pc.Refused? ==> run[i].requests[k].pc.status == 413
    ensures Unreserved(run[i].requests[k]) ==> OverQuotaBefore(run, labels, i, k)
  {
    if i > 0 {
      if k < |run[i - 1].requests| {
        StaysUpload(run[i - 1], labels[i - 1], k);
        RefusedExactly(run, labels, i - 1, k);
        OverQuotaNext(run, labels, i, k);
        RefusedNext(run, labels, i, k);
        if Own(labels, i - 1, k) { RefusingStep(run[i - 1], run[i - 1].requests[k]); }
        hide UploadStep, DeleteStep, OverQuotaBefore, RefusedBefore, Refuses, OverQuotaAt, Unreserved;
      } else {
        NothingBefore(run, labels, i, k);
      }
    }
  }

  predicate Unreserved(q: Request) {
    q.Upload? && (q.pc.Probe? || ((Asks(q) || q.pc.Copy? || q.pc.Settle? || q.pc.Answered?) && !q.pc.held))
  }

  lemma RefusingStep(s: State, q: Request)
    requires q.Upload?
    ensures var q' := UploadStep(s, q, false).request;
      && q'.Upload?
      && (q'.pc.Refused? <==> q.pc.Refused? || Refuses(s, q))
      && (q'.pc.Refused? && !q.pc.Refused? ==> q'.pc.status == 413)
      && (q.pc.Refused? ==> q' == q)
      && (Unreserved(q') ==> Unreserved(q) || OverQuotaAt(s, q))
  {}

  lemma OverQuotaNext(run: seq<State>, labels: seq<Label>, i: nat, k: nat)
    requires IsRun(run, labels) && 0 < i < |run| && k < |run[i - 1].requests|
    ensures OverQuotaBefore(run, labels, i, k) <==>
      OverQuotaBefore(run, labels, i - 1, k) || (Own(labels, i - 1, k) && OverQuotaAt(run[i - 1], run[i - 1].requests[k]))
  {
    assert |run| == |labels| + 1;
    hide IsRun, OverQuotaAt;
    if OverQuotaBefore(run, labels, i - 1, k) {
      var j :| 0 <= j < i - 1 && Own(labels, j, k) && k < |run[j].requests| && OverQuotaAt(run[j], run[j].requests[k]);
      assert 0 <= j < i;
    }
  }

  lemma RefusedNext(run: seq<State>, labels: seq<Label>, i: nat, k: nat)
    requires IsRun(run, labels) && 0 < i < |run| && k < |run[i - 1].requests|
    ensures RefusedBefore(run, labels, i, k) <==>
      RefusedBefore(run, labels, i - 1, k) || (Own(labels, i - 1, k) && Refuses(run[i - 1], run[i - 1].requests[k]))
  {
    assert |run| == |labels| + 1;
    hide IsRun, Refuses;
    if RefusedBefore(run, labels, i - 1, k) {
      var j :| 0 <= j < i - 1 && Own(labels, j, k) && k < |run[j].requests| && Refuses(run[j], run[j].requests[k]);
      assert 0 <= j < i;
    }
  }

  /** An upload is answered 500 if and only if one of its own calls failed so that it may have committed:
      the first look, the copy, or a link that failed although nothing is there. It keeps its reservation. */
  lemma {:induction false} ErrorsExactly(run: seq<State>, labels: seq<Label>, i: nat, k: nat)
    requires IsRun(run, labels) && i < |run| && k < |run[i].requests| && run[i].requests[k].Upload?
    ensures Unsure(run[i].requests[k]) <==> BrokenBefore(run, labels, i, k)
    ensures var q := run[i].requests[k]; q.pc.Answered? ==> (q.pc.status == 500 <==> Unsure(q))
  {
    if i > 0 {
      if k < |run[i - 1].requests| {
        StaysUpload(run[i - 1], labels[i - 1], k);
        ErrorsExactly(run, labels, i - 1, k);
        BrokenNext(run, labels, i, k);
        if Own(labels, i - 1, k) { BreakingStep(run[i - 1], run[i - 1].requests[k], labels[i - 1].fail); }
        hide UploadStep, DeleteStep, BrokenBefore, Breaks, Unsure;
      } else {
        NothingBefore(run, labels, i, k);
      }
    }
  }

  lemma BreakingStep(s: State, q: Request, fail: bool)
    requires q.Upload?
    ensures var q' := UploadStep(s, q, fail).request;
      && q'.Upload?
      && (Unsure(q') <==> Unsure(q) || Breaks(s, q, fail))
      && (q'.pc.Answered? && !q.pc.Answered? ==> (q'.pc.status == 500 <==> Unsure(q')))
      && (q.pc.Answered? ==> q' == q)
  {}

  lemma BrokenNext(run: seq<State>, labels: seq<Label>, i: nat, k: nat)
    requires IsRun(run, labels) && 0 < i < |run| && k < |run[i - 1].requests|
    ensures BrokenBefore(run, labels, i, k) <==>
      BrokenBefore(run, labels, i - 1, k) || (Own(labels, i - 1, k) && Breaks(run[i - 1], run[i - 1].requests[k], labels[i - 1].fail))
  {
    assert |run| == |labels| + 1;
    hide IsRun, Breaks;
    if BrokenBefore(run, labels, i - 1, k) {
      var j :| 0 <= j < i - 1 && Own(labels, j, k) && k < |run[j].requests| && Breaks(run[j], run[j].requests[k], labels[j].fail);
      assert 0 <= j < i;
    }
  }

  // ----- a request with nobody else at work -----

  /** The request takes n steps, none of which fails. */
  ghost predicate Leads(s: State, k: nat, t: State, n: nat)
    decreases n
  {
    if n == 0 then s == t else Enabled(s, Act(k, false)) && Leads(Apply(s, Act(k, false)), k, t, n - 1)
  }

  ghost predicate ComesTo(s: State, k: nat, t: State) {
    exists n: nat :: Leads(s, k, t, n)
  }

  /** The state with the request at another point, another store and another usage. */
  ghost predicate Becomes(s: State, k: nat, t: State, q: Request, store: map<Ref, Bytes>, used: int)
    requires k < |s.requests|
  {
    && t.requests == s.requests[k := q] && t.store == store && t.maxBlob == s.maxBlob
    && t.target == s.target.(used := used, dirty := t.target.dirty)
  }

  /** The status, the store and the usage that an upload with nobody else at work ends with. */
  function UploadEnding(s: State, q: Request): (int, map<Ref, Bytes>, int)
    requires q.Upload?
  {
    var n, ref := |q.body|, q.ref;
    if n > s.maxBlob || (!Fits(s.target, n) && (ref.typ.Locks? || !ValidRef(ref) || ref !in s.store)) then (413, s.store, s.target.used)
    else if !ValidRef(ref) then (400, s.store, s.target.used)
    else if ref !in s.store then (200, s.store[ref := q.body], s.target.used + n)
    else if HoldsIt(s, ref, q.body) then (200, s.store, s.target.used)
    else (403, s.store, s.target.used)
  }

  function StatusAt(pc: UploadPc): int {
    match pc
    case Answered(_, _, status) => status
    case Refused(status) => status
    case _ => 0
  }

  lemma Stays(t: State, k: nat)
    ensures ComesTo(t, k, t)
  {
    assert Leads(t, k, t, 0);
  }

  lemma Turn(s: State, k: nat, t: State)
    requires k < |s.requests| && ComesTo(Apply(s, Act(k, false)), k, t)
    ensures ComesTo(s, k, t)
  {
    var n: nat :| Leads(Apply(s, Act(k, false)), k, t, n);
    assert Leads(s, k, t, n + 1);
  }

  /** Where the request's next step leads. */
  ghost function Moved(s: State, k: nat): State
    requires k < |s.requests|
  {
    Apply(s, Act(k, false))
  }

  /** From here the upload ends with this status, store and usage. */
  ghost predicate Finishes(s: State, k: nat, q0: Request, status: int, store: map<Ref, Bytes>, used: int)
    requires k < |s.requests| && q0.Upload?
  {
    exists t, pc :: ComesTo(s, k, t) && StatusAt(pc) == status && Becomes(s, k, t, q0.(pc := pc), store, used)
  }

  lemma FinishesHere(s: State, k: nat, q0: Request)
    requires k < |s.requests| && q0.Upload? && s.requests[k].Upload? && s.requests[k] == q0.(pc := s.requests[k].pc)
    ensures Finishes(s, k, q0, StatusAt(s.requests[k].pc), s.store, s.target.used)
  {
    Stays(s, k);
    assert s.requests == s.requests[k := q0.(pc := s.requests[k].pc)];
    assert Becomes(s, k, s, q0.(pc := s.requests[k].pc), s.store, s.target.used);
  }

  lemma FinishesLater(s: State, k: nat, q0: Request, status: int, store: map<Ref, Bytes>, used: int)
    requires k < |s.requests| && q0.Upload? && Finishes(Moved(s, k), k, q0, status, store, used)
    requires Moved(s, k).target == s.target.(used := Moved(s, k).target.used, dirty := Moved(s, k).target.dirty)
    ensures Finishes(s, k, q0, status, store, used)
  {
    var s' := Moved(s, k);
    var t, pc :| ComesTo(s', k, t) && StatusAt(pc) == status && Becomes(s', k, t, q0.(pc := pc), store, used);
    Turn(s, k, t);
    assert s'.requests[k := q0.(pc := pc)] == s.requests[k := q0.(pc := pc)];
    assert Becomes(s, k, t, q0.(pc := pc), store, used);
    hide StepOf, ComesTo;
  }

  ghost function Put(s: State, k: nat, q: Request, pc: UploadPc, store: map<Ref, Bytes>, target: Registry.Target): State
    requires k < |s.requests| && q.Upload?
  {
    s.(requests := s.requests[k := q.(pc := pc)], store := store, target := target)
  }

  lemma PutMoves(s: State, k: nat, q: Request, pc: UploadPc, store: map<Ref, Bytes>, target: Registry.Target)
    requires k < |s.requests| && q.Upload?
    ensures var here := Put(s, k, q, pc, store, target);
      var e := UploadStep(here, q.(pc := pc), false);
      e.request.Upload? && e.request == q.(pc := e.request.pc) && Moved(here, k) == Put(s, k, q, e.request.pc, e.store, e.target)
  {
    var here := Put(s, k, q, pc, store, target);
    var e := UploadStep(here, q.(pc := pc), false);
    assert here.requests[k := e.request] == s.requests[k := e.request];
  }

  /** One step of an upload, by hand. */
  lemma On(s: State, k: nat, q: Request, pc: UploadPc, store: map<Ref, Bytes>, target: Registry.Target,
           pc': UploadPc, store': map<Ref, Bytes>, target': Registry.Target, status: int, final: map<Ref, Bytes>, used: int)
    requires k < |s.requests| && q.Upload?
    requires var e := UploadStep(Put(s, k, q, pc, store, target), q.(pc := pc), false);
      e == Effect(q.(pc := pc'), store', target')
    requires target' == target.(used := target'.used, dirty := target'.dirty)
    requires Finishes(Put(s, k, q, pc', store', target'), k, q, status, final, used)
    ensures Finishes(Put(s, k, q, pc, store, target), k, q, status, final, used)
  {
    PutMoves(s, k, q, pc, store, target);
    hide UploadStep, Finishes;
    FinishesLater(Put(s, k, q, pc, store, target), k, q, status, final, used);
  }

  lemma Ends(s: State, k: nat, q: Request, pc: UploadPc, store: map<Ref, Bytes>, target: Registry.Target)
    requires k < |s.requests| && q.Upload?
    ensures Finishes(Put(s, k, q, pc, store, target), k, q, StatusAt(pc), store, target.used)
  {
    FinishesHere(Put(s, k, q, pc, store, target), k, q);
  }

  /** From a result to the answer. */
  lemma FromSettle(s: State, k: nat, q: Request, held: bool, result: Result, store: map<Ref, Bytes>, target: Registry.Target)
    requires k < |s.requests| && q.Upload? && (result.Committed? ==> held)
    ensures Finishes(Put(s, k, q, Settle(held, result), store, target), k, q, StatusOf(result), store,
              if held && !result.Committed? && !result.Ambiguous? then Release(target, |q.body|).used else target.used)
  {
    var target' := if held && !result.Committed? && !result.Ambiguous? then Release(target, |q.body|) else target;
    Ends(s, k, q, Answered(held, result, StatusOf(result)), store, target');
    hide Finishes;
    On(s, k, q, Settle(held, result), store, target, Answered(held, result, StatusOf(result)), store, target',
       StatusOf(result), store, target'.used);
  }

  /** The comparison with the stored object. */
  lemma FromDuplicate(s: State, k: nat, q: Request, held: bool, target: Registry.Target)
    requires k < |s.requests| && q.Upload? && ValidRef(q.ref) && q.ref in s.store
    ensures Finishes(Put(s, k, q, DupSize(held), s.store, target), k, q, if HoldsIt(s, q.ref, q.body) then 200 else 403, s.store,
              if held then Release(target, |q.body|).used else target.used)
  {
    var stored := s.store[q.ref];
    var after := if held then Release(target, |q.body|).used else target.used;
    var result := if MayBeIdentical(q.ref, q.body, |stored|) then CompareStored(q.ref, q.body, stored) else Exists;
    assert StatusOf(result) == if HoldsIt(s, q.ref, q.body) then 200 else 403;
    assert !result.Committed? && !result.Ambiguous?;
    FromSettle(s, k, q, held, result, s.store, target);
    hide Finishes, HoldsIt, StatusOf;
    if MayBeIdentical(q.ref, q.body, |stored|) {
      On(s, k, q, DupOpen(held), s.store, target, Settle(held, result), s.store, target, StatusOf(result), s.store, after);
      On(s, k, q, DupSize(held), s.store, target, DupOpen(held), s.store, target, StatusOf(result), s.store, after);
    } else {
      On(s, k, q, DupSize(held), s.store, target, Settle(held, result), s.store, target, StatusOf(result), s.store, after);
    }
  }

  /** From the first look, with or without a reservation. */
  lemma FromLook(s: State, k: nat, q: Request, held: bool, target: Registry.Target)
    requires k < |s.requests| && q.Upload? && (held || (ValidRef(q.ref) && q.ref in s.store))
    ensures var back := if held then Release(target, |q.body|).used else target.used;
      Finishes(Put(s, k, q, Look(held), s.store, target), k, q,
        if !ValidRef(q.ref) then 400 else if q.ref !in s.store || HoldsIt(s, q.ref, q.body) then 200 else 403,
        if ValidRef(q.ref) && q.ref !in s.store then s.store[q.ref := q.body] else s.store,
        if ValidRef(q.ref) && q.ref !in s.store then target.used else back)
  {
    var back := if held then Release(target, |q.body|).used else target.used;
    if !ValidRef(q.ref) {
      FromSettle(s, k, q, held, Invalid, s.store, target);
      hide Finishes, HoldsIt, ValidRef;
      On(s, k, q, Look(held), s.store, target, Settle(held, Invalid), s.store, target, 400, s.store, back);
    } else if q.ref in s.store {
      FromDuplicate(s, k, q, held, target);
      hide Finishes, HoldsIt, ValidRef;
      On(s, k, q, Look(held), s.store, target, DupSize(held), s.store, target, if HoldsIt(s, q.ref, q.body) then 200 else 403, s.store, back);
    } else {
      var store := s.store[q.ref := q.body];
      FromSettle(s, k, q, true, Result.Committed, store, target);
      hide Finishes, HoldsIt, ValidRef;
      On(s, k, q, Link(true), s.store, target, Settle(true, Result.Committed), store, target, 200, store, target.used);
      On(s, k, q, Copy(true), s.store, target, Link(true), s.store, target, 200, store, target.used);
      On(s, k, q, Look(true), s.store, target, Copy(true), s.store, target, 200, store, target.used);
    }
  }

  lemma ReserveFits(t: Registry.Target, n: nat)
    ensures Reserve(t, n).0 <==> Fits(t, n)
    ensures var r := Reserve(t, n).1; r == t.(used := if Fits(t, n) then t.used + n else t.used, dirty := r.dirty)
    ensures t.used >= 0 && Fits(t, n) ==> Release(Reserve(t, n).1, n).used == t.used
  {}

  /** An upload with nobody else at work, none of its calls failing, for every store, target and upload: the
      answer, the store and the recorded usage. In particular a retry of an upload that the store holds is
      answered 200 and leaves the store and the usage as they were, over quota or not, unless it is a lock
      over quota. */
  lemma LoneUploadExactly(s: State, k: nat)
    requires k < |s.requests| && s.requests[k].Upload? && s.requests[k].pc.Arrive? && s.target.used >= 0
    ensures var q := s.requests[k]; var (status, store, used) := UploadEnding(s, q);
      Finishes(s, k, q, status, store, used)
  {
    var q, n := s.requests[k], |s.requests[k].body|;
    var t := Reserve(s.target, n).1;
    assert s == Put(s, k, q, Arrive, s.store, s.target) by { assert s.requests[k := q] == s.requests; }
    ReserveFits(s.target, n);
    if n > s.maxBlob {
      Ends(s, k, q, Refused(413), s.store, s.target);
      hide Finishes, Reserve, Release;
      On(s, k, q, Arrive, s.store, s.target, Refused(413), s.store, s.target, 413, s.store, s.target.used);
    } else if Fits(s.target, n) {
      FromLook(s, k, q, true, t);
      var (status, store, used) := UploadEnding(s, q);
      hide Finishes, HoldsIt, ValidRef, Fits, Reserve, Release;
      On(s, k, q, Arrive, s.store, s.target, Look(true), s.store, t, status, store, used);
    } else {
      OverQuota(s, k);
    }
  }

  lemma OverQuota(s: State, k: nat)
    requires k < |s.requests| && s.requests[k].Upload? && s.requests[k].pc.Arrive?
    requires |s.requests[k].body| <= s.maxBlob && !Fits(s.target, |s.requests[k].body|)
    ensures var q := s.requests[k]; var (status, store, used) := UploadEnding(s, q);
      Finishes(s, k, q, status, store, used)
  {
    var q, n := s.requests[k], |s.requests[k].body|;
    assert s == Put(s, k, q, Arrive, s.store, s.target) by { assert s.requests[k := q] == s.requests; }
    ReserveFits(s.target, n);
    assert Reserve(s.target, n).1 == s.target;
    var (status, store, used) := UploadEnding(s, q);
    if q.ref.typ.Locks? {
      Ends(s, k, q, Refused(413), s.store, s.target);
      hide Finishes, HoldsIt, ValidRef, Fits;
      On(s, k, q, Arrive, s.store, s.target, Refused(413), s.store, s.target, 413, s.store, s.target.used);
    } else {
      if ValidRef(q.ref) && q.ref in s.store {
        FromLook(s, k, q, false, s.target);
        hide Finishes, HoldsIt, Fits;
        On(s, k, q, Probe, s.store, s.target, Look(false), s.store, s.target, status, store, used);
      } else {
        Ends(s, k, q, Refused(413), s.store, s.target);
        hide Finishes, HoldsIt, Fits;
        On(s, k, q, Probe, s.store, s.target, Refused(413), s.store, s.target, 413, s.store, s.target.used);
      }
      hide Finishes, HoldsIt, ValidRef, Fits;
      On(s, k, q, Arrive, s.store, s.target, Probe, s.store, s.target, status, store, used);
    }
  }

  /** An identical retry changes nothing: with nobody else at work it is answered 200 and leaves the store
      and the recorded usage as they were, unless it is a lock for which there is no room. */
  lemma RetryChangesNothing(s: State, k: nat)
    requires k < |s.requests| && s.requests[k].Upload? && s.requests[k].pc.Arrive? && s.target.used >= 0
    requires var q := s.requests[k];
      ValidRef(q.ref) && HoldsIt(s, q.ref, q.body) && |q.body| <= s.maxBlob && (q.ref.typ.Locks? ==> Fits(s.target, |q.body|))
    ensures Finishes(s, k, s.requests[k], 200, s.store, s.target.used)
  {
    LoneUploadExactly(s, k);
    hide Finishes;
  }

  // ----- deletes -----

  /** A delete with nobody else at work, none of its calls failing: the lock is gone, and what it took is
      off the books. */
  lemma LoneDeleteExactly(s: State, k: nat)
    requires k < |s.requests| && s.requests[k].Delete? && s.requests[k].dpc.LookLock?
    ensures var name := s.requests[k].name; var ref := Ref(Locks, name);
      var size := if ref in s.store then |s.store[ref]| else 0;
      exists t :: ComesTo(s, k, t) && t.store == (if ValidRef(ref) then s.store - {ref} else s.store)
        && t.requests == s.requests[k := Delete(name, if ValidRef(ref) then Deleted(0) else NotDeleted(400))]
        && t.target.used == if ValidRef(ref) && size > 0 then (if s.target.used < size then 0 else s.target.used - size) else s.target.used
  {
    var q, ref := s.requests[k], Ref(Locks, s.requests[k].name);
    var s1 := Moved(s, k);
    if !ValidRef(ref) {
      Stays(s1, k);
    } else {
      var s2 := Moved(s1, k);
      assert s2.requests == s.requests[k := s2.requests[k]];
      if ref in s.store {
        var s3 := Moved(s2, k);
        assert s3.requests == s.requests[k := s3.requests[k]];
        Stays(s3, k);
        Turn(s2, k, s3);
        Turn(s1, k, s3);
      } else {
        assert s.store - {ref} == s.store;
        Stays(s2, k);
        Turn(s1, k, s2);
      }
    }
    hide ComesTo;
    if !ValidRef(ref) {
      Turn(s, k, s1);
    } else if ref in s.store {
      Turn(s, k, Moved(Moved(s1, k), k));
    } else {
      Turn(s, k, Moved(s1, k));
    }
  }

  /** Some step of the request left the store without the object. */
  ghost predicate GoneAfter(run: seq<State>, labels: seq<Label>, i: nat, k: nat, ref: Ref)
    requires i <= |labels| < |run|
  {
    exists j :: 0 <= j < i && Own(labels, j, k) && ref !in run[j + 1].store
  }

  ghost predicate FailedBefore(labels: seq<Label>, i: nat, k: nat)
    requires i <= |labels|
  {
    exists j :: 0 <= j < i && Own(labels, j, k) && labels[j].fail
  }

  /** What the outcome of a delete means. */
  ghost predicate DeleteMeans(run: seq<State>, labels: seq<Label>, i: nat, k: nat, q: Request)
    requires i <= |labels| < |run| && q.Delete?
  {
    && (q.dpc.FreeBytes? || q.dpc.Deleted? ==> GoneAfter(run, labels, i, k, Ref(Locks, q.name)))
    && (q.dpc.NotDeleted? ==> (q.dpc.status == 400 && !ValidRef(Ref(Locks, q.name))) || (q.dpc.status == 500 && FailedBefore(labels, i, k)))
  }

  lemma DeleteStepMeans(s: State, q: Request, fail: bool)
    requires q.Delete?
    ensures var e := DeleteStep(s, q, fail); var q', ref := e.request, Ref(Locks, q.name);
      && q'.Delete? && q'.name == q.name
      && (q'.dpc.FreeBytes? || q'.dpc.Deleted? ==> ref !in e.store || q.dpc.FreeBytes? || q.dpc.Deleted?)
      && (q'.dpc.NotDeleted? ==> q' == q || (q'.dpc.status == 400 && !ValidRef(ref)) || (q'.dpc.status == 500 && fail))
  {}

  lemma DeletePastKept(run: seq<State>, labels: seq<Label>, i: nat, k: nat, ref: Ref)
    requires IsRun(run, labels) && 0 < i < |run|
    ensures GoneAfter(run, labels, i - 1, k, ref) || (Own(labels, i - 1, k) && ref !in run[i].store) ==> GoneAfter(run, labels, i, k, ref)
    ensures FailedBefore(labels, i - 1, k) || (Own(labels, i - 1, k) && labels[i - 1].fail) ==> FailedBefore(labels, i, k)
  {
    assert |run| == |labels| + 1;
    hide IsRun;
    if GoneAfter(run, labels, i - 1, k, ref) {
      var j :| 0 <= j < i - 1 && Own(labels, j, k) && ref !in run[j + 1].store;
      assert 0 <= j < i;
    }
    if FailedBefore(labels, i - 1, k) {
      var j :| 0 <= j < i - 1 && Own(labels, j, k) && labels[j].fail;
      assert 0 <= j < i;
    }
  }

  /** Over every run: a delete that succeeds left the store without the lock at one of its own steps; one
      that does not had a name that is not valid, and is answered 400, or one of its calls failed, and it
      is answered 500. */
  lemma {:induction false} DeletesExplained(run: seq<State>, labels: seq<Label>, i: nat, k: nat)
    requires IsRun(run, labels) && i < |run| && k < |run[i].requests| && run[i].requests[k].Delete?
    ensures DeleteMeans(run, labels, i, k, run[i].requests[k])
  {
    if i > 0 && k < |run[i - 1].requests| {
      StaysUpload(run[i - 1], labels[i - 1], k);
      DeletesExplained(run, labels, i - 1, k);
      var q := run[i - 1].requests[k];
      DeletePastKept(run, labels, i, k, Ref(Locks, q.name));
      if Own(labels, i - 1, k) {
        DeleteStepMeans(run[i - 1], q, labels[i - 1].fail);
      } else {
        assert run[i].requests[k] == q;
      }
      hide UploadStep, DeleteStep, GoneAfter, FailedBefore, ValidRef;
    }
  }
}
