/** The append-only backup gateway on a disk store; only locks can be deleted. */
module Gateway {
  // Uploads reserve quota, commit through a temporary file and a hard link, and then release, keep or spend the
  // reservation. Each file-system call and each registry call is one step, and the steps of all requests to one
  // repository interleave freely.

  import opened Options
  import Registry

  type Bytes = seq<nat>

  datatype ObjectType = Config | Data | Index | Keys | Locks | Snapshots

  /** An object name is the SHA-256 of some bytes or some other text. SHA-256 is taken as injective,
      so that a digest stands for the bytes it was computed from. */
  datatype ObjectName = Digest(bytes: Bytes) | Text(text: string)

  datatype Ref = Ref(typ: ObjectType, name: ObjectName)

  predicate NameChar(c: char) {
    'a' <= c <= 'z' || 'A' <= c <= 'Z' || '0' <= c <= '9' || c == '.' || c == '_' || c == '-'
  }

  const UPLOAD_PREFIX := ".upload-"

  /** validName on the text of a name; a hex digest always passes. */
  predicate ValidText(s: string) {
    s != "" && s != "." && s != ".." && (forall i :: 0 <= i < |s| ==> NameChar(s[i])) && !(UPLOAD_PREFIX <= s)
  }

  predicate HexDigit(c: char) { '0' <= c <= '9' || 'a' <= c <= 'f' }

  /** A valid name is one plain path element, and every hex digest is a valid name. */
  lemma ValidNamesAreSafe(s: string)
    ensures ValidText(s) ==> s != "" && s != "." && s != ".." && '/' !in s && '\\' !in s && '\0' !in s
    ensures ValidText(s) ==> forall i :: 0 <= i < |s| ==> ' ' < s[i] <= 'z'
    ensures s != "" && (forall i :: 0 <= i < |s| ==> HexDigit(s[i])) ==> ValidText(s)
  {
    if s != "" && forall i :: 0 <= i < |s| ==> HexDigit(s[i]) { assert s[0] != '.'; }
  }

  predicate ValidRef(r: Ref) {
    r.typ.Config? || r.name.Digest? || ValidText(r.name.text)
  }

  /** What Create and the duplicate check report. */
  datatype Result = Committed | Identical | Exists | Corrupt | Invalid | Ambiguous

  /** Where an upload has got to; `held` says whether its reservation was granted. */
  datatype UploadPc =
    | Arrive
    | Probe
    | Look(held: bool)
    | DupSize(held: bool)
    | DupOpen(held: bool)
    | Copy(held: bool)
    | Link(held: bool)
    | LinkRefused(held: bool, exists_: bool)
    | Settle(held: bool, result: Result)
    | Answered(held: bool, result: Result, status: int)
    | Refused(status: int)

  datatype DeletePc =
    | LookLock
    | RemoveLock(seen: nat)
    | FreeBytes(freed: nat, lost: int)
    | Deleted(lost: int)
    | NotDeleted(status: int)

  datatype Request =
    | Upload(ref: Ref, body: Bytes, pc: UploadPc)
    | Delete(name: ObjectName, dpc: DeletePc)

  datatype State = State(
    store: map<Ref, Bytes>,
    target: Registry.Target,
    maxBlob: int,
    requests: seq<Request>)

  // ----- one step -----

  function Reserve(t: Registry.Target, n: nat): (bool, Registry.Target) {
    if n == 0 then (true, t) else Registry.ReserveOn(t, n)
  }

  function Release(t: Registry.Target, n: nat): Registry.Target {
    if n == 0 then t else Registry.ReleaseOn(t, n)
  }

  /** classifyDuplicate up to the point where the stored object has to be read. */
  predicate MayBeIdentical(r: Ref, body: Bytes, storedSize: nat) {
    storedSize == |body| && (r.typ.Config? || r.name == Digest(body))
  }

  function CompareStored(r: Ref, body: Bytes, stored: Bytes): Result {
    if r.typ.Config? then (if stored == body then Identical else Exists)
    else if r.name == Digest(stored) then Identical else Corrupt
  }

  function StatusOf(result: Result): int {
    match result
    case Committed => 200
    case Identical => 200
    case Exists => 403
    case Corrupt => 403
    case Invalid => 400
    case Ambiguous => 500
  }

  datatype Effect = Effect(request: Request, store: map<Ref, Bytes>, target: Registry.Target)

  function Move(s: State, q: Request, pc: UploadPc): Effect
    requires q.Upload?
  {
    Effect(q.(pc := pc), s.store, s.target)
  }

  /** post and diskStore.Create; `fail` makes the step's file-system call fail. */
  function UploadStep(s: State, q: Request, fail: bool): Effect
    requires q.Upload?
  {
    var Upload(ref, body, pc) := q;
    match pc
    case Arrive =>
      if |body| > s.maxBlob then Move(s, q, Refused(413))
      else
        var (ok, t) := Reserve(s.target, |body|);
        if ok then Move(s, q, Look(true)).(target := t)
        else Move(s, q, if ref.typ.Locks? then Refused(413) else Probe)
    case Probe =>
      Move(s, q, if !fail && ValidRef(ref) && ref in s.store then Look(false) else Refused(413))
    case Look(held) =>
      Move(s, q,
        if !ValidRef(ref) then Settle(held, Invalid)
        else if fail then Settle(held, Ambiguous)
        else if ref in s.store then DupSize(held) else Copy(held))
    case DupSize(held) =>
      Move(s, q,
        if !fail && ref in s.store && MayBeIdentical(ref, body, |s.store[ref]|) then DupOpen(held)
        else Settle(held, Exists))
    case DupOpen(held) =>
      Move(s, q, Settle(held, if fail || ref !in s.store then Exists else CompareStored(ref, body, s.store[ref])))
    case Copy(held) => Move(s, q, if fail then Settle(held, Ambiguous) else Link(held))
    case Link(held) =>
      if fail || ref in s.store then Move(s, q, LinkRefused(held, ref in s.store && !fail))
      else Move(s, q, Settle(held, Committed)).(store := s.store[ref := body])
    case LinkRefused(held, existed) =>
      Move(s, q,
        if !fail && ref in s.store then DupSize(held)
        else Settle(held, if existed then Exists else Ambiguous))
    case Settle(held, result) =>
      Move(s, q, Answered(held, result, StatusOf(result))).(target :=
        if result.Committed? then (if held then s.target else Reserve(s.target, |body|).1)
        else if held && !result.Ambiguous? then Release(s.target, |body|)
        else s.target)
    case Answered(_, _, _) => Effect(q, s.store, s.target)
    case Refused(_) => Effect(q, s.store, s.target)
  }

  /** handleDelete and diskStore.DeleteLock. */
  function DeleteStep(s: State, q: Request, fail: bool): Effect
    requires q.Delete?
  {
    var ref := Ref(Locks, q.name);
    match q.dpc
    case LookLock =>
      Effect(q.(dpc :=
        if !ValidRef(ref) then NotDeleted(400)
        else if fail then NotDeleted(500)
        else RemoveLock(if ref in s.store then |s.store[ref]| else 0)), s.store, s.target)
    case RemoveLock(seen) =>
      if ref !in s.store then Effect(q.(dpc := Deleted(0)), s.store, s.target)
      else if fail then Effect(q.(dpc := NotDeleted(500)), s.store, s.target)
      else Effect(q.(dpc := FreeBytes(seen, |s.store[ref]| - seen)), s.store - {ref}, s.target)
    case FreeBytes(freed, lost) => Effect(q.(dpc := Deleted(lost)), s.store, Release(s.target, freed))
    case Deleted(_) => Effect(q, s.store, s.target)
    case NotDeleted(_) => Effect(q, s.store, s.target)
  }

  datatype Label = Arrival(request: Request) | Act(i: nat, fail: bool)

  predicate Fresh(q: Request) {
    if q.Upload? then q.pc.Arrive? else q.dpc.LookLock?
  }

  predicate Enabled(s: State, l: Label) {
    match l
    case Arrival(q) => Fresh(q)
    case Act(i, _) => i < |s.requests|
  }

  function StepOf(s: State, q: Request, fail: bool): Effect {
    if q.Upload? then UploadStep(s, q, fail) else DeleteStep(s, q, fail)
  }

  function Apply(s: State, l: Label): State
    requires Enabled(s, l)
  {
    match l
    case Arrival(q) => s.(requests := s.requests + [q])
    case Act(i, fail) =>
      var e := StepOf(s, s.requests[i], fail);
      s.(store := e.store, target := e.target, requests := s.requests[i := e.request])
  }

  /** A repository that has just been measured, with nobody connected. */
  ghost predicate Initial(s: State) {
    && s.requests == [] && s.target.ready && !s.target.revoked
    && s.target.used == Stored(s.store)
  }

  ghost predicate IsRun(run: seq<State>, labels: seq<Label>) {
    && |run| == |labels| + 1 && Initial(run[0])
    && forall i :: 0 <= i < |labels| ==> Enabled(run[i], labels[i]) && run[i + 1] == Apply(run[i], labels[i])
  }

  // ----- byte counts -----

  /** RepoUsage: the bytes of all committed objects. */
  ghost function Stored(store: map<Ref, Bytes>): nat {
    if store == map[] then 0
    else
      var r :| r in store;
      |store[r]| + Stored(store - {r})
  }

  lemma {:induction false} StoredWithout(store: map<Ref, Bytes>, r: Ref)
    requires r in store
    ensures Stored(store) == |store[r]| + Stored(store - {r})
    decreases |store|
  {
    var c :| c in store && Stored(store) == |store[c]| + Stored(store - {c});
    if c != r {
      StoredWithout(store - {c}, r);
      StoredWithout(store - {r}, c);
      assert store - {c} - {r} == store - {r} - {c};
    }
  }

  lemma StoredWith(store: map<Ref, Bytes>, r: Ref, b: Bytes)
    requires r !in store
    ensures Stored(store[r := b]) == Stored(store) + |b|
  {
    StoredWithout(store[r := b], r);
    assert store[r := b] - {r} == store;
  }

  /** Reserved, and neither spent, returned nor given up yet. */
  function InFlight(q: Request): (n: int)
    ensures n >= 0
  {
    if q.Delete? then 0
    else match q.pc
      case Look(true) => |q.body|
      case DupSize(true) => |q.body|
      case DupOpen(true) => |q.body|
      case Copy(true) => |q.body|
      case Link(true) => |q.body|
      case LinkRefused(true, _) => |q.body|
      case Settle(true, result) => if result.Committed? then 0 else |q.body|
      case _ => 0
  }

  /** Reserved and kept for good after a failure that may have committed. */
  function Kept(q: Request): (n: int)
    ensures n >= 0
  {
    if q.Upload? && q.pc.Answered? && q.pc.held && q.pc.result.Ambiguous? then |q.body| else 0
  }

  /** Removed from the store and not yet released. */
  function Unreleased(q: Request): (n: int)
    ensures n >= 0
  {
    if q.Delete? && q.dpc.FreeBytes? then q.dpc.freed else 0
  }

  /** Removed from the store beyond what the deleting request saw there. */
  function Lost(q: Request): int {
    if q.Delete? then (match q.dpc case FreeBytes(_, lost) => lost case Deleted(lost) => lost case _ => 0) else 0
  }

  function Sum(qs: seq<Request>, f: Request -> int): int {
    if qs == [] then 0 else Sum(qs[..|qs| - 1], f) + f(qs[|qs| - 1])
  }

  lemma {:induction false} SumUpdate(qs: seq<Request>, f: Request -> int, i: nat, q: Request)
    requires i < |qs|
    ensures Sum(qs[i := q], f) == Sum(qs, f) - f(qs[i]) + f(q)
  {
    var n := |qs| - 1;
    if i == n {
      assert qs[i := q][..n] == qs[..n];
    } else {
      SumUpdate(qs[..n], f, i, q);
      assert qs[i := q][..n] == qs[..n][i := q];
    }
  }

  lemma SumAppend(qs: seq<Request>, f: Request -> int, q: Request)
    ensures Sum(qs + [q], f) == Sum(qs, f) + f(q)
  {
    assert (qs + [q])[..|qs|] == qs;
  }

  lemma {:induction false} SumSplit(qs: seq<Request>, f: Request -> int, g: Request -> int, h: Request -> int)
    requires forall q :: q in qs ==> h(q) == f(q) + g(q)
    ensures Sum(qs, h) == Sum(qs, f) + Sum(qs, g)
  {
    if qs != [] { SumSplit(qs[..|qs| - 1], f, g, h); }
  }

  lemma {:induction false} SumNonNegative(qs: seq<Request>, f: Request -> int)
    requires forall q :: q in qs ==> f(q) >= 0
    ensures Sum(qs, f) >= 0
    ensures forall q :: q in qs ==> Sum(qs, f) >= f(q)
    ensures Sum(qs, f) == 0 <==> forall q :: q in qs ==> f(q) == 0
  {
    if qs != [] {
      var n := |qs| - 1;
      SumNonNegative(qs[..n], f);
      assert forall q :: q in qs <==> q in qs[..n] || q == qs[n];
    }
  }

  // ----- invariants -----

  /** Every lock name fixes the size of the bytes stored under it. */
  ghost predicate SizedStore(store: map<Ref, Bytes>, size: ObjectName -> nat) {
    forall r :: r in store && r.typ.Locks? ==> |store[r]| == size(r.name)
  }

  ghost predicate SizedRequest(q: Request, size: ObjectName -> nat) {
    match q
    case Upload(ref, body, _) => ref.typ.Locks? ==> |body| == size(ref.name)
    case Delete(name, dpc) =>
      && (dpc.RemoveLock? ==> dpc.seen == 0 || dpc.seen == size(name))
      && (dpc.FreeBytes? ==> dpc.lost >= 0)
      && (dpc.Deleted? ==> dpc.lost >= 0)
  }

  /** An upload that goes on without a reservation is a retry of a stored object that is no lock. */
  ghost predicate Backed(store: map<Ref, Bytes>, q: Request) {
    q.Upload? ==>
      match q.pc
      case Probe => !q.ref.typ.Locks?
      case Look(false) => !q.ref.typ.Locks? && q.ref in store
      case DupSize(false) => !q.ref.typ.Locks? && q.ref in store
      case DupOpen(false) => !q.ref.typ.Locks? && q.ref in store
      case Copy(false) => false
      case Link(false) => false
      case LinkRefused(false, _) => false
      case Settle(false, result) => !q.ref.typ.Locks? && !result.Committed?
      case Answered(false, result, _) => !q.ref.typ.Locks? && !result.Committed?
      case _ => true
  }

  function Owed(q: Request): int {
    InFlight(q) + Kept(q) + Unreleased(q) + Lost(q)
  }

  ghost predicate Accounted(s: State, size: ObjectName -> nat) {
    && SizedStore(s.store, size)
    && (forall q :: q in s.requests ==> SizedRequest(q, size) && Backed(s.store, q))
    && s.target.used == Stored(s.store) + Sum(s.requests, Owed)
    && s.target.ready && !s.target.revoked
  }

  lemma UploadBooks(s: State, q: Request, fail: bool, size: ObjectName -> nat)
    requires q.Upload? && Backed(s.store, q) && SizedRequest(q, size) && SizedStore(s.store, size)
    requires s.target.used >= Stored(s.store) + Owed(q)
    ensures var e := UploadStep(s, q, fail);
      && e.target.used - s.target.used == Stored(e.store) - Stored(s.store) + Owed(e.request) - Owed(q)
      && SizedRequest(e.request, size) && SizedStore(e.store, size) && Backed(e.store, e.request)
  {
    UploadUsage(s, q, fail, size);
    hide Stored, Owed;
  }

  lemma UploadUsage(s: State, q: Request, fail: bool, size: ObjectName -> nat)
    requires q.Upload? && Backed(s.store, q) && SizedRequest(q, size) && SizedStore(s.store, size)
    requires s.target.used >= Stored(s.store) + Owed(q)
    ensures var e := UploadStep(s, q, fail);
      e.target.used - s.target.used == Stored(e.store) - Stored(s.store) + Owed(e.request) - Owed(q)
  {
    if q.pc.Link? && !fail && q.ref !in s.store {
      StoredWith(s.store, q.ref, q.body);
    }
  }

  lemma DeleteBooks(s: State, q: Request, fail: bool, size: ObjectName -> nat)
    requires q.Delete? && SizedRequest(q, size) && SizedStore(s.store, size)
    requires s.target.used >= Stored(s.store) + Owed(q)
    ensures var e := DeleteStep(s, q, fail);
      && e.target.used - s.target.used == Stored(e.store) - Stored(s.store) + Owed(e.request) - Owed(q)
      && SizedRequest(e.request, size) && SizedStore(e.store, size)
  {
    var ref := Ref(Locks, q.name);
    if q.dpc.RemoveLock? && ref in s.store { StoredWithout(s.store, ref); }
  }

  /** Only locks ever leave the store, and what stays keeps its bytes. */
  ghost predicate Appends(store: map<Ref, Bytes>, store': map<Ref, Bytes>) {
    forall r :: r in store ==> (r.typ.Locks? && r !in store') || (r in store' && store'[r] == store[r])
  }

  lemma StepAppends(s: State, q: Request, fail: bool)
    ensures Appends(s.store, StepOf(s, q, fail).store)
  {}

  lemma OwedNonNegative(q: Request, size: ObjectName -> nat)
    requires SizedRequest(q, size)
    ensures Lost(q) >= 0 && Owed(q) >= 0
  {}

  lemma ActAccounted(s: State, i: nat, size: ObjectName -> nat)
    requires Accounted(s, size) && i < |s.requests|
    ensures forall fail :: Accounted(Apply(s, Act(i, fail)), size)
  {
    hide UploadStep, DeleteStep, InFlight, Kept, Unreleased, Lost, Owed, Backed, SizedRequest;
    forall fail ensures Accounted(Apply(s, Act(i, fail)), size) {
      var q := s.requests[i];
      var e := StepOf(s, q, fail);
      forall r | r in s.requests ensures Owed(r) >= 0 { OwedNonNegative(r, size); }
      SumNonNegative(s.requests, Owed);
      StepStays(s, q, fail);
      if q.Upload? {
        UploadBooks(s, q, fail, size);
      } else {
        DeleteBooks(s, q, fail, size);
        DeletesAreBacked(e.store, e.request);
      }
      SumUpdate(s.requests, Owed, i, e.request);
      forall r | r in s.requests[i := e.request] ensures SizedRequest(r, size) && Backed(e.store, r) {
        if r != e.request {
          assert r in s.requests;
          StepAppends(s, q, fail);
          StillBacked(s.store, e.store, r);
        }
      }
    }
  }

  lemma StepStays(s: State, q: Request, fail: bool)
    ensures var e := StepOf(s, q, fail);
      e.target.ready == s.target.ready && e.target.revoked == s.target.revoked && (q.Delete? ==> e.request.Delete?)
  {}

  lemma StillBacked(store: map<Ref, Bytes>, store': map<Ref, Bytes>, q: Request)
    requires Appends(store, store') && Backed(store, q)
    ensures Backed(store', q)
  {}

  lemma DeletesAreBacked(store: map<Ref, Bytes>, q: Request)
    requires q.Delete?
    ensures Backed(store, q)
  {}

  lemma StepAccounted(s: State, size: ObjectName -> nat)
    requires Accounted(s, size)
    ensures forall l :: Enabled(s, l) && (l.Arrival? ==> SizedRequest(l.request, size)) ==> Accounted(Apply(s, l), size)
  {
    forall l | Enabled(s, l) && (l.Arrival? ==> SizedRequest(l.request, size)) ensures Accounted(Apply(s, l), size) {
      match l
      case Arrival(q) => SumAppend(s.requests, Owed, q);
      case Act(i, fail) => ActAccounted(s, i, size);
    }
  }

  ghost predicate SizedRun(run: seq<State>, labels: seq<Label>, size: ObjectName -> nat) {
    && IsRun(run, labels) && SizedStore(run[0].store, size)
    && forall i :: 0 <= i < |labels| && labels[i].Arrival? ==> SizedRequest(labels[i].request, size)
  }

  lemma {:induction false} RunAccounted(run: seq<State>, labels: seq<Label>, size: ObjectName -> nat, i: nat)
    requires SizedRun(run, labels, size) && i < |run|
    ensures forall j :: 0 <= j <= i ==> Accounted(run[j], size)
  {
    if i > 0 {
      RunAccounted(run, labels, size, i - 1);
      StepAccounted(run[i - 1], size);
      assert Accounted(Apply(run[i - 1], labels[i - 1]), size);
    }
  }

  /** Conservation: recorded usage is the committed bytes, plus reservations in flight, plus those
      kept after ambiguous failures, plus bytes freed but not released yet, plus the bytes of locks
      that a delete removed without having seen them. The last term is the only drift, and usage is
      exact if and only if no delete ever did that. */
  lemma QuotaConservation(run: seq<State>, labels: seq<Label>, size: ObjectName -> nat, i: nat)
    requires SizedRun(run, labels, size) && i < |run|
    ensures var s := run[i];
      && s.target.used == Stored(s.store) + Sum(s.requests, InFlight) + Sum(s.requests, Kept)
                          + Sum(s.requests, Unreleased) + Sum(s.requests, Lost)
      && Sum(s.requests, Lost) >= 0
      && (Sum(s.requests, Lost) == 0 <==> forall q :: q in s.requests ==> Lost(q) == 0)
  {
    var qs := run[i].requests;
    RunAccounted(run, labels, size, i);
    var a := (q: Request) => InFlight(q) + Kept(q);
    var b := (q: Request) => InFlight(q) + Kept(q) + Unreleased(q);
    SumSplit(qs, InFlight, Kept, a);
    SumSplit(qs, a, Unreleased, b);
    SumSplit(qs, b, Lost, Owed);
    forall q | q in qs ensures Lost(q) >= 0 { OwedNonNegative(q, size); }
    SumNonNegative(qs, Lost);
  }

  /** The clamp at zero never fires: whatever a step releases is still on the books. */
  lemma ClampNeverFires(run: seq<State>, labels: seq<Label>, size: ObjectName -> nat, i: nat, q: Request)
    requires SizedRun(run, labels, size) && i < |run| && q in run[i].requests
    ensures run[i].target.used >= InFlight(q) + Unreleased(q)
    ensures q.Upload? && q.pc.Settle? && q.pc.held && !q.pc.result.Committed? ==> run[i].target.used >= |q.body|
    ensures q.Delete? && q.dpc.FreeBytes? ==> run[i].target.used >= q.dpc.freed
  {
    RunAccounted(run, labels, size, i);
    forall r | r in run[i].requests ensures Owed(r) >= 0 { OwedNonNegative(r, size); }
    SumNonNegative(run[i].requests, Owed);
    OwedNonNegative(q, size);
  }

  // ----- the quota is a bound -----

  lemma StepWithinQuota(s: State, q: Request, fail: bool)
    requires s.target.quota > 0 && s.target.used <= s.target.quota
    ensures var t := StepOf(s, q, fail).target; t.quota == s.target.quota && (t.used <= t.quota)
  {}

  lemma {:induction false} UsedWithinQuota(run: seq<State>, labels: seq<Label>, i: nat)
    requires IsRun(run, labels) && i < |run| && run[0].target.quota > 0 && run[0].target.used <= run[0].target.quota
    ensures run[i].target.quota == run[0].target.quota && run[i].target.used <= run[0].target.quota
  {
    if i > 0 {
      UsedWithinQuota(run, labels, i - 1);
      match labels[i - 1]
      case Arrival(_) =>
      case Act(k, fail) => StepWithinQuota(run[i - 1], run[i - 1].requests[k], fail);
    }
  }

  /** Stored plus reserved bytes never exceed a positive quota that held at the start. */
  lemma QuotaBound(run: seq<State>, labels: seq<Label>, size: ObjectName -> nat, i: nat)
    requires SizedRun(run, labels, size) && i < |run|
    requires run[0].target.quota > 0 && run[0].target.used <= run[0].target.quota
    ensures Stored(run[i].store) + Sum(run[i].requests, InFlight) <= run[0].target.quota
  {
    QuotaConservation(run, labels, size, i);
    UsedWithinQuota(run, labels, i);
    SumNonNegative(run[i].requests, Kept);
    SumNonNegative(run[i].requests, Unreleased);
  }

  /** An over-quota retry never commits: the branch that accounts for an unreserved commit is dead. */
  lemma UnreservedNeverCommits(run: seq<State>, labels: seq<Label>, size: ObjectName -> nat, i: nat, q: Request)
    requires SizedRun(run, labels, size) && i < |run| && q in run[i].requests && q.Upload?
    ensures (q.pc.Settle? || q.pc.Answered?) && q.pc.result.Committed? ==> q.pc.held
    ensures q.pc.Copy? || q.pc.Link? ==> q.pc.held
  {
    RunAccounted(run, labels, size, i);
    assert Backed(run[i].store, q);
  }

  // ----- append-only -----

  lemma {:induction false} ObjectsNeverChange(run: seq<State>, labels: seq<Label>, i: nat, j: nat, r: Ref)
    requires IsRun(run, labels) && i <= j < |run| && r in run[i].store && !r.typ.Locks?
    ensures r in run[j].store && run[j].store[r] == run[i].store[r]
  {
    if i < j {
      ObjectsNeverChange(run, labels, i, j - 1, r);
      match labels[j - 1]
      case Arrival(_) =>
      case Act(k, fail) => StepAppends(run[j - 1], run[j - 1].requests[k], fail);
    }
  }

  /** One step never rewrites an object: it stays with its bytes, or it is a lock and is gone. */
  lemma OnlyLocksDisappear(run: seq<State>, labels: seq<Label>, i: nat)
    requires IsRun(run, labels) && i < |labels|
    ensures Appends(run[i].store, run[i + 1].store)
  {
    match labels[i]
    case Arrival(_) =>
    case Act(k, fail) => StepAppends(run[i], run[i].requests[k], fail);
  }

  predicate Won(q: Request, r: Ref) {
    q.Upload? && q.ref == r && (q.pc.Settle? || q.pc.Answered?) && q.pc.result.Committed?
  }

  /** The step makes `q` the upload that committed its name, into an empty place. */
  lemma StepWins(s: State, q: Request, fail: bool, r: Ref)
    ensures var e := StepOf(s, q, fail);
      && (Won(q, r) ==> Won(e.request, r))
      && (Won(e.request, r) && !Won(q, r) ==> r !in s.store && r in e.store && e.store[r] == q.body)
      && (r !in s.store && r in e.store ==> Won(e.request, r) && !Won(q, r))
  {}

  ghost predicate OneWinner(run: seq<State>, i: nat, r: Ref)
    requires 0 < |run| && i < |run|
  {
    var qs := run[i].requests;
    && (forall a, b :: 0 <= a < |qs| && 0 <= b < |qs| && Won(qs[a], r) && Won(qs[b], r) ==> a == b)
    && (r !in run[0].store && r in run[i].store ==> exists a :: 0 <= a < |qs| && Won(qs[a], r))
    && (forall a :: 0 <= a < |qs| && Won(qs[a], r) ==> r !in run[0].store && r in run[i].store && run[i].store[r] == qs[a].body)
  }

  /** Of any number of racing uploads to a name that is no lock, exactly one commits if the name was
      free and is now taken, none if it was taken, and the stored bytes are the winner's. */
  lemma {:induction false} ExactlyOneCommits(run: seq<State>, labels: seq<Label>, i: nat, r: Ref)
    requires IsRun(run, labels) && i < |run| && !r.typ.Locks?
    ensures OneWinner(run, i, r)
  {
    if i > 0 {
      ExactlyOneCommits(run, labels, i - 1, r);
      var s, t := run[i - 1], run[i];
      match labels[i - 1]
      case Arrival(q) =>
        assert !Won(q, r);
        assert forall a :: 0 <= a < |s.requests| ==> t.requests[a] == s.requests[a];
      case Act(k, fail) =>
        StepWins(s, s.requests[k], fail, r);
        StepAppends(s, s.requests[k], fail);
        if r in run[0].store { ObjectsNeverChange(run, labels, 0, i - 1, r); }
        if r in t.store && r !in run[0].store {
          if r in s.store {
            var a :| 0 <= a < |s.requests| && Won(s.requests[a], r);
            assert Won(t.requests[a], r);
          } else {
            assert Won(t.requests[k], r);
          }
        }
    }
  }

  ghost predicate HeldBy(run: seq<State>, i: nat, r: Ref, b: Bytes)
    requires i < |run|
  {
    exists j :: 0 <= j <= i && r in run[j].store && run[j].store[r] == b
  }

  predicate Confirmed(q: Request) {
    q.Upload? && (q.pc.Settle? || q.pc.Answered?) && (q.pc.result.Committed? || q.pc.result.Identical?)
  }

  predicate Matching(q: Request) {
    q.Upload? && q.pc.DupOpen? ==> q.ref.typ.Config? || q.ref.name == Digest(q.body)
  }

  lemma StepConfirms(s: State, q: Request, fail: bool)
    requires Matching(q)
    ensures var e := StepOf(s, q, fail);
      && Matching(e.request)
      && (q.Upload? ==> e.request.Upload? && e.request.ref == q.ref && e.request.body == q.body)
      && (Confirmed(e.request) && !Confirmed(q) ==>
            (q.ref in s.store && s.store[q.ref] == q.body)
            || (q.ref in e.store && e.store[q.ref] == q.body))
  {}

  lemma {:induction false} ConfirmedWasHeld(run: seq<State>, labels: seq<Label>, i: nat, k: nat)
    requires IsRun(run, labels) && i < |run| && k < |run[i].requests|
    ensures Matching(run[i].requests[k])
    ensures Confirmed(run[i].requests[k]) ==> HeldBy(run, i, run[i].requests[k].ref, run[i].requests[k].body)
  {
    if i > 0 {
      var s, t := run[i - 1], run[i];
      if k < |s.requests| {
        ConfirmedWasHeld(run, labels, i - 1, k);
        var q := s.requests[k];
        if labels[i - 1].Act? && labels[i - 1].i == k { StepConfirms(s, q, labels[i - 1].fail); }
        if Confirmed(q) {
          var j :| 0 <= j <= i - 1 && q.ref in run[j].store && run[j].store[q.ref] == q.body;
          assert 0 <= j <= i;
        }
      }
    }
  }

  /** A 200 answer means that the store held exactly the uploaded bytes under that name. */
  lemma OkMeansStored(run: seq<State>, labels: seq<Label>, i: nat, k: nat)
    requires IsRun(run, labels) && i < |run| && k < |run[i].requests|
    requires var q := run[i].requests[k]; q.Upload? && q.pc.Answered? && q.pc.status == 200
    ensures HeldBy(run, i, run[i].requests[k].ref, run[i].requests[k].body)
  {
    ConfirmedWasHeld(run, labels, i, k);
    AnswerMatchesResult(run, labels, i, k);
  }

  lemma {:induction false} AnswerMatchesResult(run: seq<State>, labels: seq<Label>, i: nat, k: nat)
    requires IsRun(run, labels) && i < |run| && k < |run[i].requests|
    ensures var q := run[i].requests[k]; q.Upload? && q.pc.Answered? ==> q.pc.status == StatusOf(q.pc.result)
  {
    if i > 0 && k < |run[i - 1].requests| { AnswerMatchesResult(run, labels, i - 1, k); }
  }

  // ----- a delete that loses bytes -----

  /** Some run with bodies and locks of the declared sizes leads to the state. */
  ghost predicate Reaches(s: State, size: ObjectName -> nat) {
    exists run, labels :: SizedRun(run, labels, size) && run[|labels|] == s
  }

  lemma Extend(s: State, l: Label, size: ObjectName -> nat)
    requires Reaches(s, size) && Enabled(s, l) && (l.Arrival? ==> SizedRequest(l.request, size))
    ensures Reaches(Apply(s, l), size)
  {
    var run, labels :| SizedRun(run, labels, size) && run[|labels|] == s;
    var run', labels' := run + [Apply(s, l)], labels + [l];
    assert SizedRun(run', labels', size) && run'[|labels'|] == Apply(s, l);
  }

  const LOCK: Ref := Ref(Locks, Digest([7]))

  ghost function One(): ObjectName -> nat { _ => 1 }

  ghost function Pair(store: map<Ref, Bytes>, used: int, dpc: DeletePc, pc: UploadPc): State {
    State(store, Registry.Target(1, [], 0, used, false, true, used > 0), 10, [Delete(LOCK.name, dpc), Upload(LOCK, [7], pc)])
  }

  lemma DeleterLooks()
    ensures Reaches(Pair(map[], 0, RemoveLock(0), Arrive), One())
  {
    var s := State(map[], Registry.Target(1, [], 0, 0, false, true, false), 10, []);
    assert SizedRun([s], [], One()) && [s][0] == s;
    var s1 := Apply(s, Arrival(Delete(LOCK.name, LookLock)));
    Extend(s, Arrival(Delete(LOCK.name, LookLock)), One());
    Extend(s1, Arrival(Upload(LOCK, [7], Arrive)), One());
    var s2 := Pair(map[], 0, LookLock, Arrive);
    assert Apply(s1, Arrival(Upload(LOCK, [7], Arrive))) == s2;
    Extend(s2, Act(0, false), One());
    assert Apply(s2, Act(0, false)).requests == Pair(map[], 0, RemoveLock(0), Arrive).requests;
  }

  lemma UploadTurn(store: map<Ref, Bytes>, used: int, pc: UploadPc, store': map<Ref, Bytes>, used': int, pc': UploadPc)
    requires Reaches(Pair(store, used, RemoveLock(0), pc), One())
    requires var s := Pair(store, used, RemoveLock(0), pc); var e := UploadStep(s, Upload(LOCK, [7], pc), false);
      && e.request == Upload(LOCK, [7], pc') && e.store == store' && e.target == Pair(store', used', RemoveLock(0), pc').target
    ensures Reaches(Pair(store', used', RemoveLock(0), pc'), One())
  {
    hide Reaches;
    var s := Pair(store, used, RemoveLock(0), pc);
    Extend(s, Act(1, false), One());
    assert Apply(s, Act(1, false)).requests == Pair(store', used', RemoveLock(0), pc').requests;
  }

  lemma UploadWins()
    ensures Reaches(Pair(map[LOCK := [7]], 1, RemoveLock(0), Settle(true, Committed)), One())
  {
    hide Reaches;
    DeleterLooks();
    UploadTurn(map[], 0, Arrive, map[], 1, Look(true));
    UploadTurn(map[], 1, Look(true), map[], 1, Copy(true));
    UploadTurn(map[], 1, Copy(true), map[], 1, Link(true));
    UploadTurn(map[], 1, Link(true), map[LOCK := [7]], 1, Settle(true, Committed));
  }

  /** Recorded usage is not what is stored, reserved and waiting to be released. */
  ghost predicate Drifts(s: State) {
    s.target.used != Stored(s.store) + Sum(s.requests, InFlight) + Sum(s.requests, Kept) + Sum(s.requests, Unreleased)
  }

  /** A delete looks for a lock, an upload commits that lock, and the delete then removes it: the
      byte stays on the books although nothing is stored, reserved or waiting to be released. */
  lemma DeleteCanLoseBytes()
    ensures exists s :: Reaches(s, One()) && Drifts(s)
  {
    UploadWins();
    var before := Pair(map[LOCK := [7]], 1, RemoveLock(0), Settle(true, Committed));
    var s := Apply(before, Act(0, false));
    assert |s.requests| > 0 && Lost(s.requests[0]) > 0;
    hide Reaches;
    Extend(before, Act(0, false), One());
    LostByte(s);
  }

  lemma LostByte(s: State)
    requires Reaches(s, One()) && |s.requests| > 0 && Lost(s.requests[0]) > 0
    ensures Drifts(s)
  {
    var run, labels :| SizedRun(run, labels, One()) && run[|labels|] == s;
    QuotaConservation(run, labels, One(), |labels|);
    assert s.requests[0] in s.requests;
  }

  // ----- where objects live on disk -----

  const TYPES: set<string> := {"data", "index", "keys", "locks", "snapshots"}

  /** objectPath below the store's root, after the cleaning that joining path elements does. */
  function ObjectPath(repo: string, typ: string, name: string): Option<seq<string>> {
    if !ValidText(repo) then None
    else if typ == "config" then Some([repo, "config"])
    else if typ !in TYPES || !ValidText(name) then None
    else if typ == "data" && |name| >= 2 then
      Some(if name[..2] == ".." then [repo, name] else [repo, "data", name[..2], name])
    else Some([repo, typ, name])
  }

  /** Objects with the same path are the same object, and no object hides among upload leftovers. */
  lemma PathsNeverCollide(repo: string, typ: string, name: string, repo': string, typ': string, name': string)
    requires var p, p' := ObjectPath(repo, typ, name), ObjectPath(repo', typ', name'); p.Some? && p == p'
    ensures repo == repo' && typ == typ' && (typ != "config" ==> name == name')
    ensures var p := ObjectPath(repo, typ, name).value; !(UPLOAD_PREFIX <= p[|p| - 1])
  {
    var p := ObjectPath(repo, typ, name).value;
    assert p[0] == repo == repo';
    assert "config"[..2] == "co";
    assert typ != "config" ==> p[|p| - 1] == name;
    assert typ' != "config" ==> p[|p| - 1] == name';
  }

  /** The one object kind that can leave its directory: data names that begin with two dots. */
  lemma PathStaysInTypeDirectory(repo: string, typ: string, name: string)
    requires ObjectPath(repo, typ, name).Some? && typ != "config"
    ensures [repo, typ] <= ObjectPath(repo, typ, name).value <==> !(typ == "data" && ".." <= name)
  {
    var p := ObjectPath(repo, typ, name).value;
    if typ == "data" && |name| >= 2 {
      assert ".." <= name <==> name[..2] == "..";
      if name[..2] == ".." { assert p[1][0] == '.' && "data"[0] == 'd'; }
    }
  }
}
