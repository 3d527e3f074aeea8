/** The status file under concurrent processes. Backup runs and checks read and write it while they hold the
    run lock; failed enrolments, reconciliation and the retirement of repositories do so without. */
module StatusRaces {
  import opened Options
  import opened Status

  type Process = nat

  /** The file, the holder of the run lock, and what each process has read and not yet given up. */
  datatype Disk = Disk(file: File, holder: Option<Process>, copies: map<Process, File>)

  datatype Event =
    | Acquire(p: Process)
    | Load(p: Process)
    | Store(p: Process, op: Op)
    | Quit(p: Process)

  /** A store replaces the file by the operation's result on what its process read earlier. A check goes on
      from its own result. Every process may end or crash at any time, and one with nothing to write ends. */
  ghost predicate Step(d: Disk, e: Event, d': Disk) {
    match e
    case Acquire(p) => d.holder.None? && p !in d.copies && d' == d.(holder := Some(p))
    case Load(p) => d' == d.(copies := d.copies[p := d.file])
    case Store(p, op) =>
      && p in d.copies && (Locked(op) <==> d.holder == Some(p)) && !Skips(d.copies[p], op)
      && var g := Apply(d.copies[p], op);
         d' == d.(file := g, copies := if Locked(op) then d.copies[p := g] else d.copies - {p})
    case Quit(p) => d' == d.(copies := d.copies - {p}, holder := if d.holder == Some(p) then None else d.holder)
  }

  ghost predicate IsRun(ds: seq<Disk>, es: seq<Event>) {
    && |ds| == |es| + 1 && ds[0].holder.None? && ds[0].copies == map[]
    && forall i :: 0 <= i < |es| ==> Step(ds[i], es[i], ds[i + 1])
  }

  // ----- what the events alone say -----

  /** The operations in the order of their stores. */
  function Stored(es: seq<Event>): seq<Op> {
    if es == [] then []
    else
      var before, e := Stored(es[..|es| - 1]), es[|es| - 1];
      if e.Store? then before + [e.op] else before
  }

  function Readers(es: seq<Event>): set<Process> {
    if es == [] then {}
    else
      var before := Readers(es[..|es| - 1]);
      match es[|es| - 1]
      case Acquire(_) => before
      case Load(p) => before + {p}
      case Store(p, op) => if Locked(op) then before else before - {p}
      case Quit(p) => before - {p}
  }

  /** The operation reports a success or a check verdict of the repository. */
  predicate Tells(op: Op, n: string) {
    SuccessIn(op, n).Some? || (op.Checking? && op.check.name == n)
  }

  /** The processes whose read is older than the latest report that was stored for the repository. */
  function Behind(es: seq<Event>, n: string): set<Process> {
    if es == [] then {}
    else
      var init, e := es[..|es| - 1], es[|es| - 1];
      match e
      case Acquire(_) => Behind(init, n)
      case Load(p) => Behind(init, n) - {p}
      case Store(p, op) => if Tells(op, n) then Readers(init) - {p} else if Locked(op) then Behind(init, n) else Behind(init, n) - {p}
      case Quit(p) => Behind(init, n) - {p}
  }

  /** What the file says of the repository: its last success and its check verdict. */
  datatype Stamp = Stamp(success: Option<Time>, verdict: Verdict)

  function StampOf(f: File, n: string): Stamp {
    Stamp(Success(f, n), LastVerdict(f, n))
  }

  function Latest(es: seq<Event>, n: string, before: Stamp): Stamp {
    Stamp(LatestSuccess(Stored(es), n, before.success), LatestVerdict(Stored(es), n, before.verdict))
  }

  /** A write that was read before, and lands after, a success or a verdict was stored. */
  ghost predicate StaleStore(es: seq<Event>, n: string, i: nat)
    requires i < |es|
  {
    es[i].Store? && !Locked(es[i].op) && es[i].p in Behind(es[..i], n)
  }

  /** Every operation is sensible and keeps the repository, and each success and each check stored for it
      is later than all before it. */
  ghost predicate Proper(es: seq<Event>, n: string, before: Stamp) {
    forall i :: 0 <= i < |es| && es[i].Store? ==> ProperStore(es[i].op, n, Latest(es[..i], n, before))
  }

  ghost predicate ProperStore(op: Op, n: string, latest: Stamp) {
    && Sensible(op) && Keeps(op, n)
    && (SuccessIn(op, n).Some? ==> Older(latest.success, SuccessIn(op, n)))
    && (op.Checking? && op.check.name == n ==> Older(latest.verdict.last, Some(op.check.at)))
  }

  predicate Older(a: Option<Time>, b: Option<Time>) {
    b.Some? && (a.Some? ==> a.value < b.value)
  }

  predicate OlderStamp(a: Stamp, b: Stamp) {
    && (a.success == b.success || Older(a.success, b.success))
    && (a.verdict.last == b.verdict.last || Older(a.verdict.last, b.verdict.last))
    && (Older(a.success, b.success) || Older(a.verdict.last, b.verdict.last))
  }

  function Told(s: Stamp, op: Op, n: string): Stamp {
    Stamp(if SuccessIn(op, n).Some? then SuccessIn(op, n) else s.success,
          if op.Checking? && op.check.name == n then op.check.Result() else s.verdict)
  }

  lemma LatestNext(es: seq<Event>, i: nat, n: string, before: Stamp)
    requires i < |es|
    ensures Latest(es[..i + 1], n, before) ==
      if es[i].Store? then Told(Latest(es[..i], n, before), es[i].op, n) else Latest(es[..i], n, before)
  {
    assert es[..i + 1][..i] == es[..i];
    if es[i].Store? { assert (Stored(es[..i]) + [es[i].op])[..|Stored(es[..i])|] == Stored(es[..i]); }
  }

  lemma StampNext(f: File, op: Op, n: string)
    requires Sensible(op) && Keeps(op, n)
    ensures StampOf(Apply(f, op), n) == Told(StampOf(f, n), op, n)
  {
    ApplyKeeps(f, op, n);
  }

  /** A proper report is newer than all before it. */
  lemma ToldIsNewer(op: Op, n: string, latest: Stamp, s: Stamp)
    requires ProperStore(op, n, latest) && (s == latest || OlderStamp(s, latest))
    ensures Tells(op, n) ==> Locked(op) && OlderStamp(s, Told(latest, op, n))
    ensures !Tells(op, n) ==> Told(latest, op, n) == latest && Told(s, op, n) == s
  {}

  // ----- the law and its exact limit -----

  /** Until a stale write, copies that are behind are older, and all others and the file are up to date. */
  ghost predicate Faithful(d: Disk, readers: set<Process>, behind: set<Process>, latest: Stamp, n: string) {
    && StampOf(d.file, n) == latest
    && readers == d.copies.Keys && behind <= readers
    && (forall p :: p in d.copies ==> if p in behind then OlderStamp(StampOf(d.copies[p], n), latest) else StampOf(d.copies[p], n) == latest)
    && (d.holder.Some? ==> d.holder.value !in behind)
  }

  lemma StepFaithful(d: Disk, e: Event, d': Disk, es: seq<Event>, i: nat, n: string, before: Stamp)
    requires i < |es| && es[i] == e && Step(d, e, d') && Proper(es, n, before) && !StaleStore(es, n, i)
    requires Faithful(d, Readers(es[..i]), Behind(es[..i], n), Latest(es[..i], n, before), n)
    ensures Faithful(d', Readers(es[..i + 1]), Behind(es[..i + 1], n), Latest(es[..i + 1], n, before), n)
  {
    hide StampOf, Told, Tells, OlderStamp, ProperStore, Apply, Latest;
    assert es[..i + 1][..i] == es[..i];
    LatestNext(es, i, n, before);
    if e.Store? {
      var latest := Latest(es[..i], n, before);
      assert ProperStore(e.op, n, latest);
      ProperIsSensible(e.op, n, latest);
      StampNext(d.copies[e.p], e.op, n);
      forall p | p in d.copies
        ensures Tells(e.op, n) ==> Locked(e.op) && OlderStamp(StampOf(d.copies[p], n), Told(latest, e.op, n))
        ensures !Tells(e.op, n) ==> Told(latest, e.op, n) == latest && Told(StampOf(d.copies[p], n), e.op, n) == StampOf(d.copies[p], n)
      {
        ToldIsNewer(e.op, n, latest, StampOf(d.copies[p], n));
      }
    }
  }

  lemma ProperIsSensible(op: Op, n: string, latest: Stamp)
    requires ProperStore(op, n, latest)
    ensures Sensible(op) && Keeps(op, n)
  {}

  lemma {:induction false} RunFaithful(ds: seq<Disk>, es: seq<Event>, i: nat, n: string)
    requires IsRun(ds, es) && i < |ds| && Proper(es, n, StampOf(ds[0].file, n))
    requires forall j :: 0 <= j < i ==> !StaleStore(es, n, j)
    ensures Faithful(ds[i], Readers(es[..i]), Behind(es[..i], n), Latest(es[..i], n, StampOf(ds[0].file, n)), n)
  {
    if i > 0 {
      hide Step, Proper, StaleStore, Faithful;
      RunFaithful(ds, es, i - 1, n);
      StepFaithful(ds[i - 1], es[i - 1], ds[i], es, i - 1, n, StampOf(ds[0].file, n));
    } else {
      assert es[..0] == [];
    }
  }

  /** The state's file says what the latest stored reports said. */
  ghost predicate Records(ds: seq<Disk>, es: seq<Event>, n: string, i: nat)
    requires IsRun(ds, es) && i < |ds|
  {
    StampOf(ds[i].file, n) == Latest(es[..i], n, StampOf(ds[0].file, n))
  }

  /** Over every interleaving of reads and writes: the file has the latest stored success and verdict at
      all times if and only if no failed enrolment, reconciliation or retirement writes what it read before
      one of them was stored. */
  lemma RecordsExactly(ds: seq<Disk>, es: seq<Event>, n: string)
    requires IsRun(ds, es) && Proper(es, n, StampOf(ds[0].file, n))
    ensures (forall i :: 0 <= i < |ds| ==> Records(ds, es, n, i)) <==> (forall i :: 0 <= i < |es| ==> !StaleStore(es, n, i))
  {
    if forall i :: 0 <= i < |es| ==> !StaleStore(es, n, i) {
      forall i | 0 <= i < |ds| ensures Records(ds, es, n, i) { RunFaithful(ds, es, i, n); }
    } else {
      var i :| 0 <= i < |es| && StaleStore(es, n, i);
      StaleSomewhere(ds, es, i, n);
    }
  }

  /** A stale write breaks the law, there or earlier. */
  lemma {:induction false} StaleSomewhere(ds: seq<Disk>, es: seq<Event>, i: nat, n: string)
    requires IsRun(ds, es) && Proper(es, n, StampOf(ds[0].file, n)) && i < |es| && StaleStore(es, n, i)
    ensures exists j :: 0 <= j < |ds| && !Records(ds, es, n, j)
  {
    hide Proper, Records, StaleStore;
    if j :| 0 <= j < i && StaleStore(es, n, j) {
      StaleSomewhere(ds, es, j, n);
    } else {
      RunFaithful(ds, es, i, n);
      StaleBreaks(ds, es, i, n);
    }
  }

  lemma StaleBreaks(ds: seq<Disk>, es: seq<Event>, i: nat, n: string)
    requires IsRun(ds, es) && Proper(es, n, StampOf(ds[0].file, n)) && i < |es| && StaleStore(es, n, i)
    requires Faithful(ds[i], Readers(es[..i]), Behind(es[..i], n), Latest(es[..i], n, StampOf(ds[0].file, n)), n)
    ensures !Records(ds, es, n, i + 1)
  {
    hide StampOf, Told, Tells, ProperStore, Apply, Latest;
    var e, latest := es[i], Latest(es[..i], n, StampOf(ds[0].file, n));
    assert Step(ds[i], e, ds[i + 1]);
    assert ProperStore(e.op, n, latest);
    LatestNext(es, i, n, StampOf(ds[0].file, n));
    ProperIsSensible(e.op, n, latest);
    StampNext(ds[i].copies[e.p], e.op, n);
    ToldIsNewer(e.op, n, latest, StampOf(ds[i].copies[e.p], n));
  }
}
