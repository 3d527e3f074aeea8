/** The status file as independent records, and where the parts of a record come from over whole histories. */
module StatusRecords {
  import opened Options
  import opened Status

  function Record(f: File, n: string): Option<Repo> {
    if n in Index(f) then Some(Index(f)[n]) else None
  }

  /** The record at `i` is the last one of its name. */
  ghost predicate LastAt(f: File, n: string, i: nat) {
    i < |f| && f[i].name == n && forall j :: i < j < |f| ==> f[j].name != n
  }

  lemma {:induction false} RecordIsLast(f: File, n: string)
    ensures match Record(f, n)
      case None => forall i :: 0 <= i < |f| ==> f[i].name != n
      case Some(r) => exists i: nat :: LastAt(f, n, i) && r == f[i]
  {
    if f != [] {
      var init, last := f[..|f| - 1], f[|f| - 1];
      RecordIsLast(init, n);
      if last.name == n {
        assert LastAt(f, n, |f| - 1);
      } else if n in Index(init) {
        var i: nat :| LastAt(init, n, i) && Index(init)[n] == init[i];
        assert LastAt(f, n, i) && f[i] == init[i];
      }
    }
  }

  // ----- one operation, record by record -----

  /** A report put over the record before it. The verdict is always the old one. A failed run keeps the
      success, and whatever it could not find out itself; a run that names no paths keeps the old ones. */
  function Reported(was: Option<Repo>, u: Repo): Repo {
    match was
    case None => u
    case Some(p) =>
      var keepPaths := u.paths.None? && p.paths.Some?;
      var keepStats := !u.success && u.pathStats.None? && p.pathStats.Some?;
      Repo(u.name, u.engine, u.lastStarted, u.lastFinished,
           if u.success then u.lastSuccess else p.lastSuccess,
           u.success, u.error, u.durationS, u.addedBytes,
           if !u.success && u.totalBytes == 0 then p.totalBytes else u.totalBytes,
           if !u.success && u.snapshotCount == 0 then p.snapshotCount else u.snapshotCount,
           p.checkLast, p.checkSuccess, p.checkError,
           u.tunnel,
           if keepPaths then p.paths else u.paths,
           if keepPaths then p.excludes else u.excludes,
           if keepPaths && p.oneFileSystem.Some? then p.oneFileSystem else u.oneFileSystem,
           if keepStats then p.pathStats else u.pathStats,
           if keepStats then p.statsSnapshot else u.statsSnapshot,
           if keepStats then p.statsAt else u.statsAt,
           if keepStats then p.statsScope else u.statsScope,
           if !u.success && u.snapshots.None? then p.snapshots else u.snapshots)
  }

  function Blank(n: string): Repo {
    Repo(n, "restic", None, None, None, false, "", 0, 0, 0, 0, None, None, "", false, None, None, None, None, "", None, "", None)
  }

  function IfConfigured(r: Option<Repo>, configured: bool): Option<Repo> {
    if r.Some? && r.value.engine == "restic" && !configured then None else r
  }

  /** What an operation makes of the record of one repository. */
  function After(was: Option<Repo>, op: Op, n: string): Option<Repo> {
    match op
    case Backup(us, configured) =>
      IfConfigured(if Record(us, n).Some? then Some(Reported(was, Record(us, n).value)) else was, n in configured)
    case TunnelFailure(us) => if Record(us, n).Some? then Some(Reported(was, Record(us, n).value)) else was
    case Checking(c) =>
      if n != c.name then was
      else
        var r := if was.Some? then was.value else Blank(n);
        Some(r.(checkLast := Some(c.at), checkSuccess := Some(c.success), checkError := if c.success then "" else c.error, tunnel := c.tunnel))
    case Reconciling(p) =>
      if n in p.names && was.None? then
        Some(Blank(n).(tunnel := n in p.tunnels, paths := Some(p.paths), excludes := Some(p.excludes), oneFileSystem := Some(p.oneFileSystem)))
      else IfConfigured(was, n in p.names)
    case Retiring(names) => if n in names then None else was
  }

  lemma CarriedIsReported(u: Repo, prev: Repo)
    ensures Carried(u, prev) == Reported(Some(prev), u)
  {}

  lemma MergedRecord(f: File, us: File, n: string)
    ensures Record(Merge(f, us), n) == if Record(us, n).Some? then Some(Reported(Record(f, n), Record(us, n).value)) else Record(f, n)
  {
    hide Merge, Index, Carried, Reported;
    MergeByName(f, us, n);
    if n in Index(us) && n in Index(f) { CarriedIsReported(Index(us)[n], Index(f)[n]); }
    hide Joined;
    if n in Index(us) { ReportedFirst(Index(us)[n], Index(f)); }
  }

  lemma ReportedFirst(u: Repo, previous: map<string, Repo>)
    ensures Joined(u, previous) == if u.name in previous then Carried(u, previous[u.name]) else Reported(None, u)
  {}

  lemma {:induction false} OneRecord(f: File, i: nat)
    requires Unique(f) && i < |f|
    ensures f[i].name in Index(f) && Index(f)[f[i].name] == f[i]
  {
    RecordIsLast(f, f[i].name);
    hide Index;
    var k: nat :| LastAt(f, f[i].name, k) && Index(f)[f[i].name] == f[k];
    assert k == i;
  }

  lemma OrphanedExactly(f: File, configured: set<string>, n: string)
    requires Unique(f)
    ensures n in Orphaned(f, configured) <==> n in Index(f) && Index(f)[n].engine == "restic" && n !in configured
  {
    if n in Orphaned(f, configured) {
      var i: nat :| i < |f| && f[i].engine == "restic" && f[i].name !in configured && f[i].name == n;
      OneRecord(f, i);
    }
    if n in Index(f) && Index(f)[n].engine == "restic" && n !in configured {
      IndexHolds(f, n);
    }
  }

  lemma ConfiguredRecord(f: File, configured: set<string>, n: string)
    requires Unique(f)
    ensures Record(Configured(f, configured), n) == IfConfigured(Record(f, n), n in configured)
  {
    OrphanedExactly(f, configured, n);
    hide Index, Orphaned, Without;
    WithoutIndex(f, Orphaned(f, configured));
  }

  lemma {:induction false} MissingRecord(p: Plan, names: seq<string>, known: set<string>, n: string)
    ensures Record(Missing(p, names, known), n) == if n in names && n !in known then Some(Scheduled(p, n)) else None
  {
    if names != [] {
      var init, last := names[..|names| - 1], names[|names| - 1];
      MissingRecord(p, init, known, n);
      assert n in names <==> n in init || n == last;
      IndexNext(Missing(p, init, known), Scheduled(p, last));
      hide Index;
    }
  }

  lemma ReconciledRecord(f: File, p: Plan, n: string)
    requires Unique(f) && DistinctNames(Reconciling(p))
    ensures Record(Reconciled(f, p), n) == After(Record(f, n), Reconciling(p), n)
  {
    var scheduled := Missing(p, p.names, Names(f));
    MissingUnique(p, p.names, Names(f));
    MergeUnique(f, scheduled);
    MissingRecord(p, p.names, Names(f), n);
    MergedRecord(f, scheduled, n);
    ConfiguredRecord(Merge(f, scheduled), (set x | x in p.names), n);
    hide Merge, Missing, Configured, Index, Unique;
  }

  /** Every operation changes every record as a function of that record alone; what other repositories the
      file holds, and in what order, makes no difference. */
  lemma RecordsAreIndependent(f: File, op: Op, n: string)
    requires Unique(f) && DistinctNames(op)
    ensures Record(Apply(f, op), n) == After(Record(f, n), op, n)
  {
    match op
    case Backup(us, configured) =>
      MergeUnique(f, us);
      MergedRecord(f, us, n);
      ConfiguredRecord(Merge(f, us), configured, n);
      hide Merge, Configured, Index, Unique, Reported;
    case TunnelFailure(us) =>
      MergedRecord(f, us, n);
      hide Merge, Index, Unique, Reported;
    case Checking(c) =>
      CheckedByName(f, c);
      hide Checked, Index, Unique;
    case Reconciling(p) => ReconciledRecord(f, p, n);
    case Retiring(names) =>
      WithoutIndex(f, names);
      hide Without, Index, Unique;
  }

  function Fold(was: Option<Repo>, ops: seq<Op>, n: string): Option<Repo> {
    if ops == [] then was else After(Fold(was, ops[..|ops| - 1], n), ops[|ops| - 1], n)
  }

  /** And so does every sequence of operations. */
  lemma {:induction false} HistoriesAreIndependent(f: File, ops: seq<Op>, n: string)
    requires Unique(f) && forall i :: 0 <= i < |ops| ==> DistinctNames(ops[i])
    ensures Record(Play(f, ops), n) == Fold(Record(f, n), ops, n)
  {
    if ops != [] {
      var init := ops[..|ops| - 1];
      HistoriesAreIndependent(f, init, n);
      NamesStayUnique(f, init);
      hide Unique, Apply, Record, After;
      RecordsAreIndependent(Play(f, init), ops[|ops| - 1], n);
    }
  }

  // ----- the list of a failed enrolment -----

  /** A failed enrolment reports on exactly the repositories that use a tunnel. */
  lemma {:induction false} FailuresExactly(repos: seq<RawRepo>, error: string, now: Time, n: string)
    ensures Record(Failures(repos, error, now), n) ==
      if exists i :: 0 <= i < |repos| && repos[i].name == n && repos[i].tunnelName != ""
      then Some(Blank(n).(lastFinished := Some(now), error := error, tunnel := true)) else None
  {
    if repos != [] {
      var init, r := repos[..|repos| - 1], repos[|repos| - 1];
      FailuresExactly(init, error, now, n);
      assert (exists i :: 0 <= i < |repos| && repos[i].name == n && repos[i].tunnelName != "") <==>
        (exists i :: 0 <= i < |init| && init[i].name == n && init[i].tunnelName != "") || (r.name == n && r.tunnelName != "");
      IndexNext(Failures(init, error, now), FailureOf(r.name, error, now));
      hide Index;
    }
  }

  // ----- where paths and statistics come from -----

  datatype Inventory = Inventory(paths: Option<seq<string>>, excludes: Option<seq<string>>, oneFileSystem: Option<bool>)
  datatype Statistics = Statistics(paths: Option<seq<(string, int, int)>>, snapshot: string, at: Option<Time>, scope: string)

  function InventoryOf(r: Repo): Inventory { Inventory(r.paths, r.excludes, r.oneFileSystem) }
  function StatisticsOf(r: Repo): Statistics { Statistics(r.pathStats, r.statsSnapshot, r.statsAt, r.statsScope) }

  /** The operation's own report on a repository. */
  function ReportIn(op: Op, n: string): Option<Repo> {
    if op.Backup? then Record(op.updates, n) else if op.TunnelFailure? then Record(op.updates, n) else None
  }

  /** Nothing is known of the repository, or of its paths. */
  const NO_INVENTORY := Inventory(None, None, None)
  const NO_STATISTICS := Statistics(None, "", None, "")

  /** A report without paths says nothing else about them, one with paths says whether it crosses file
      systems, and so for statistics. */
  predicate Complete(u: Repo) {
    && (u.paths.None? ==> InventoryOf(u) == NO_INVENTORY) && (u.paths.Some? ==> u.oneFileSystem.Some?)
    && (u.pathStats.None? ==> StatisticsOf(u) == NO_STATISTICS)
  }

  ghost predicate CompleteOp(op: Op, n: string) {
    ReportIn(op, n).Some? ==> Complete(ReportIn(op, n).value)
  }

  /** The paths of the latest report that names any. */
  function LatestInventory(ops: seq<Op>, n: string, before: Inventory): Inventory {
    if ops == [] then before
    else
      var u := ReportIn(ops[|ops| - 1], n);
      if u.Some? && u.value.paths.Some? then InventoryOf(u.value) else LatestInventory(ops[..|ops| - 1], n, before)
  }

  /** The statistics of the latest report that has any, or that succeeded without. */
  function LatestStatistics(ops: seq<Op>, n: string, before: Statistics): Statistics {
    if ops == [] then before
    else
      var u := ReportIn(ops[|ops| - 1], n);
      if u.Some? && (u.value.success || u.value.pathStats.Some?) then StatisticsOf(u.value) else LatestStatistics(ops[..|ops| - 1], n, before)
  }

  lemma AfterKeepsInventory(was: Repo, op: Op, n: string)
    requires Keeps(op, n) && CompleteOp(op, n) && Complete(was)
    ensures var r := After(Some(was), op, n); var u := ReportIn(op, n);
      && r.Some? && Complete(r.value)
      && InventoryOf(r.value) == (if u.Some? && u.value.paths.Some? then InventoryOf(u.value) else InventoryOf(was))
      && StatisticsOf(r.value) == (if u.Some? && (u.value.success || u.value.pathStats.Some?) then StatisticsOf(u.value) else StatisticsOf(was))
  {
    hide Record;
  }

  /** Over every sequence of operations that keeps the repository configured, from a file that has it: its
      paths are those of the latest report that named any, with their excludes, and its statistics those of
      the latest report that had any, or of the latest that succeeded without. */
  lemma {:induction false} InventoryIsLatest(f: File, ops: seq<Op>, n: string)
    requires Unique(f) && n in Index(f) && Complete(Index(f)[n])
    requires forall i :: 0 <= i < |ops| ==> DistinctNames(ops[i]) && Keeps(ops[i], n) && CompleteOp(ops[i], n)
    ensures var r := Record(Play(f, ops), n);
      && r.Some? && Complete(r.value)
      && InventoryOf(r.value) == LatestInventory(ops, n, InventoryOf(Index(f)[n]))
      && StatisticsOf(r.value) == LatestStatistics(ops, n, StatisticsOf(Index(f)[n]))
  {
    if ops != [] {
      var init, op := ops[..|ops| - 1], ops[|ops| - 1];
      InventoryIsLatest(f, init, n);
      NamesStayUnique(f, init);
      RecordsAreIndependent(Play(f, init), op, n);
      hide Unique, Apply, After, Record, ReportIn, Complete, CompleteOp, Keeps, DistinctNames, Index;
      AfterKeepsInventory(Record(Play(f, init), n).value, op, n);
    }
  }

  // ----- the order of the records -----

  /** `a` stands before `b` in the file. */
  ghost predicate Precedes(f: File, a: Repo, b: Repo) {
    exists p, q :: 0 <= p < q < |f| && f[p] == a && f[q] == b
  }

  lemma {:induction false} WithoutOrdered(f: File, gone: set<string>, i: nat, j: nat)
    requires i < j < |Without(f, gone)|
    ensures Precedes(f, Without(f, gone)[i], Without(f, gone)[j])
  {
    var init, last := f[..|f| - 1], f[|f| - 1];
    var w := Without(init, gone);
    assert forall k :: 0 <= k < |init| ==> init[k] == f[k];
    if j < |w| {
      WithoutOrdered(init, gone, i, j);
      var p, q :| 0 <= p < q < |init| && init[p] == w[i] && init[q] == w[j];
      assert f[p] == w[i] && f[q] == w[j];
    } else {
      assert w[i] in init;
      var p :| 0 <= p < |init| && init[p] == w[i];
      assert f[p] == w[i] && f[|f| - 1] == last;
    }
  }

  /** A merge writes the reports first, in their order, and then the other records in the order they had. */
  lemma MergeOrder(f: File, us: File)
    ensures var m := Merge(f, us);
      && |m| >= |us| && (forall i :: 0 <= i < |us| ==> m[i].name == us[i].name)
      && (forall i :: |us| <= i < |m| ==> m[i] in f)
      && (forall i, j :: |us| <= i < j < |m| ==> Precedes(f, m[i], m[j]))
  {
    hide Index, Carried, Precedes;
    var m, rest := Merge(f, us), Without(f, Names(us));
    forall i | 0 <= i < |us| ensures m[i].name == us[i].name { JoinedName(us[i], Index(f)); }
    forall i, j | |us| <= i < j < |m| ensures Precedes(f, m[i], m[j]) { WithoutOrdered(f, Names(us), i - |us|, j - |us|); }
    hide Joined, Updated;
    assert forall i :: |us| <= i < |m| ==> m[i] == rest[i - |us|];
  }
}
