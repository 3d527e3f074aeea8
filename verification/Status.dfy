/** The backup status file: one record per repository, and everything that rewrites it. */
module Status {
  // An absent (nil) value is None.

  import opened Options

  type Time = int

  datatype Repo = Repo(
    name: string,
    engine: string,
    lastStarted: Option<Time>,
    lastFinished: Option<Time>,
    lastSuccess: Option<Time>,
    success: bool,
    error: string,
    durationS: int,
    addedBytes: int,
    totalBytes: int,
    snapshotCount: int,
    checkLast: Option<Time>,
    checkSuccess: Option<bool>,
    checkError: string,
    tunnel: bool,
    paths: Option<seq<string>>,
    excludes: Option<seq<string>>,
    oneFileSystem: Option<bool>,
    pathStats: Option<seq<(string, int, int)>>,
    statsSnapshot: string,
    statsAt: Option<Time>,
    statsScope: string,
    snapshots: Option<seq<string>>)

  type File = seq<Repo>

  function BlankRepo(name: string): Repo {
    Repo(name, "restic", None, None, None, false, "", 0, 0, 0, 0, None, None, "", false, None, None, None, None, "", None, "", None)
  }

  // ----- the file by name; the last of two records with one name wins -----

  function Index(f: File): (m: map<string, Repo>)
    ensures forall n :: n in m ==> m[n].name == n
    ensures forall i :: 0 <= i < |f| ==> f[i].name in m
  {
    if f == [] then map[] else Index(f[..|f| - 1])[f[|f| - 1].name := f[|f| - 1]]
  }

  function Names(f: File): set<string> {
    Index(f).Keys
  }

  ghost predicate Unique(f: File) {
    forall i, j :: 0 <= i < j < |f| ==> f[i].name != f[j].name
  }

  lemma IndexNext(f: File, r: Repo)
    ensures Index(f + [r]) == Index(f)[r.name := r]
  {
    assert (f + [r])[..|f|] == f;
  }

  lemma {:induction false} IndexHolds(f: File, n: string)
    requires n in Index(f)
    ensures exists i :: 0 <= i < |f| && f[i] == Index(f)[n]
  {
    if f[|f| - 1].name != n {
      IndexHolds(f[..|f| - 1], n);
      var i :| 0 <= i < |f| - 1 && f[..|f| - 1][i] == Index(f[..|f| - 1])[n];
      assert f[i] == Index(f)[n];
    }
  }

  lemma {:induction false} IndexAppend(f: File, g: File)
    ensures Index(f + g) == Index(f) + Index(g)
  {
    if g == [] {
      assert f + g == f;
    } else {
      var init, r := g[..|g| - 1], g[|g| - 1];
      assert f + g == (f + init) + [r];
      IndexNext(f + init, r);
      IndexAppend(f, init);
    }
  }

  // ----- mergeStatus -----

  // What an update takes over from the record before it.
  function Carried(u: Repo, prev: Repo): Repo {
    var u := u.(checkLast := prev.checkLast, checkSuccess := prev.checkSuccess, checkError := prev.checkError);
    var u := if u.success then u
             else u.(lastSuccess := prev.lastSuccess,
                     snapshotCount := if u.snapshotCount == 0 then prev.snapshotCount else u.snapshotCount,
                     totalBytes := if u.totalBytes == 0 then prev.totalBytes else u.totalBytes,
                     snapshots := if u.snapshots.None? then prev.snapshots else u.snapshots);
    var u := if u.paths.Some? || prev.paths.None? then u
             else u.(paths := prev.paths, excludes := prev.excludes,
                     oneFileSystem := if prev.oneFileSystem.Some? then prev.oneFileSystem else u.oneFileSystem);
    if u.success || u.pathStats.Some? || prev.pathStats.None? then u
    else u.(pathStats := prev.pathStats, statsSnapshot := prev.statsSnapshot, statsAt := prev.statsAt, statsScope := prev.statsScope)
  }

  function Joined(u: Repo, previous: map<string, Repo>): Repo {
    if u.name in previous then Carried(u, previous[u.name]) else u
  }

  function Updated(updates: File, previous: map<string, Repo>): (f: File)
    ensures |f| == |updates| && forall i :: 0 <= i < |f| ==> f[i] == Joined(updates[i], previous)
  {
    if updates == [] then []
    else Updated(updates[..|updates| - 1], previous) + [Joined(updates[|updates| - 1], previous)]
  }

  function Without(f: File, gone: set<string>): (r: File)
    ensures forall i :: 0 <= i < |r| ==> r[i] in f && r[i].name !in gone
    ensures |r| <= |f| && (|r| == |f| ==> r == f)
  {
    if f == [] then []
    else
      var init, last := Without(f[..|f| - 1], gone), f[|f| - 1];
      if last.name in gone then init else init + [last]
  }

  function Merge(existing: File, updates: File): File {
    Updated(updates, Index(existing)) + Without(existing, Names(updates))
  }

  lemma UpdatedNext(updates: File, u: Repo, previous: map<string, Repo>)
    ensures Updated(updates + [u], previous) == Updated(updates, previous) + [Joined(u, previous)]
  {
    assert (updates + [u])[..|updates|] == updates;
  }

  lemma WithoutNext(f: File, r: Repo, gone: set<string>)
    ensures Without(f + [r], gone) == if r.name in gone then Without(f, gone) else Without(f, gone) + [r]
  {
    assert (f + [r])[..|f|] == f;
  }

  lemma Take<T>(s: seq<T>, i: nat)
    ensures s[..|s|] == s
    ensures i < |s| ==> s[..i + 1] == s[..i] + [s[i]]
  {}

  method PreviousByName(f: File) returns (previous: map<string, Repo>)
    ensures previous == Index(f)
  {
    hide Index;
    NothingYet(map[], {});
    previous := map[];
    for i := 0 to |f|
      invariant previous == Index(f[..i])
    {
      Take(f, i);
      IndexNext(f[..i], f[i]);
      previous := previous[f[i].name := f[i]];
    }
    Take(f, |f|);
  }

  method ApplyUpdates(updates: File, previous: map<string, Repo>) returns (out: File, seen: set<string>)
    ensures out == Updated(updates, previous) && seen == Names(updates)
  {
    hide Carried, Index, Updated;
    out, seen := [], {};
    NothingYet(previous, {});
    for i := 0 to |updates|
      invariant out == Updated(updates[..i], previous) && seen == Names(updates[..i])
    {
      Take(updates, i);
      IndexNext(updates[..i], updates[i]);
      UpdatedNext(updates[..i], updates[i], previous);
      var update := updates[i];
      if update.name in previous { update := Carry(update, previous[update.name]); }
      out := out + [update];
      seen := seen + {updates[i].name};
    }
    Take(updates, |updates|);
  }

  method MergeStatus(existing: File, updates: File) returns (out: File)
    ensures out == Merge(existing, updates)
  {
    hide Carried, Index, Updated, Without;
    var previous := PreviousByName(existing);
    var updated, seen := ApplyUpdates(updates, previous);
    out := updated;
    NothingYet(previous, seen);
    for i := 0 to |existing|
      invariant out == updated + Without(existing[..i], seen)
    {
      Take(existing, i);
      WithoutNext(existing[..i], existing[i], seen);
      if existing[i].name !in seen { out := out + [existing[i]]; }
    }
    Take(existing, |existing|);
  }

  lemma NothingYet(previous: map<string, Repo>, gone: set<string>)
    ensures Index([]) == map[] && Updated([], previous) == [] && Without([], gone) == []
  {}

  // The loop body of mergeStatus, field by field.
  method Carry(u: Repo, prev: Repo) returns (r: Repo)
    ensures r == Carried(u, prev) && r.name == u.name
  {
    r := u.(checkLast := prev.checkLast, checkSuccess := prev.checkSuccess, checkError := prev.checkError);
    if !r.success {
      r := r.(lastSuccess := prev.lastSuccess);
      if r.snapshotCount == 0 { r := r.(snapshotCount := prev.snapshotCount); }
      if r.totalBytes == 0 { r := r.(totalBytes := prev.totalBytes); }
      if r.snapshots.None? && prev.snapshots.Some? { r := r.(snapshots := prev.snapshots); }
    }
    if r.paths.None? && prev.paths.Some? {
      r := r.(paths := prev.paths, excludes := prev.excludes);
      if prev.oneFileSystem.Some? { r := r.(oneFileSystem := prev.oneFileSystem); }
    }
    if !r.success && r.pathStats.None? && prev.pathStats.Some? {
      r := r.(pathStats := prev.pathStats, statsSnapshot := prev.statsSnapshot, statsAt := prev.statsAt, statsScope := prev.statsScope);
    }
  }

  lemma {:induction false} UpdatedIndex(updates: File, previous: map<string, Repo>)
    ensures Names(Updated(updates, previous)) == Names(updates)
    ensures forall n :: n in Names(updates) ==> Index(Updated(updates, previous))[n] == Joined(Index(updates)[n], previous)
  {
    hide Index, Updated, Joined;
    if updates == [] {
      NothingYet(previous, {});
    } else {
      var init, u := updates[..|updates| - 1], updates[|updates| - 1];
      assert updates == init + [u];
      UpdatedIndex(init, previous);
      UpdatedNext(init, u, previous);
      IndexNext(init, u);
      IndexNext(Updated(init, previous), Joined(u, previous));
      JoinedName(u, previous);
    }
  }

  lemma JoinedName(u: Repo, previous: map<string, Repo>)
    ensures Joined(u, previous).name == u.name
  {}

  lemma {:induction false} WithoutIndex(f: File, gone: set<string>)
    ensures Index(Without(f, gone)) == Index(f) - gone
  {
    hide Index, Without;
    if f == [] {
      NothingYet(map[], gone);
    } else {
      var init, r := f[..|f| - 1], f[|f| - 1];
      assert f == init + [r];
      WithoutIndex(init, gone);
      WithoutNext(init, r, gone);
      IndexNext(init, r);
      IndexNext(Without(init, gone), r);
    }
  }

  /** Name by name: an updated repository takes over what Carried says from its old record, every other
      record stays as it is, and no name is lost or invented. */
  lemma MergeByName(existing: File, updates: File, n: string)
    ensures n in Index(Merge(existing, updates)) <==> n in Index(existing) || n in Index(updates)
    ensures n in Index(updates) ==> Index(Merge(existing, updates))[n] == Joined(Index(updates)[n], Index(existing))
    ensures n in Index(existing) && n !in Index(updates) ==> Index(Merge(existing, updates))[n] == Index(existing)[n]
  {
    hide Index, Updated, Without, Joined;
    UpdatedIndex(updates, Index(existing));
    WithoutIndex(existing, Names(updates));
    IndexAppend(Updated(updates, Index(existing)), Without(existing, Names(updates)));
  }

  lemma {:induction false} WithoutUnique(f: File, gone: set<string>)
    requires Unique(f)
    ensures Unique(Without(f, gone))
  {
    if f != [] {
      var init := f[..|f| - 1];
      WithoutUnique(init, gone);
      assert forall i :: 0 <= i < |Without(init, gone)| ==> Without(init, gone)[i] in init;
    }
  }

  lemma MergeUnique(existing: File, updates: File)
    requires Unique(existing) && Unique(updates)
    ensures Unique(Merge(existing, updates))
  {
    hide Carried;
    WithoutUnique(existing, Names(updates));
    forall i | 0 <= i < |updates| ensures Joined(updates[i], Index(existing)).name == updates[i].name {
      JoinedName(updates[i], Index(existing));
    }
  }

  // ----- the other rewrites -----

  function Orphaned(f: File, configured: set<string>): set<string> {
    set i | 0 <= i < |f| && f[i].engine == "restic" && f[i].name !in configured :: f[i].name
  }

  method RemoveRepoStatus(f: File, gone: set<string>) returns (out: File)
    ensures out == Without(f, gone)
  {
    out := [];
    for i := 0 to |f|
      invariant out == Without(f[..i], gone)
    {
      assert f[..i + 1][..i] == f[..i];
      if f[i].name !in gone { out := out + [f[i]]; }
    }
    assert f[..|f|] == f;
  }

  function Configured(f: File, configured: set<string>): File {
    Without(f, Orphaned(f, configured))
  }

  lemma {:induction false} WithoutNothing(f: File)
    ensures Without(f, {}) == f
  {
    if f != [] { WithoutNothing(f[..|f| - 1]); }
  }

  method WithoutUnconfiguredRepos(f: File, repos: seq<string>) returns (out: File)
    ensures out == Configured(f, set r | r in repos)
  {
    var configured := set r | r in repos;
    var orphaned := {};
    for i := 0 to |f|
      invariant orphaned == set j | 0 <= j < i && f[j].engine == "restic" && f[j].name !in configured :: f[j].name
    {
      if f[i].engine == "restic" && f[i].name !in configured { orphaned := orphaned + {f[i].name}; }
    }
    if orphaned == {} {
      WithoutNothing(f);
      return f;
    }
    out := RemoveRepoStatus(f, orphaned);
  }

  datatype Verdict = Verdict(last: Option<Time>, success: Option<bool>, error: string)

  function VerdictOf(r: Repo): Verdict {
    Verdict(r.checkLast, r.checkSuccess, r.checkError)
  }

  datatype Check = Check(name: string, at: Time, success: bool, error: string, tunnel: bool) {
    function Result(): Verdict { Verdict(Some(at), Some(success), if success then "" else error) }
    function Onto(r: Repo): Repo {
      r.(checkLast := Result().last, checkSuccess := Result().success, checkError := Result().error, tunnel := tunnel)
    }
  }

  function MarkedOne(r: Repo, c: Check): (m: Repo)
    ensures m.name == r.name
  {
    if r.name == c.name then c.Onto(r) else r
  }

  function Marked(f: File, c: Check): (m: File)
    ensures |m| == |f| && forall i :: 0 <= i < |f| ==> m[i] == MarkedOne(f[i], c)
  {
    if f == [] then [] else Marked(f[..|f| - 1], c) + [MarkedOne(f[|f| - 1], c)]
  }

  lemma MarkedNext(f: File, r: Repo, c: Check)
    ensures Marked(f + [r], c) == Marked(f, c) + [MarkedOne(r, c)]
  {
    assert (f + [r])[..|f|] == f;
  }

  function Checked(f: File, c: Check): File {
    if c.name in Names(f) then Marked(f, c) else Marked(f, c) + [c.Onto(BlankRepo(c.name))]
  }

  method ApplyCheckResult(f: File, c: Check) returns (out: File)
    ensures out == Checked(f, c)
  {
    var checkError := if c.success then "" else c.error;
    out := [];
    var found := false;
    for i := 0 to |f|
      invariant out == Marked(f[..i], c) && (found <==> c.name in Names(f[..i]))
    {
      assert f[..i + 1][..i] == f[..i];
      var repo := f[i];
      if repo.name == c.name {
        repo := repo.(checkLast := Some(c.at), checkSuccess := Some(c.success), checkError := checkError, tunnel := c.tunnel);
        found := true;
      }
      out := out + [repo];
    }
    assert f[..|f|] == f;
    if !found {
      out := out + [BlankRepo(c.name).(checkLast := Some(c.at), checkSuccess := Some(c.success), checkError := checkError, tunnel := c.tunnel)];
    }
  }

  lemma {:induction false} MarkedIndex(f: File, c: Check)
    ensures Names(Marked(f, c)) == Names(f)
    ensures forall n :: n in Names(f) ==> Index(Marked(f, c))[n] == MarkedOne(Index(f)[n], c)
  {
    if f != [] {
      hide Index, Marked, MarkedOne;
      var init, r := f[..|f| - 1], f[|f| - 1];
      assert f == init + [r];
      MarkedIndex(init, c);
      MarkedNext(init, r, c);
      IndexNext(init, r);
      IndexNext(Marked(init, c), MarkedOne(r, c));
    }
  }

  lemma CheckedByName(f: File, c: Check)
    ensures forall n :: n in Index(Checked(f, c)) <==> n in Index(f) || n == c.name
    ensures forall n :: n in Index(f) && n != c.name ==> Index(Checked(f, c))[n] == Index(f)[n]
    ensures Index(Checked(f, c))[c.name] == c.Onto(if c.name in Index(f) then Index(f)[c.name] else BlankRepo(c.name))
  {
    hide Index, Marked;
    MarkedIndex(f, c);
    IndexNext(Marked(f, c), c.Onto(BlankRepo(c.name)));
  }

  lemma CheckedUnique(f: File, c: Check)
    requires Unique(f)
    ensures Unique(Checked(f, c))
  {
    hide Marked;
    MarkedIndex(f, c);
  }

  datatype Plan = Plan(names: seq<string>, tunnels: set<string>, paths: seq<string>, excludes: seq<string>, oneFileSystem: bool)

  function Scheduled(p: Plan, n: string): Repo {
    BlankRepo(n).(tunnel := n in p.tunnels, paths := Some(p.paths), excludes := Some(p.excludes), oneFileSystem := Some(p.oneFileSystem))
  }

  function Missing(p: Plan, names: seq<string>, known: set<string>): (f: File)
    ensures forall i :: 0 <= i < |f| ==> f[i].name in names && f[i].name !in known && f[i] == Scheduled(p, f[i].name)
  {
    if names == [] then []
    else
      var init, n := Missing(p, names[..|names| - 1], known), names[|names| - 1];
      if n in known then init else init + [Scheduled(p, n)]
  }

  function Reconciled(f: File, p: Plan): File {
    Configured(Merge(f, Missing(p, p.names, Names(f))), set n | n in p.names)
  }

  /** reconcileStatusWithConfig. When it decides not to write, the file already is what it would write. */
  method Reconcile(f: File, p: Plan) returns (out: File)
    ensures out == Reconciled(f, p)
  {
    hide Merge, Configured;
    var known := {};
    for i := 0 to |f|
      invariant known == Names(f[..i])
    {
      assert f[..i + 1][..i] == f[..i];
      known := known + {f[i].name};
    }
    assert f[..|f|] == f;
    var scheduled := [];
    for i := 0 to |p.names|
      invariant scheduled == Missing(p, p.names[..i], known)
    {
      assert p.names[..i + 1][..i] == p.names[..i];
      if p.names[i] !in known { scheduled := scheduled + [Scheduled(p, p.names[i])]; }
    }
    assert p.names[..|p.names|] == p.names;
    var merged := MergeStatus(f, scheduled);
    var next := WithoutUnconfiguredRepos(merged, p.names);
    if scheduled == [] && |next| == |f| {
      NothingToWrite(f, set n | n in p.names);
      return f;
    }
    return next;
  }

  lemma NothingToWrite(f: File, configured: set<string>)
    ensures Merge(f, []) == f
    ensures |Configured(f, configured)| == |f| ==> Configured(f, configured) == f
  {
    hide Index, Updated, Without, Orphaned;
    NothingYet(Index(f), {});
    WithoutNothing(f);
    assert Names([]) == {};
    assert Updated([], Index(f)) + f == f;
  }

  // A configured repository as the raw configuration has it; an empty tunnel name means it uses none.
  datatype RawRepo = RawRepo(name: string, tunnelName: string)

  function FailureOf(name: string, error: string, now: Time): Repo {
    BlankRepo(name).(lastFinished := Some(now), error := error, tunnel := true)
  }

  function Failures(repos: seq<RawRepo>, error: string, now: Time): (f: File)
    ensures forall i :: 0 <= i < |f| ==> f[i] == FailureOf(f[i].name, error, now)
  {
    if repos == [] then []
    else
      var init, r := Failures(repos[..|repos| - 1], error, now), repos[|repos| - 1];
      if r.tunnelName == "" then init else init + [FailureOf(r.name, error, now)]
  }

  /** RecordTunnelEnrollmentFailure on a readable file; without tunnel repositories nothing is written. */
  method RecordTunnelEnrollmentFailure(f: File, repos: seq<RawRepo>, error: string, now: Time) returns (out: File)
    ensures out == Apply(f, TunnelFailure(Failures(repos, error, now)))
    ensures Sensible(TunnelFailure(Failures(repos, error, now)))
  {
    var updates := [];
    for i := 0 to |repos|
      invariant updates == Failures(repos[..i], error, now)
    {
      assert repos[..i + 1][..i] == repos[..i];
      if repos[i].tunnelName != "" { updates := updates + [FailureOf(repos[i].name, error, now)]; }
    }
    Take(repos, |repos|);
    FailuresSensible(repos, error, now);
    hide Merge, Sensible, Failures;
    if updates == [] {
      NothingToWrite(f, {});
      return f;
    }
    out := MergeStatus(f, updates);
  }

  lemma FailuresSensible(repos: seq<RawRepo>, error: string, now: Time)
    ensures Sensible(TunnelFailure(Failures(repos, error, now)))
  {
    var f := Failures(repos, error, now);
    hide Failures;
    forall n | n in Index(f) ensures Report(Index(f)[n]) && !Index(f)[n].success {
      IndexHolds(f, n);
    }
  }

  /** A record without paths has no excludes either, and one without path statistics no remarks on them. */
  predicate Whole(r: Repo) {
    && (r.paths.None? ==> r.excludes.None? && r.oneFileSystem.None?)
    && (r.pathStats.None? ==> r.statsSnapshot == "" && r.statsAt.None? && r.statsScope == "")
  }

  /** A failed enrolment marks the record of a tunnel repository as failed and leaves all else that it
      says (successes, verdict, inventory, paths, statistics) as it is, exactly if the record is whole. */
  lemma EnrolmentFailureOnlyMarks(f: File, repos: seq<RawRepo>, error: string, now: Time, n: string)
    requires n in Index(f) && n in Index(Failures(repos, error, now))
    ensures var prev := Index(f)[n];
      n in Index(Merge(f, Failures(repos, error, now))) &&
      (Index(Merge(f, Failures(repos, error, now)))[n] ==
         prev.(engine := "restic", lastStarted := None, lastFinished := Some(now), success := false, error := error,
               durationS := 0, addedBytes := 0, tunnel := true)
       <==> Whole(prev))
  {
    var us := Failures(repos, error, now);
    IndexHolds(us, n);
    hide Index, Merge, Failures;
    MergeByName(f, us, n);
  }

  /** removeManagedRepoStatuses on a readable file; when nothing goes, nothing is written. */
  method RemoveManagedRepoStatuses(f: File, retired: set<string>) returns (out: File)
    ensures out == Apply(f, Retiring(retired))
  {
    if retired == {} {
      WithoutNothing(f);
      return f;
    }
    var next := RemoveRepoStatus(f, retired);
    if |next| == |f| { return f; }
    return next;
  }

  // ----- whole histories -----

  datatype Op =
    | Backup(updates: File, configured: set<string>)
    | TunnelFailure(updates: File)
    | Checking(check: Check)
    | Reconciling(plan: Plan)
    | Retiring(names: set<string>)

  function Apply(f: File, op: Op): File {
    match op
    case Backup(updates, configured) => Configured(Merge(f, updates), configured)
    case TunnelFailure(updates) => Merge(f, updates)
    case Checking(c) => Checked(f, c)
    case Reconciling(p) => Reconciled(f, p)
    case Retiring(names) => Without(f, names)
  }

  function Play(f: File, ops: seq<Op>): File {
    if ops == [] then f else Apply(Play(f, ops[..|ops| - 1]), ops[|ops| - 1])
  }

  // What runRepo and finishRepoStatus report: a time of success exactly with success, and no verdict.
  predicate Report(u: Repo) {
    && (u.success <==> u.lastSuccess.Some?)
    && VerdictOf(u) == Verdict(None, None, "")
  }

  ghost predicate Sensible(op: Op) {
    match op
    case Backup(updates, configured) => forall n :: n in Index(updates) ==> Report(Index(updates)[n])
    case TunnelFailure(updates) => forall n :: n in Index(updates) ==> Report(Index(updates)[n]) && !Index(updates)[n].success
    case Checking(_) => true
    case Reconciling(_) => true
    case Retiring(_) => true
  }

  predicate Keeps(op: Op, n: string) {
    match op
    case Backup(_, configured) => n in configured
    case TunnelFailure(_) => true
    case Checking(_) => true
    case Reconciling(p) => n in p.names
    case Retiring(names) => n !in names
  }

  function Success(f: File, n: string): Option<Time> {
    if n in Index(f) then Index(f)[n].lastSuccess else None
  }

  function LastVerdict(f: File, n: string): Verdict {
    if n in Index(f) then VerdictOf(Index(f)[n]) else Verdict(None, None, "")
  }

  /** The success that an operation itself reports for a repository, and the verdict. */
  function SuccessIn(op: Op, n: string): Option<Time> {
    if op.Backup? && n in Index(op.updates) then Index(op.updates)[n].lastSuccess else None
  }

  function LatestSuccess(ops: seq<Op>, n: string, before: Option<Time>): Option<Time> {
    if ops == [] then before
    else
      var own := SuccessIn(ops[|ops| - 1], n);
      if own.Some? then own else LatestSuccess(ops[..|ops| - 1], n, before)
  }

  function LatestVerdict(ops: seq<Op>, n: string, before: Verdict): Verdict {
    if ops == [] then before
    else
      var op := ops[|ops| - 1];
      if op.Checking? && op.check.name == n then op.check.Result() else LatestVerdict(ops[..|ops| - 1], n, before)
  }

  lemma ConfiguredByName(f: File, configured: set<string>, n: string)
    requires n in configured
    ensures n in Index(Configured(f, configured)) <==> n in Index(f)
    ensures n in Index(f) ==> Index(Configured(f, configured))[n] == Index(f)[n]
  {
    hide Index, Without;
    WithoutIndex(f, Orphaned(f, configured));
  }

  lemma MergeKeeps(f: File, updates: File, n: string)
    requires n in Index(updates) ==> Report(Index(updates)[n])
    ensures LastVerdict(Merge(f, updates), n) == LastVerdict(f, n)
    ensures Success(Merge(f, updates), n) ==
      if n in Index(updates) && Index(updates)[n].success then Index(updates)[n].lastSuccess else Success(f, n)
  {
    hide Index, Merge;
    MergeByName(f, updates, n);
  }

  lemma MissingReports(p: Plan, known: set<string>)
    ensures var m := Index(Missing(p, p.names, known)); forall n :: n in m ==> n !in known && Report(m[n]) && !m[n].success
  {
    var f := Missing(p, p.names, known);
    forall n | n in Index(f) ensures n !in known && Report(Index(f)[n]) && !Index(f)[n].success {
      IndexHolds(f, n);
      hide Missing;
      var i :| 0 <= i < |f| && f[i] == Index(f)[n];
    }
  }

  /** One operation: the success it reports becomes the last one, a check's verdict becomes the last one, and
      otherwise both stay. */
  lemma ApplyKeeps(f: File, op: Op, n: string)
    requires Sensible(op) && Keeps(op, n)
    ensures Success(Apply(f, op), n) == if SuccessIn(op, n).Some? then SuccessIn(op, n) else Success(f, n)
    ensures LastVerdict(Apply(f, op), n) ==
      if op.Checking? && op.check.name == n then op.check.Result() else LastVerdict(f, n)
  {
    hide Index, Merge, Configured, Checked, Missing;
    match op
    case Backup(updates, configured) =>
      MergeKeeps(f, updates, n);
      ConfiguredByName(Merge(f, updates), configured, n);
    case TunnelFailure(updates) =>
      MergeKeeps(f, updates, n);
    case Checking(c) =>
      CheckedByName(f, c);
    case Reconciling(p) =>
      var scheduled := Missing(p, p.names, Names(f));
      MissingReports(p, Names(f));
      MergeKeeps(f, scheduled, n);
      ConfiguredByName(Merge(f, scheduled), (set x | x in p.names), n);
    case Retiring(names) =>
      WithoutIndex(f, names);
  }

  /** Over every sequence of operations that keeps the repository configured: its last success is that of
      the latest backup that succeeded, and its check verdict that of the latest check, whatever lies
      between. */
  lemma {:induction false} HistoryIsLatest(f: File, ops: seq<Op>, n: string)
    requires forall i :: 0 <= i < |ops| ==> Sensible(ops[i]) && Keeps(ops[i], n)
    ensures Success(Play(f, ops), n) == LatestSuccess(ops, n, Success(f, n))
    ensures LastVerdict(Play(f, ops), n) == LatestVerdict(ops, n, LastVerdict(f, n))
  {
    if ops != [] {
      hide Success, LastVerdict, SuccessIn, Apply, Sensible, Keeps;
      var init := ops[..|ops| - 1];
      HistoryIsLatest(f, init, n);
      ApplyKeeps(Play(f, init), ops[|ops| - 1], n);
    }
  }

  /** Successes are reported in the order of their times. */
  ghost predicate InOrder(ops: seq<Op>, n: string, before: Option<Time>) {
    && (forall i, j :: 0 <= i < j < |ops| && SuccessIn(ops[i], n).Some? && SuccessIn(ops[j], n).Some?
          ==> SuccessIn(ops[i], n).value <= SuccessIn(ops[j], n).value)
    && (before.Some? ==> forall i :: 0 <= i < |ops| && SuccessIn(ops[i], n).Some? ==> before.value <= SuccessIn(ops[i], n).value)
  }

  lemma {:induction false} LatestGrows(ops: seq<Op>, n: string, before: Option<Time>, k: nat)
    requires InOrder(ops, n, before) && k <= |ops| && LatestSuccess(ops[..k], n, before).Some?
    ensures LatestSuccess(ops, n, before).Some?
    ensures LatestSuccess(ops[..k], n, before).value <= LatestSuccess(ops, n, before).value
  {
    hide SuccessIn;
    if k == |ops| {
      assert ops[..k] == ops;
    } else {
      var init := ops[..|ops| - 1];
      assert init[..k] == ops[..k];
      LatestGrows(init, n, before, k);
      LatestIsReported(init, n, before);
    }
  }

  lemma {:induction false} LatestIsReported(ops: seq<Op>, n: string, before: Option<Time>)
    ensures LatestSuccess(ops, n, before) == before
      || exists i :: 0 <= i < |ops| && SuccessIn(ops[i], n).Some? && SuccessIn(ops[i], n) == LatestSuccess(ops, n, before)
  {
    hide SuccessIn;
    if ops != [] && SuccessIn(ops[|ops| - 1], n).None? { LatestIsReported(ops[..|ops| - 1], n, before); }
  }

  /** With a clock that never goes back, a recorded success never vanishes and never moves back. */
  lemma SuccessNeverGoesBack(f: File, ops: seq<Op>, n: string, k: nat)
    requires forall i :: 0 <= i < |ops| ==> Sensible(ops[i]) && Keeps(ops[i], n)
    requires InOrder(ops, n, Success(f, n)) && k <= |ops| && Success(Play(f, ops[..k]), n).Some?
    ensures Success(Play(f, ops), n).Some?
    ensures Success(Play(f, ops[..k]), n).value <= Success(Play(f, ops), n).value
  {
    hide Success, Sensible, Keeps;
    HistoryIsLatest(f, ops, n);
    HistoryIsLatest(f, ops[..k], n);
    LatestGrows(ops, n, Success(f, n), k);
  }

  /** No operation but a check of the repository itself touches its verdict. */
  lemma VerdictSurvives(f: File, ops: seq<Op>, n: string)
    requires forall i :: 0 <= i < |ops| ==> Sensible(ops[i]) && Keeps(ops[i], n)
    requires forall i :: 0 <= i < |ops| ==> !(ops[i].Checking? && ops[i].check.name == n)
    ensures LastVerdict(Play(f, ops), n) == LastVerdict(f, n)
  {
    hide LastVerdict, Success, Sensible, Keeps;
    HistoryIsLatest(f, ops, n);
    NoVerdict(ops, n, LastVerdict(f, n));
  }

  lemma {:induction false} NoVerdict(ops: seq<Op>, n: string, v: Verdict)
    requires forall i :: 0 <= i < |ops| ==> !(ops[i].Checking? && ops[i].check.name == n)
    ensures LatestVerdict(ops, n, v) == v
  {
    if ops != [] { NoVerdict(ops[..|ops| - 1], n, v); }
  }

  // ----- names -----

  ghost predicate DistinctNames(op: Op) {
    match op
    case Backup(updates, _) => Unique(updates)
    case TunnelFailure(updates) => Unique(updates)
    case Checking(_) => true
    case Reconciling(p) => forall i, j :: 0 <= i < j < |p.names| ==> p.names[i] != p.names[j]
    case Retiring(_) => true
  }

  lemma {:induction false} MissingUnique(p: Plan, names: seq<string>, known: set<string>)
    requires forall i, j :: 0 <= i < j < |names| ==> names[i] != names[j]
    ensures Unique(Missing(p, names, known))
  {
    if names != [] {
      var init := names[..|names| - 1];
      MissingUnique(p, init, known);
      assert forall i :: 0 <= i < |Missing(p, init, known)| ==> Missing(p, init, known)[i].name in init;
    }
  }

  /** A name never gets a second record. */
  lemma {:induction false} NamesStayUnique(f: File, ops: seq<Op>)
    requires Unique(f) && forall i :: 0 <= i < |ops| ==> DistinctNames(ops[i])
    ensures Unique(Play(f, ops))
  {
    if ops != [] {
      var init, op := ops[..|ops| - 1], ops[|ops| - 1];
      NamesStayUnique(f, init);
      var g := Play(f, init);
      hide Merge, Checked, Unique, Missing, Without, Orphaned, Play;
      match op
      case Backup(updates, configured) =>
        MergeUnique(g, updates);
        WithoutUnique(Merge(g, updates), Orphaned(Merge(g, updates), configured));
      case TunnelFailure(updates) =>
        MergeUnique(g, updates);
      case Checking(c) =>
        CheckedUnique(g, c);
      case Reconciling(p) =>
        var scheduled := Missing(p, p.names, Names(g));
        MissingUnique(p, p.names, Names(g));
        MergeUnique(g, scheduled);
        WithoutUnique(Merge(g, scheduled), Orphaned(Merge(g, scheduled), set x | x in p.names));
      case Retiring(names) =>
        WithoutUnique(g, names);
    }
  }

  // ----- writes that do not hold the run lock -----

  predicate Locked(op: Op) {
    op.Backup? || op.Checking?
  }

  /** The cases in which an operation finds nothing to write and leaves the file alone. */
  predicate Skips(f: File, op: Op) {
    match op
    case Backup(updates, _) => updates == []
    case TunnelFailure(updates) => updates == []
    case Reconciling(p) => Missing(p, p.names, Names(f)) == [] && |Reconciled(f, p)| == |f|
    case Retiring(names) => |Without(f, names)| == |f|
    case _ => false
  }

  /** For every file, every repository and every operation without the run lock that keeps it (a failed
      enrolment, a reconciliation, a retirement of others): if the operation writes, a success stored
      between its read and its write is lost, and the file says again what it said before. */
  lemma StaleWriteLosesSuccess(f: File, n: string, t: Time, stale: Op)
    requires Sensible(stale) && Keeps(stale, n) && !Locked(stale)
    ensures exists backup :: Stores(f, backup, n, t)
    ensures Success(Apply(f, stale), n) == Success(f, n)
  {
    var u := BlankRepo(n).(success := true, lastFinished := Some(t), lastSuccess := Some(t));
    IndexNext([], u);
    assert [] + [u] == [u];
    var backup := Backup([u], {n});
    assert Sensible(backup) && Keeps(backup, n) && SuccessIn(backup, n) == Some(t);
    ApplyKeeps(f, backup, n);
    ApplyKeeps(f, stale, n);
    hide Apply, Sensible;
    assert Stores(f, backup, n, t);
  }

  ghost predicate Stores(f: File, backup: Op, n: string, t: Time) {
    backup.Backup? && Sensible(backup) && Keeps(backup, n) && Success(Apply(f, backup), n) == Some(t)
  }
}
