/** The ban manager's single-threaded event loop: it keeps the kernel's address sets, the failure
    tracker and the guard in agreement. Runs without nftables errors. */
module BanManager {
  import opened Options
  import opened Tracker
  import opened Guard
  import opened Journals

  const MAX_FLEET := 50000
  const MAX_LOCAL := 10000
  const UNBAN_MEMORY := 24 * 3600 * SECOND

  datatype WirePolicy = WirePolicy(
    enforce: bool, applyFleet: bool, banPrivate: bool,
    maxRetry: int, findTimeS: int, banTimeS: int, banTimeMaxS: int)

  /** An entry of the fleet list; `ip` is None if the text is no address. */
  datatype FleetEntry = FleetEntry(ip: Option<Addr>, expiresAt: Time)

  datatype Unbanning = Unbanning(ip: Option<Addr>, at: Time)

  datatype UnbanKey = UnbanKey(ip: Addr, at: Time)

  datatype Config = Config(policy: WirePolicy, allowlist: seq<Prefix>, unban: seq<Unbanning>, fleet: seq<FleetEntry>)

  datatype Failure = Failure(at: Option<Time>, ip: Addr, user: string)

  datatype LogEntry = BanLogged(ban: Ban, enforced: bool) | UnbanLogged(ip: Addr, at: Time)

  /** Idle: enforcement was never set up. Enforcing: the enforcer is there and its state is ok. */
  datatype Enforcement = Idle | Enforcing | Unsupported | NoPermission

  datatype Element = Element(ip: Addr, expires: Time)

  datatype World = World(
    tracking: Policy,
    states: States,
    rules: Rules,
    policy: Option<WirePolicy>,
    enforcement: Enforcement,
    supported: bool,
    deniedNetAdmin: bool,
    local: map<Addr, Time>,
    fleet: map<Addr, Time>,
    fleetEntries: seq<FleetEntry>,
    seenUnbans: map<UnbanKey, Time>,
    journal: Journal<LogEntry>)

  predicate WantsEnforcement(w: World) {
    w.policy.Some? && w.policy.value.enforce
  }

  predicate IsBanned(w: World, ip: Addr, now: Time) {
    ip in w.states && After(w.states[ip].bannedUntil, now)
  }

  function ActiveSet(w: World, now: Time): set<Addr> {
    set ip | ip in w.states && IsBanned(w, ip, now)
  }

  /** The kernel keeps an element at least one second. */
  function ElementExpiry(until: Time, now: Time): Time {
    if until - now < SECOND then now + SECOND else until
  }

  // ----- the parts of a step -----

  /** The tracker, and the kernel while enforcing, forget some addresses. */
  function Without(w: World, ips: set<Addr>): World {
    w.(states := w.states - ips, local := if w.enforcement.Enforcing? then w.local - ips else w.local)
  }

  /** reconcileProtected */
  function Reconciled(w: World, now: Time): World {
    Without(w, set ip | ip in w.states && IsBanned(w, ip, now) && IsProtected(w.rules, ip))
  }

  predicate Deployable(w: World, e: FleetEntry, now: Time) {
    e.ip.Some? && IsRoutable(e.ip.value) && !IsProtected(w.rules, e.ip.value) && e.expiresAt > now
  }

  function Selected(w: World, entries: seq<FleetEntry>, now: Time): seq<Element> {
    if entries == [] then []
    else
      var e := entries[|entries| - 1];
      Selected(w, entries[..|entries| - 1], now)
      + (if Deployable(w, e, now) then [Element(e.ip.value, ElementExpiry(e.expiresAt, now))] else [])
  }

  function AsSet(es: seq<Element>): map<Addr, Time> {
    if es == [] then map[] else AsSet(es[..|es| - 1])[es[|es| - 1].ip := es[|es| - 1].expires]
  }

  function Truncated<T>(s: seq<T>, n: nat): seq<T> {
    if |s| <= n then s else s[..n]
  }

  /** applyFleet */
  function FleetApplied(w: World, entries: seq<FleetEntry>, now: Time): World {
    var w := w.(fleetEntries := entries);
    if !w.enforcement.Enforcing? then w
    else if WantsEnforcement(w) && w.policy.value.applyFleet then
      w.(fleet := AsSet(Truncated(Selected(w, entries, now), MAX_FLEET)))
    else w.(fleet := map[])
  }

  /** refreshLocalAddrs, given the addresses of this host and of the server */
  function Refreshed(w: World, addrs: set<Addr>, now: Time): World {
    var w := Reconciled(w.(rules := w.rules.(local := addrs)), now);
    FleetApplied(w, w.fleetEntries, now)
  }

  /** What a new enforcer finds in the kernel: protected addresses go, the rest is imported. */
  function Adopted(w: World, now: Time): World {
    var found := set ip | ip in w.local && w.local[ip] > now;
    var hit := set ip | ip in found && IsProtected(w.rules, ip);
    w.(states := w.states + (map ip | ip in found - hit :: ImportState(Lookup(w.states, ip), w.local[ip])),
       local := w.local - hit,
       enforcement := Enforcing)
  }

  /** ensureEnforcer; it reports whether the result is enforcing. */
  function Ensured(w: World, now: Time): World {
    if w.enforcement.Enforcing? then w
    else if !w.supported then w.(enforcement := Unsupported)
    else if w.deniedNetAdmin then w.(enforcement := NoPermission)
    else Adopted(w, now)
  }

  /** syncLocalFromTracker */
  function Synced(w: World, now: Time): World {
    if !w.enforcement.Enforcing? then w else w.(local := Deployed(w, ActiveSet(w, now), now))
  }

  /** The local set after an element is added for each of `ips`. */
  function Deployed(w: World, ips: set<Addr>, now: Time): map<Addr, Time>
    requires ips <= ActiveSet(w, now)
  {
    w.local + (map ip | ip in ips :: ElementExpiry(w.states[ip].bannedUntil.value, now))
  }

  /** disableEnforcement */
  function Disabled(w: World): World {
    if w.enforcement.Enforcing? then w.(local := map[], fleet := map[]) else w
  }

  function Logged(w: World, e: LogEntry): World {
    w.(journal := Pushed(w.journal, e))
  }

  /** applyUnbans, one entry */
  function UnbanApplied(w: World, u: Unbanning, now: Time): World {
    if u.ip.None? then w
    else
      var ip := u.ip.value;
      var key := UnbanKey(ip, u.at);
      if key in w.seenUnbans || (WantsEnforcement(w) && !w.enforcement.Enforcing?) then w
      else
        var was := Lookup(w.states, ip).bannedUntil.Some?;
        var w' := Without(w, {ip}).(seenUnbans := w.seenUnbans[key := now]);
        if was then Logged(w', UnbanLogged(ip, now)) else w'
  }

  function UnbansApplied(w: World, us: seq<Unbanning>, now: Time): World {
    if us == [] then w else UnbanApplied(UnbansApplied(w, us[..|us| - 1], now), us[|us| - 1], now)
  }

  function SafePolicy(c: Config): WirePolicy {
    if c.policy.enforce && c.allowlist == [] then c.policy.(enforce := false) else c.policy
  }

  /** The policy and guard part of apply: enforcement is refused without an allowlist. */
  function Configured(w: World, c: Config): World {
    w.(tracking := Normalized(Policy(c.policy.maxRetry, c.policy.findTimeS * SECOND, c.policy.banTimeS * SECOND, c.policy.banTimeMaxS * SECOND)),
       rules := w.rules.(allowlist := c.allowlist, banPrivate := c.policy.banPrivate),
       policy := Some(SafePolicy(c)))
  }

  function Switched(w: World, wasEnforcing: bool, now: Time): World {
    if WantsEnforcement(w) then
      var w := Ensured(w, now);
      if w.enforcement.Enforcing? && !wasEnforcing then Synced(w, now) else w
    else Disabled(w)
  }

  /** apply */
  function Applied(w: World, c: Config, addrs: set<Addr>, now: Time): World {
    var w1 := Refreshed(Configured(w, c), addrs, now);
    var w2 := Switched(w1, WantsEnforcement(w), now);
    FleetApplied(UnbansApplied(Reconciled(w2, now), c.unban, now), c.fleet, now)
  }

  predicate Stale(w: World, f: Failure, now: Time) {
    f.at.Some? && w.policy.Some? && w.policy.value.findTimeS * SECOND > 0 && f.at.value < now - w.policy.value.findTimeS * SECOND
  }

  /** handleFailure */
  function Handled(w: World, f: Failure, now: Time): World {
    if Stale(w, f, now) || IsProtected(w.rules, f.ip) then w
    else
      var st := Lookup(w.states, f.ip);
      var w' := w.(states := w.states[f.ip := ObserveState(w.tracking, st, f.user, now)]);
      match ObserveBan(w.tracking, f.ip, st, f.user, now)
      case None => w'
      case Some(ban) =>
        if WantsEnforcement(w) && w.enforcement.Enforcing? && |ActiveSet(w', now)| <= MAX_LOCAL then
          Logged(w'.(local := w'.local[f.ip := ElementExpiry(ban.until, now)]), BanLogged(ban, true))
        else Logged(w', BanLogged(ban, false))
  }

  /** The minute tick: prune the tracker and the unban memory, retry a missing enforcer. */
  function Ticked(w: World, now: Time): World {
    var w := w.(states := Pruned(w.tracking, w.states, now),
                seenUnbans := map k | k in w.seenUnbans && w.seenUnbans[k] >= now - UNBAN_MEMORY :: w.seenUnbans[k]);
    if !WantsEnforcement(w) || w.enforcement.Enforcing? then w
    else
      var w := Ensured(w, now);
      if w.enforcement.Enforcing? then FleetApplied(Synced(w, now), w.fleetEntries, now) else w
  }

  // ----- the event loop -----

  datatype Input =
    | Fetched(config: Config, addrs: set<Addr>)
    | Seen(failure: Failure)
    | MinuteTick
    | Refresh(hosts: set<Addr>)
    | Acknowledge(ids: set<nat>)

  function Step(w: World, i: Input, now: Time): World {
    match i
    case Fetched(c, addrs) => Applied(w, c, addrs, now)
    case Seen(f) => Handled(w, f, now)
    case MinuteTick => Ticked(w, now)
    case Refresh(addrs) => Refreshed(w, addrs, now)
    case Acknowledge(ids) => w.(journal := Acknowledged(w.journal, ids))
  }

  // ----- safety -----

  /** The local set follows the tracker, up to the one-second minimum lifetime of an element. */
  ghost predicate LocalFollows(w: World, now: Time) {
    forall ip :: ip in w.local && w.local[ip] > now ==>
      (IsBanned(w, ip, now) && w.local[ip] < w.states[ip].bannedUntil.value + SECOND) || w.local[ip] < now + SECOND
  }

  /** The tracker bans nobody the guard protects. */
  ghost predicate TrackerRespectsGuard(w: World, now: Time) {
    forall ip :: IsBanned(w, ip, now) ==> !IsProtected(w.rules, ip)
  }

  ghost predicate FleetRespectsGuard(w: World, now: Time) {
    forall ip :: ip in w.fleet && w.fleet[ip] > now ==> IsRoutable(ip) && !IsProtected(w.rules, ip)
  }

  ghost predicate EmptyWhenObserving(w: World, now: Time) {
    !WantsEnforcement(w) ==>
      (forall ip :: ip in w.local ==> w.local[ip] <= now) && (forall ip :: ip in w.fleet ==> w.fleet[ip] <= now)
  }

  ghost predicate Safe(w: World, now: Time) {
    && ValidPolicy(w.tracking) && ValidStates(w.states)
    && TrackerRespectsGuard(w, now)
    && (w.enforcement.Enforcing? ==> LocalFollows(w, now) && FleetRespectsGuard(w, now) && EmptyWhenObserving(w, now))
  }

  lemma SafeLater(w: World, now: Time, later: Time)
    requires Safe(w, now) && now <= later
    ensures Safe(w, later)
  {}

  lemma ReconciledSafe(w: World, now: Time)
    requires ValidStates(w.states) && (w.enforcement.Enforcing? ==> LocalFollows(w, now))
    ensures var r := Reconciled(w, now);
      ValidStates(r.states) && TrackerRespectsGuard(r, now) && (r.enforcement.Enforcing? ==> LocalFollows(r, now))
  {}

  lemma {:induction false} SelectedSafe(w: World, entries: seq<FleetEntry>, now: Time)
    ensures forall i :: 0 <= i < |Selected(w, entries, now)| ==>
      IsRoutable(Selected(w, entries, now)[i].ip) && !IsProtected(w.rules, Selected(w, entries, now)[i].ip)
  {
    if entries != [] { SelectedSafe(w, entries[..|entries| - 1], now); }
  }

  lemma {:induction false} AsSetKeys(es: seq<Element>)
    ensures forall ip :: ip in AsSet(es) ==> exists i :: 0 <= i < |es| && es[i].ip == ip
  {
    if es != [] {
      var n := |es| - 1;
      AsSetKeys(es[..n]);
      forall ip | ip in AsSet(es) ensures exists i :: 0 <= i < |es| && es[i].ip == ip {
        if ip != es[n].ip {
          assert ip in AsSet(es[..n]);
          var i :| 0 <= i < n && es[..n][i].ip == ip;
          assert es[i].ip == ip;
        }
      }
    }
  }

  lemma FleetAppliedSafe(w: World, entries: seq<FleetEntry>, now: Time)
    ensures var r := FleetApplied(w, entries, now);
      && r == w.(fleet := r.fleet, fleetEntries := entries)
      && (w.enforcement.Enforcing? ==> FleetRespectsGuard(r, now))
      && (w.enforcement.Enforcing? && !WantsEnforcement(w) ==> r.fleet == map[])
  {
    var w' := w.(fleetEntries := entries);
    SelectedSafe(w', entries, now);
    AsSetKeys(Truncated(Selected(w', entries, now), MAX_FLEET));
  }

  lemma AdoptedSafe(w: World, now: Time)
    requires ValidStates(w.states) && TrackerRespectsGuard(w, now)
    ensures var r := Adopted(w, now); ValidStates(r.states) && TrackerRespectsGuard(r, now) && LocalFollows(r, now)
  {}

  lemma SyncedSafe(w: World, now: Time)
    requires w.enforcement.Enforcing? ==> LocalFollows(w, now)
    ensures var r := Synced(w, now); r == w.(local := r.local) && (r.enforcement.Enforcing? ==> LocalFollows(r, now))
  {}

  /** What holds in the middle of a step, before the fleet set is rewritten. */
  ghost predicate Settled(w: World, now: Time) {
    && ValidPolicy(w.tracking) && ValidStates(w.states)
    && TrackerRespectsGuard(w, now)
    && (w.enforcement.Enforcing? ==> LocalFollows(w, now))
    && (w.enforcement.Enforcing? && !WantsEnforcement(w) ==> forall ip :: ip in w.local ==> w.local[ip] <= now)
  }

  lemma FleetCompletes(w: World, entries: seq<FleetEntry>, now: Time)
    requires Settled(w, now)
    ensures Safe(FleetApplied(w, entries, now), now)
  {
    FleetAppliedSafe(w, entries, now);
  }

  lemma UnbanSettled(w: World, u: Unbanning, now: Time)
    requires Settled(w, now)
    ensures Settled(UnbanApplied(w, u, now), now)
  {
    hide Settled, Lookup;
    if u.ip.Some? {
      var key := UnbanKey(u.ip.value, u.at);
      if key !in w.seenUnbans && !(WantsEnforcement(w) && !w.enforcement.Enforcing?) {
        var w' := Without(w, {u.ip.value}).(seenUnbans := w.seenUnbans[key := now]);
        WithoutSettled(w, {u.ip.value}, w', now);
        LoggedSettled(w', UnbanLogged(u.ip.value, now), now);
      }
    }
  }

  lemma WithoutSettled(w: World, ips: set<Addr>, w': World, now: Time)
    requires Settled(w, now) && w' == Without(w, ips).(seenUnbans := w'.seenUnbans)
    ensures Settled(w', now)
  {
    hide IsProtected;
    forall ip | IsBanned(w', ip, now) ensures IsBanned(w, ip, now) && w'.states[ip] == w.states[ip] {}
  }

  lemma LoggedSettled(w: World, e: LogEntry, now: Time)
    requires Settled(w, now)
    ensures Settled(Logged(w, e), now)
  {
    hide IsProtected;
    var r := Logged(w, e);
    assert r == w.(journal := r.journal);
    assert forall ip :: IsBanned(r, ip, now) == IsBanned(w, ip, now);
  }

  lemma {:induction false} UnbansSettled(w: World, us: seq<Unbanning>, now: Time)
    requires Settled(w, now)
    ensures forall k :: 0 <= k <= |us| ==> Settled(UnbansApplied(w, us[..k], now), now)
  {
    hide Settled;
    if us != [] {
      var n := |us| - 1;
      UnbansSettled(w, us[..n], now);
      assert us[..n][..n] == us[..n];
      UnbanSettled(UnbansApplied(w, us[..n], now), us[n], now);
      forall k | 0 <= k <= |us| ensures Settled(UnbansApplied(w, us[..k], now), now) {
        if k < |us| { assert us[..n][..k] == us[..k]; } else { assert us[..k] == us; }
      }
    }
  }

  lemma EnsuredSettled(w: World, now: Time)
    requires ValidPolicy(w.tracking) && ValidStates(w.states) && TrackerRespectsGuard(w, now) && WantsEnforcement(w)
    requires w.enforcement.Enforcing? ==> LocalFollows(w, now)
    ensures Settled(Ensured(w, now), now)
  {
    AdoptedSafe(w, now);
  }

  lemma SwitchedSettled(w: World, was: bool, now: Time)
    requires ValidPolicy(w.tracking) && ValidStates(w.states) && TrackerRespectsGuard(w, now)
    requires w.enforcement.Enforcing? ==> LocalFollows(w, now)
    ensures Settled(Switched(w, was, now), now)
  {
    if WantsEnforcement(w) {
      EnsuredSettled(w, now);
      SyncedSafe(Ensured(w, now), now);
    }
  }

  lemma ReconciledSettled(w: World, now: Time)
    requires Settled(w, now)
    ensures Settled(Reconciled(w, now), now)
  {
    ReconciledSafe(w, now);
  }

  lemma RefreshedSafe(w: World, addrs: set<Addr>, now: Time)
    requires ValidPolicy(w.tracking) && ValidStates(w.states)
    requires w.enforcement.Enforcing? ==> LocalFollows(w, now)
    ensures var r := Refreshed(w, addrs, now);
      && r.tracking == w.tracking && r.policy == w.policy && r.enforcement == w.enforcement
      && ValidStates(r.states) && TrackerRespectsGuard(r, now)
      && (r.enforcement.Enforcing? ==> LocalFollows(r, now) && FleetRespectsGuard(r, now))
      && (r.enforcement.Enforcing? && !WantsEnforcement(w) ==> r.fleet == map[])
      && (forall ip :: ip in r.local ==> ip in w.local && r.local[ip] == w.local[ip])
  {
    var w' := w.(rules := w.rules.(local := addrs));
    ReconciledSafe(w', now);
    FleetAppliedSafe(Reconciled(w', now), Reconciled(w', now).fleetEntries, now);
  }

  lemma ObservedValid(p: Policy, st: IpState, user: string, now: Time)
    requires ValidPolicy(p) && ValidState(st)
    ensures ValidState(ObserveState(p, st, user, now))
    ensures match ObserveBan(p, V4(0), st, user, now)
      case None => ObserveState(p, st, user, now).bannedUntil == st.bannedUntil
      case Some(b) => !After(st.bannedUntil, now) && ObserveState(p, st, user, now).bannedUntil == Some(b.until)
  {
    hide Recent, BanLength;
  }

  lemma SameBan(p: Policy, ip: Addr, st: IpState, user: string, now: Time)
    ensures match ObserveBan(p, V4(0), st, user, now)
      case None => ObserveBan(p, ip, st, user, now).None?
      case Some(b) => ObserveBan(p, ip, st, user, now) == Some(b.(ip := ip))
  {
    hide Recent, BanLength;
  }

  lemma JournalSafe(w: World, j: Journal<LogEntry>, now: Time)
    requires Safe(w, now)
    ensures Safe(w.(journal := j), now)
  {
    hide IsProtected, IsRoutable;
    var r := w.(journal := j);
    assert forall ip :: IsBanned(r, ip, now) == IsBanned(w, ip, now);
  }

  /** The record of `ip` changes to `st`: same ban, or a new ban of an unprotected address. */
  lemma RecordedSafe(w: World, ip: Addr, st: IpState, now: Time)
    requires Safe(w, now) && ValidState(st) && !IsProtected(w.rules, ip)
    requires st.bannedUntil == Lookup(w.states, ip).bannedUntil || !After(Lookup(w.states, ip).bannedUntil, now)
    ensures Safe(w.(states := w.states[ip := st]), now)
  {
    hide IsProtected, IsRoutable;
    var r := w.(states := w.states[ip := st]);
    forall x | x != ip ensures IsBanned(r, x, now) == IsBanned(w, x, now) && (x in w.states ==> x in r.states && r.states[x] == w.states[x]) {}
  }

  lemma EnforcedSafe(w: World, ip: Addr, now: Time)
    requires Safe(w, now) && IsBanned(w, ip, now) && WantsEnforcement(w)
    ensures Safe(w.(local := w.local[ip := ElementExpiry(w.states[ip].bannedUntil.value, now)]), now)
  {
    hide IsProtected, IsRoutable;
  }

  lemma HandledSafe(w: World, f: Failure, now: Time)
    requires Safe(w, now)
    ensures Safe(Handled(w, f, now), now)
  {
    hide ObserveState, ObserveBan, IsProtected, IsRoutable, Safe;
    if !Stale(w, f, now) && !IsProtected(w.rules, f.ip) {
      var st := Lookup(w.states, f.ip);
      SafeValid(w, f.ip, now);
      ObservedValid(w.tracking, st, f.user, now);
      SameBan(w.tracking, f.ip, st, f.user, now);
      var st' := ObserveState(w.tracking, st, f.user, now);
      var w' := w.(states := w.states[f.ip := st']);
      RecordedSafe(w, f.ip, st', now);
      match ObserveBan(w.tracking, f.ip, st, f.user, now)
      case None =>
      case Some(ban) =>
        if WantsEnforcement(w) && w.enforcement.Enforcing? && |ActiveSet(w', now)| <= MAX_LOCAL {
          BansAreFuture(w.tracking, f.ip, st, f.user, now);
          EnforcedSafe(w', f.ip, now);
          JournalSafe(w'.(local := w'.local[f.ip := ElementExpiry(ban.until, now)]), Pushed(w'.journal, BanLogged(ban, true)), now);
        } else {
          JournalSafe(w', Pushed(w'.journal, BanLogged(ban, false)), now);
        }
    }
  }

  lemma SafeValid(w: World, ip: Addr, now: Time)
    requires Safe(w, now)
    ensures ValidPolicy(w.tracking) && ValidState(Lookup(w.states, ip))
  {}

  lemma {:induction false} BanLengthPositive(p: Policy, k: nat)
    requires ValidPolicy(p)
    ensures BanLength(p, k) > 0
  {
    if k > 0 { BanLengthPositive(p, k - 1); }
  }

  lemma BansAreFuture(p: Policy, ip: Addr, st: IpState, user: string, now: Time)
    requires ValidPolicy(p)
    ensures ObserveBan(p, ip, st, user, now).Some? ==> ObserveBan(p, ip, st, user, now).value.until > now
  {
    hide Recent, BanLength;
    BanLengthPositive(p, CurrentRun(st.bans, st.lastBan, now));
  }

  lemma TickedSafe(w: World, now: Time)
    requires Safe(w, now)
    ensures Safe(Ticked(w, now), now)
  {
    var w1 := w.(states := Pruned(w.tracking, w.states, now),
                 seenUnbans := map k | k in w.seenUnbans && w.seenUnbans[k] >= now - UNBAN_MEMORY :: w.seenUnbans[k]);
    PrunedSafe(w, now, w1);
    if WantsEnforcement(w1) && !w1.enforcement.Enforcing? {
      EnsuredSettled(w1, now);
      var w2 := Ensured(w1, now);
      if w2.enforcement.Enforcing? {
        SyncedSafe(w2, now);
        FleetCompletes(Synced(w2, now), w2.fleetEntries, now);
      }
    }
  }

  lemma PrunedSafe(w: World, now: Time, w': World)
    requires Safe(w, now) && w' == w.(states := Pruned(w.tracking, w.states, now), seenUnbans := w'.seenUnbans)
    ensures Safe(w', now)
  {
    hide Recent, IsProtected, IsRoutable;
    forall ip | ip in w'.states ensures IsBanned(w', ip, now) == IsBanned(w, ip, now) && ValidState(w'.states[ip]) {}
    forall ip | IsBanned(w, ip, now) ensures ip in w'.states && w'.states[ip] == w.states[ip] {}
  }

  lemma StepSafe(w: World, i: Input, now: Time)
    requires Safe(w, now)
    ensures forall t :: now <= t ==> Safe(Step(w, i, now), t)
  {
    match i {
      case Fetched(c, addrs) =>
        var w1 := Refreshed(Configured(w, c), addrs, now);
        RefreshedSafe(Configured(w, c), addrs, now);
        SwitchedSettled(w1, WantsEnforcement(w), now);
        var w2 := Switched(w1, WantsEnforcement(w), now);
        ReconciledSettled(w2, now);
        UnbansSettled(Reconciled(w2, now), c.unban, now);
        assert c.unban[..|c.unban|] == c.unban;
        FleetCompletes(UnbansApplied(Reconciled(w2, now), c.unban, now), c.fleet, now);
      case Seen(f) => HandledSafe(w, f, now);
      case MinuteTick => TickedSafe(w, now);
      case Refresh(addrs) => RefreshedSafe(w, addrs, now);
      case Acknowledge(ids) => JournalSafe(w, Acknowledged(w.journal, ids), now);
    }
    forall t | now <= t ensures Safe(Step(w, i, now), t) { SafeLater(Step(w, i, now), now, t); }
  }

  // ----- whole runs -----

  /** A new manager; the kernel may still hold the sets of an earlier agent. */
  ghost predicate Initial(w: World) {
    w.tracking == Normalized(Policy(0, 0, 0, 0)) && w.states == map[] && w.policy.None? && w.enforcement.Idle?
    && w.seenUnbans == map[] && w.journal == Journal([], 0, 0)
  }

  function Play(w: World, inputs: seq<Input>, times: seq<Time>): World
    requires |inputs| == |times|
  {
    if inputs == [] then w
    else
      var n := |inputs| - 1;
      Step(Play(w, inputs[..n], times[..n]), inputs[n], times[n])
  }

  ghost predicate Ascending(times: seq<Time>, now: Time) {
    (forall i, j :: 0 <= i < j < |times| ==> times[i] <= times[j]) && forall i :: 0 <= i < |times| ==> times[i] <= now
  }

  lemma {:induction false} PlaySafe(w: World, inputs: seq<Input>, times: seq<Time>, now: Time)
    requires Initial(w) && |inputs| == |times| && Ascending(times, now)
    ensures forall t :: now <= t ==> Safe(Play(w, inputs, times), t)
  {
    hide Safe, Step;
    if inputs != [] {
      var n := |inputs| - 1;
      PlaySafe(w, inputs[..n], times[..n], times[n]);
      StepSafe(Play(w, inputs[..n], times[..n]), inputs[n], times[n]);
    } else {
      NothingYet(w);
    }
  }

  lemma NothingYet(w: World)
    requires Initial(w)
    ensures forall t :: Safe(w, t)
  {}

  /** Over every run of the event loop, at every moment with enforcement ok: every address in the
      local set is an active and unprotected tracker ban or leaves the set within a second, every
      address in the fleet set is routable and unprotected, and observe mode has both sets empty. */
  lemma KernelSetsAreSafe(w: World, inputs: seq<Input>, times: seq<Time>, now: Time)
    requires Initial(w) && |inputs| == |times| && Ascending(times, now)
    requires Play(w, inputs, times).enforcement.Enforcing?
    ensures var r := Play(w, inputs, times);
      && (forall ip :: ip in r.local && r.local[ip] > now ==>
            (IsBanned(r, ip, now) && !IsProtected(r.rules, ip)) || r.local[ip] <= now + SECOND)
      && (forall ip :: ip in r.fleet && r.fleet[ip] > now ==> IsRoutable(ip) && !IsProtected(r.rules, ip))
      && (!WantsEnforcement(r) ==>
            (forall ip :: ip in r.local ==> r.local[ip] <= now) && (forall ip :: ip in r.fleet ==> r.fleet[ip] <= now))
  {
    hide Play, Initial, IsProtected, IsRoutable;
    PlaySafe(w, inputs, times, now);
    assert Safe(Play(w, inputs, times), now);
  }

  /** A protected address in the local set is in its last second there, and its tracker ban is over. */
  lemma ProtectedOnlyInLastSecond(w: World, inputs: seq<Input>, times: seq<Time>, now: Time, ip: Addr)
    requires Initial(w) && |inputs| == |times| && Ascending(times, now)
    requires var r := Play(w, inputs, times);
      r.enforcement.Enforcing? && ip in r.local && r.local[ip] > now && IsProtected(r.rules, ip)
    ensures var r := Play(w, inputs, times); !IsBanned(r, ip, now) && r.local[ip] <= now + SECOND
  {
    hide Play, Initial, IsProtected, IsRoutable;
    PlaySafe(w, inputs, times, now);
    assert Safe(Play(w, inputs, times), now);
  }

  // ----- a protected address that lingers -----

  ghost function Lenient(enforce: bool): WirePolicy {
    WirePolicy(enforce, false, false, 1, 600, 1, 1)
  }

  /** A manager that knows one address, and no list of anything else. */
  ghost predicate Bare(w: World, p: Prefix, ip: Addr) {
    && w.tracking == Policy(1, 600 * SECOND, SECOND, SECOND) && w.supported && !w.deniedNetAdmin
    && w.rules == Rules([p], {}, false) && w.fleetEntries == [] && w.states.Keys <= {ip}
  }

  lemma FirstFetch(w: World, p: Prefix, ip: Addr) returns (r: World)
    requires Initial(w) && w.supported && !w.deniedNetAdmin && w.fleetEntries == []
    ensures r == Step(w, Fetched(Config(Lenient(false), [p], [], []), {}), 0)
    ensures Bare(r, p, ip) && r.states == map[] && r.policy == Some(Lenient(false)) && r.enforcement.Idle? && r.local == w.local
  {
    hide IsProtected;
    var c := Config(Lenient(false), [p], [], []);
    r := Step(w, Fetched(c, {}), 0);
    var w1 := Refreshed(Configured(w, c), {}, 0);
    assert w1.states == map[];
    assert Switched(w1, false, 0) == w1;
    assert Reconciled(w1, 0).states == map[];
  }

  lemma FirstBan(w: World, p: Prefix, ip: Addr) returns (r: World)
    requires Bare(w, p, ip) && w.states == map[] && w.policy == Some(Lenient(false)) && w.enforcement.Idle? && !IsProtected(w.rules, ip)
    ensures r == Step(w, Seen(Failure(None, ip, "")), 0)
    ensures Bare(r, p, ip) && r.policy == w.policy && r.enforcement.Idle? && r.local == w.local
    ensures ip in r.states && r.states[ip].bannedUntil == Some(SECOND)
  {
    r := Step(w, Seen(Failure(None, ip, "")), 0);
    assert ObserveState(w.tracking, FRESH, "", 0).bannedUntil == Some(SECOND);
  }

  lemma LateEnforcement(w: World, p: Prefix, ip: Addr, t: Time) returns (r: World)
    requires Bare(w, p, ip) && w.policy == Some(Lenient(false)) && w.enforcement.Idle? && w.local == map[]
    requires ip in w.states && w.states[ip].bannedUntil == Some(SECOND) && !IsProtected(w.rules, ip) && 0 < t < SECOND
    ensures r == Step(w, Fetched(Config(Lenient(true), [p], [], []), {}), t)
    ensures Bare(r, p, ip) && r.enforcement.Enforcing? && ip in r.local && r.local[ip] == t + SECOND
    ensures ip in r.states && r.states[ip].bannedUntil == Some(SECOND)
  {
    hide Contains, IsReserved, IsPrivate, IsRoutable;
    var c := Config(Lenient(true), [p], [], []);
    r := Step(w, Fetched(c, {}), t);
    var w0 := Configured(w, c).(rules := w.rules);
    assert Configured(w, c).(rules := Configured(w, c).rules.(local := {})) == w0;
    NothingToReconcile(w0, t);
    var w1 := FleetApplied(w0, [], t);
    assert Refreshed(Configured(w, c), {}, t) == w1 == w0;
    var w2 := Ensured(w1, t);
    AdoptNothing(w1, t);
    var w3 := Synced(w2, t);
    assert ip in ActiveSet(w2, t);
    assert Switched(w1, false, t) == w3;
    NothingToReconcile(w3, t);
    assert UnbansApplied(w3, [], t) == w3;
  }

  lemma NothingToReconcile(w: World, now: Time)
    requires TrackerRespectsGuard(w, now)
    ensures Reconciled(w, now) == w
  {
    hide IsProtected;
    var hit := set ip | ip in w.states && IsBanned(w, ip, now) && IsProtected(w.rules, ip);
    assert hit == {};
    assert w.states - hit == w.states && w.local - hit == w.local;
  }

  lemma AdoptNothing(w: World, now: Time)
    requires forall ip :: ip in w.local ==> w.local[ip] <= now
    ensures Adopted(w, now) == w.(enforcement := Enforcing)
  {
    hide IsProtected;
    var found := set ip | ip in w.local && w.local[ip] > now;
    assert found == {};
    assert Adopted(w, now).states == w.states && Adopted(w, now).local == w.local;
  }

  ghost predicate EndsLingering(w: World, inputs: seq<Input>, times: seq<Time>, now: Time, ip: Addr) {
    && |inputs| == |times| && Ascending(times, now)
    && var r := Play(w, inputs, times);
       r.enforcement.Enforcing? && ip in r.local && r.local[ip] > now && IsProtected(r.rules, ip)
  }

  /** For every routable address there is a run that ends with the address protected and still in the
      kernel's local set, because its element outlives the ban it stands for. */
  lemma ProtectedCanLinger(w: World, p: Prefix, ip: Addr)
    requires Initial(w) && w.supported && !w.deniedNetAdmin && w.fleetEntries == [] && w.local == map[]
    requires IsRoutable(ip) && !Contains(p, ip)
    ensures exists inputs, times, now :: EndsLingering(w, inputs, times, now, ip)
  {
    hide Step, Refreshed, Play;
    var half := SECOND / 2;
    var a, b := Fetched(Config(Lenient(false), [p], [], []), {}), Seen(Failure(None, ip, ""));
    var c := Fetched(Config(Lenient(true), [p], [], []), {});
    var inputs, times, now := [], [], SECOND + 1;
    PlayNone(w);
    var w1 := FirstFetch(w, p, ip);
    assert !IsProtected(w1.rules, ip);
    inputs, times := PlayOn(w, inputs, times, a, 0);
    var w2 := FirstBan(w1, p, ip);
    inputs, times := PlayOn(w, inputs, times, b, 0);
    var w3 := LateEnforcement(w2, p, ip, half);
    inputs, times := PlayOn(w, inputs, times, c, half);
    inputs, times := PlayOn(w, inputs, times, Refresh({ip}), now);
    LastStep(w3, ip, now);
    Lingers(w3, ip, now);
    assert EndsLingering(w, inputs, times, now, ip);
  }

  lemma PlayNone(w: World)
    ensures Play(w, [], []) == w
  {}

  lemma PlayOn(w: World, inputs: seq<Input>, times: seq<Time>, i: Input, t: Time) returns (inputs': seq<Input>, times': seq<Time>)
    requires |inputs| == |times| && Ascending(times, t)
    ensures |inputs'| == |times'| && Play(w, inputs', times') == Step(Play(w, inputs, times), i, t)
    ensures forall u :: t <= u ==> Ascending(times', u)
  {
    hide Step;
    inputs', times' := inputs + [i], times + [t];
    var n := |inputs|;
    assert inputs'[..n] == inputs && times'[..n] == times;
  }

  lemma LastStep(w: World, ip: Addr, now: Time)
    ensures Step(w, Refresh({ip}), now) == Refreshed(w, {ip}, now)
  {}

  lemma Lingers(w: World, ip: Addr, now: Time)
    requires ip in w.states && !IsBanned(w, ip, now) && ip in w.local && w.local[ip] > now
    ensures var r := Refreshed(w, {ip}, now);
      r.enforcement == w.enforcement && ip in r.local && r.local[ip] == w.local[ip] && IsProtected(r.rules, ip)
  {
    hide Contains, IsReserved, IsPrivate, IsRoutable, Selected;
  }

  // ----- the manager itself -----

  lemma {:induction false} SelectedPrefix(w: World, entries: seq<FleetEntry>, now: Time, i: nat)
    requires i <= |entries|
    ensures Selected(w, entries[..i], now) <= Selected(w, entries, now)
  {
    if i < |entries| {
      var n := |entries| - 1;
      SelectedPrefix(w, entries[..n], now, i);
      assert entries[..n][..i] == entries[..i];
    } else {
      assert entries[..i] == entries;
    }
  }

  /** A list without repetition has as many entries as distinct addresses. */
  lemma {:induction false} DistinctCount(bans: seq<Ban>, s: set<Addr>)
    requires forall i, j :: 0 <= i < j < |bans| ==> bans[i].ip != bans[j].ip
    requires s == set b | b in bans :: b.ip
    ensures |bans| == |s|
  {
    if bans == [] {
      assert s == {};
    } else {
      var n := |bans| - 1;
      var rest := set b | b in bans[..n] :: b.ip;
      DistinctCount(bans[..n], rest);
      forall ip | ip in s ensures ip in rest + {bans[n].ip} {
        var b :| b in bans && b.ip == ip;
        assert b in bans[..n] || b == bans[n];
      }
      assert bans[n] in bans;
      assert s == rest + {bans[n].ip};
      assert bans[n].ip !in rest;
    }
  }

  class Manager {
    const tracker: BanTracker
    const supported: bool
    const deniedNetAdmin: bool
    var rules: Rules
    var policy: Option<WirePolicy>
    var enforcement: Enforcement
    var local: map<Addr, Time>
    var fleet: map<Addr, Time>
    var fleetEntries: seq<FleetEntry>
    var seenUnbans: map<UnbanKey, Time>
    var log: seq<Item<LogEntry>>
    var dropped: nat
    var pushed: nat

    function Value(): World
      reads this, tracker
    {
      World(tracker.policy, tracker.states, rules, policy, enforcement, supported, deniedNetAdmin,
            local, fleet, fleetEntries, seenUnbans, Journal(log, dropped, pushed))
    }

    predicate Valid() reads this, tracker { tracker.Valid() }

    /** `kernelLocal` and `kernelFleet` are what an earlier agent left in the kernel. */
    constructor (supported: bool, denied: bool, kernelLocal: map<Addr, Time>, kernelFleet: map<Addr, Time>)
      ensures Valid() && Initial(Value()) && fresh(tracker)
      ensures local == kernelLocal && fleet == kernelFleet && log == []
    {
      tracker := new BanTracker(Policy(0, 0, 0, 0));
      this.supported, deniedNetAdmin := supported, denied;
      rules, policy, enforcement := Rules([], {}, false), None, Idle;
      local, fleet, fleetEntries := kernelLocal, kernelFleet, [];
      seenUnbans, log, dropped, pushed := map[], [], 0, 0;
    }

    method PushEvent(e: LogEntry)
      modifies this
      ensures Value() == Logged(old(Value()), e)
    {
      if |log| >= MAX_EVENTS {
        log := log[1..];
        dropped := dropped + 1;
      }
      log := log + [Item(pushed, e)];
      pushed := pushed + 1;
    }

    /** The server has the events with these identifiers. */
    method AcknowledgeEvents(ids: seq<nat>)
      modifies this
      ensures Value() == old(Value()).(journal := Acknowledged(old(Value()).journal, set i | i in ids))
    {
      var acked := set i | i in ids;
      var kept: seq<Item<LogEntry>> := [];
      for i := 0 to |log|
        invariant kept == Remaining(log[..i], acked) && unchanged(this)
      {
        assert log[..i + 1][..i] == log[..i];
        if log[i].id !in acked { kept := kept + [log[i]]; }
      }
      assert log[..|log|] == log;
      log := kept;
    }

    method ReconcileProtected(now: Time)
      requires Valid()
      modifies this, tracker
      ensures Valid() && Value() == Reconciled(old(Value()), now)
    {
      hide IsProtected;
      var bans := tracker.ActiveBans(now);
      ghost var w := Value();
      ghost var gone: set<Addr> := {};
      assert Without(w, gone).states == w.states && Without(w, gone).local == w.local;
      for i := 0 to |bans|
        invariant Valid() && Value() == Without(w, gone)
        invariant gone == set j | 0 <= j < i && IsProtected(w.rules, bans[j].ip) :: bans[j].ip
      {
        var ip := bans[i].ip;
        var reason := Protected(rules, ip);
        if reason.Some? {
          WithoutOne(w, gone, ip);
          gone := gone + {ip};
          if enforcement.Enforcing? { local := local - {ip}; }
          var was := tracker.Unban(ip);
        }
      }
      ReconciledGone(w, bans, gone, now);
    }

    method ApplyFleet(entries: seq<FleetEntry>, now: Time)
      requires Valid()
      modifies this
      ensures Valid() && Value() == FleetApplied(old(Value()), entries, now)
    {
      fleetEntries := entries;
      if !enforcement.Enforcing? { return; }
      var list: seq<Element> := [];
      if policy.Some? && policy.value.enforce && policy.value.applyFleet {
        list := SelectFleet(entries, now);
      }
      fleet := ReplaceFleet(list);
    }

    method SelectFleet(entries: seq<FleetEntry>, now: Time) returns (list: seq<Element>)
      ensures list == Truncated(Selected(Value(), entries, now), MAX_FLEET)
    {
      list := [];
      ghost var w := Value();
      for i := 0 to |entries|
        invariant list == Selected(w, entries[..i], now) && |list| < MAX_FLEET
      {
        assert entries[..i + 1][..i] == entries[..i];
        var e := entries[i];
        if e.ip.Some? && e.expiresAt > now {
          var routable := Routable(e.ip.value);
          var reason := Protected(rules, e.ip.value);
          if routable && reason.None? {
            list := list + [Element(e.ip.value, ElementExpiry(e.expiresAt, now))];
            if |list| >= MAX_FLEET {
              SelectedPrefix(w, entries, now, i + 1);
              return;
            }
          }
        }
      }
      assert entries[..|entries|] == entries;
    }

    method RefreshLocalAddrs(addrs: set<Addr>, now: Time)
      requires Valid()
      modifies this, tracker
      ensures Valid() && Value() == Refreshed(old(Value()), addrs, now)
    {
      rules := rules.(local := addrs);
      ReconcileProtected(now);
      ApplyFleet(fleetEntries, now);
    }

    method EnsureEnforcer(now: Time) returns (ok: bool)
      requires Valid()
      modifies this, tracker
      ensures Valid() && Value() == Ensured(old(Value()), now) && ok == enforcement.Enforcing?
    {
      if enforcement.Enforcing? { return true; }
      if !supported {
        enforcement := Unsupported;
        return false;
      }
      if deniedNetAdmin {
        enforcement := NoPermission;
        return false;
      }
      AdoptKernelSets(now);
      enforcement := Enforcing;
      return true;
    }

    method AdoptKernelSets(now: Time)
      requires Valid()
      modifies this, tracker
      ensures Valid() && Value() == Adopted(old(Value()), now).(enforcement := old(enforcement))
    {
      hide IsProtected, ImportState, Lookup;
      ghost var w := Value();
      var found := set ip | ip in local && local[ip] > now;
      var waiting := found;
      assert found - waiting == {};
      PartlyNone(w);
      while waiting != {}
        invariant waiting <= found && Valid() && Value() == Partly(w, found - waiting)
      {
        var ip :| ip in waiting;
        PartlyOne(w, found - waiting, ip);
        assert found - (waiting - {ip}) == found - waiting + {ip};
        waiting := waiting - {ip};
        var reason := Protected(rules, ip);
        if reason.Some? {
          local := local - {ip};
        } else {
          tracker.Import(ip, local[ip]);
        }
      }
      assert found - waiting == found;
      PartlyAll(w, found, now);
    }

    method SyncLocalFromTracker(now: Time)
      requires Valid()
      modifies this
      ensures Valid() && Value() == Synced(old(Value()), now)
    {
      if !enforcement.Enforcing? { return; }
      ghost var w := Value();
      var bans := tracker.ActiveBans(now);
      ghost var done: set<Addr> := {};
      for i := 0 to |bans|
        invariant done == (set j | 0 <= j < i :: bans[j].ip) && done <= ActiveSet(w, now)
        invariant Value() == w.(local := Deployed(w, done, now))
      {
        assert bans[i] in bans;
        DeployOne(w, done, bans[i].ip, now);
        done := done + {bans[i].ip};
        local := local[bans[i].ip := ElementExpiry(bans[i].until, now)];
      }
      ActiveFromBans(w, bans, now);
    }

    method DisableEnforcement()
      modifies this
      ensures Value() == Disabled(old(Value()))
    {
      if enforcement.Enforcing? { local, fleet := map[], map[]; }
    }

    method ApplyUnbans(us: seq<Unbanning>, now: Time)
      requires Valid()
      modifies this, tracker
      ensures Valid() && Value() == UnbansApplied(old(Value()), us, now)
    {
      ghost var w := Value();
      for i := 0 to |us|
        invariant Valid() && Value() == UnbansApplied(w, us[..i], now)
      {
        assert us[..i + 1][..i] == us[..i];
        ApplyUnban(us[i], now);
      }
      assert us[..|us|] == us;
    }

    method ApplyUnban(u: Unbanning, now: Time)
      requires Valid()
      modifies this, tracker
      ensures Valid() && Value() == UnbanApplied(old(Value()), u, now)
    {
      if u.ip.None? { return; }
      var ip := u.ip.value;
      var key := UnbanKey(ip, u.at);
      if key in seenUnbans { return; }
      if policy.Some? && policy.value.enforce && !enforcement.Enforcing? { return; }
      if enforcement.Enforcing? { local := local - {ip}; }
      var was := tracker.Unban(ip);
      seenUnbans := seenUnbans[key := now];
      if was { PushEvent(UnbanLogged(ip, now)); }
    }

    method Apply(c: Config, addrs: set<Addr>, now: Time)
      requires Valid()
      modifies this, tracker
      ensures Valid() && Value() == Applied(old(Value()), c, addrs, now)
    {
      hide Configured, Refreshed, Switched, Reconciled, UnbansApplied, FleetApplied;
      var prevEnforce := policy.Some? && policy.value.enforce;
      Configure(c);
      RefreshLocalAddrs(addrs, now);
      Switch(prevEnforce, now);
      ReconcileProtected(now);
      ApplyUnbans(c.unban, now);
      ApplyFleet(c.fleet, now);
    }

    method Configure(c: Config)
      requires Valid()
      modifies this, tracker
      ensures Valid() && Value() == Configured(old(Value()), c)
    {
      hide Normalized;
      var pol := c.policy;
      tracker.SetPolicy(Policy(pol.maxRetry, pol.findTimeS * SECOND, pol.banTimeS * SECOND, pol.banTimeMaxS * SECOND));
      rules := rules.(allowlist := c.allowlist, banPrivate := pol.banPrivate);
      if pol.enforce && c.allowlist == [] { pol := pol.(enforce := false); }
      policy := Some(pol);
    }

    method Switch(prevEnforce: bool, now: Time)
      requires Valid()
      modifies this, tracker
      ensures Valid() && Value() == Switched(old(Value()), prevEnforce, now)
    {
      hide Ensured, Synced, Disabled;
      if policy.Some? && policy.value.enforce {
        var ok := EnsureEnforcer(now);
        if ok && !prevEnforce { SyncLocalFromTracker(now); }
      } else {
        DisableEnforcement();
      }
    }

    method HandleFailure(f: Failure, now: Time)
      requires Valid()
      modifies this, tracker
      ensures Valid() && Value() == Handled(old(Value()), f, now)
    {
      hide ObserveState, ObserveBan;
      var findTime := if policy.Some? then policy.value.findTimeS * SECOND else 0;
      if f.at.Some? && findTime > 0 && f.at.value < now - findTime { return; }
      var reason := Protected(rules, f.ip);
      if reason.Some? { return; }
      var ban := tracker.Observe(f.ip, f.user, now);
      if ban.None? { return; }
      var enforced := false;
      if policy.Some? && policy.value.enforce && enforcement.Enforcing? {
        var active := tracker.ActiveBans(now);
        ActiveCount(Value(), active, now);
        if |active| <= MAX_LOCAL {
          local := local[f.ip := ElementExpiry(ban.value.until, now)];
          enforced := true;
        }
      }
      PushEvent(BanLogged(ban.value, enforced));
    }

    method Tick(now: Time)
      requires Valid()
      modifies this, tracker
      ensures Valid() && Value() == Ticked(old(Value()), now)
    {
      var removed := tracker.Prune(now);
      seenUnbans := map k | k in seenUnbans && seenUnbans[k] >= now - UNBAN_MEMORY :: seenUnbans[k];
      if !(policy.Some? && policy.value.enforce) || enforcement.Enforcing? { return; }
      var ok := EnsureEnforcer(now);
      if ok {
        SyncLocalFromTracker(now);
        ApplyFleet(fleetEntries, now);
      }
    }
  }

  /** The kernel side of ReplaceFleet: a later element of an address replaces an earlier one. */
  method ReplaceFleet(list: seq<Element>) returns (fleet: map<Addr, Time>)
    ensures fleet == AsSet(list)
  {
    fleet := map[];
    for i := 0 to |list|
      invariant fleet == AsSet(list[..i])
    {
      assert list[..i + 1][..i] == list[..i];
      fleet := fleet[list[i].ip := list[i].expires];
    }
    assert list[..|list|] == list;
  }

  lemma DeployOne(w: World, ips: set<Addr>, ip: Addr, now: Time)
    requires ips <= ActiveSet(w, now) && ip in ActiveSet(w, now)
    ensures Deployed(w, ips + {ip}, now) == Deployed(w, ips, now)[ip := ElementExpiry(w.states[ip].bannedUntil.value, now)]
  {}

  /** Adoption after the addresses `done` of the local set have been looked at. */
  ghost function Partly(w: World, done: set<Addr>): World
    requires done <= w.local.Keys
  {
    w.(local := map ip | ip in w.local && !(ip in done && IsProtected(w.rules, ip)) :: w.local[ip],
       states := map ip | ip in w.states.Keys + done && (ip in w.states || !IsProtected(w.rules, ip)) ::
         if ip in done && !IsProtected(w.rules, ip) then ImportState(Lookup(w.states, ip), w.local[ip]) else w.states[ip])
  }

  lemma PartlyOne(w: World, done: set<Addr>, ip: Addr)
    requires done <= w.local.Keys && ip in w.local && ip !in done
    ensures var a, b := Partly(w, done), Partly(w, done + {ip});
      if IsProtected(w.rules, ip) then b == a.(local := a.local - {ip})
      else ip in a.local && a.local[ip] == w.local[ip] && b == a.(states := a.states[ip := ImportState(Lookup(a.states, ip), w.local[ip])])
  {
    hide IsProtected;
    var a, b := Partly(w, done), Partly(w, done + {ip});
    if IsProtected(w.rules, ip) {
      assert b.local == a.local - {ip};
      assert b.states == a.states;
    } else {
      assert b.local == a.local;
      assert b.states == a.states[ip := ImportState(Lookup(a.states, ip), w.local[ip])];
    }
  }

  lemma PartlyNone(w: World)
    ensures Partly(w, {}) == w
  {
    hide IsProtected, ImportState;
    assert Partly(w, {}).local == w.local;
    assert Partly(w, {}).states == w.states;
  }

  lemma PartlyAll(w: World, found: set<Addr>, now: Time)
    requires found == set ip | ip in w.local && w.local[ip] > now
    ensures Partly(w, found) == Adopted(w, now).(enforcement := w.enforcement)
  {
    hide IsProtected, ImportState;
    var p, q := Partly(w, found), Adopted(w, now);
    assert p.local == q.local;
    assert p.states.Keys == q.states.Keys;
    assert p.states == q.states;
  }

  lemma WithoutOne(w: World, ips: set<Addr>, ip: Addr)
    ensures var a := Without(w, ips);
      Without(w, ips + {ip}) == a.(states := a.states - {ip}, local := if w.enforcement.Enforcing? then a.local - {ip} else a.local)
  {
    assert w.states - (ips + {ip}) == w.states - ips - {ip};
    assert w.local - (ips + {ip}) == w.local - ips - {ip};
  }

  /** The list of active bans names exactly the active addresses. */
  ghost predicate Lists(w: World, bans: seq<Ban>, now: Time) {
    && (forall b :: b in bans ==> b.ip in w.states && w.states[b.ip].bannedUntil == Some(b.until) && b.until > now)
    && (forall ip :: ip in w.states && After(w.states[ip].bannedUntil, now) ==> exists b :: b in bans && b.ip == ip)
  }

  lemma ReconciledGone(w: World, bans: seq<Ban>, gone: set<Addr>, now: Time)
    requires Lists(w, bans, now)
    requires gone == set j | 0 <= j < |bans| && IsProtected(w.rules, bans[j].ip) :: bans[j].ip
    ensures gone == set ip | ip in w.states && IsBanned(w, ip, now) && IsProtected(w.rules, ip)
  {
    forall ip | ip in w.states && IsBanned(w, ip, now) && IsProtected(w.rules, ip) ensures ip in gone {
      var b :| b in bans && b.ip == ip;
      var j :| 0 <= j < |bans| && bans[j] == b;
    }
    forall j | 0 <= j < |bans| ensures IsBanned(w, bans[j].ip, now) { assert bans[j] in bans; }
  }

  lemma ActiveFromBans(w: World, bans: seq<Ban>, now: Time)
    requires Lists(w, bans, now)
    ensures (set j | 0 <= j < |bans| :: bans[j].ip) == ActiveSet(w, now)
  {
    forall ip | IsBanned(w, ip, now) ensures exists j :: 0 <= j < |bans| && bans[j].ip == ip {
      var b :| b in bans && b.ip == ip;
      var j :| 0 <= j < |bans| && bans[j] == b;
    }
    forall j | 0 <= j < |bans| ensures IsBanned(w, bans[j].ip, now) { assert bans[j] in bans; }
  }

  lemma ActiveCount(w: World, bans: seq<Ban>, now: Time)
    requires Lists(w, bans, now) && forall i, j :: 0 <= i < j < |bans| ==> bans[i].ip != bans[j].ip
    ensures |bans| == |ActiveSet(w, now)|
  {
    ActiveFromBans(w, bans, now);
    assert (set b | b in bans :: b.ip) == (set j | 0 <= j < |bans| :: bans[j].ip);
    DistinctCount(bans, ActiveSet(w, now));
  }
}
