/** When a protected address can stay in the kernel's local set: the exact condition for each step of the
    event loop, and the runs in which it never happens. */
module BanLinger {
  import opened Options
  import opened Tracker
  import opened Guard
  import opened BanManager
  import opened BanHistory

  predicate LiveIn(m: map<Addr, Time>, ip: Addr, now: Time) {
    ip in m && m[ip] > now
  }

  /** A protected address whose element has not expired. */
  predicate Lingers(w: World, ip: Addr, now: Time) {
    LiveIn(w.local, ip, now) && IsProtected(w.rules, ip)
  }

  // ----- one step -----

  function RulesAfter(w: World, i: Input): Rules {
    match i
    case Fetched(c, addrs) => Rules(c.allowlist, addrs, c.policy.banPrivate)
    case Refresh(addrs) => w.rules.(local := addrs)
    case _ => w.rules
  }

  /** The list has an unban of the address that was not seen before. */
  ghost predicate NewlyUnbanned(w: World, us: seq<Unbanning>, ip: Addr) {
    exists i :: 0 <= i < |us| && us[i].ip == Some(ip) && UnbanKey(ip, us[i].at) !in w.seenUnbans
  }

  /** Known before the step: the ban of a live element is over, the rules to come protect the address, and
      the step neither ends enforcement nor unbans the address. */
  ghost predicate Outlives(w: World, i: Input, now: Time, ip: Addr) {
    && w.enforcement.Enforcing? && LiveIn(w.local, ip, now) && !IsBanned(w, ip, now)
    && IsProtected(RulesAfter(w, i), ip)
    && (i.Fetched? ==> SafePolicy(i.config).enforce && !NewlyUnbanned(w, i.config.unban, ip))
  }

  lemma ReconciledLingers(w: World, now: Time, ip: Addr)
    requires w.enforcement.Enforcing?
    ensures Lingers(Reconciled(w, now), ip, now) <==> Lingers(w, ip, now) && !IsBanned(w, ip, now)
    ensures LiveIn(Reconciled(w, now).local, ip, now) ==> LiveIn(w.local, ip, now) && Reconciled(w, now).local[ip] == w.local[ip]
    ensures Reconciled(w, now) == w.(states := Reconciled(w, now).states, local := Reconciled(w, now).local)
  {
    hide IsProtected;
  }

  lemma RefreshedLingers(w: World, addrs: set<Addr>, now: Time, ip: Addr)
    requires w.enforcement.Enforcing?
    ensures var r := Refreshed(w, addrs, now);
      && r.enforcement.Enforcing? && r.rules == w.rules.(local := addrs) && r.policy == w.policy
      && (Lingers(r, ip, now) <==> LiveIn(w.local, ip, now) && IsProtected(r.rules, ip) && !IsBanned(w, ip, now))
  {
    var w' := w.(rules := w.rules.(local := addrs));
    ReconciledLingers(w', now, ip);
    FleetAppliedSafe(Reconciled(w', now), Reconciled(w', now).fleetEntries, now);
    assert IsBanned(w', ip, now) == IsBanned(w, ip, now);
    hide IsProtected, Reconciled, FleetApplied, IsBanned;
  }

  lemma HandledLingers(w: World, f: Failure, now: Time, ip: Addr)
    ensures Handled(w, f, now).rules == w.rules
    ensures Lingers(Handled(w, f, now), ip, now) <==> Lingers(w, ip, now)
  {
    HandledShape(w, f, now);
    HandledFrame(w, f, now);
    hide IsProtected, ObserveBan, ObserveState, Lookup, Handled, Stale;
  }

  lemma SyncedLingers(w: World, now: Time, ip: Addr)
    requires TrackerRespectsGuard(w, now) && w.enforcement.Enforcing?
    ensures Lingers(Synced(w, now), ip, now) <==> Lingers(w, ip, now)
    ensures var r := Synced(w, now); r == w.(local := r.local)
  {
    hide IsProtected;
    assert ip in ActiveSet(w, now) ==> !IsProtected(w.rules, ip);
  }

  lemma AdoptedLingers(w: World, now: Time, ip: Addr)
    ensures !Lingers(Adopted(w, now), ip, now)
  {
    hide IsProtected;
  }

  lemma TickedLingers(w: World, now: Time, ip: Addr)
    requires Safe(w, now) && Ticked(w, now).enforcement.Enforcing?
    ensures Lingers(Ticked(w, now), ip, now) <==> w.enforcement.Enforcing? && Lingers(w, ip, now)
  {
    var w1 := w.(states := Pruned(w.tracking, w.states, now),
                 seenUnbans := map k | k in w.seenUnbans && w.seenUnbans[k] >= now - UNBAN_MEMORY :: w.seenUnbans[k]);
    if WantsEnforcement(w1) && !w1.enforcement.Enforcing? {
      var w2 := Ensured(w1, now);
      if w2.enforcement.Enforcing? {
        PrunedSafe(w, now, w1);
        AdoptedSafe(w1, now);
        AdoptedLingers(w1, now, ip);
        SyncedLingers(w2, now, ip);
        FleetAppliedSafe(Synced(w2, now), w2.fleetEntries, now);
      }
    }
    hide IsProtected, Pruned, Adopted, Synced, FleetApplied;
  }

  lemma {:induction false} UnbansLocal(w: World, us: seq<Unbanning>, now: Time, ip: Addr)
    requires w.enforcement.Enforcing?
    ensures var r := UnbansApplied(w, us, now);
      && (ip in r.local <==> ip in w.local && !NewlyUnbanned(w, us, ip))
      && (ip in r.local ==> r.local[ip] == w.local[ip])
  {
    if us != [] {
      var n := |us| - 1;
      var w', u := UnbansApplied(w, us[..n], now), us[n];
      UnbansLocal(w, us[..n], now, ip);
      UnbansFrame(w, us[..n], now);
      UnbanLocal(w', u, now, ip);
      NewlyStep(w, us, ip);
      hide UnbanApplied;
      if u.ip == Some(ip) {
        var k := UnbanKey(ip, u.at);
        UnbansRemember(w, us[..n], now, k);
        if k !in w.seenUnbans && Delivers(us[..n], k) { assert NewlyUnbanned(w, us[..n], ip); }
      }
    } else {
      assert !NewlyUnbanned(w, us, ip);
    }
  }

  lemma NewlyStep(w: World, us: seq<Unbanning>, ip: Addr)
    requires us != []
    ensures var n := |us| - 1;
      NewlyUnbanned(w, us, ip) <==> NewlyUnbanned(w, us[..n], ip) || (us[n].ip == Some(ip) && UnbanKey(ip, us[n].at) !in w.seenUnbans)
  {
    var n := |us| - 1;
    if NewlyUnbanned(w, us[..n], ip) {
      var i :| 0 <= i < n && us[..n][i].ip == Some(ip) && UnbanKey(ip, us[..n][i].at) !in w.seenUnbans;
      assert us[i].ip == Some(ip);
    }
    if NewlyUnbanned(w, us, ip) {
      var i :| 0 <= i <= n && us[i].ip == Some(ip) && UnbanKey(ip, us[i].at) !in w.seenUnbans;
      assert i < n ==> us[..n][i].ip == Some(ip);
    }
  }

  lemma UnbanLocal(w: World, u: Unbanning, now: Time, ip: Addr)
    requires w.enforcement.Enforcing?
    ensures var r := UnbanApplied(w, u, now);
      && (ip in r.local <==> ip in w.local && !(u.ip == Some(ip) && UnbanKey(ip, u.at) !in w.seenUnbans))
      && (ip in r.local ==> r.local[ip] == w.local[ip])
  {
    hide Lookup;
  }

  /** Up to the list of unbans, while enforcement goes on or begins. */
  lemma SwitchedLingers(w: World, was: bool, now: Time, ip: Addr)
    requires TrackerRespectsGuard(w, now) && ValidStates(w.states) && WantsEnforcement(w) && Switched(w, was, now).enforcement.Enforcing?
    ensures var r := Switched(w, was, now);
      && r.rules == w.rules && r.policy == w.policy && TrackerRespectsGuard(r, now)
      && (Lingers(r, ip, now) <==> w.enforcement.Enforcing? && Lingers(w, ip, now))
  {
    if !w.enforcement.Enforcing? {
      AdoptedSafe(w, now);
      AdoptedLingers(w, now, ip);
    }
    var w' := Ensured(w, now);
    SyncedLingers(w', now, ip);
    hide IsProtected, Adopted, Synced;
    assert forall x :: IsBanned(Synced(w', now), x, now) == IsBanned(w', x, now);
  }

  /** Guard and enforcement state after the first part of apply. */
  lemma FirstPart(w: World, c: Config, addrs: set<Addr>, now: Time)
    requires Safe(w, now)
    ensures var w1 := Refreshed(Configured(w, c), addrs, now);
      && w1.rules == RulesAfter(w, Fetched(c, addrs)) && w1.policy == Some(SafePolicy(c)) && w1.enforcement == w.enforcement
      && ValidStates(w1.states) && TrackerRespectsGuard(w1, now)
  {
    var w0 := Configured(w, c);
    RefreshedSafe(w0, addrs, now);
    var w' := w0.(rules := w0.rules.(local := addrs));
    FleetAppliedSafe(Reconciled(w', now), Reconciled(w', now).fleetEntries, now);
    assert Reconciled(w', now).rules == w'.rules;
    hide IsProtected, Reconciled, FleetApplied;
  }

  lemma ObservingLingers(w: World, c: Config, addrs: set<Addr>, now: Time, ip: Addr)
    requires Safe(w, now) && !SafePolicy(c).enforce && Applied(w, c, addrs, now).enforcement.Enforcing?
    ensures !Lingers(Applied(w, c, addrs, now), ip, now)
  {
    var w1 := Refreshed(Configured(w, c), addrs, now);
    FirstPart(w, c, addrs, now);
    var w2 := Disabled(w1);
    assert Switched(w1, WantsEnforcement(w), now) == w2;
    assert TrackerRespectsGuard(w2, now) by { hide IsProtected; assert forall x :: IsBanned(w2, x, now) == IsBanned(w1, x, now); }
    NothingToReconcile(w2, now);
    UnbansFrame(w2, c.unban, now);
    FleetAppliedSafe(UnbansApplied(w2, c.unban, now), c.fleet, now);
    hide IsProtected, Refreshed, Reconciled, UnbansApplied, FleetApplied;
    UnbansLocal(w2, c.unban, now, ip);
  }

  /** Everything before the list of unbans, in a fetch that wants enforcement. */
  lemma SecondPart(w: World, c: Config, addrs: set<Addr>, now: Time, ip: Addr)
    requires Safe(w, now) && SafePolicy(c).enforce
    requires Switched(Refreshed(Configured(w, c), addrs, now), WantsEnforcement(w), now).enforcement.Enforcing?
    ensures var w2 := Switched(Refreshed(Configured(w, c), addrs, now), WantsEnforcement(w), now);
      && BeforeUnbans(w, c, addrs, now) == w2 && w2.seenUnbans == w.seenUnbans
      && (Lingers(w2, ip, now) <==>
           w.enforcement.Enforcing? && LiveIn(w.local, ip, now) && !IsBanned(w, ip, now)
           && IsProtected(RulesAfter(w, Fetched(c, addrs)), ip))
  {
    var w1 := Refreshed(Configured(w, c), addrs, now);
    FirstPart(w, c, addrs, now);
    if w.enforcement.Enforcing? { RefreshedLingers(Configured(w, c), addrs, now, ip); }
    assert IsBanned(Configured(w, c), ip, now) == IsBanned(w, ip, now);
    AppliedMemory(w, c, addrs, now);
    hide IsProtected, Refreshed, Switched, IsBanned;
    SwitchedLingers(w1, WantsEnforcement(w), now, ip);
    NothingToReconcile(Switched(w1, WantsEnforcement(w), now), now);
  }

  lemma EnforcingLingers(w: World, c: Config, addrs: set<Addr>, now: Time, ip: Addr)
    requires Safe(w, now) && SafePolicy(c).enforce && Applied(w, c, addrs, now).enforcement.Enforcing?
    ensures Lingers(Applied(w, c, addrs, now), ip, now) <==> Outlives(w, Fetched(c, addrs), now, ip)
  {
    var w3 := BeforeUnbans(w, c, addrs, now);
    var w4 := UnbansApplied(w3, c.unban, now);
    UnbansFrame(w3, c.unban, now);
    FleetAppliedSafe(w4, c.fleet, now);
    OutlivesFetched(w, c, addrs, now, ip);
    assert w3.enforcement == Switched(Refreshed(Configured(w, c), addrs, now), WantsEnforcement(w), now).enforcement;
    hide IsProtected, Refreshed, UnbansApplied, FleetApplied, Switched, IsBanned, NewlyUnbanned, Outlives, Reconciled, Safe;
    SecondPart(w, c, addrs, now, ip);
    UnbansLocal(w3, c.unban, now, ip);
    NewlySame(w, w3, c.unban, ip);
  }

  lemma NewlySame(w: World, r: World, us: seq<Unbanning>, ip: Addr)
    requires r.seenUnbans == w.seenUnbans
    ensures NewlyUnbanned(w, us, ip) == NewlyUnbanned(r, us, ip)
  {}

  lemma OutlivesFetched(w: World, c: Config, addrs: set<Addr>, now: Time, ip: Addr)
    requires SafePolicy(c).enforce
    ensures Outlives(w, Fetched(c, addrs), now, ip) <==>
      w.enforcement.Enforcing? && LiveIn(w.local, ip, now) && !IsBanned(w, ip, now)
      && IsProtected(RulesAfter(w, Fetched(c, addrs)), ip) && !NewlyUnbanned(w, c.unban, ip)
  {}

  /** After every step with enforcement ok, a protected address is in the local set if and only if, before
      the step, its element was live with its ban over, the rules to come protect it, and the step neither
      ends enforcement nor unbans it. */
  lemma LingersExactly(w: World, i: Input, now: Time, ip: Addr)
    requires Safe(w, now) && BanManager.Step(w, i, now).enforcement.Enforcing?
    ensures Lingers(BanManager.Step(w, i, now), ip, now) <==> Outlives(w, i, now, ip)
  {
    hide Applied, Handled, Ticked, Refreshed, IsProtected;
    assert w.enforcement.Enforcing? && Lingers(w, ip, now) ==> !IsBanned(w, ip, now);
    match i
    case Fetched(c, addrs) =>
      if SafePolicy(c).enforce { EnforcingLingers(w, c, addrs, now, ip); } else { ObservingLingers(w, c, addrs, now, ip); }
    case Seen(f) =>
      HandledFrame(w, f, now);
      HandledLingers(w, f, now, ip);
    case MinuteTick => TickedLingers(w, now, ip);
    case Refresh(addrs) =>
      RefreshedSafe(w, addrs, now);
      RefreshedLingers(w, addrs, now, ip);
    case Acknowledge(_) =>
  }

  // ----- runs in which nothing lingers -----

  /** Every live element is an active ban that lasts at least as long. */
  ghost predicate Tight(w: World, now: Time) {
    forall ip :: LiveIn(w.local, ip, now) ==> IsBanned(w, ip, now) && w.local[ip] <= w.states[ip].bannedUntil.value
  }

  /** The manager as syncLocalFromTracker finds it, in the steps that call it. */
  function SyncPoint(w: World, i: Input, now: Time): Option<World> {
    match i
    case Fetched(c, addrs) =>
      var w' := Ensured(Refreshed(Configured(w, c), addrs, now), now);
      if SafePolicy(c).enforce && !WantsEnforcement(w) && w'.enforcement.Enforcing? then Some(w') else None
    case MinuteTick =>
      var w' := Ensured(PrunedAt(w, now), now);
      if WantsEnforcement(w) && !w.enforcement.Enforcing? && w'.enforcement.Enforcing? then Some(w') else None
    case _ => None
  }

  function PrunedAt(w: World, now: Time): World {
    w.(states := Pruned(w.tracking, w.states, now),
       seenUnbans := map k | k in w.seenUnbans && w.seenUnbans[k] >= now - UNBAN_MEMORY :: w.seenUnbans[k])
  }

  ghost predicate Late(w: World, now: Time) {
    exists ip :: IsBanned(w, ip, now) && w.states[ip].bannedUntil.value - now < SECOND
  }

  /** The step deploys a ban that has less than a second left. */
  ghost predicate DeploysLate(w: World, i: Input, now: Time) {
    SyncPoint(w, i, now).Some? && Late(SyncPoint(w, i, now).value, now)
  }

  lemma TightLater(w: World, now: Time, later: Time)
    requires Tight(w, now) && now <= later
    ensures Tight(w, later)
  {}

  lemma ReconciledTight(w: World, now: Time)
    requires Tight(w, now) && w.enforcement.Enforcing?
    ensures Tight(Reconciled(w, now), now)
  {
    hide IsProtected;
  }

  lemma AdoptedTight(w: World, now: Time)
    ensures Tight(Adopted(w, now), now)
  {
    hide IsProtected;
  }

  lemma SyncedTight(w: World, now: Time)
    requires Tight(w, now) && !Late(w, now)
    ensures Tight(Synced(w, now), now)
  {
    var r := Synced(w, now);
    forall ip | LiveIn(r.local, ip, now) ensures IsBanned(r, ip, now) && r.local[ip] <= r.states[ip].bannedUntil.value {
      assert IsBanned(r, ip, now) == IsBanned(w, ip, now);
    }
  }

  lemma SameTight(w: World, r: World, now: Time)
    requires Tight(w, now) && r.states == w.states && r.local == w.local
    ensures Tight(r, now)
  {
    assert forall ip :: IsBanned(r, ip, now) == IsBanned(w, ip, now);
  }

  lemma RefreshedTight(w: World, addrs: set<Addr>, now: Time)
    requires w.enforcement.Enforcing? && Tight(w, now)
    ensures Tight(Refreshed(w, addrs, now), now)
  {
    var w' := w.(rules := w.rules.(local := addrs));
    SameTight(w, w', now);
    ReconciledTight(w', now);
    FleetAppliedSafe(Reconciled(w', now), Reconciled(w', now).fleetEntries, now);
    SameTight(Reconciled(w', now), Refreshed(w, addrs, now), now);
  }

  lemma UnbanTight(w: World, u: Unbanning, now: Time)
    requires w.enforcement.Enforcing? && Tight(w, now)
    ensures Tight(UnbanApplied(w, u, now), now)
  {
    hide Lookup;
    var r := UnbanApplied(w, u, now);
    if Effective(w, u) {
      forall ip | LiveIn(r.local, ip, now) ensures IsBanned(r, ip, now) && r.local[ip] <= r.states[ip].bannedUntil.value {
        assert LiveIn(w.local, ip, now) && ip != u.ip.value;
      }
    }
  }

  lemma {:induction false} UnbansTight(w: World, us: seq<Unbanning>, now: Time)
    requires w.enforcement.Enforcing? && Tight(w, now)
    ensures Tight(UnbansApplied(w, us, now), now)
  {
    if us != [] {
      UnbansTight(w, us[..|us| - 1], now);
      UnbansFrame(w, us[..|us| - 1], now);
      UnbanTight(UnbansApplied(w, us[..|us| - 1], now), us[|us| - 1], now);
    }
  }

  lemma ObservingTight(w: World, c: Config, addrs: set<Addr>, now: Time)
    requires !SafePolicy(c).enforce && Applied(w, c, addrs, now).enforcement.Enforcing?
    ensures Tight(Applied(w, c, addrs, now), now)
  {
    var w1 := Refreshed(Configured(w, c), addrs, now);
    FleetAppliedSafe(Reconciled(Configured(w, c).(rules := Configured(w, c).rules.(local := addrs)), now), w.fleetEntries, now);
    var w2 := Switched(w1, WantsEnforcement(w), now);
    var w3 := Reconciled(w2, now);
    UnbansFrame(w3, c.unban, now);
    FleetAppliedSafe(UnbansApplied(w3, c.unban, now), c.fleet, now);
    assert w2.enforcement.Enforcing? ==> w2.local == map[];
    assert w3.enforcement.Enforcing? ==> w3.local == map[];
    hide IsProtected, Refreshed, Reconciled, UnbansApplied, FleetApplied, Switched;
    UnbansTight(w3, c.unban, now);
    SameTight(UnbansApplied(w3, c.unban, now), Applied(w, c, addrs, now), now);
  }

  lemma EnforcingTight(w: World, c: Config, addrs: set<Addr>, now: Time)
    requires Safe(w, now) && (w.enforcement.Enforcing? ==> Tight(w, now)) && !DeploysLate(w, Fetched(c, addrs), now)
    requires SafePolicy(c).enforce && Applied(w, c, addrs, now).enforcement.Enforcing?
    ensures Tight(Applied(w, c, addrs, now), now)
  {
    var w0 := Configured(w, c);
    var w1 := Refreshed(w0, addrs, now);
    RefreshedSafe(w0, addrs, now);
    if w.enforcement.Enforcing? {
      SameTight(w, w0, now);
      RefreshedTight(w0, addrs, now);
    } else {
      AdoptedTight(w1, now);
    }
    assert w1.policy == Some(SafePolicy(c));
    var w2 := Switched(w1, WantsEnforcement(w), now);
    var w3 := Reconciled(w2, now);
    UnbansFrame(w3, c.unban, now);
    var w4 := UnbansApplied(w3, c.unban, now);
    FleetAppliedSafe(w4, c.fleet, now);
    assert w3.enforcement == w2.enforcement;
    hide IsProtected, Refreshed, Reconciled, UnbansApplied, FleetApplied, Adopted, Synced, Tight, Late, Safe;
    if !WantsEnforcement(w) { SyncedTight(Ensured(w1, now), now); }
    ReconciledTight(w2, now);
    UnbansTight(w3, c.unban, now);
    SameTight(w4, Applied(w, c, addrs, now), now);
  }

  lemma TickedTight(w: World, now: Time)
    requires Safe(w, now) && (w.enforcement.Enforcing? ==> Tight(w, now)) && !DeploysLate(w, MinuteTick, now)
    requires Ticked(w, now).enforcement.Enforcing?
    ensures Tight(Ticked(w, now), now)
  {
    hide IsProtected, FleetApplied, Adopted, Synced, Tight, Late, Pruned, Safe;
    var w1 := PrunedAt(w, now);
    if w.enforcement.Enforcing? {
      PrunedTight(w, now);
    } else {
      AdoptedTight(w1, now);
      var w2 := Ensured(w1, now);
      if WantsEnforcement(w) && w2.enforcement.Enforcing? {
        SyncedTight(w2, now);
        FleetAppliedSafe(Synced(w2, now), w2.fleetEntries, now);
        SameTight(Synced(w2, now), Ticked(w, now), now);
      }
    }
  }

  lemma PrunedTight(w: World, now: Time)
    requires Tight(w, now)
    ensures Tight(PrunedAt(w, now), now)
  {
    hide Recent;
    var r := PrunedAt(w, now);
    forall ip | IsBanned(w, ip, now) ensures ip in r.states && r.states[ip] == w.states[ip] {}
  }

  lemma {:induction false} BanLengthAtLeast(p: Policy, k: nat)
    requires ValidPolicy(p)
    ensures BanLength(p, k) >= p.banTime
  {
    if k > 0 { BanLengthAtLeast(p, k - 1); }
  }

  /** A record changes without touching an active ban, and its element with it at most up to the new ban. */
  lemma RecordTight(w: World, r: World, ip: Addr, now: Time)
    requires Tight(w, now) && ip in r.states && r.states == w.states[ip := r.states[ip]]
    requires !IsBanned(w, ip, now) || r.states[ip].bannedUntil == w.states[ip].bannedUntil
    requires r.local == w.local
      || (ip in r.local && r.local == w.local[ip := r.local[ip]] && IsBanned(r, ip, now) && r.local[ip] <= r.states[ip].bannedUntil.value)
    ensures Tight(r, now)
  {
    forall x | LiveIn(r.local, x, now) ensures IsBanned(r, x, now) && r.local[x] <= r.states[x].bannedUntil.value {
      if x != ip || r.local == w.local { assert LiveIn(w.local, x, now) && IsBanned(w, x, now); }
    }
  }

  lemma HandledTight(w: World, f: Failure, now: Time)
    requires Safe(w, now) && Tight(w, now) && w.tracking.banTime >= SECOND
    ensures Tight(Handled(w, f, now), now)
  {
    if !Stale(w, f, now) && !IsProtected(w.rules, f.ip) {
      var st := Lookup(w.states, f.ip);
      SafeValid(w, f.ip, now);
      ObservedValid(w.tracking, st, f.user, now);
      SameBan(w.tracking, f.ip, st, f.user, now);
      BanLasts(w.tracking, f.ip, st, f.user, now);
      HandledShape(w, f, now);
      hide ObserveState, ObserveBan, IsProtected, Safe, Stale, Handled, Tight;
      RecordTight(w, Handled(w, f, now), f.ip, now);
    }
  }

  lemma BanLasts(p: Policy, ip: Addr, st: IpState, user: string, now: Time)
    requires ValidPolicy(p) && p.banTime >= SECOND
    ensures var ban := ObserveBan(p, ip, st, user, now); ban.Some? ==> ban.value.until - now >= SECOND
  {
    hide Recent, BanLength;
    BanLengthAtLeast(p, CurrentRun(st.bans, st.lastBan, now));
  }

  /** Ban times are whole seconds. */
  lemma StepBanTime(w: World, i: Input, now: Time)
    requires w.tracking.banTime >= SECOND
    ensures BanManager.Step(w, i, now).tracking.banTime >= SECOND
  {
    match i
    case Fetched(c, addrs) => AppliedTracking(w, c, addrs, now);
    case Seen(f) =>
      HandledFrame(w, f, now);
      hide IsProtected, ObserveBan, ObserveState, Lookup, Handled, Stale;
    case MinuteTick =>
      var w1 := PrunedAt(w, now);
      EnsuredFrame(w1, now);
      SyncedFrame(Ensured(w1, now), now);
      FleetAppliedSafe(Synced(Ensured(w1, now), now), Ensured(w1, now).fleetEntries, now);
      hide Ensured, Synced, FleetApplied, Pruned;
    case Refresh(addrs) =>
      RefreshedFrame(w, addrs, now);
      hide Refreshed;
    case Acknowledge(_) =>
  }

  lemma AppliedTracking(w: World, c: Config, addrs: set<Addr>, now: Time)
    ensures Applied(w, c, addrs, now).tracking.banTime >= SECOND
  {
    var w0 := Configured(w, c);
    assert w0.tracking.banTime >= SECOND;
    var w1 := Refreshed(w0, addrs, now);
    RefreshedFrame(w0, addrs, now);
    var w2 := Switched(w1, WantsEnforcement(w), now);
    SwitchedFrame(w1, WantsEnforcement(w), now);
    var w3 := Reconciled(w2, now);
    UnbansFrame(w3, c.unban, now);
    FleetAppliedSafe(UnbansApplied(w3, c.unban, now), c.fleet, now);
    hide IsProtected, Refreshed, Switched, UnbansApplied, FleetApplied, IsBanned, Configured;
  }

  lemma StepTight(w: World, i: Input, now: Time)
    requires Safe(w, now) && w.tracking.banTime >= SECOND && !DeploysLate(w, i, now)
    requires w.enforcement.Enforcing? ==> Tight(w, now)
    ensures BanManager.Step(w, i, now).enforcement.Enforcing? ==> Tight(BanManager.Step(w, i, now), now)
  {
    hide Applied, Handled, Ticked, Refreshed, Tight, DeploysLate, Safe;
    match i
    case Fetched(c, addrs) =>
      if Applied(w, c, addrs, now).enforcement.Enforcing? {
        if SafePolicy(c).enforce { EnforcingTight(w, c, addrs, now); } else { ObservingTight(w, c, addrs, now); }
      }
    case Seen(f) =>
      HandledFrame(w, f, now);
      if w.enforcement.Enforcing? { HandledTight(w, f, now); }
    case MinuteTick =>
      if Ticked(w, now).enforcement.Enforcing? { TickedTight(w, now); }
    case Refresh(addrs) =>
      RefreshedFrame(w, addrs, now);
      if w.enforcement.Enforcing? { RefreshedTight(w, addrs, now); }
    case Acknowledge(ids) =>
      if w.enforcement.Enforcing? { SameTight(w, BanManager.Step(w, i, now), now); }
  }

  /** No step of the run deploys a ban with less than a second left. */
  ghost predicate NeverLate(w: World, inputs: seq<Input>, times: seq<Time>)
    requires |inputs| == |times|
  {
    inputs != [] ==>
      var n := |inputs| - 1;
      NeverLate(w, inputs[..n], times[..n]) && !DeploysLate(BanManager.Play(w, inputs[..n], times[..n]), inputs[n], times[n])
  }

  lemma {:induction false} PlayTight(w: World, inputs: seq<Input>, times: seq<Time>, now: Time)
    requires Initial(w) && |inputs| == |times| && Ascending(times, now)
    requires NeverLate(w, inputs, times)
    ensures var r := BanManager.Play(w, inputs, times); r.tracking.banTime >= SECOND && (r.enforcement.Enforcing? ==> Tight(r, now))
  {
    if inputs != [] {
      hide BanManager.Step, Tight, DeploysLate, Safe;
      var n := |inputs| - 1;
      var r := BanManager.Play(w, inputs[..n], times[..n]);
      PlayTight(w, inputs[..n], times[..n], times[n]);
      PlaySafe(w, inputs[..n], times[..n], times[n]);
      StepBanTime(r, inputs[n], times[n]);
      StepTight(r, inputs[n], times[n]);
      if BanManager.Play(w, inputs, times).enforcement.Enforcing? { TightLater(BanManager.Play(w, inputs, times), times[n], now); }
    }
  }

  /** In every run in which no step deploys a ban with less than a second left, nothing lingers: at every
      moment with enforcement ok, each address in the local set is an active and unprotected ban. */
  lemma NothingLingersUnlessLate(w: World, inputs: seq<Input>, times: seq<Time>, now: Time)
    requires Initial(w) && |inputs| == |times| && Ascending(times, now)
    requires NeverLate(w, inputs, times)
    requires BanManager.Play(w, inputs, times).enforcement.Enforcing?
    ensures var r := BanManager.Play(w, inputs, times);
      forall ip :: LiveIn(r.local, ip, now) ==> IsBanned(r, ip, now) && !IsProtected(r.rules, ip)
  {
    hide DeploysLate, IsProtected, BanManager.Play, NeverLate, Initial;
    PlayTight(w, inputs, times, now);
    PlaySafe(w, inputs, times, now);
    assert Safe(BanManager.Play(w, inputs, times), now);
  }
}
