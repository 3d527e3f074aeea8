/** What the kernel's local set must hold, and what is reported as enforced. */
module BanDeployed {
  import opened Options
  import opened Tracker
  import opened Guard
  import opened Journals
  import opened BanManager
  import opened BanHistory
  import opened BanLinger

  // ----- the local set holds every ban -----

  /** The local set holds the address for as long as the tracker bans it. */
  predicate Covered(w: World, ip: Addr) {
    ip in w.states && w.states[ip].bannedUntil.Some? && ip in w.local && w.local[ip] >= w.states[ip].bannedUntil.value
  }

  /** The step bans the address, and more than 10000 addresses are banned then. */
  ghost predicate Refuses(w: World, i: Input, now: Time, ip: Addr) {
    var r := BanManager.Step(w, i, now);
    i.Seen? && i.failure.ip == ip && !IsBanned(w, ip, now) && IsBanned(r, ip, now) && |ActiveSet(r, now)| > 10000
  }

  /** Enforcement that is wanted and not there cannot be set up. */
  predicate Decided(w: World) {
    WantsEnforcement(w) ==> w.enforcement.Enforcing? || !w.supported || w.deniedNetAdmin
  }

  /** Bans may go, but none comes, and none loses its element. */
  ghost predicate Survives(w: World, r: World, now: Time) {
    forall ip :: IsBanned(r, ip, now) ==>
      IsBanned(w, ip, now) && r.states[ip].bannedUntil == w.states[ip].bannedUntil && (Covered(w, ip) ==> Covered(r, ip))
  }

  lemma SurvivesOn(w: World, r: World, q: World, now: Time)
    requires Survives(w, r, now) && Survives(r, q, now)
    ensures Survives(w, q, now)
  {}

  lemma WithoutSurvives(w: World, ips: set<Addr>, r: World, now: Time)
    requires r.states == w.states - ips && (r.local == w.local || r.local == w.local - ips)
    ensures Survives(w, r, now)
  {}

  lemma ReconciledSurvives(w: World, now: Time)
    ensures Survives(w, Reconciled(w, now), now)
  {
    var hit := set ip | ip in w.states && IsBanned(w, ip, now) && IsProtected(w.rules, ip);
    hide IsProtected, IsBanned, Survives;
    WithoutSurvives(w, hit, Reconciled(w, now), now);
  }

  lemma SameSurvives(w: World, r: World, now: Time)
    requires r.states == w.states && r.local == w.local
    ensures Survives(w, r, now)
  {}

  lemma RefreshedSurvives(w: World, addrs: set<Addr>, now: Time)
    ensures Survives(w, Refreshed(w, addrs, now), now)
  {
    var w' := w.(rules := w.rules.(local := addrs));
    var r := Reconciled(w', now);
    SameSurvives(w, w', now);
    ReconciledSurvives(w', now);
    FleetAppliedSafe(r, r.fleetEntries, now);
    SameSurvives(r, FleetApplied(r, r.fleetEntries, now), now);
    hide Survives, Reconciled, FleetApplied;
    SurvivesOn(w, w', r, now);
    SurvivesOn(w, r, FleetApplied(r, r.fleetEntries, now), now);
  }

  lemma {:induction false} UnbansSurvive(w: World, us: seq<Unbanning>, now: Time)
    ensures Survives(w, UnbansApplied(w, us, now), now)
  {
    hide Survives, Lookup, Pushed;
    if us == [] {
      SameSurvives(w, w, now);
    } else {
      var init, u := us[..|us| - 1], us[|us| - 1];
      var w' := UnbansApplied(w, init, now);
      var r := UnbanApplied(w', u, now);
      UnbansSurvive(w, init, now);
      UnbanSurvives(w', u, now);
      hide UnbanApplied;
      SurvivesOn(w, w', r, now);
    }
  }

  lemma UnbanSurvives(w: World, u: Unbanning, now: Time)
    ensures Survives(w, UnbanApplied(w, u, now), now)
  {
    hide Survives, Lookup, Pushed;
    var r := UnbanApplied(w, u, now);
    if Effective(w, u) { WithoutSurvives(w, {u.ip.value}, r, now); } else { SameSurvives(w, r, now); }
  }

  /** Every active ban has an element that lasts as long. */
  ghost predicate AllCovered(w: World, now: Time) {
    forall ip :: IsBanned(w, ip, now) ==> Covered(w, ip)
  }

  lemma SyncedCovers(w: World, now: Time)
    requires w.enforcement.Enforcing?
    ensures AllCovered(Synced(w, now), now)
  {}

  /** What a step leaves uncovered was so before it, or it has just been refused. */
  ghost predicate StepCovers(w: World, i: Input, now: Time) {
    var r := BanManager.Step(w, i, now);
    WantsEnforcement(r) && r.enforcement.Enforcing? ==>
      forall ip :: IsBanned(r, ip, now) && !Covered(r, ip) ==>
        || Refuses(w, i, now, ip)
        || (WantsEnforcement(w) && w.enforcement.Enforcing? && IsBanned(w, ip, now) && !Covered(w, ip)
            && r.states[ip].bannedUntil == w.states[ip].bannedUntil)
  }

  lemma SurvivingCovers(w: World, i: Input, now: Time)
    requires Survives(w, BanManager.Step(w, i, now), now) && WantsEnforcement(w) && w.enforcement.Enforcing?
    ensures StepCovers(w, i, now)
  {
    hide BanManager.Step;
  }

  lemma FetchSurvives(w: World, c: Config, addrs: set<Addr>, now: Time)
    ensures Survives(w, Refreshed(Configured(w, c), addrs, now), now)
    ensures Survives(Switched(Refreshed(Configured(w, c), addrs, now), WantsEnforcement(w), now), Applied(w, c, addrs, now), now)
  {
    var w0 := Configured(w, c);
    var w1 := Refreshed(w0, addrs, now);
    var w2 := Switched(w1, WantsEnforcement(w), now);
    var w3 := Reconciled(w2, now);
    var w4 := UnbansApplied(w3, c.unban, now);
    var w5 := FleetApplied(w4, c.fleet, now);
    SameSurvives(w, w0, now);
    RefreshedSurvives(w0, addrs, now);
    ReconciledSurvives(w2, now);
    UnbansSurvive(w3, c.unban, now);
    FleetAppliedSafe(w4, c.fleet, now);
    SameSurvives(w4, w5, now);
    assert w5 == Applied(w, c, addrs, now);
    hide Survives, Applied, Refreshed, Switched, Reconciled, UnbansApplied, FleetApplied, Configured;
    SurvivesOn(w, w0, w1, now);
    SurvivesOn(w2, w3, w4, now);
    SurvivesOn(w2, w4, w5, now);
  }

  /** Where apply leaves policy and enforcement. */
  lemma FetchedState(w: World, c: Config, addrs: set<Addr>, now: Time)
    ensures var w1, r := Refreshed(Configured(w, c), addrs, now), Applied(w, c, addrs, now);
      var w2 := Switched(w1, WantsEnforcement(w), now);
      && w1.enforcement == w.enforcement && w1.supported == w.supported && w1.deniedNetAdmin == w.deniedNetAdmin
      && w1.policy == r.policy == Some(SafePolicy(c)) && w1.rules == r.rules == Rules(c.allowlist, addrs, c.policy.banPrivate)
      && w2.enforcement == r.enforcement && r.supported == w.supported && r.deniedNetAdmin == w.deniedNetAdmin
      && r.tracking == w1.tracking == Configured(w, c).tracking && r.fleetEntries == c.fleet
  {
    var w0 := Configured(w, c);
    var w1 := Refreshed(w0, addrs, now);
    var w2 := Switched(w1, WantsEnforcement(w), now);
    var w3 := Reconciled(w2, now);
    RefreshedFrame(w0, addrs, now);
    SwitchedFrame(w1, WantsEnforcement(w), now);
    ReconciledFrame(w2, now);
    UnbansFrame(w3, c.unban, now);
    FleetAppliedSafe(UnbansApplied(w3, c.unban, now), c.fleet, now);
    hide Refreshed, Switched, Reconciled, UnbansApplied, FleetApplied, Normalized;
  }

  lemma FetchCovers(w: World, c: Config, addrs: set<Addr>, now: Time)
    requires Decided(w)
    ensures StepCovers(w, Fetched(c, addrs), now)
    ensures Decided(Applied(w, c, addrs, now))
  {
    var w1 := Refreshed(Configured(w, c), addrs, now);
    var w2 := Switched(w1, WantsEnforcement(w), now);
    var r := Applied(w, c, addrs, now);
    FetchSurvives(w, c, addrs, now);
    FetchedState(w, c, addrs, now);
    EnsuredFrame(w1, now);
    SyncedFrame(Ensured(w1, now), now);
    if WantsEnforcement(w1) { SwitchedAvailable(w1, WantsEnforcement(w), now); }
    hide Survives, Applied, Refreshed, Reconciled, UnbansApplied, FleetApplied, Configured, Ensured, Synced;
    if WantsEnforcement(r) && r.enforcement.Enforcing? {
      if WantsEnforcement(w) {
        assert w.enforcement.Enforcing?;
        SameEnsured(w1, now);
        SurvivesOn(w, w1, r, now);
        SurvivingCovers(w, Fetched(c, addrs), now);
      } else {
        SyncedCovers(Ensured(w1, now), now);
        CoverageSurvives(w2, r, now);
        NothingUncovered(w, Fetched(c, addrs), now);
      }
    }
  }

  lemma SameEnsured(w: World, now: Time)
    requires w.enforcement.Enforcing?
    ensures Ensured(w, now) == w
  {}

  lemma CoverageSurvives(w: World, r: World, now: Time)
    requires Survives(w, r, now) && AllCovered(w, now)
    ensures AllCovered(r, now)
  {}

  lemma NothingUncovered(w: World, i: Input, now: Time)
    requires AllCovered(BanManager.Step(w, i, now), now)
    ensures StepCovers(w, i, now)
  {
    hide BanManager.Step;
  }

  lemma TickCovers(w: World, now: Time)
    requires Safe(w, now) && Decided(w)
    ensures StepCovers(w, MinuteTick, now)
    ensures Decided(Ticked(w, now))
  {
    var w1 := w.(states := Pruned(w.tracking, w.states, now),
                 seenUnbans := map k | k in w.seenUnbans && w.seenUnbans[k] >= now - UNBAN_MEMORY :: w.seenUnbans[k]);
    PrunedSurvives(w, now, w1);
    hide Survives, Pruned, Safe;
    if WantsEnforcement(w) && w.enforcement.Enforcing? {
      assert Ticked(w, now) == w1;
      SurvivingCovers(w, MinuteTick, now);
    } else if WantsEnforcement(w) {
      assert !Ensured(w1, now).enforcement.Enforcing?;
    }
  }

  lemma PrunedSurvives(w: World, now: Time, w': World)
    requires w' == w.(states := Pruned(w.tracking, w.states, now), seenUnbans := w'.seenUnbans)
    ensures Survives(w, w', now)
  {
    hide Recent;
  }

  // ----- a failure -----

  /** The failure is older than the window, or its address is protected. */
  predicate Ignored(w: World, f: Failure, now: Time) {
    || (f.at.Some? && w.policy.Some? && w.policy.value.findTimeS > 0 && now - f.at.value > w.policy.value.findTimeS * SECOND)
    || IsProtected(w.rules, f.ip)
  }

  ghost predicate NewBan(w: World, r: World, now: Time, ip: Addr) {
    !IsBanned(w, ip, now) && IsBanned(r, ip, now)
  }

  /** How a failure that bans an address is carried out and reported. */
  ghost predicate CarriedOut(w: World, r: World, ip: Addr, now: Time, ban: Ban, enforced: bool)
    requires ip in r.states
  {
    && ban.ip == ip && r.states[ip].bannedUntil == Some(ban.until)
    && r.journal == Pushed(w.journal, BanLogged(ban, enforced))
    && (enforced <==> WantsEnforcement(w) && w.enforcement.Enforcing? && |ActiveSet(r, now)| <= 10000)
    && (w.enforcement.Enforcing? ==> (enforced <==> ip in r.local && r.local[ip] >= ban.until))
    && (!enforced ==> r.local == w.local)
    && forall x :: x != ip ==> (x in r.local <==> x in w.local) && (x in w.local ==> r.local[x] == w.local[x])
  }

  ghost predicate FailureDone(w: World, f: Failure, now: Time, r: World) {
    if Ignored(w, f, now) then r == w
    else
      && r == w.(states := w.states[f.ip := ObserveState(w.tracking, Lookup(w.states, f.ip), f.user, now)], local := r.local, journal := r.journal)
      && (if NewBan(w, r, now, f.ip) then exists ban, enforced :: CarriedOut(w, r, f.ip, now, ban, enforced)
          else r.local == w.local && r.journal == w.journal)
  }

  lemma {:induction false} BanLengthAtLeast(p: Policy, k: nat)
    requires ValidPolicy(p)
    ensures BanLength(p, k) >= p.banTime
  {
    if k > 0 { BanLengthAtLeast(p, k - 1); }
  }

  /** A ban begins exactly when the tracker returns one; it lasts at least the base ban time. */
  lemma BanBegins(p: Policy, ip: Addr, st: IpState, user: string, now: Time)
    requires ValidPolicy(p)
    ensures var st', ban := ObserveState(p, st, user, now), ObserveBan(p, ip, st, user, now);
      && (ban.Some? <==> !After(st.bannedUntil, now) && After(st'.bannedUntil, now))
      && (ban.Some? ==> ban.value.ip == ip && st'.bannedUntil == Some(ban.value.until) && ban.value.until >= now + p.banTime)
      && (ban.None? ==> st'.bannedUntil == st.bannedUntil)
  {
    hide Recent, BanLength;
    BanLengthAtLeast(p, CurrentRun(st.bans, st.lastBan, now));
  }

  lemma FailureIsDone(w: World, f: Failure, now: Time)
    requires Safe(w, now) && w.tracking.banTime >= SECOND
    ensures FailureDone(w, f, now, Handled(w, f, now))
  {
    if !Ignored(w, f, now) {
      var ban := ObserveBan(w.tracking, f.ip, Lookup(w.states, f.ip), f.user, now);
      BanBegins(w.tracking, f.ip, Lookup(w.states, f.ip), f.user, now);
      HandledFrame(w, f, now);
      hide ObserveState, ObserveBan, IsProtected, Safe, Lookup, ActiveSet, Logged, CarriedOut;
      if ban.Some? { BanCarriedOut(w, f, now, ban.value); }
    }
  }

  lemma HandledBan(w: World, f: Failure, now: Time, ban: Ban) returns (w': World, enforced: bool)
    requires !Ignored(w, f, now) && ObserveBan(w.tracking, f.ip, Lookup(w.states, f.ip), f.user, now) == Some(ban)
    ensures w' == w.(states := w.states[f.ip := ObserveState(w.tracking, Lookup(w.states, f.ip), f.user, now)])
    ensures enforced <==> WantsEnforcement(w) && w.enforcement.Enforcing? && |ActiveSet(w', now)| <= MAX_LOCAL
    ensures Handled(w, f, now) ==
      if enforced then Logged(w'.(local := w.local[f.ip := ElementExpiry(ban.until, now)]), BanLogged(ban, true)) else Logged(w', BanLogged(ban, false))
  {
    hide ObserveState, ObserveBan, IsProtected, Logged, Lookup, ActiveSet;
    w' := w.(states := w.states[f.ip := ObserveState(w.tracking, Lookup(w.states, f.ip), f.user, now)]);
    enforced := WantsEnforcement(w) && w.enforcement.Enforcing? && |ActiveSet(w', now)| <= MAX_LOCAL;
  }

  lemma BanCarriedOut(w: World, f: Failure, now: Time, ban: Ban)
    requires Safe(w, now) && w.tracking.banTime >= SECOND && !Ignored(w, f, now)
    requires ObserveBan(w.tracking, f.ip, Lookup(w.states, f.ip), f.user, now) == Some(ban)
    ensures f.ip in Handled(w, f, now).states && exists enforced :: CarriedOut(w, Handled(w, f, now), f.ip, now, ban, enforced)
  {
    var r := Handled(w, f, now);
    var w', enforced := HandledBan(w, f, now, ban);
    BanBegins(w.tracking, f.ip, Lookup(w.states, f.ip), f.user, now);
    SafeValid(w, f.ip, now);
    if w.enforcement.Enforcing? && f.ip in w.local { UnbannedLags(w, f.ip, now); }
    SameActive(w', r, now);
    hide ObserveState, ObserveBan, IsProtected, Pushed, Safe, Lookup, ActiveSet, Ignored, Handled;
    assert CarriedOut(w, r, f.ip, now, ban, enforced);
  }

  lemma UnbannedLags(w: World, ip: Addr, now: Time)
    requires Safe(w, now) && w.enforcement.Enforcing? && ip in w.local && !After(Lookup(w.states, ip).bannedUntil, now)
    ensures w.local[ip] < now + SECOND
  {}

  lemma SameActive(w: World, r: World, now: Time)
    requires r.states == w.states
    ensures ActiveSet(r, now) == ActiveSet(w, now)
  {}

  lemma FailureCovers(w: World, f: Failure, now: Time)
    requires Safe(w, now) && w.tracking.banTime >= SECOND && Decided(w)
    ensures StepCovers(w, Seen(f), now)
    ensures Decided(Handled(w, f, now))
  {
    var r, st := Handled(w, f, now), Lookup(w.states, f.ip);
    FailureIsDone(w, f, now);
    HandledFrame(w, f, now);
    BanBegins(w.tracking, f.ip, st, f.user, now);
    SafeValid(w, f.ip, now);
    hide Handled, ObserveState, ObserveBan, IsProtected, ActiveSet, Safe, Ignored, Pushed;
    if !Ignored(w, f, now) && WantsEnforcement(r) && r.enforcement.Enforcing? {
      forall ip | IsBanned(r, ip, now) && !Covered(r, ip)
        ensures Refuses(w, Seen(f), now, ip) || (IsBanned(w, ip, now) && !Covered(w, ip) && r.states[ip].bannedUntil == w.states[ip].bannedUntil)
      {
        if NewBan(w, r, now, f.ip) {
          var ban, enforced :| CarriedOut(w, r, f.ip, now, ban, enforced);
        }
      }
    }
  }

  // ----- over whole runs -----

  lemma StepCoversAll(w: World, i: Input, now: Time)
    requires Safe(w, now) && w.tracking.banTime >= SECOND && Decided(w)
    ensures StepCovers(w, i, now) && Decided(BanManager.Step(w, i, now))
  {
    hide StepCovers, Safe, Applied, Handled, Ticked, Refreshed;
    match i
    case Fetched(c, addrs) => FetchCovers(w, c, addrs, now);
    case Seen(f) => FailureCovers(w, f, now);
    case MinuteTick => TickCovers(w, now);
    case Refresh(addrs) =>
      RefreshedSurvives(w, addrs, now);
      RefreshedFrame(w, addrs, now);
      StillCovers(w, i, now);
    case Acknowledge(ids) =>
      SameSurvives(w, BanManager.Step(w, i, now), now);
      StillCovers(w, i, now);
  }

  lemma StillCovers(w: World, i: Input, now: Time)
    requires var r := BanManager.Step(w, i, now);
      Survives(w, r, now) && r.policy == w.policy && r.enforcement == w.enforcement
    ensures StepCovers(w, i, now)
  {
    hide BanManager.Step;
  }

  /** The address was refused at step j, and the ban of then is the one it has. */
  ghost predicate RefusedAt(w: World, inputs: seq<Input>, times: seq<Time>, j: nat, ip: Addr)
    requires j < |inputs| == |times|
  {
    var before, r := BanManager.Play(w, inputs[..j], times[..j]), BanManager.Play(w, inputs, times);
    && Refuses(before, inputs[j], times[j], ip) && ip in r.states
    && r.states[ip].bannedUntil == BanManager.Step(before, inputs[j], times[j]).states[ip].bannedUntil
  }

  ghost predicate WasRefused(w: World, inputs: seq<Input>, times: seq<Time>, ip: Addr)
    requires |inputs| == |times|
  {
    exists j :: 0 <= j < |inputs| && RefusedAt(w, inputs, times, j, ip)
  }

  lemma StillRefused(w: World, inputs: seq<Input>, times: seq<Time>, ip: Addr)
    requires |inputs| == |times| > 0
    requires var n := |inputs| - 1; var before, r := BanManager.Play(w, inputs[..n], times[..n]), BanManager.Play(w, inputs, times);
      WasRefused(w, inputs[..n], times[..n], ip) && ip in r.states && ip in before.states && r.states[ip].bannedUntil == before.states[ip].bannedUntil
    ensures WasRefused(w, inputs, times, ip)
  {
    hide BanManager.Play, BanManager.Step, Refuses;
    var n := |inputs| - 1;
    var j :| 0 <= j < n && RefusedAt(w, inputs[..n], times[..n], j, ip);
    assert inputs[..n][..j] == inputs[..j] && times[..n][..j] == times[..j] && inputs[..n][j] == inputs[j] && times[..n][j] == times[j];
    assert RefusedAt(w, inputs, times, j, ip);
  }

  ghost predicate Holds(w: World, inputs: seq<Input>, times: seq<Time>, now: Time)
    requires |inputs| == |times|
  {
    var r := BanManager.Play(w, inputs, times);
    && Decided(r) && r.tracking.banTime >= SECOND
    && (WantsEnforcement(r) && r.enforcement.Enforcing? ==>
          forall ip :: IsBanned(r, ip, now) ==> Covered(r, ip) || WasRefused(w, inputs, times, ip))
  }

  lemma {:induction false} PlayHolds(w: World, inputs: seq<Input>, times: seq<Time>, now: Time)
    requires Initial(w) && |inputs| == |times| && Ascending(times, now)
    ensures Holds(w, inputs, times, now)
  {
    if inputs != [] {
      var n := |inputs| - 1;
      PlayHolds(w, inputs[..n], times[..n], times[n]);
      PlaySafe(w, inputs[..n], times[..n], times[n]);
      HoldsNext(w, inputs, times, now);
    }
  }

  lemma HoldsNext(w: World, inputs: seq<Input>, times: seq<Time>, now: Time)
    requires |inputs| == |times| > 0 && Ascending(times, now)
    requires var n := |inputs| - 1;
      Holds(w, inputs[..n], times[..n], times[n]) && Safe(BanManager.Play(w, inputs[..n], times[..n]), times[n])
    ensures Holds(w, inputs, times, now)
  {
    var n := |inputs| - 1;
    var before, i, t := BanManager.Play(w, inputs[..n], times[..n]), inputs[n], times[n];
    var r := BanManager.Play(w, inputs, times);
    assert r == BanManager.Step(before, i, t);
    StepCoversAll(before, i, t);
    StepBanTime(before, i, t);
    hide BanManager.Play, BanManager.Step, Safe, WasRefused;
    if WantsEnforcement(r) && r.enforcement.Enforcing? {
      forall ip | IsBanned(r, ip, now) && !Covered(r, ip) ensures WasRefused(w, inputs, times, ip) {
        assert IsBanned(r, ip, t);
        if Refuses(before, i, t, ip) {
          assert RefusedAt(w, inputs, times, n, ip);
          RefusedNow(w, inputs, times, ip);
        } else {
          StillRefused(w, inputs, times, ip);
        }
      }
    }
  }

  lemma RefusedNow(w: World, inputs: seq<Input>, times: seq<Time>, ip: Addr)
    requires |inputs| == |times| > 0 && RefusedAt(w, inputs, times, |inputs| - 1, ip)
    ensures WasRefused(w, inputs, times, ip)
  {
    hide RefusedAt;
  }

  /** Over every run of the event loop, at every moment with enforcement wanted and ok: every address that
      the tracker bans is in the kernel's local set at least until its ban ends, unless the failure that
      banned it was the one that went over the limit of 10000. */
  lemma EveryBanIsDeployed(w: World, inputs: seq<Input>, times: seq<Time>, now: Time)
    requires Initial(w) && |inputs| == |times| && Ascending(times, now)
    requires var r := BanManager.Play(w, inputs, times); WantsEnforcement(r) && r.enforcement.Enforcing?
    ensures var r := BanManager.Play(w, inputs, times);
      forall ip :: IsBanned(r, ip, now) ==>
        (ip in r.local && r.local[ip] >= r.states[ip].bannedUntil.value) || WasRefused(w, inputs, times, ip)
  {
    PlayHolds(w, inputs, times, now);
    hide BanManager.Play, Initial, WasRefused;
  }

  /** Over every run, for every failure: one that is older than the window, or of a protected address,
      changes nothing; any other is put to the tracker, and a ban is reported, with its address and expiry,
      exactly if one begins. It is reported as enforced if and only if enforcement is wanted and ok and no
      more than 10000 addresses are banned; and, while enforcement is ok, if and only if the local set then
      holds the address until the ban ends. */
  lemma FailuresCarriedOut(w: World, inputs: seq<Input>, times: seq<Time>, f: Failure, now: Time)
    requires Initial(w) && |inputs| == |times| && Ascending(times, now)
    ensures var r := BanManager.Play(w, inputs, times); FailureDone(r, f, now, BanManager.Step(r, Seen(f), now))
  {
    PlaySafe(w, inputs, times, now);
    PlayHolds(w, inputs, times, now);
    FailureIsDone(BanManager.Play(w, inputs, times), f, now);
    hide BanManager.Play, Initial, FailureDone, Handled, Safe;
  }
}
