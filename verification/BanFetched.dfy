/** What a fetched configuration brings about: policy, records, kernel sets and reports. */
module BanFetched {
  import opened Options
  import opened Tracker
  import opened Guard
  import opened Journals
  import opened BanManager
  import opened BanHistory
  import opened BanLinger
  import BanDeployed

  // ----- the fleet set -----

  predicate Wanted(g: Rules, e: FleetEntry, at: Time) {
    e.ip.Some? && IsRoutable(e.ip.value) && !IsProtected(g, e.ip.value) && e.expiresAt > at
  }

  /** How many entries before the i-th are wanted. */
  function Rank(g: Rules, entries: seq<FleetEntry>, i: nat, at: Time): nat
    requires i <= |entries|
  {
    |set j | 0 <= j < i && Wanted(g, entries[j], at)|
  }

  predicate Chosen(g: Rules, entries: seq<FleetEntry>, i: nat, at: Time)
    requires i < |entries|
  {
    Wanted(g, entries[i], at) && Rank(g, entries, i, at) < 50000
  }

  predicate ChosenLast(g: Rules, entries: seq<FleetEntry>, i: nat, at: Time)
    requires i < |entries|
  {
    Chosen(g, entries, i, at) && forall j :: i < j < |entries| && Chosen(g, entries, j, at) ==> entries[j].ip != entries[i].ip
  }

  predicate ChosenFor(g: Rules, entries: seq<FleetEntry>, ip: Addr, at: Time) {
    exists i :: 0 <= i < |entries| && Chosen(g, entries, i, at) && entries[i].ip == Some(ip)
  }

  /** The set holds exactly the addresses of the first 50000 wanted entries. */
  ghost predicate HoldsChosen(g: Rules, fleet: map<Addr, Time>, entries: seq<FleetEntry>, at: Time) {
    forall ip :: ip in fleet <==> ChosenFor(g, entries, ip, at)
  }

  predicate HeldUntil(fleet: map<Addr, Time>, e: FleetEntry, at: Time) {
    && e.ip.Some? && e.ip.value in fleet
    && fleet[e.ip.value] == if e.expiresAt < at + SECOND then at + SECOND else e.expiresAt
  }

  /** It holds the address of such an entry until the last one for that address expires, or for one second. */
  ghost predicate HoldsUntilLast(g: Rules, fleet: map<Addr, Time>, entries: seq<FleetEntry>, at: Time) {
    forall i :: 0 <= i < |entries| && ChosenLast(g, entries, i, at) ==> HeldUntil(fleet, entries[i], at)
  }

  ghost predicate FleetHolds(g: Rules, fleet: map<Addr, Time>, entries: seq<FleetEntry>, at: Time) {
    HoldsChosen(g, fleet, entries, at) && HoldsUntilLast(g, fleet, entries, at)
  }

  lemma RankNext(g: Rules, entries: seq<FleetEntry>, i: nat, at: Time)
    requires i < |entries|
    ensures Rank(g, entries, i + 1, at) == Rank(g, entries, i, at) + if Wanted(g, entries[i], at) then 1 else 0
  {
    hide Wanted;
    var before := set j | 0 <= j < i && Wanted(g, entries[j], at);
    var after := set j | 0 <= j < i + 1 && Wanted(g, entries[j], at);
    if Wanted(g, entries[i], at) { assert after == before + {i}; } else { assert after == before; }
  }

  lemma RankPrefix(g: Rules, entries: seq<FleetEntry>, k: nat, i: nat, at: Time)
    requires i <= k <= |entries|
    ensures Rank(g, entries[..k], i, at) == Rank(g, entries, i, at)
  {
    hide Wanted;
    assert (set j | 0 <= j < i && Wanted(g, entries[..k][j], at)) == (set j | 0 <= j < i && Wanted(g, entries[j], at));
  }

  lemma {:induction false} SelectedCounts(w: World, entries: seq<FleetEntry>, at: Time)
    ensures |Selected(w, entries, at)| == Rank(w.rules, entries, |entries|, at)
  {
    if entries == [] {
      assert Rank(w.rules, entries, 0, at) == 0;
    } else {
      var n := |entries| - 1;
      SelectedCounts(w, entries[..n], at);
      RankPrefix(w.rules, entries, n, n, at);
      RankNext(w.rules, entries, n, at);
      hide Wanted, Rank, IsProtected, IsRoutable;
      assert Wanted(w.rules, entries[n], at) == Deployable(w, entries[n], at) by { WantedIsDeployable(w, entries[n], at); }
    }
  }

  lemma WantedIsDeployable(w: World, e: FleetEntry, at: Time)
    ensures Wanted(w.rules, e, at) == Deployable(w, e, at)
  {}

  lemma {:induction false} SelectionHolds(w: World, entries: seq<FleetEntry>, at: Time)
    ensures FleetHolds(w.rules, AsSet(Truncated(Selected(w, entries, at), MAX_FLEET)), entries, at)
  {
    if entries != [] {
      var n := |entries| - 1;
      var init, e := entries[..n], entries[n];
      SelectionHolds(w, init, at);
      SelectedCounts(w, init, at);
      WantedIsDeployable(w, e, at);
      RankPrefix(w.rules, entries, n, n, at);
      forall i | 0 <= i < n ensures Chosen(w.rules, entries, i, at) == Chosen(w.rules, init, i, at) { RankPrefix(w.rules, entries, n, i, at); }
      ChosenNext(w.rules, entries, at);
      hide Wanted, Rank, IsProtected, IsRoutable, ChosenLast;
      var before, s := Selected(w, init, at), Selected(w, entries, at);
      if Chosen(w.rules, entries, n, at) {
        var x := Element(e.ip.value, ElementExpiry(e.expiresAt, at));
        assert Truncated(s, MAX_FLEET) == Truncated(before, MAX_FLEET) + [x];
        assert (Truncated(before, MAX_FLEET) + [x])[..|Truncated(before, MAX_FLEET)|] == Truncated(before, MAX_FLEET);
        GrownHolds(w.rules, entries, AsSet(Truncated(before, MAX_FLEET)), at);
      } else {
        assert Truncated(s, MAX_FLEET) == Truncated(before, MAX_FLEET);
        SameHolds(w.rules, entries, AsSet(Truncated(before, MAX_FLEET)), at);
      }
    }
  }

  /** Whether an earlier entry is the last of its address, given one more. */
  lemma ChosenNext(g: Rules, entries: seq<FleetEntry>, at: Time)
    requires entries != [] && SameBefore(g, entries, at)
    ensures var n := |entries| - 1;
      && (forall i :: 0 <= i < n ==>
            (ChosenLast(g, entries, i, at) <==>
              ChosenLast(g, entries[..n], i, at) && !(Chosen(g, entries, n, at) && entries[n].ip == entries[i].ip)))
      && (ChosenLast(g, entries, n, at) <==> Chosen(g, entries, n, at))
  {
    hide Chosen;
    var n := |entries| - 1;
    forall i | 0 <= i < n
      ensures ChosenLast(g, entries, i, at) <==>
        ChosenLast(g, entries[..n], i, at) && !(Chosen(g, entries, n, at) && entries[n].ip == entries[i].ip)
    {
      assert forall j :: 0 <= j < n ==> entries[..n][j] == entries[j];
    }
  }

  lemma LastsAgree(g: Rules, entries: seq<FleetEntry>, at: Time)
    ensures forall i :: 0 <= i < |entries| && ChosenLast(g, entries, i, at) ==> Chosen(g, entries, i, at)
  {}

  /** Every entry but the last is chosen with or without it. */
  ghost predicate SameBefore(g: Rules, entries: seq<FleetEntry>, at: Time)
    requires entries != []
  {
    var n := |entries| - 1; forall i :: 0 <= i < n ==> Chosen(g, entries, i, at) == Chosen(g, entries[..n], i, at)
  }

  lemma ChosenForNext(g: Rules, entries: seq<FleetEntry>, ip: Addr, at: Time)
    requires entries != [] && SameBefore(g, entries, at)
    ensures var n := |entries| - 1;
      ChosenFor(g, entries, ip, at) <==>
        ChosenFor(g, entries[..n], ip, at) || (Chosen(g, entries, n, at) && entries[n].ip == Some(ip))
  {
    var n := |entries| - 1;
    hide Chosen;
    if ChosenFor(g, entries[..n], ip, at) {
      var i :| 0 <= i < n && Chosen(g, entries[..n], i, at) && entries[..n][i].ip == Some(ip);
      assert Chosen(g, entries, i, at) && entries[i].ip == Some(ip);
    }
    if ChosenFor(g, entries, ip, at) {
      var i :| 0 <= i < |entries| && Chosen(g, entries, i, at) && entries[i].ip == Some(ip);
      if i < n { assert Chosen(g, entries[..n], i, at) && entries[..n][i].ip == Some(ip); }
    }
  }

  lemma SameHolds(g: Rules, entries: seq<FleetEntry>, fleet: map<Addr, Time>, at: Time)
    requires entries != [] && !Chosen(g, entries, |entries| - 1, at) && SameBefore(g, entries, at)
    requires FleetHolds(g, fleet, entries[..|entries| - 1], at)
    ensures FleetHolds(g, fleet, entries, at)
  {
    hide Chosen, ChosenFor, HeldUntil, SameBefore;
    forall ip ensures ip in fleet <==> ChosenFor(g, entries, ip, at) { ChosenForNext(g, entries, ip, at); }
    assert HoldsChosen(g, fleet, entries, at);
    ChosenNext(g, entries, at);
    LastsAgree(g, entries, at);
    hide ChosenLast, HoldsChosen;
    var n := |entries| - 1;
    forall i | 0 <= i < |entries| && ChosenLast(g, entries, i, at) ensures HeldUntil(fleet, entries[i], at) {
      assert i < n && entries[..n][i] == entries[i];
    }
  }

  lemma ChosenIsWanted(g: Rules, entries: seq<FleetEntry>, i: nat, at: Time)
    requires i < |entries| && Chosen(g, entries, i, at)
    ensures entries[i].ip.Some?
  {
    hide Rank;
  }

  lemma GrownHolds(g: Rules, entries: seq<FleetEntry>, fleet: map<Addr, Time>, at: Time)
    requires entries != [] && Chosen(g, entries, |entries| - 1, at) && SameBefore(g, entries, at)
    requires FleetHolds(g, fleet, entries[..|entries| - 1], at)
    ensures var e := entries[|entries| - 1];
      e.ip.Some? && FleetHolds(g, fleet[e.ip.value := ElementExpiry(e.expiresAt, at)], entries, at)
  {
    hide Chosen, ChosenFor, SameBefore, HoldsChosen, HoldsUntilLast;
    ChosenIsWanted(g, entries, |entries| - 1, at);
    GrownChosen(g, entries, fleet, at);
    GrownUntilLast(g, entries, fleet, at);
  }

  lemma GrownChosen(g: Rules, entries: seq<FleetEntry>, fleet: map<Addr, Time>, at: Time)
    requires entries != [] && Chosen(g, entries, |entries| - 1, at) && SameBefore(g, entries, at)
    requires HoldsChosen(g, fleet, entries[..|entries| - 1], at)
    ensures var e := entries[|entries| - 1];
      e.ip.Some? && HoldsChosen(g, fleet[e.ip.value := ElementExpiry(e.expiresAt, at)], entries, at)
  {
    hide Chosen, ChosenFor, SameBefore;
    ChosenIsWanted(g, entries, |entries| - 1, at);
    var e := entries[|entries| - 1];
    forall ip ensures ip in fleet[e.ip.value := ElementExpiry(e.expiresAt, at)] <==> ChosenFor(g, entries, ip, at) {
      ChosenForNext(g, entries, ip, at);
    }
  }

  lemma GrownUntilLast(g: Rules, entries: seq<FleetEntry>, fleet: map<Addr, Time>, at: Time)
    requires entries != [] && Chosen(g, entries, |entries| - 1, at) && SameBefore(g, entries, at)
    requires HoldsUntilLast(g, fleet, entries[..|entries| - 1], at)
    ensures var e := entries[|entries| - 1];
      e.ip.Some? && HoldsUntilLast(g, fleet[e.ip.value := ElementExpiry(e.expiresAt, at)], entries, at)
  {
    hide Chosen, SameBefore, ChosenLast;
    ChosenIsWanted(g, entries, |entries| - 1, at);
    ChosenNext(g, entries, at);
    var n := |entries| - 1;
    var e := entries[n];
    var fleet' := fleet[e.ip.value := ElementExpiry(e.expiresAt, at)];
    forall i | 0 <= i < |entries| && ChosenLast(g, entries, i, at) ensures HeldUntil(fleet', entries[i], at) {
      if i < n {
        assert entries[..n][i] == entries[i];
        assert HeldUntil(fleet, entries[i], at);
      }
    }
  }

  /** The fleet set as it was written at `at`: chosen from the list if that is wanted, and empty otherwise. */
  ghost predicate FleetAsOf(w: World, at: Time) {
    if WantsEnforcement(w) && w.policy.value.applyFleet then FleetHolds(w.rules, w.fleet, w.fleetEntries, at)
    else w.fleet == map[]
  }

  ghost predicate FleetCurrent(w: World, now: Time) {
    w.enforcement.Enforcing? ==> exists at :: at <= now && FleetAsOf(w, at)
  }

  lemma FleetWritten(w: World, entries: seq<FleetEntry>, now: Time)
    ensures FleetCurrent(FleetApplied(w, entries, now), now)
  {
    var w' := w.(fleetEntries := entries);
    var r := FleetApplied(w, entries, now);
    if w.enforcement.Enforcing? {
      SelectionHolds(w', entries, now);
      hide FleetHolds, Selected;
      assert FleetAsOf(r, now);
    }
  }

  lemma FleetKept(w: World, r: World, t: Time, now: Time)
    requires FleetCurrent(w, t) && t <= now
    requires r.rules == w.rules && r.policy == w.policy && r.enforcement == w.enforcement && r.fleet == w.fleet && r.fleetEntries == w.fleetEntries
    ensures FleetCurrent(r, now)
  {
    hide FleetHolds;
    if r.enforcement.Enforcing? {
      var at :| at <= t && FleetAsOf(w, at);
      assert FleetAsOf(r, at);
    }
  }

  lemma FleetStep(w: World, i: Input, t: Time, now: Time)
    requires FleetCurrent(w, t) && t <= now
    ensures FleetCurrent(BanManager.Step(w, i, now), now)
  {
    hide FleetCurrent, UnbansApplied, Reconciled, Switched;
    match i
    case Fetched(c, addrs) =>
      var w2 := Switched(Refreshed(Configured(w, c), addrs, now), WantsEnforcement(w), now);
      FleetWritten(UnbansApplied(Reconciled(w2, now), c.unban, now), c.fleet, now);
    case Refresh(addrs) =>
      var w' := w.(rules := w.rules.(local := addrs));
      FleetWritten(Reconciled(w', now), Reconciled(w', now).fleetEntries, now);
    case Seen(f) =>
      HandledFrame(w, f, now);
      FleetKept(w, Handled(w, f, now), t, now);
    case Acknowledge(_) => FleetKept(w, BanManager.Step(w, i, now), t, now);
    case MinuteTick => FleetTicked(w, t, now);
  }

  lemma FleetTicked(w: World, t: Time, now: Time)
    requires FleetCurrent(w, t) && t <= now
    ensures FleetCurrent(Ticked(w, now), now)
  {
    hide FleetHolds, FleetAsOf, IsProtected, Pruned;
    var w1 := w.(states := Pruned(w.tracking, w.states, now),
                 seenUnbans := map k | k in w.seenUnbans && w.seenUnbans[k] >= now - UNBAN_MEMORY :: w.seenUnbans[k]);
    if !WantsEnforcement(w1) || w1.enforcement.Enforcing? {
      FleetKept(w, w1, t, now);
    } else {
      FleetWritten(Synced(Ensured(w1, now), now), Ensured(w1, now).fleetEntries, now);
    }
  }

  /** Over every run, at every moment with enforcement ok: the fleet set is the one written at some earlier
      moment for the rules, the policy and the list of now. While the fleet is to be applied it holds exactly
      the addresses of the first 50000 entries that were routable, unprotected and unexpired then, each
      until the last such entry for it expires and no less than one second; and nothing otherwise. */
  lemma {:induction false} FleetFollowsTheList(w: World, inputs: seq<Input>, times: seq<Time>, now: Time)
    requires Initial(w) && |inputs| == |times| && Ascending(times, now)
    ensures FleetCurrent(BanManager.Play(w, inputs, times), now)
  {
    hide FleetCurrent, BanManager.Step;
    if inputs != [] {
      var n := |inputs| - 1;
      FleetFollowsTheList(w, inputs[..n], times[..n], times[n]);
      FleetStep(BanManager.Play(w, inputs[..n], times[..n]), inputs[n], times[n], times[n]);
      FleetLater(BanManager.Play(w, inputs, times), times[n], now);
    } else {
      IdleFleet(w, now);
    }
  }

  lemma FleetLater(w: World, t: Time, now: Time)
    requires FleetCurrent(w, t) && t <= now
    ensures FleetCurrent(w, now)
  {
    FleetKept(w, w, t, now);
  }

  lemma IdleFleet(w: World, now: Time)
    requires w.enforcement.Idle?
    ensures FleetCurrent(w, now)
  {}

  // ----- a fetch, address by address -----

  function Record(m: States, ip: Addr): Option<IpState> {
    if ip in m then Some(m[ip]) else None
  }

  lemma {:induction false} UnbansRecord(w: World, us: seq<Unbanning>, now: Time, ip: Addr)
    ensures Record(UnbansApplied(w, us, now).states, ip) == if Available(w) && NewlyUnbanned(w, us, ip) then None else Record(w.states, ip)
  {
    if us == [] {
      assert !NewlyUnbanned(w, us, ip);
    } else {
      var n := |us| - 1;
      var w', u := UnbansApplied(w, us[..n], now), us[n];
      UnbansRecord(w, us[..n], now, ip);
      UnbansFrame(w, us[..n], now);
      UnbanRecord(w', u, now, ip);
      NewlyStep(w, us, ip);
      if u.ip == Some(ip) {
        var k := UnbanKey(ip, u.at);
        UnbansRemember(w, us[..n], now, k);
        if k !in w.seenUnbans && Delivers(us[..n], k) { assert NewlyUnbanned(w, us[..n], ip); }
      }
      hide UnbanApplied, NewlyUnbanned, Record;
    }
  }

  lemma UnbanRecord(w: World, u: Unbanning, now: Time, ip: Addr)
    ensures Record(UnbanApplied(w, u, now).states, ip) ==
      if Effective(w, u) && u.ip == Some(ip) then None else Record(w.states, ip)
  {
    hide Pushed;
  }

  lemma {:induction false} UnbanEventsExactly(w: World, us: seq<Unbanning>, now: Time, ip: Addr)
    ensures UnbanLogged(ip, now) in UnbanEvents(w, us, now) <==>
      Available(w) && NewlyUnbanned(w, us, ip) && ip in w.states && w.states[ip].bannedUntil.Some?
  {
    if us == [] {
      assert !NewlyUnbanned(w, us, ip);
    } else {
      var n := |us| - 1;
      var w', u := UnbansApplied(w, us[..n], now), us[n];
      UnbanEventsExactly(w, us[..n], now, ip);
      UnbansRecord(w, us[..n], now, ip);
      UnbansFrame(w, us[..n], now);
      NewlyStep(w, us, ip);
      if u.ip == Some(ip) {
        var k := UnbanKey(ip, u.at);
        UnbansRemember(w, us[..n], now, k);
        if k !in w.seenUnbans && Delivers(us[..n], k) { assert NewlyUnbanned(w, us[..n], ip); }
      }
      assert UnbanLogged(ip, now) in UnbanEvents(w, us, now) <==>
        UnbanLogged(ip, now) in UnbanEvents(w, us[..n], now) || UnbanLogged(ip, now) in UnbanEvent(w', u, now);
      hide UnbansApplied, NewlyUnbanned;
    }
  }

  predicate EnforcementWanted(c: Config) {
    c.policy.enforce && c.allowlist != []
  }

  /** The fetch makes the manager take over the sets that it finds in the kernel. */
  predicate TakesOver(w: World, c: Config) {
    EnforcementWanted(c) && !w.enforcement.Enforcing? && w.supported && !w.deniedNetAdmin
  }

  /** The tracker's record of an address when the unbans of the fetch are due: gone if the address is banned
      and the new rules protect it, extended to the end of its element if the sets are taken over. */
  ghost function RecordBefore(w: World, c: Config, addrs: set<Addr>, now: Time, ip: Addr): Option<IpState> {
    var guarded := IsProtected(Rules(c.allowlist, addrs, c.policy.banPrivate), ip);
    if guarded && IsBanned(w, ip, now) then None
    else if !guarded && TakesOver(w, c) && LiveIn(w.local, ip, now) then
      var st := Lookup(w.states, ip);
      Some(if After(st.bannedUntil, w.local[ip]) then st else st.(bannedUntil := Some(w.local[ip])))
    else Record(w.states, ip)
  }

  ghost predicate UnbannedNow(w: World, c: Config, ip: Addr) {
    NewlyUnbanned(w, c.unban, ip) && CanApply(w, c)
  }

  lemma RefreshedRecord(w: World, addrs: set<Addr>, now: Time, ip: Addr)
    ensures var r := Refreshed(w, addrs, now);
      Record(r.states, ip) == if IsBanned(w, ip, now) && IsProtected(w.rules.(local := addrs), ip) then None else Record(w.states, ip)
  {
    var w' := w.(rules := w.rules.(local := addrs));
    var w1 := Reconciled(w', now);
    FleetAppliedSafe(w1, w1.fleetEntries, now);
    assert forall x :: IsBanned(w', x, now) == IsBanned(w, x, now);
    hide IsProtected, FleetApplied, IsBanned;
  }

  lemma RefreshedLocal(w: World, addrs: set<Addr>, now: Time)
    requires !w.enforcement.Enforcing?
    ensures Refreshed(w, addrs, now).local == w.local
  {
    var w' := w.(rules := w.rules.(local := addrs));
    FleetAppliedSafe(Reconciled(w', now), Reconciled(w', now).fleetEntries, now);
    hide IsProtected, FleetApplied;
  }

  lemma SwitchedRecord(w: World, was: bool, now: Time, ip: Addr)
    ensures Record(Switched(w, was, now).states, ip) ==
      if WantsEnforcement(w) && !w.enforcement.Enforcing? && w.supported && !w.deniedNetAdmin && LiveIn(w.local, ip, now) && !IsProtected(w.rules, ip)
      then Some(ImportState(Lookup(w.states, ip), w.local[ip])) else Record(w.states, ip)
  {
    SyncedFrame(Ensured(w, now), now);
    hide IsProtected, ImportState, Synced;
  }

  /** The world that is switched: its guard and policy are the new ones, and the kernel's sets are untouched
      unless enforcement is on. */
  lemma SwitchedFrom(w: World, c: Config, addrs: set<Addr>, now: Time, ip: Addr)
    ensures var w1 := Refreshed(Configured(w, c), addrs, now);
      && Record(w1.states, ip) ==
           (if IsBanned(w, ip, now) && IsProtected(Rules(c.allowlist, addrs, c.policy.banPrivate), ip) then None else Record(w.states, ip))
      && w1.rules == Rules(c.allowlist, addrs, c.policy.banPrivate) && (WantsEnforcement(w1) <==> EnforcementWanted(c))
      && w1.enforcement == w.enforcement && w1.supported == w.supported && w1.deniedNetAdmin == w.deniedNetAdmin
      && (!w.enforcement.Enforcing? ==> w1.local == w.local)
  {
    var w0 := Configured(w, c);
    RefreshedFrame(w0, addrs, now);
    RefreshedRecord(w0, addrs, now, ip);
    if !w.enforcement.Enforcing? { RefreshedLocal(w0, addrs, now); }
    assert IsBanned(w0, ip, now) == IsBanned(w, ip, now);
    hide IsProtected, Refreshed, IsBanned;
  }

  lemma BeforeIsSwitched(w: World, c: Config, addrs: set<Addr>, now: Time)
    requires Safe(w, now)
    ensures BeforeUnbans(w, c, addrs, now) == Switched(Refreshed(Configured(w, c), addrs, now), WantsEnforcement(w), now)
  {
    hide Safe, IsProtected, Refreshed, Switched, TrackerRespectsGuard, Reconciled, Configured;
    var w1 := Refreshed(Configured(w, c), addrs, now);
    FirstPart(w, c, addrs, now);
    SwitchedRespects(w1, WantsEnforcement(w), now);
    NothingToReconcile(Switched(w1, WantsEnforcement(w), now), now);
  }

  lemma BeforeRecord(w: World, c: Config, addrs: set<Addr>, now: Time, ip: Addr)
    requires Safe(w, now)
    ensures Record(BeforeUnbans(w, c, addrs, now).states, ip) == RecordBefore(w, c, addrs, now, ip)
  {
    hide Safe, IsProtected, Refreshed, Switched, IsBanned, BeforeUnbans, Configured, WantsEnforcement;
    var w1 := Refreshed(Configured(w, c), addrs, now);
    BeforeIsSwitched(w, c, addrs, now);
    SwitchedFrom(w, c, addrs, now, ip);
    SwitchedRecord(w1, WantsEnforcement(w), now, ip);
  }

  lemma SwitchedRespects(w: World, was: bool, now: Time)
    requires TrackerRespectsGuard(w, now) && ValidStates(w.states)
    ensures TrackerRespectsGuard(Switched(w, was, now), now)
  {
    if !w.enforcement.Enforcing? { AdoptedSafe(w, now); }
    SyncedFrame(Ensured(w, now), now);
    var w' := Ensured(w, now);
    assert forall x :: IsBanned(Synced(w', now), x, now) == IsBanned(w', x, now);
    assert forall x :: IsBanned(Disabled(w), x, now) == IsBanned(w, x, now);
    hide IsProtected, Adopted, Synced, IsBanned;
  }

  /** What a fetch does to the tracker's record of every address, and when it reports an unban. */
  lemma FetchedRecord(w: World, c: Config, addrs: set<Addr>, now: Time, ip: Addr)
    requires Safe(w, now)
    ensures var before := RecordBefore(w, c, addrs, now, ip);
      && Record(BanManager.Step(w, Fetched(c, addrs), now).states, ip) == (if UnbannedNow(w, c, ip) then None else before)
      && (UnbanLogged(ip, now) in Events(w, Fetched(c, addrs), now) <==>
            UnbannedNow(w, c, ip) && before.Some? && before.value.bannedUntil.Some?)
  {
    var w3 := BeforeUnbans(w, c, addrs, now);
    BeforeRecord(w, c, addrs, now, ip);
    AvailableExactly(w, c, addrs, now);
    AppliedMemory(w, c, addrs, now);
    UnbansRecord(w3, c.unban, now, ip);
    UnbanEventsExactly(w3, c.unban, now, ip);
    FleetAppliedSafe(UnbansApplied(w3, c.unban, now), c.fleet, now);
    NewlySame(w, w3, c.unban, ip);
    hide Refreshed, Switched, Reconciled, UnbansApplied, FleetApplied, IsProtected, NewlyUnbanned, CanApply, Available, Safe, RecordBefore;
  }

  /** What a fetch settles: enforcement is wanted exactly if the policy says so and the allowlist is not empty;
      it is ok if it was or can be set up, and otherwise says why not. */
  lemma FetchTakesEffect(w: World, c: Config, addrs: set<Addr>, now: Time)
    ensures var r := BanManager.Step(w, Fetched(c, addrs), now);
      && (WantsEnforcement(r) <==> EnforcementWanted(c))
      && (if EnforcementWanted(c) && !w.enforcement.Enforcing? then
            r.enforcement == if !w.supported then Unsupported else if w.deniedNetAdmin then NoPermission else Enforcing
          else r.enforcement == w.enforcement)
      && r.rules == Rules(c.allowlist, addrs, c.policy.banPrivate) && r.fleetEntries == c.fleet
      && r.tracking == Normalized(Policy(c.policy.maxRetry, c.policy.findTimeS * SECOND, c.policy.banTimeS * SECOND, c.policy.banTimeMaxS * SECOND))
      && r.policy == Some(c.policy.(enforce := EnforcementWanted(c)))
  {
    BanDeployed.FetchedState(w, c, addrs, now);
    EnsuredFrame(Refreshed(Configured(w, c), addrs, now), now);
    var w1 := Refreshed(Configured(w, c), addrs, now);
    SyncedFrame(Ensured(w1, now), now);
    hide Refreshed, Applied, Synced;
  }

  /** A minute tick sets up enforcement that is wanted and missing, and says why if it cannot; once it is
      there, every live unprotected element of the kernel is a ban until it ends, and every ban is deployed. */
  lemma TickRetries(w: World, now: Time)
    requires WantsEnforcement(w) && !w.enforcement.Enforcing?
    ensures var r := BanManager.Step(w, MinuteTick, now);
      && r.enforcement == (if !w.supported then Unsupported else if w.deniedNetAdmin then NoPermission else Enforcing)
      && (r.enforcement.Enforcing? ==>
           && (forall ip :: LiveIn(w.local, ip, now) && !IsProtected(w.rules, ip) ==>
                 IsBanned(r, ip, now) && r.states[ip].bannedUntil.value >= w.local[ip])
           && forall ip :: IsBanned(r, ip, now) ==> BanDeployed.Covered(r, ip))
  {
    var w1 := w.(states := Pruned(w.tracking, w.states, now),
                 seenUnbans := map k | k in w.seenUnbans && w.seenUnbans[k] >= now - UNBAN_MEMORY :: w.seenUnbans[k]);
    var w2 := Ensured(w1, now);
    hide IsProtected, Pruned, BanDeployed.Covered;
    if w2.enforcement.Enforcing? {
      var w3 := Synced(w2, now);
      SyncedFrame(w2, now);
      FleetAppliedSafe(w3, w3.fleetEntries, now);
      BanDeployed.SyncedCovers(w2, now);
      BanDeployed.SameSurvives(w3, FleetApplied(w3, w3.fleetEntries, now), now);
      BanDeployed.CoverageSurvives(w3, FleetApplied(w3, w3.fleetEntries, now), now);
      hide FleetApplied, Synced;
    }
  }
}
