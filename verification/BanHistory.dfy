/** What the ban manager keeps over whole runs beside the kernel sets: which unbans it remembers, and which
    events wait to be reported. */
module BanHistory {
  import opened Options
  import opened Tracker
  import opened Guard
  import opened Journals
  import opened BanManager

  // ----- the memory of unbans -----

  ghost predicate Delivers(us: seq<Unbanning>, k: UnbanKey) {
    exists i :: 0 <= i < |us| && us[i] == Unbanning(Some(k.ip), k.at)
  }

  ghost predicate Brings(i: Input, k: UnbanKey) {
    i.Fetched? && Delivers(i.config.unban, k)
  }

  /** The tick after which an unban applied at `a` is forgotten. */
  predicate Forgets(i: Input, t: Time, a: Time) {
    i.MinuteTick? && a < t - 24 * 3600 * SECOND
  }

  function SeenAt(w: World, k: UnbanKey): Option<Time> {
    if k in w.seenUnbans then Some(w.seenUnbans[k]) else None
  }

  lemma UnbanRemembers(w: World, u: Unbanning, now: Time, k: UnbanKey)
    ensures var s, s' := SeenAt(w, k), SeenAt(UnbanApplied(w, u, now), k);
      s' == s || (s.None? && s' == Some(now) && u == Unbanning(Some(k.ip), k.at))
  {
    hide Lookup;
  }

  lemma {:induction false} UnbansRemember(w: World, us: seq<Unbanning>, now: Time, k: UnbanKey)
    ensures var s, s' := SeenAt(w, k), SeenAt(UnbansApplied(w, us, now), k);
      s' == s || (s.None? && s' == Some(now) && Delivers(us, k))
  {
    hide UnbanApplied;
    if us != [] {
      var n := |us| - 1;
      UnbansRemember(w, us[..n], now, k);
      UnbanRemembers(UnbansApplied(w, us[..n], now), us[n], now, k);
      if Delivers(us[..n], k) {
        var i :| 0 <= i < n && us[..n][i] == Unbanning(Some(k.ip), k.at);
        assert us[i] == Unbanning(Some(k.ip), k.at);
      }
    }
  }

  /** The parts of a step that neither apply unbans nor report anything. */
  predicate SameMemory(w: World, r: World) {
    r.seenUnbans == w.seenUnbans && r.journal == w.journal
  }

  // What each part of a step can change.

  lemma ReconciledFrame(w: World, now: Time)
    ensures var r := Reconciled(w, now); r == w.(states := r.states, local := r.local)
  {
    hide IsProtected, IsBanned;
  }

  lemma RefreshedFrame(w: World, addrs: set<Addr>, now: Time)
    ensures var r := Refreshed(w, addrs, now);
      r == w.(rules := w.rules.(local := addrs), states := r.states, local := r.local, fleet := r.fleet)
  {
    var w' := w.(rules := w.rules.(local := addrs));
    ReconciledFrame(w', now);
    FleetAppliedSafe(Reconciled(w', now), Reconciled(w', now).fleetEntries, now);
    hide Reconciled, FleetApplied;
  }

  lemma EnsuredFrame(w: World, now: Time)
    ensures var r := Ensured(w, now); r == w.(states := r.states, local := r.local, enforcement := r.enforcement)
  {
    hide IsProtected;
  }

  lemma SyncedFrame(w: World, now: Time)
    ensures var r := Synced(w, now); r == w.(local := r.local)
  {
    hide IsBanned, Deployed;
  }

  lemma SwitchedFrame(w: World, was: bool, now: Time)
    ensures var r := Switched(w, was, now);
      r == w.(states := r.states, local := r.local, fleet := r.fleet, enforcement := r.enforcement)
  {
    EnsuredFrame(w, now);
    SyncedFrame(Ensured(w, now), now);
    hide Ensured, Synced;
  }

  lemma {:induction false} UnbansFrame(w: World, us: seq<Unbanning>, now: Time)
    ensures var r := UnbansApplied(w, us, now);
      r == w.(states := r.states, local := r.local, seenUnbans := r.seenUnbans, journal := r.journal)
  {
    hide Lookup, Pushed;
    if us != [] { UnbansFrame(w, us[..|us| - 1], now); }
  }

  /** The world to which apply gives the list of unbans. */
  function BeforeUnbans(w: World, c: Config, addrs: set<Addr>, now: Time): World {
    Reconciled(Switched(Refreshed(Configured(w, c), addrs, now), WantsEnforcement(w), now), now)
  }

  lemma AppliedMemory(w: World, c: Config, addrs: set<Addr>, now: Time)
    ensures SameMemory(w, BeforeUnbans(w, c, addrs, now))
    ensures SameMemory(UnbansApplied(BeforeUnbans(w, c, addrs, now), c.unban, now), Applied(w, c, addrs, now))
  {
    var w1 := Refreshed(Configured(w, c), addrs, now);
    var w2 := Switched(w1, WantsEnforcement(w), now);
    RefreshedFrame(Configured(w, c), addrs, now);
    SwitchedFrame(w1, WantsEnforcement(w), now);
    ReconciledFrame(w2, now);
    FleetAppliedSafe(UnbansApplied(BeforeUnbans(w, c, addrs, now), c.unban, now), c.fleet, now);
    hide Refreshed, Switched, Reconciled, FleetApplied, UnbansApplied;
  }

  lemma TickedMemory(w: World, now: Time)
    ensures var r := Ticked(w, now);
      && r.journal == w.journal
      && r.seenUnbans == map k | k in w.seenUnbans && w.seenUnbans[k] >= now - UNBAN_MEMORY :: w.seenUnbans[k]
  {
    var w1 := w.(states := Pruned(w.tracking, w.states, now),
                 seenUnbans := map k | k in w.seenUnbans && w.seenUnbans[k] >= now - UNBAN_MEMORY :: w.seenUnbans[k]);
    EnsuredFrame(w1, now);
    SyncedFrame(Ensured(w1, now), now);
    FleetAppliedSafe(Synced(Ensured(w1, now), now), Ensured(w1, now).fleetEntries, now);
    hide Ensured, Synced, FleetApplied, Pruned, WantsEnforcement;
  }

  /** What a failure can change: nothing, or the record of its address, its element and the journal. */
  lemma HandledFrame(w: World, f: Failure, now: Time)
    ensures var r := Handled(w, f, now); r == w.(states := r.states, local := r.local, journal := r.journal)
  {
    hide ObserveState, ObserveBan, IsProtected, ActiveSet, Stale, Lookup, Pushed, ElementExpiry, WantsEnforcement;
  }

  lemma HandledShape(w: World, f: Failure, now: Time)
    ensures var r, st := Handled(w, f, now), Lookup(w.states, f.ip);
      var ban := ObserveBan(w.tracking, f.ip, st, f.user, now);
      if Stale(w, f, now) || IsProtected(w.rules, f.ip) then r == w
      else
        && r.states == w.states[f.ip := ObserveState(w.tracking, st, f.user, now)]
        && (r.local == w.local || (ban.Some? && r.local == w.local[f.ip := ElementExpiry(ban.value.until, now)]))
  {
    hide ObserveState, ObserveBan, IsProtected, ActiveSet, Stale, Lookup, Pushed, ElementExpiry;
    var st := Lookup(w.states, f.ip);
    if !Stale(w, f, now) && !IsProtected(w.rules, f.ip) {
      var w' := w.(states := w.states[f.ip := ObserveState(w.tracking, st, f.user, now)]);
      var ban := ObserveBan(w.tracking, f.ip, st, f.user, now);
      if ban.Some? {
        var deployed := w'.(local := w'.local[f.ip := ElementExpiry(ban.value.until, now)]);
        assert Handled(w, f, now) == Logged(deployed, BanLogged(ban.value, true)) || Handled(w, f, now) == Logged(w', BanLogged(ban.value, false));
      } else {
        assert Handled(w, f, now) == w';
      }
    }
  }

  lemma StepRemembers(w: World, i: Input, now: Time, k: UnbanKey)
    ensures var s, s' := SeenAt(w, k), SeenAt(BanManager.Step(w, i, now), k);
      if s.Some? then s' == (if Forgets(i, now, s.value) then None else s) else s'.None? || (s' == Some(now) && Brings(i, k))
  {
    hide Applied, Ticked, Handled, Refreshed, UnbansApplied, BeforeUnbans;
    match i
    case Fetched(c, addrs) =>
      AppliedMemory(w, c, addrs, now);
      UnbansRemember(BeforeUnbans(w, c, addrs, now), c.unban, now, k);
    case Seen(f) => HandledFrame(w, f, now);
    case MinuteTick => TickedMemory(w, now);
    case Refresh(addrs) => RefreshedFrame(w, addrs, now);
    case Acknowledge(_) =>
  }

  ghost predicate ForgetsWithin(inputs: seq<Input>, times: seq<Time>, a: Time)
    requires |inputs| == |times|
  {
    exists i :: 0 <= i < |inputs| && Forgets(inputs[i], times[i], a)
  }

  /** Starting with an unban that was applied at `a`, the loop still remembers that application after a
      run if and only if the run has no tick more than 24 hours later. */
  lemma {:induction false} RememberedExactly(w: World, inputs: seq<Input>, times: seq<Time>, k: UnbanKey)
    requires |inputs| == |times| && k in w.seenUnbans
    requires forall i :: 0 <= i < |times| ==> w.seenUnbans[k] <= times[i]
    requires forall i, j :: 0 <= i < j < |times| ==> times[i] <= times[j]
    ensures var a, r := w.seenUnbans[k], BanManager.Play(w, inputs, times);
      && (k in r.seenUnbans && r.seenUnbans[k] == a <==> !ForgetsWithin(inputs, times, a))
      && (k in r.seenUnbans && r.seenUnbans[k] != a ==> exists i :: 0 <= i < |inputs| && Brings(inputs[i], k))
      && (k in r.seenUnbans ==> a <= r.seenUnbans[k])
  {
    hide BanManager.Step;
    if inputs != [] {
      var n, a := |inputs| - 1, w.seenUnbans[k];
      var before, now := BanManager.Play(w, inputs[..n], times[..n]), times[n];
      RememberedExactly(w, inputs[..n], times[..n], k);
      StepRemembers(before, inputs[n], now, k);
      WithinStep(inputs, times, a);
      assert a <= now;
      if ForgetsWithin(inputs[..n], times[..n], a) {
        var i :| 0 <= i < n && Forgets(inputs[..n][i], times[..n][i], a);
        assert a < times[i] <= now;
      }
      assert forall i :: 0 <= i < n ==> inputs[..n][i] == inputs[i];
    }
  }

  lemma WithinStep(inputs: seq<Input>, times: seq<Time>, a: Time)
    requires |inputs| == |times| > 0
    ensures var n := |inputs| - 1;
      ForgetsWithin(inputs, times, a) <==> ForgetsWithin(inputs[..n], times[..n], a) || Forgets(inputs[n], times[n], a)
  {
    var n := |inputs| - 1;
    if ForgetsWithin(inputs[..n], times[..n], a) {
      var i :| 0 <= i < n && Forgets(inputs[..n][i], times[..n][i], a);
      assert Forgets(inputs[i], times[i], a);
    }
    if ForgetsWithin(inputs, times, a) {
      var i :| 0 <= i < |inputs| && Forgets(inputs[i], times[i], a);
      assert i < n ==> Forgets(inputs[..n][i], times[..n][i], a);
    }
  }

  /** Enforcement is there if it is wanted. */
  predicate Available(w: World) {
    WantsEnforcement(w) ==> w.enforcement.Enforcing?
  }

  /** Known before the fetch: enforcement is not wanted, or it is there already, or it can be set up. */
  predicate CanApply(w: World, c: Config) {
    SafePolicy(c).enforce ==> w.enforcement.Enforcing? || (w.supported && !w.deniedNetAdmin)
  }

  lemma AvailableExactly(w: World, c: Config, addrs: set<Addr>, now: Time)
    ensures Available(BeforeUnbans(w, c, addrs, now)) <==> CanApply(w, c)
  {
    var w1 := Refreshed(Configured(w, c), addrs, now);
    RefreshedFrame(Configured(w, c), addrs, now);
    var w2 := Switched(w1, WantsEnforcement(w), now);
    SwitchedFrame(w1, WantsEnforcement(w), now);
    if WantsEnforcement(w1) { SwitchedAvailable(w1, WantsEnforcement(w), now); }
    ReconciledFrame(w2, now);
    hide Refreshed, Switched, Reconciled;
  }

  lemma SwitchedAvailable(w: World, was: bool, now: Time)
    requires WantsEnforcement(w)
    ensures Switched(w, was, now).enforcement.Enforcing? <==> w.enforcement.Enforcing? || (w.supported && !w.deniedNetAdmin)
  {
    EnsuredFrame(w, now);
    SyncedFrame(Ensured(w, now), now);
    hide Synced, IsProtected;
  }

  /** The list without the entries for k. */
  function Except(us: seq<Unbanning>, k: UnbanKey): seq<Unbanning> {
    if us == [] then []
    else
      var before, u := Except(us[..|us| - 1], k), us[|us| - 1];
      if u == Unbanning(Some(k.ip), k.at) then before else before + [u]
  }

  lemma {:induction false} ExceptLacks(us: seq<Unbanning>, k: UnbanKey)
    ensures !Delivers(Except(us, k), k)
  {
    if us != [] { ExceptLacks(us[..|us| - 1], k); }
  }

  /** A remembered unban, or one without the enforcement it needs, might as well not be on the list. */
  lemma {:induction false} IdleEntries(w: World, us: seq<Unbanning>, k: UnbanKey, now: Time)
    requires k in w.seenUnbans || !Available(w)
    ensures UnbansApplied(w, us, now) == UnbansApplied(w, Except(us, k), now)
  {
    if us != [] {
      var init, u := us[..|us| - 1], us[|us| - 1];
      IdleEntries(w, init, k, now);
      var w' := UnbansApplied(w, init, now);
      UnbansRemember(w, init, now, k);
      UnbansFrame(w, init, now);
      if u == Unbanning(Some(k.ip), k.at) {
        assert UnbanApplied(w', u, now) == w';
      } else {
        assert (Except(init, k) + [u])[..|Except(init, k)|] == Except(init, k);
      }
      hide UnbanApplied, Lookup;
    }
  }

  /** A delivered unban that was not seen, with the enforcement it needs, forgets its address. */
  lemma {:induction false} EntryApplies(w: World, us: seq<Unbanning>, k: UnbanKey, now: Time)
    requires Delivers(us, k) && k !in w.seenUnbans && Available(w)
    ensures var r := UnbansApplied(w, us, now);
      k in r.seenUnbans && k.ip !in r.states && (w.enforcement.Enforcing? ==> k.ip !in r.local)
  {
    var init, u := us[..|us| - 1], us[|us| - 1];
    var w' := UnbansApplied(w, init, now);
    UnbansFrame(w, init, now);
    UnbansRemember(w, init, now, k);
    assert forall i :: 0 <= i < |init| ==> init[i] == us[i];
    if Delivers(init, k) { EntryApplies(w, init, k, now); }
    UnbanShrinks(w', u, now);
    if Effective(w', u) { UnbanForgets(w', u, now); }
    hide UnbanApplied, Lookup;
  }

  lemma UnbanShrinks(w: World, u: Unbanning, now: Time)
    ensures var r := UnbanApplied(w, u, now);
      w.seenUnbans.Keys <= r.seenUnbans.Keys && r.states.Keys <= w.states.Keys && r.local.Keys <= w.local.Keys
  {
    hide Lookup, Pushed;
  }

  lemma UnbanForgets(w: World, u: Unbanning, now: Time)
    requires Effective(w, u)
    ensures var r := UnbanApplied(w, u, now);
      && UnbanKey(u.ip.value, u.at) in r.seenUnbans && u.ip.value !in r.states
      && (w.enforcement.Enforcing? ==> u.ip.value !in r.local)
  {
    hide Lookup, Pushed;
  }

  /** The fetch as it would be without the entries for k. */
  function Undelivered(c: Config, k: UnbanKey): Config {
    c.(unban := Except(c.unban, k))
  }

  /** A fetch that delivers an unban differs from the same fetch without it exactly if the unban is not
      remembered and the enforcement it needs is there or can be set up; then the address is forgotten. */
  lemma DeliveryExactly(r: World, c: Config, addrs: set<Addr>, now: Time, k: UnbanKey)
    requires Delivers(c.unban, k)
    ensures var r', r'' := Applied(r, c, addrs, now), Applied(r, Undelivered(c, k), addrs, now);
      && (r' != r'' <==> k !in r.seenUnbans && CanApply(r, c))
      && (r' != r'' ==> k.ip !in r'.states && (r'.enforcement.Enforcing? ==> k.ip !in r'.local))
  {
    var w := BeforeUnbans(r, c, addrs, now);
    AvailableExactly(r, c, addrs, now);
    AppliedMemory(r, c, addrs, now);
    SameBefore(r, c, addrs, now, k);
    var a, b := UnbansApplied(w, c.unban, now), UnbansApplied(w, Except(c.unban, k), now);
    UnbansFrame(w, c.unban, now);
    FleetAppliedSafe(a, c.fleet, now);
    FleetAppliedSafe(b, c.fleet, now);
    hide BeforeUnbans, FleetApplied, UnbansApplied, Available, CanApply, Applied;
    if k in w.seenUnbans || !Available(w) {
      IdleEntries(w, c.unban, k, now);
    } else {
      EntryApplies(w, c.unban, k, now);
      ExceptLacks(c.unban, k);
      UnbansRemember(w, Except(c.unban, k), now, k);
    }
  }

  lemma SameBefore(r: World, c: Config, addrs: set<Addr>, now: Time, k: UnbanKey)
    ensures BeforeUnbans(r, Undelivered(c, k), addrs, now) == BeforeUnbans(r, c, addrs, now)
    ensures Applied(r, c, addrs, now) == FleetApplied(UnbansApplied(BeforeUnbans(r, c, addrs, now), c.unban, now), c.fleet, now)
    ensures Applied(r, Undelivered(c, k), addrs, now) ==
      FleetApplied(UnbansApplied(BeforeUnbans(r, c, addrs, now), Except(c.unban, k), now), c.fleet, now)
  {
    assert Configured(r, Undelivered(c, k)) == Configured(r, c);
    hide Refreshed, Switched, Reconciled, FleetApplied, UnbansApplied, Configured;
  }

  /** The server repeats its unbans with every configuration. The next fetch that delivers an unban which
      was applied at `a` is the same as without it, unless a tick more than 24 hours after `a` lies between
      and the enforcement that the fetch wants is there or can be set up. In that case, and only then, the
      unban is applied again, and lifts whatever ban the address has by then. */
  lemma NextDeliveryExactly(w: World, inputs: seq<Input>, times: seq<Time>, k: UnbanKey, c: Config, addrs: set<Addr>, now: Time)
    requires |inputs| == |times| && k in w.seenUnbans && Delivers(c.unban, k)
    requires forall i :: 0 <= i < |times| ==> w.seenUnbans[k] <= times[i] <= now
    requires forall i, j :: 0 <= i < j < |times| ==> times[i] <= times[j]
    requires forall i :: 0 <= i < |inputs| ==> !Brings(inputs[i], k)
    ensures var r := BanManager.Play(w, inputs, times);
      var r', r'' := BanManager.Step(r, Fetched(c, addrs), now), BanManager.Step(r, Fetched(Undelivered(c, k), addrs), now);
      && (r' != r'' <==> ForgetsWithin(inputs, times, w.seenUnbans[k]) && CanApply(r, c))
      && (r' != r'' ==> k.ip !in r'.states && (r'.enforcement.Enforcing? ==> k.ip !in r'.local))
  {
    RememberedExactly(w, inputs, times, k);
    DeliveryExactly(BanManager.Play(w, inputs, times), c, addrs, now, k);
    hide BanManager.Play, Applied, ForgetsWithin, CanApply, Brings;
  }

  /** So within 24 hours of its application, no delivery of an unban lifts a ban made since. */
  lemma UnbansApplyOnceWithinADay(w: World, inputs: seq<Input>, times: seq<Time>, k: UnbanKey, c: Config, addrs: set<Addr>, now: Time)
    requires |inputs| == |times| && k in w.seenUnbans && Delivers(c.unban, k) && now <= w.seenUnbans[k] + 24 * 3600 * SECOND
    requires forall i :: 0 <= i < |times| ==> w.seenUnbans[k] <= times[i] <= now
    requires forall i, j :: 0 <= i < j < |times| ==> times[i] <= times[j]
    ensures var r := BanManager.Play(w, inputs, times);
      BanManager.Step(r, Fetched(c, addrs), now) == BanManager.Step(r, Fetched(Undelivered(c, k), addrs), now)
  {
    RememberedExactly(w, inputs, times, k);
    DeliveryExactly(BanManager.Play(w, inputs, times), c, addrs, now, k);
    hide BanManager.Play, Applied, CanApply, Brings;
  }

  // ----- an unban that comes back -----

  const LATER: Time := UNBAN_MEMORY + SECOND

  ghost function Lifting(p: Prefix, ip: Addr): Config {
    Config(Lenient(false), [p], [Unbanning(Some(ip), 0)], [])
  }

  /** A manager in observe mode that knows at most one address. */
  ghost predicate Watching(w: World, p: Prefix, ip: Addr) {
    && w == w.(tracking := Policy(1, 600 * SECOND, SECOND, SECOND), policy := Some(Lenient(false)), enforcement := Idle, rules := Rules([p], {}, false))
    && w.states.Keys <= {ip}
  }

  lemma Prepares(w: World, p: Prefix, ip: Addr, now: Time)
    requires w.enforcement.Idle? && w.states.Keys <= {ip} && !IsProtected(Rules([p], {}, false), ip)
    ensures var c := Lifting(p, ip); var r := BeforeUnbans(w, c, {}, now);
      Watching(r, p, ip) && r.states == w.states && r.seenUnbans == w.seenUnbans
  {
    hide IsProtected;
    var c := Lifting(p, ip);
    var w0 := Configured(w, c);
    var w0' := w0.(rules := w0.rules.(local := {}));
    NothingToReconcile(w0', now);
    hide Reconciled;
    var w1 := Refreshed(w0, {}, now);
    assert w1 == w0'.(fleetEntries := w1.fleetEntries);
    assert Switched(w1, WantsEnforcement(w), now) == w1;
    NothingToReconcile(w1, now);
  }

  lemma Lifts(w: World, p: Prefix, ip: Addr, now: Time)
    requires Watching(w, p, ip)
    ensures var r := UnbansApplied(w, Lifting(p, ip).unban, now);
      && Watching(r, p, ip)
      && (UnbanKey(ip, 0) !in w.seenUnbans ==> r.states == map[] && r.seenUnbans == w.seenUnbans[UnbanKey(ip, 0) := now])
  {
    hide Lookup, Pushed;
    var us := Lifting(p, ip).unban;
    assert us[..0] == [] && us[0] == Unbanning(Some(ip), 0);
    assert UnbansApplied(w, [], now) == w;
    assert UnbansApplied(w, us, now) == UnbanApplied(w, us[0], now);
    assert (w.states - {ip}) == map[];
  }

  lemma Fetches(w: World, p: Prefix, ip: Addr)
    requires w.enforcement.Idle? && w.states.Keys <= {ip} && !IsProtected(Rules([p], {}, false), ip)
    ensures forall now :: Lifted(w, p, ip, now, BanManager.Step(w, Fetched(Lifting(p, ip), {}), now))
  {
    var c := Lifting(p, ip);
    forall now ensures Lifted(w, p, ip, now, BanManager.Step(w, Fetched(c, {}), now)) {
      Prepares(w, p, ip, now);
      var w1 := BeforeUnbans(w, c, {}, now);
      Lifts(w1, p, ip, now);
      hide IsProtected, UnbansApplied, Reconciled, Switched, Refreshed;
      assert BanManager.Step(w, Fetched(c, {}), now) == FleetApplied(UnbansApplied(w1, c.unban, now), c.fleet, now);
    }
  }

  ghost predicate Lifted(w: World, p: Prefix, ip: Addr, now: Time, r: World) {
    && Watching(r, p, ip)
    && (UnbanKey(ip, 0) !in w.seenUnbans ==> r.states == map[] && r.seenUnbans == w.seenUnbans[UnbanKey(ip, 0) := now])
  }

  lemma Ticks(w: World, p: Prefix, ip: Addr, now: Time) returns (r: World)
    requires Watching(w, p, ip) && w.states == map[]
    ensures r == BanManager.Step(w, MinuteTick, now)
    ensures Watching(r, p, ip) && r.states == map[]
    ensures r.seenUnbans == map k | k in w.seenUnbans && w.seenUnbans[k] >= now - UNBAN_MEMORY :: w.seenUnbans[k]
  {
    r := BanManager.Step(w, MinuteTick, now);
    assert Pruned(w.tracking, w.states, now) == map[];
  }

  lemma Bans(w: World, p: Prefix, ip: Addr, now: Time) returns (r: World)
    requires Watching(w, p, ip) && w.states == map[] && !IsProtected(w.rules, ip)
    ensures r == BanManager.Step(w, Seen(Failure(None, ip, "")), now)
    ensures Watching(r, p, ip) && IsBanned(r, ip, now) && r.seenUnbans == w.seenUnbans
  {
    r := BanManager.Step(w, Seen(Failure(None, ip, "")), now);
    assert ObserveState(w.tracking, FRESH, "", now).bannedUntil == Some(now + SECOND);
    HandledShape(w, Failure(None, ip, ""), now);
    HandledFrame(w, Failure(None, ip, ""), now);
    hide Handled, ObserveState, ObserveBan, IsProtected;
  }

  /** The first and the last of four inputs deliver the same unban, and the last one lifts a ban. */
  ghost predicate LiftsAgain(w: World, p: Prefix, ip: Addr, inputs: seq<Input>, times: seq<Time>) {
    && |inputs| == |times| == 4 && Ascending(times, LATER)
    && inputs[0] == inputs[3] == Fetched(Lifting(p, ip), {}) && times[0] == 0
    && IsBanned(BanManager.Play(w, inputs[..3], times[..3]), ip, LATER)
    && !IsBanned(BanManager.Play(w, inputs, times), ip, LATER)
  }

  /** For every routable address, a run in which a list of unbans is delivered, a tick comes more than 24
      hours later, the address is banned, and the same list again lifts that ban. */
  lemma OldUnbanLiftsNewBan(w: World, p: Prefix, ip: Addr)
    requires Initial(w) && IsRoutable(ip) && !Contains(p, ip)
    ensures exists inputs, times :: LiftsAgain(w, p, ip, inputs, times)
  {
    hide BanManager.Step, BanManager.Play;
    assert !IsProtected(Rules([p], {}, false), ip);
    hide IsProtected, IsRoutable;
    var a, b := Fetched(Lifting(p, ip), {}), Seen(Failure(None, ip, ""));
    PlayNone(w);
    Fetches(w, p, ip);
    var w1 := BanManager.Step(w, a, 0);
    var w2 := Ticks(w1, p, ip, LATER);
    assert w2.seenUnbans == map[];
    var w3 := Bans(w2, p, ip, LATER);
    Fetches(w3, p, ip);
    var inputs, times := [a, MinuteTick, b, a], [0, LATER, LATER, LATER];
    PlayFour(w, a, MinuteTick, b, a, 0, LATER);
    assert LiftsAgain(w, p, ip, inputs, times);
  }

  lemma PlayFour(w: World, a: Input, b: Input, c: Input, d: Input, s: Time, t: Time)
    ensures BanManager.Play(w, [a, b, c, d][..3], [s, t, t, t][..3]) == BanManager.Step(BanManager.Step(BanManager.Step(w, a, s), b, t), c, t)
    ensures BanManager.Play(w, [a, b, c, d], [s, t, t, t]) ==
      BanManager.Step(BanManager.Step(BanManager.Step(BanManager.Step(w, a, s), b, t), c, t), d, t)
  {
    hide BanManager.Step;
    assert [a, b, c, d][..3] == [a, b, c] && [s, t, t, t][..3] == [s, t, t];
    assert [a, b, c][..2] == [a, b] && [s, t, t][..2] == [s, t];
    assert [a, b][..1] == [a] && [s, t][..1] == [s];
    assert [a][..0] == [] && [s][..0] == [];
    assert BanManager.Play(w, [a], [s]) == BanManager.Step(w, a, s);
    assert BanManager.Play(w, [a, b], [s, t]) == BanManager.Step(BanManager.Step(w, a, s), b, t);
  }

  // ----- the report log -----

  /** What one step has to report: the ban a failure leads to, or the unbans that found a ban. */
  function Events(w: World, i: Input, now: Time): seq<LogEntry> {
    match i
    case Fetched(c, addrs) => UnbanEvents(BeforeUnbans(w, c, addrs, now), c.unban, now)
    case Seen(f) => FailureEvents(w, f, now)
    case _ => []
  }

  function UnbanEvents(w: World, us: seq<Unbanning>, now: Time): seq<LogEntry> {
    if us == [] then []
    else
      var n := |us| - 1;
      UnbanEvents(w, us[..n], now) + UnbanEvent(UnbansApplied(w, us[..n], now), us[n], now)
  }

  function UnbanEvent(w: World, u: Unbanning, now: Time): seq<LogEntry> {
    if Effective(w, u) && Lookup(w.states, u.ip.value).bannedUntil.Some? then [UnbanLogged(u.ip.value, now)] else []
  }

  predicate Effective(w: World, u: Unbanning) {
    u.ip.Some? && UnbanKey(u.ip.value, u.at) !in w.seenUnbans && Available(w)
  }

  function FailureEvents(w: World, f: Failure, now: Time): seq<LogEntry> {
    var ban := ObserveBan(w.tracking, f.ip, Lookup(w.states, f.ip), f.user, now);
    if Stale(w, f, now) || IsProtected(w.rules, f.ip) || ban.None? then []
    else
      var w' := w.(states := w.states[f.ip := ObserveState(w.tracking, Lookup(w.states, f.ip), f.user, now)]);
      [BanLogged(ban.value, WantsEnforcement(w) && w.enforcement.Enforcing? && |ActiveSet(w', now)| <= MAX_LOCAL)]
  }

  function History(w: World, inputs: seq<Input>, times: seq<Time>): seq<LogEntry>
    requires |inputs| == |times|
  {
    if inputs == [] then []
    else
      var n := |inputs| - 1;
      History(w, inputs[..n], times[..n]) + Events(BanManager.Play(w, inputs[..n], times[..n]), inputs[n], times[n])
  }

  /** The events that were acknowledged while they were waiting. */
  function Acked(w: World, inputs: seq<Input>, times: seq<Time>): set<nat>
    requires |inputs| == |times|
  {
    if inputs == [] then {}
    else
      var n := |inputs| - 1;
      Acked(w, inputs[..n], times[..n])
      + if inputs[n].Acknowledge? then Ids(BanManager.Play(w, inputs[..n], times[..n]).journal.log) * inputs[n].ids else {}
  }

  lemma PushedOne(j: Journal<LogEntry>, e: LogEntry)
    ensures PushedAll(j, []) == j && PushedAll(j, [e]) == Pushed(j, e)
  {
    assert [e][..0] == [];
    assert PushedAll(j, []) == j;
  }

  lemma PushedNext(j: Journal<LogEntry>, es: seq<LogEntry>, more: seq<LogEntry>)
    requires |more| <= 1
    ensures PushedAll(j, es + more) == PushedAll(PushedAll(j, es), more)
  {
    if more == [] {
      assert es + more == es;
    } else {
      assert (es + more)[..|es|] == es && more == [more[0]];
      PushedOne(PushedAll(j, es), more[0]);
    }
  }

  lemma UnbanPushes(w: World, u: Unbanning, now: Time)
    ensures UnbanApplied(w, u, now).journal == PushedAll(w.journal, UnbanEvent(w, u, now))
  {
    if u.ip.Some? { PushedOne(w.journal, UnbanLogged(u.ip.value, now)); } else { PushedOne(w.journal, UnbanLogged(V4(0), now)); }
    hide Lookup, PushedAll, Pushed;
  }

  lemma {:induction false} UnbansPush(w: World, us: seq<Unbanning>, now: Time)
    ensures UnbansApplied(w, us, now).journal == PushedAll(w.journal, UnbanEvents(w, us, now))
  {
    if us != [] {
      var n := |us| - 1;
      UnbansPush(w, us[..n], now);
      UnbanPushes(UnbansApplied(w, us[..n], now), us[n], now);
      hide UnbanApplied, PushedAll, Lookup, Effective;
      PushedNext(w.journal, UnbanEvents(w, us[..n], now), UnbanEvent(UnbansApplied(w, us[..n], now), us[n], now));
    }
  }

  lemma FailurePushes(w: World, f: Failure, now: Time)
    ensures Handled(w, f, now).journal == PushedAll(w.journal, FailureEvents(w, f, now))
  {
    hide ObserveBan, ObserveState, IsProtected, Lookup, ActiveSet, Stale, Pushed, PushedAll;
    var ban := ObserveBan(w.tracking, f.ip, Lookup(w.states, f.ip), f.user, now);
    PushedOne(w.journal, if ban.Some? then BanLogged(ban.value, true) else UnbanLogged(f.ip, now));
    PushedOne(w.journal, if ban.Some? then BanLogged(ban.value, false) else UnbanLogged(f.ip, now));
  }

  lemma StepPushes(w: World, i: Input, now: Time)
    requires !i.Acknowledge?
    ensures BanManager.Step(w, i, now).journal == PushedAll(w.journal, Events(w, i, now))
  {
    match i
    case Fetched(c, addrs) =>
      AppliedMemory(w, c, addrs, now);
      UnbansPush(BeforeUnbans(w, c, addrs, now), c.unban, now);
      hide Applied, UnbansApplied, UnbanEvents, BeforeUnbans;
    case Seen(f) =>
      FailurePushes(w, f, now);
      hide Handled, FailureEvents;
    case MinuteTick =>
      TickedMemory(w, now);
      hide Ticked;
    case Refresh(addrs) =>
      RefreshedFrame(w, addrs, now);
      hide Refreshed;
  }

  /** Over every run, acknowledgements included: the journal's items are events of the history in order, none
      of them acknowledged; of the newest 2000 events, all that were not acknowledged are there; and every
      event is waiting, acknowledged or counted as dropped. */
  lemma {:induction false} EventsAccountedFor(w: World, inputs: seq<Input>, times: seq<Time>)
    requires Initial(w) && |inputs| == |times|
    ensures Accounts(BanManager.Play(w, inputs, times).journal, History(w, inputs, times), Acked(w, inputs, times))
  {
    if inputs == [] {
      NothingReported();
    } else {
      hide BanManager.Step, Events, Accounts, PushedAll, Acknowledged, Ids, Initial;
      var n := |inputs| - 1;
      var r, all, gone := BanManager.Play(w, inputs[..n], times[..n]), History(w, inputs[..n], times[..n]), Acked(w, inputs[..n], times[..n]);
      EventsAccountedFor(w, inputs[..n], times[..n]);
      var es := Events(r, inputs[n], times[n]);
      if inputs[n].Acknowledge? {
        AckAccounts(r.journal, all, gone);
        AckStep(r, inputs[n], times[n]);
        assert all + es == all;
      } else {
        StepPushes(r, inputs[n], times[n]);
        PushAllAccounts(r.journal, all, gone, es);
        assert es[..|es|] == es && gone + {} == gone;
      }
    }
  }

  lemma NothingReported()
    ensures Accounts<LogEntry>(Journal([], 0, 0), [], {})
  {}

  lemma AckStep(w: World, i: Input, now: Time)
    requires i.Acknowledge?
    ensures BanManager.Step(w, i, now) == w.(journal := Acknowledged(w.journal, i.ids)) && Events(w, i, now) == []
  {}
}
