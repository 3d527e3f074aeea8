/** The failure tracker: a sliding-window detector with escalating bans, and the full-history
    specification that it refines. Times and durations are integers (nanoseconds). */
module Tracker {
  import opened Options

  type Time = int
  /** An address in canonical form: an IPv4 address is never written as an IPv6 one. */
  datatype Addr = V4(bits: nat) | V6(bits: nat)

  const SECOND := 1_000_000_000
  const ESCALATION_WINDOW := 7 * 24 * 3600 * SECOND

  datatype Policy = Policy(maxRetry: int, findTime: int, banTime: int, banTimeMax: int)

  function Normalized(p: Policy): (r: Policy)
    ensures ValidPolicy(r)
    ensures ValidPolicy(p) ==> r == p
    ensures r.maxRetry in {p.maxRetry, 1} && (p.maxRetry >= 1 ==> r.maxRetry == p.maxRetry)
    ensures r.findTime in {p.findTime, 600 * SECOND} && (p.findTime > 0 ==> r.findTime == p.findTime)
    ensures r.banTime in {p.banTime, 3600 * SECOND} && (p.banTime > 0 ==> r.banTime == p.banTime)
    ensures r.banTimeMax in {p.banTimeMax, r.banTime} && (p.banTimeMax >= r.banTime ==> r.banTimeMax == p.banTimeMax)
  {
    var maxRetry := if p.maxRetry < 1 then 1 else p.maxRetry;
    var findTime := if p.findTime <= 0 then 600 * SECOND else p.findTime;
    var banTime := if p.banTime <= 0 then 3600 * SECOND else p.banTime;
    Policy(maxRetry, findTime, banTime, if p.banTimeMax < banTime then banTime else p.banTimeMax)
  }

  predicate ValidPolicy(p: Policy) {
    p.maxRetry >= 1 && p.findTime > 0 && p.banTime > 0 && p.banTimeMax >= p.banTime
  }

  /** What the tracker knows of one address; None is Go's zero time. */
  datatype IpState = IpState(failures: seq<Time>, bans: nat, lastBan: Option<Time>, bannedUntil: Option<Time>, lastUser: string)

  datatype Ban = Ban(ip: Addr, until: Time, failures: nat, user: string, count: nat)

  const FRESH: IpState := IpState([], 0, None, None, "")

  type States = map<Addr, IpState>

  predicate After(t: Option<Time>, now: Time) {
    t.Some? && t.value > now
  }

  function Later(t: Option<Time>, until: Time): Option<Time> {
    if t.None? || until > t.value then Some(until) else t
  }

  /** The entries of `s` after `cutoff`, in order. */
  function Recent(s: seq<Time>, cutoff: Time): (r: seq<Time>)
    ensures |r| <= |s|
  {
    if s == [] then []
    else Recent(s[..|s| - 1], cutoff) + (if s[|s| - 1] > cutoff then [s[|s| - 1]] else [])
  }

  function Pow2(k: nat): nat {
    if k == 0 then 1 else 2 * Pow2(k - 1)
  }

  function Min(a: int, b: int): int { if a < b then a else b }

  /** The ban of the (k+1)-th offence of an escalation run: doubled each time, up to the maximum. */
  function BanLength(p: Policy, k: nat): int {
    Min(if k == 0 then p.banTime else 2 * BanLength(p, k - 1), p.banTimeMax)
  }

  function CurrentRun(bans: nat, lastBan: Option<Time>, now: Time): nat {
    if lastBan.Some? && now - lastBan.value > ESCALATION_WINDOW then 0 else bans
  }

  function Lookup(m: States, ip: Addr): IpState {
    if ip in m then m[ip] else FRESH
  }

  // ----- what each call does to the states -----

  function ObserveState(p: Policy, st: IpState, user: string, now: Time): IpState {
    var st := if user != "" then st.(lastUser := user) else st;
    if After(st.bannedUntil, now) then st
    else
      var kept := Recent(st.failures, now - p.findTime) + [now];
      if |kept| < p.maxRetry then st.(failures := kept)
      else
        var k := CurrentRun(st.bans, st.lastBan, now);
        IpState([], k + 1, Some(now), Some(now + BanLength(p, k)), st.lastUser)
  }

  function ObserveBan(p: Policy, ip: Addr, st: IpState, user: string, now: Time): Option<Ban> {
    var kept := Recent(st.failures, now - p.findTime) + [now];
    if After(st.bannedUntil, now) || |kept| < p.maxRetry then None
    else
      var k := CurrentRun(st.bans, st.lastBan, now);
      Some(Ban(ip, now + BanLength(p, k), |kept|, if user != "" then user else st.lastUser, k + 1))
  }

  function ImportState(st: IpState, until: Time): IpState {
    st.(bannedUntil := Later(st.bannedUntil, until))
  }

  datatype Fate = Stay | Forget | Vanish

  function PruneFate(p: Policy, st: IpState, now: Time): Fate {
    if After(st.bannedUntil, now) || |Recent(st.failures, now - p.findTime)| > 0 then Stay
    else if st.bans > 0 && st.lastBan.Some? && now - st.lastBan.value <= ESCALATION_WINDOW then Forget
    else Vanish
  }

  function Pruned(p: Policy, m: States, now: Time): States {
    map ip | ip in m && !PruneFate(p, m[ip], now).Vanish? ::
      if PruneFate(p, m[ip], now).Forget? then m[ip].(failures := []) else m[ip]
  }

  /** Go's zero lastBan occurs only while there were no bans. */
  predicate ValidState(st: IpState) {
    st.bans > 0 ==> st.lastBan.Some?
  }

  predicate ValidStates(m: States) {
    forall ip :: ip in m ==> ValidState(m[ip])
  }

  predicate SortedByUntil(bans: seq<Ban>) {
    forall i, j :: 0 <= i < j < |bans| ==> bans[i].until <= bans[j].until
  }

  class BanTracker {
    var policy: Policy
    var states: States

    predicate Valid() reads this { ValidPolicy(policy) && ValidStates(states) }

    constructor (p: Policy)
      ensures Valid() && policy == Normalized(p) && states == map[]
    {
      policy, states := Normalized(p), map[];
    }

    method SetPolicy(p: Policy)
      requires Valid()
      modifies this
      ensures Valid() && policy == Normalized(p) && states == old(states)
    {
      policy := Normalized(p);
    }

    method Observe(ip: Addr, user: string, now: Time) returns (ban: Option<Ban>)
      requires Valid()
      modifies this
      ensures Valid() && policy == old(policy)
      ensures states == old(states)[ip := ObserveState(policy, Lookup(old(states), ip), user, now)]
      ensures ban == ObserveBan(policy, ip, Lookup(old(states), ip), user, now)
    {
      hide Recent, BanLength;
      var st := if ip in states then states[ip] else FRESH;
      if user != "" { st := st.(lastUser := user); }
      if After(st.bannedUntil, now) {
        states := states[ip := st];
        return None;
      }
      var kept := KeepRecent(st.failures, now - policy.findTime);
      st := st.(failures := kept + [now]);
      if |st.failures| < policy.maxRetry {
        states := states[ip := st];
        return None;
      }
      var failures := |st.failures|;
      st := Punish(policy, st, now);
      states := states[ip := st];
      return Some(Ban(ip, st.bannedUntil.value, failures, st.lastUser, st.bans));
    }

    method Import(ip: Addr, until: Time)
      requires Valid()
      modifies this
      ensures Valid() && policy == old(policy)
      ensures states == old(states)[ip := ImportState(Lookup(old(states), ip), until)]
    {
      var st := if ip in states then states[ip] else FRESH;
      if st.bannedUntil.None? || until > st.bannedUntil.value { st := st.(bannedUntil := Some(until)); }
      states := states[ip := st];
    }

    method Unban(ip: Addr) returns (was: bool)
      requires Valid()
      modifies this
      ensures Valid() && policy == old(policy) && states == old(states) - {ip}
      ensures was <==> Lookup(old(states), ip).bannedUntil.Some?
    {
      if ip !in states {
        assert states - {ip} == states;
        return false;
      }
      was := states[ip].bannedUntil.Some?;
      states := states - {ip};
    }

    /** Exactly the addresses banned at `now`, soonest expiry first. */
    method ActiveBans(now: Time) returns (out: seq<Ban>)
      ensures SortedByUntil(out)
      ensures forall b :: b in out ==> b.ip in states && states[b.ip].bannedUntil == Some(b.until) && b.until > now
                                       && b.user == states[b.ip].lastUser && b.count == states[b.ip].bans
      ensures forall ip :: ip in states && After(states[ip].bannedUntil, now) ==> exists b :: b in out && b.ip == ip
      ensures forall i, j :: 0 <= i < j < |out| ==> out[i].ip != out[j].ip
    {
      out := [];
      var ips := states.Keys;
      while ips != {}
        invariant ips <= states.Keys && SortedByUntil(out)
        invariant forall b :: b in out ==> b.ip in states && b.ip !in ips && states[b.ip].bannedUntil == Some(b.until) && b.until > now
                                           && b.user == states[b.ip].lastUser && b.count == states[b.ip].bans
        invariant forall ip :: ip in states && ip !in ips && After(states[ip].bannedUntil, now) ==> exists b :: b in out && b.ip == ip
        invariant forall i, j :: 0 <= i < j < |out| ==> out[i].ip != out[j].ip
      {
        var ip :| ip in ips;
        ips := ips - {ip};
        var st := states[ip];
        if After(st.bannedUntil, now) {
          ghost var before := out;
          var b := Ban(ip, st.bannedUntil.value, 0, st.lastUser, st.bans);
          out := Insert(out, b);
          assert b in out;
          assert forall c :: c in before ==> c in out;
        }
      }
    }

    method Prune(now: Time) returns (removed: nat)
      requires Valid()
      modifies this
      ensures Valid() && policy == old(policy)
      ensures states == Pruned(policy, old(states), now)
      ensures removed == |old(states)| - |states|
    {
      hide PruneFate;
      ghost var goal := Pruned(policy, states, now);
      removed := 0;
      var ips := states.Keys;
      while ips != {}
        invariant ips <= states.Keys <= old(states).Keys && policy == old(policy)
        invariant forall ip :: ip in ips ==> states[ip] == old(states)[ip]
        invariant forall ip :: ip in old(states) && ip !in ips ==>
          (ip in states <==> ip in goal) && (ip in states ==> states[ip] == goal[ip])
        invariant removed + |states| == |old(states)|
      {
        var ip :| ip in ips;
        ips := ips - {ip};
        var fate := PruneOne(policy, states[ip], now);
        if fate.Forget? {
          states := states[ip := states[ip].(failures := [])];
        } else if fate.Vanish? {
          assert |states.Keys - {ip}| == |states.Keys| - 1;
          states := states - {ip};
          removed := removed + 1;
        }
      }
      assert states.Keys == goal.Keys;
    }
  }

  /** The fate of one address; the scan for a recent failure stops at the first. */
  method PruneOne(policy: Policy, st: IpState, now: Time) returns (fate: Fate)
    requires ValidPolicy(policy) && ValidState(st)
    ensures fate == PruneFate(policy, st, now)
  {
    if After(st.bannedUntil, now) { return Stay; }
    var recent := false;
    var i := 0;
    while i < |st.failures| && !recent
      invariant 0 <= i <= |st.failures|
      invariant recent <==> |Recent(st.failures[..i], now - policy.findTime)| > 0
    {
      assert st.failures[..i + 1][..i] == st.failures[..i];
      if st.failures[i] > now - policy.findTime { recent := true; }
      i := i + 1;
    }
    if recent {
      RecentPrefix(st.failures, now - policy.findTime, i);
      return Stay;
    }
    assert st.failures[..i] == st.failures;
    if st.bans > 0 && now - st.lastBan.value <= ESCALATION_WINDOW { return Forget; }
    return Vanish;
  }

  /** The in-place filter of Observe. */
  method KeepRecent(failures: seq<Time>, cutoff: Time) returns (kept: seq<Time>)
    ensures kept == Recent(failures, cutoff)
  {
    kept := [];
    for i := 0 to |failures|
      invariant kept == Recent(failures[..i], cutoff)
    {
      assert failures[..i + 1][..i] == failures[..i];
      if failures[i] > cutoff { kept := kept + [failures[i]]; }
    }
    assert failures[..|failures|] == failures;
  }

  /** The doubling loop of Observe stops early but computes the capped power of two. */
  method Duration(p: Policy, bans: nat) returns (dur: int)
    requires ValidPolicy(p)
    ensures dur == BanLength(p, bans)
  {
    dur := p.banTime;
    var i := 0;
    while i < bans && dur < p.banTimeMax
      invariant 0 <= i <= bans && dur > 0 && Min(dur, p.banTimeMax) == BanLength(p, i)
      decreases bans - i
    {
      dur := dur * 2;
      i := i + 1;
    }
    if i < bans { AtMaximum(p, i, bans); }
    if dur > p.banTimeMax { dur := p.banTimeMax; }
  }

  method Punish(p: Policy, st: IpState, now: Time) returns (r: IpState)
    requires ValidPolicy(p)
    ensures var k := CurrentRun(st.bans, st.lastBan, now);
      r == IpState([], k + 1, Some(now), Some(now + BanLength(p, k)), st.lastUser)
  {
    var bans := st.bans;
    if st.lastBan.Some? && now - st.lastBan.value > ESCALATION_WINDOW { bans := 0; }
    var dur := Duration(p, bans);
    r := IpState([], bans + 1, Some(now), Some(now + dur), st.lastUser);
  }

  method Insert(bans: seq<Ban>, b: Ban) returns (out: seq<Ban>)
    requires SortedByUntil(bans)
    ensures SortedByUntil(out) && (forall c :: c in out <==> c in bans || c == b)
    ensures (forall i, j :: 0 <= i < j < |bans| ==> bans[i].ip != bans[j].ip) && (forall c :: c in bans ==> c.ip != b.ip) ==>
      forall i, j :: 0 <= i < j < |out| ==> out[i].ip != out[j].ip
  {
    var k := 0;
    while k < |bans| && bans[k].until <= b.until
      invariant 0 <= k <= |bans| && forall i :: 0 <= i < k ==> bans[i].until <= b.until
    {
      k := k + 1;
    }
    out := bans[..k] + [b] + bans[k..];
    Inserted(bans, b, k);
  }

  lemma Inserted(bans: seq<Ban>, b: Ban, k: nat)
    requires k <= |bans|
    ensures forall c :: c in bans[..k] + [b] + bans[k..] <==> c in bans || c == b
    ensures var out := bans[..k] + [b] + bans[k..];
      (forall i, j :: 0 <= i < j < |bans| ==> bans[i].ip != bans[j].ip) && (forall c :: c in bans ==> c.ip != b.ip) ==>
      forall i, j :: 0 <= i < j < |out| ==> out[i].ip != out[j].ip
  {
    InsertedMembers(bans, b, k);
    var out := bans[..k] + [b] + bans[k..];
    forall i | 0 <= i < |out|
      ensures out[i] == if i < k then bans[i] else if i == k then b else bans[i - 1]
    {}
  }

  lemma InsertedMembers(bans: seq<Ban>, b: Ban, k: nat)
    requires k <= |bans|
    ensures forall c :: c in bans[..k] + [b] + bans[k..] <==> c in bans || c == b
  {
    var before, after := bans[..k], bans[k..];
    assert bans == before + after;
  }

  lemma {:induction false} AtMaximum(p: Policy, i: nat, j: nat)
    requires ValidPolicy(p) && i <= j && BanLength(p, i) == p.banTimeMax
    ensures BanLength(p, j) == p.banTimeMax
  {
    if i < j { AtMaximum(p, i, j - 1); }
  }

  /** In closed form: the base ban time times a power of two, capped. */
  lemma {:induction false} BanLengthIsCappedPower(p: Policy, k: nat)
    requires ValidPolicy(p)
    ensures BanLength(p, k) == Min(p.banTime * Pow2(k), p.banTimeMax)
  {
    if k > 0 {
      BanLengthIsCappedPower(p, k - 1);
      assert p.banTime * Pow2(k) == 2 * (p.banTime * Pow2(k - 1));
    }
  }

  lemma {:induction false} RecentPrefix(s: seq<Time>, cutoff: Time, i: nat)
    requires i <= |s|
    ensures |Recent(s[..i], cutoff)| <= |Recent(s, cutoff)|
  {
    if i < |s| {
      RecentPrefix(s[..|s| - 1], cutoff, i);
      assert s[..|s| - 1][..i] == s[..i];
    } else {
      assert s[..i] == s;
    }
  }

  // ----- the full-history specification -----

  datatype Event =
    | Failed(ip: Addr, user: string, at: Time)
    | Imported(ip: Addr, until: Time)
    | Unbanned(ip: Addr)
    | Prune(at: Time)

  /** What the specification remembers of one address: every failure recorded while it was not
      banned since its last ban or unban, however old, and the bans of its escalation run. */
  datatype Ledger = Ledger(recorded: seq<Time>, bans: nat, lastBan: Option<Time>, until: Option<Time>)

  const BLANK: Ledger := Ledger([], 0, None, None)

  datatype Verdict = Pass | Banned(until: Time, failures: nat, count: nat)

  function Judge(p: Policy, l: Ledger, at: Time): Verdict {
    var n := |Recent(l.recorded + [at], at - p.findTime)|;
    if After(l.until, at) || n < p.maxRetry then Pass
    else
      var k := CurrentRun(l.bans, l.lastBan, at);
      Banned(at + BanLength(p, k), n, k + 1)
  }

  /** Pruning is invisible here. */
  function Note(p: Policy, l: Ledger, ip: Addr, e: Event): Ledger {
    match e
    case Failed(x, _, at) =>
      if x != ip || After(l.until, at) then l
      else (match Judge(p, l, at)
            case Pass => l.(recorded := l.recorded + [at])
            case Banned(until, _, count) => Ledger([], count, Some(at), Some(until)))
    case Imported(x, until) => if x != ip then l else l.(until := Later(l.until, until))
    case Unbanned(x) => if x != ip then l else BLANK
    case Prune(_) => l
  }

  function History(p: Policy, es: seq<Event>, ip: Addr): Ledger {
    if es == [] then BLANK else Note(p, History(p, es[..|es| - 1], ip), ip, es[|es| - 1])
  }

  // ----- the tracker over the same events -----

  function Step(p: Policy, m: States, e: Event): States {
    match e
    case Failed(ip, user, at) => m[ip := ObserveState(p, Lookup(m, ip), user, at)]
    case Imported(ip, until) => m[ip := ImportState(Lookup(m, ip), until)]
    case Unbanned(ip) => m - {ip}
    case Prune(at) => Pruned(p, m, at)
  }

  function Play(p: Policy, es: seq<Event>): States {
    if es == [] then map[] else Step(p, Play(p, es[..|es| - 1]), es[|es| - 1])
  }

  /** What Observe answers after the events `es`. */
  function Answer(p: Policy, es: seq<Event>, ip: Addr, user: string, at: Time): Verdict {
    match ObserveBan(p, ip, Lookup(Play(p, es), ip), user, at)
    case None => Pass
    case Some(b) => Banned(b.until, b.failures, b.count)
  }

  /** The clock never goes back over `es`, and ends at or before `now`. */
  ghost predicate Monotone(es: seq<Event>, now: Time) {
    && (forall i :: 0 <= i < |es| && (es[i].Failed? || es[i].Prune?) ==> es[i].at <= now)
    && forall i, j :: 0 <= i < j < |es| && (es[i].Failed? || es[i].Prune?) && (es[j].Failed? || es[j].Prune?) ==> es[i].at <= es[j].at
  }

  // ----- refinement -----

  /** From `now` on, the tracker's record and the ledger cannot be told apart. */
  ghost predicate Agrees(p: Policy, st: IpState, l: Ledger, now: Time) {
    && ValidState(st)
    && (st.bannedUntil == l.until || (!After(st.bannedUntil, now) && !After(l.until, now)))
    && Recent(st.failures, now - p.findTime) == Recent(l.recorded, now - p.findTime)
    && ((st.bans == l.bans && st.lastBan == l.lastBan)
        || (st.bans == 0 && st.lastBan.None? && (l.bans == 0 || (l.lastBan.Some? && now - l.lastBan.value > ESCALATION_WINDOW))))
  }

  lemma {:induction false} RecentTwice(s: seq<Time>, a: Time, b: Time)
    requires a <= b
    ensures Recent(Recent(s, a), b) == Recent(s, b)
  {
    if s != [] {
      var n := |s| - 1;
      RecentTwice(s[..n], a, b);
      if s[n] > a {
        assert (Recent(s[..n], a) + [s[n]])[..|Recent(s[..n], a)|] == Recent(s[..n], a);
      } else {
        assert Recent(s, a) == Recent(s[..n], a);
      }
    }
  }

  lemma RecentAppend(s: seq<Time>, t: Time, cutoff: Time)
    ensures Recent(s + [t], cutoff) == Recent(s, cutoff) + (if t > cutoff then [t] else [])
  {
    assert (s + [t])[..|s|] == s;
  }

  lemma AgreesLater(p: Policy, st: IpState, l: Ledger, now: Time, later: Time)
    requires Agrees(p, st, l, now) && now <= later
    ensures Agrees(p, st, l, later)
  {
    hide Recent;
    RecentTwice(st.failures, now - p.findTime, later - p.findTime);
    RecentTwice(l.recorded, now - p.findTime, later - p.findTime);
  }

  lemma AnswersAgree(p: Policy, ip: Addr, st: IpState, l: Ledger, user: string, at: Time)
    requires ValidPolicy(p) && Agrees(p, st, l, at)
    ensures match ObserveBan(p, ip, st, user, at)
      case None => Judge(p, l, at) == Pass
      case Some(b) => Judge(p, l, at) == Banned(b.until, b.failures, b.count)
  {
    hide Recent;
    RecentAppend(l.recorded, at, at - p.findTime);
  }

  lemma WindowAgrees(failures: seq<Time>, recorded: seq<Time>, at: Time, cutoff: Time)
    requires Recent(failures, cutoff) == Recent(recorded, cutoff) && at > cutoff
    ensures var kept := Recent(failures, cutoff) + [at];
      Recent(kept, cutoff) == Recent(recorded + [at], cutoff) == kept
  {
    RecentAppend(recorded, at, cutoff);
    RecentAppend(Recent(failures, cutoff), at, cutoff);
    RecentTwice(failures, cutoff, cutoff);
  }

  lemma PassAgrees(p: Policy, st: IpState, l: Ledger, at: Time, user: string)
    requires ValidPolicy(p) && Agrees(p, st, l, at) && !After(st.bannedUntil, at)
    ensures var kept := Recent(st.failures, at - p.findTime) + [at];
      Agrees(p, st.(failures := kept, lastUser := user), l.(recorded := l.recorded + [at]), at)
  {
    hide Recent;
    WindowAgrees(st.failures, l.recorded, at, at - p.findTime);
  }

  predicate Reaches(p: Policy, st: IpState, at: Time) {
    |Recent(st.failures, at - p.findTime)| + 1 >= p.maxRetry
  }

  lemma BannedAgrees(p: Policy, ip: Addr, st: IpState, l: Ledger, user: string, at: Time)
    requires ValidPolicy(p) && Agrees(p, st, l, at) && After(st.bannedUntil, at)
    ensures Agrees(p, ObserveState(p, st, user, at), Note(p, l, ip, Failed(ip, user, at)), at)
  {
    hide Recent;
    var st' := ObserveState(p, st, user, at);
    assert st'.failures == st.failures && st'.bannedUntil == st.bannedUntil && st'.bans == st.bans && st'.lastBan == st.lastBan;
    assert Note(p, l, ip, Failed(ip, user, at)) == l;
  }

  lemma ToleratedAgrees(p: Policy, ip: Addr, st: IpState, l: Ledger, user: string, at: Time)
    requires ValidPolicy(p) && Agrees(p, st, l, at) && !After(st.bannedUntil, at) && !Reaches(p, st, at)
    ensures Agrees(p, ObserveState(p, st, user, at), Note(p, l, ip, Failed(ip, user, at)), at)
  {
    hide Recent;
    AnswersAgree(p, ip, st, l, user, at);
    PassAgrees(p, st, l, at, if user != "" then user else st.lastUser);
  }

  lemma PunishedAgrees(p: Policy, ip: Addr, st: IpState, l: Ledger, user: string, at: Time)
    requires ValidPolicy(p) && Agrees(p, st, l, at) && !After(st.bannedUntil, at) && Reaches(p, st, at)
    ensures Agrees(p, ObserveState(p, st, user, at), Note(p, l, ip, Failed(ip, user, at)), at)
  {
    hide Recent;
    AnswersAgree(p, ip, st, l, user, at);
    var k := CurrentRun(st.bans, st.lastBan, at);
    BanAgrees(p, k, at, at + BanLength(p, k), if user != "" then user else st.lastUser);
  }

  lemma FailureAgrees(p: Policy, ip: Addr, st: IpState, l: Ledger, user: string, at: Time)
    requires ValidPolicy(p) && Agrees(p, st, l, at)
    ensures Agrees(p, ObserveState(p, st, user, at), Note(p, l, ip, Failed(ip, user, at)), at)
  {
    if After(st.bannedUntil, at) {
      BannedAgrees(p, ip, st, l, user, at);
    } else if Reaches(p, st, at) {
      PunishedAgrees(p, ip, st, l, user, at);
    } else {
      ToleratedAgrees(p, ip, st, l, user, at);
    }
  }

  lemma BanAgrees(p: Policy, k: nat, at: Time, until: Time, who: string)
    ensures Agrees(p, IpState([], k + 1, Some(at), Some(until), who), Ledger([], k + 1, Some(at), Some(until)), at)
  {}

  lemma PruneAgrees(p: Policy, m: States, ip: Addr, l: Ledger, at: Time)
    requires ValidPolicy(p) && Agrees(p, Lookup(m, ip), l, at)
    ensures Agrees(p, Lookup(Pruned(p, m, at), ip), l, at)
  {}

  lemma StepAgrees(p: Policy, m: States, ip: Addr, l: Ledger, e: Event, now: Time)
    requires ValidPolicy(p) && Agrees(p, Lookup(m, ip), l, now)
    requires e.Failed? || e.Prune? ==> e.at == now
    ensures Agrees(p, Lookup(Step(p, m, e), ip), Note(p, l, ip, e), now)
  {
    hide Recent;
    match e
    case Failed(x, user, at) => if x == ip { FailureAgrees(p, ip, Lookup(m, ip), l, user, at); }
    case Prune(at) => PruneAgrees(p, m, ip, l, at);
    case _ =>
  }

  lemma {:induction false} PlayAgrees(p: Policy, es: seq<Event>, now: Time)
    requires ValidPolicy(p) && Monotone(es, now)
    ensures forall ip :: Agrees(p, Lookup(Play(p, es), ip), History(p, es, ip), now)
  {
    if es != [] {
      var rest, e := es[..|es| - 1], es[|es| - 1];
      var then_ := if e.Failed? || e.Prune? then e.at else now;
      assert Monotone(rest, then_);
      PlayAgrees(p, rest, then_);
      forall ip ensures Agrees(p, Lookup(Play(p, es), ip), History(p, es, ip), now) {
        StepAgrees(p, Play(p, rest), ip, History(p, rest, ip), e, then_);
        AgreesLater(p, Lookup(Play(p, es), ip), History(p, es, ip), then_, now);
      }
    }
  }

  /** The tracker refines the full-history specification: after every history with a clock that
      does not go back, it bans exactly when the specification does, with the same expiry, failure
      count and repeat count. */
  lemma TrackerRefinesHistory(p: Policy, es: seq<Event>, ip: Addr, user: string, at: Time)
    requires ValidPolicy(p) && Monotone(es, at)
    ensures Answer(p, es, ip, user, at) == Judge(p, History(p, es, ip), at)
  {
    PlayAgrees(p, es, at);
    AnswersAgree(p, ip, Lookup(Play(p, es), ip), History(p, es, ip), user, at);
  }

  function WithoutPrunes(es: seq<Event>): seq<Event> {
    if es == [] then []
    else WithoutPrunes(es[..|es| - 1]) + (if es[|es| - 1].Prune? then [] else [es[|es| - 1]])
  }

  lemma {:induction false} PrunesLeaveHistory(p: Policy, es: seq<Event>, ip: Addr)
    ensures History(p, WithoutPrunes(es), ip) == History(p, es, ip)
  {
    if es != [] {
      var rest, e := es[..|es| - 1], es[|es| - 1];
      PrunesLeaveHistory(p, rest, ip);
      if e.Prune? {
        assert WithoutPrunes(es) == WithoutPrunes(rest);
      } else {
        assert WithoutPrunes(es)[..|WithoutPrunes(rest)|] == WithoutPrunes(rest);
      }
    }
  }

  lemma {:induction false} WithoutPrunesMonotone(es: seq<Event>, now: Time)
    requires Monotone(es, now)
    ensures Monotone(WithoutPrunes(es), now) && (forall e :: e in WithoutPrunes(es) ==> e in es)
  {
    if es != [] {
      var rest, e := es[..|es| - 1], es[|es| - 1];
      var then_ := if e.Failed? || e.Prune? then e.at else now;
      assert Monotone(rest, then_);
      WithoutPrunesMonotone(rest, then_);
      var w := WithoutPrunes(rest);
      assert forall x :: x in rest ==> x in es;
      assert forall i :: 0 <= i < |w| ==> w[i] in w && w[i] in es;
    }
  }

  /** Prune calls inserted anywhere change no ban decision, expiry, failure count or repeat count. */
  lemma PruningIsInvisible(p: Policy, es: seq<Event>, ip: Addr, user: string, at: Time)
    requires ValidPolicy(p) && Monotone(es, at)
    ensures Answer(p, es, ip, user, at) == Answer(p, WithoutPrunes(es), ip, user, at)
  {
    TrackerRefinesHistory(p, es, ip, user, at);
    WithoutPrunesMonotone(es, at);
    TrackerRefinesHistory(p, WithoutPrunes(es), ip, user, at);
    PrunesLeaveHistory(p, es, ip);
  }

  /** Whoever is banned stays banned until exactly the announced expiry, pruning or not, unless an
      unban intervenes. */
  lemma BannedUntilExpiry(p: Policy, es: seq<Event>, ip: Addr, now: Time)
    requires ValidPolicy(p) && Monotone(es, now)
    ensures After(Lookup(Play(p, es), ip).bannedUntil, now) <==> After(History(p, es, ip).until, now)
    ensures After(History(p, es, ip).until, now) ==> Lookup(Play(p, es), ip).bannedUntil == History(p, es, ip).until
  {
    PlayAgrees(p, es, now);
  }
}
