/** What the tracker answers to a failure, in terms of the events before it and its own earlier answers only. */
module TrackerHistory {
  import opened Options
  import opened Tracker

  const SEVEN_DAYS: int := 604_800 * 1_000_000_000

  /** The address was not unbanned after event j. */
  ghost predicate Stands(es: seq<Event>, ip: Addr, j: nat) {
    forall m :: j < m < |es| ==> es[m] != Unbanned(ip)
  }

  /** What the tracker answered to the failure at j. */
  ghost function Said(p: Policy, es: seq<Event>, j: nat): Verdict
    requires j < |es| && es[j].Failed?
  {
    Answer(p, es[..j], es[j].ip, es[j].user, es[j].at)
  }

  ghost predicate Bans(p: Policy, es: seq<Event>, ip: Addr, j: nat)
    requires j < |es|
  {
    es[j].Failed? && es[j].ip == ip && Said(p, es, j).Banned?
  }

  /** Event j, an announced or an imported ban, still bans the address at `at`. */
  ghost predicate Bars(p: Policy, es: seq<Event>, ip: Addr, j: nat, at: Time)
    requires j < |es|
  {
    && Stands(es, ip, j)
    && ((es[j].Imported? && es[j].ip == ip && es[j].until > at) || (Bans(p, es, ip, j) && Said(p, es, j).until > at))
  }

  ghost predicate Barred(p: Policy, es: seq<Event>, ip: Addr, at: Time) {
    exists j :: 0 <= j < |es| && Bars(p, es, ip, j, at)
  }

  /** Event j counts against the address at `at`: a failure inside the window, met while the address was not
      banned, and neither banned for nor unbanned since. */
  ghost predicate Counts(p: Policy, es: seq<Event>, ip: Addr, j: nat, at: Time)
    requires j < |es|
  {
    && es[j].Failed? && es[j].ip == ip && at - es[j].at < p.findTime
    && !Barred(p, es[..j], ip, es[j].at) && Stands(es, ip, j)
    && forall m :: j <= m < |es| ==> !Bans(p, es, ip, m)
  }

  ghost function Counted(p: Policy, es: seq<Event>, ip: Addr, at: Time): set<nat> {
    set j: nat | j < |es| && Counts(p, es, ip, j, at)
  }

  /** When the address was banned since its last unban. */
  ghost function BanTimes(p: Policy, es: seq<Event>, ip: Addr): seq<Time> {
    if es == [] then []
    else
      var n := |es| - 1;
      var before := BanTimes(p, es[..n], ip);
      if es[n] == Unbanned(ip) then [] else if Bans(p, es, ip, n) then before + [es[n].at] else before
  }

  /** The last k of these times, and `at` after them, follow each other within seven days; the one before
      does not. */
  ghost predicate IsChain(times: seq<Time>, at: Time, k: nat) {
    var all, n := times + [at], |times|;
    && k <= n
    && (forall i :: n - k <= i < n ==> all[i + 1] - all[i] <= SEVEN_DAYS)
    && (k < n ==> all[n - k] - all[n - k - 1] > SEVEN_DAYS)
  }

  // ----- one more event -----

  lemma SaidNext(p: Policy, es: seq<Event>, e: Event, ip: Addr, j: nat)
    requires j < |es|
    ensures es[j].Failed? ==> Said(p, es + [e], j) == Said(p, es, j)
    ensures Bans(p, es + [e], ip, j) <==> Bans(p, es, ip, j)
    ensures Stands(es + [e], ip, j) <==> Stands(es, ip, j) && e != Unbanned(ip)
  {
    var es' := es + [e];
    assert es'[..j] == es[..j] && es'[|es|] == e;
    assert forall m :: j < m < |es| ==> es'[m] == es[m];
  }

  lemma BarredNext(p: Policy, es: seq<Event>, e: Event, ip: Addr, at: Time)
    ensures Barred(p, es + [e], ip, at) <==> (Barred(p, es, ip, at) && e != Unbanned(ip)) || Bars(p, es + [e], ip, |es|, at)
  {
    var es' := es + [e];
    hide Said, Stands;
    forall j: nat | j < |es| ensures Bars(p, es', ip, j, at) <==> Bars(p, es, ip, j, at) && e != Unbanned(ip) {
      SaidNext(p, es, e, ip, j);
      assert es'[j] == es[j];
    }
    if Barred(p, es, ip, at) && e != Unbanned(ip) {
      var j :| 0 <= j < |es| && Bars(p, es, ip, j, at);
      assert Bars(p, es', ip, j, at);
    }
  }

  lemma CountsNext(p: Policy, es: seq<Event>, e: Event, ip: Addr, j: nat, at: Time)
    requires j < |es|
    ensures Counts(p, es + [e], ip, j, at) <==> Counts(p, es, ip, j, at) && e != Unbanned(ip) && !Bans(p, es + [e], ip, |es|)
  {
    var es' := es + [e];
    hide Said, Stands, Barred, Bans;
    SaidNext(p, es, e, ip, j);
    assert es'[j] == es[j] && es'[..j] == es[..j];
    forall m: nat | m < |es| ensures Bans(p, es', ip, m) == Bans(p, es, ip, m) { SaidNext(p, es, e, ip, m); }
  }

  lemma CountedNext(p: Policy, es: seq<Event>, e: Event, ip: Addr, at: Time)
    ensures Counted(p, es + [e], ip, at) ==
      (if e == Unbanned(ip) || Bans(p, es + [e], ip, |es|) then {} else Counted(p, es, ip, at))
      + (if Counts(p, es + [e], ip, |es|, at) then {|es|} else {})
  {
    hide Counts, Bans;
    forall j: nat | j < |es|
      ensures Counts(p, es + [e], ip, j, at) <==> Counts(p, es, ip, j, at) && e != Unbanned(ip) && !Bans(p, es + [e], ip, |es|)
    {
      CountsNext(p, es, e, ip, j, at);
    }
  }

  lemma LastCounts(p: Policy, es: seq<Event>, e: Event, ip: Addr, at: Time)
    ensures Counts(p, es + [e], ip, |es|, at) <==>
      e.Failed? && e.ip == ip && at - e.at < p.findTime && !Barred(p, es, ip, e.at) && !Bans(p, es + [e], ip, |es|)
  {
    assert (es + [e])[..|es|] == es;
    hide Barred, Bans;
  }

  lemma BanTimesNext(p: Policy, es: seq<Event>, e: Event, ip: Addr)
    ensures BanTimes(p, es + [e], ip) ==
      if e == Unbanned(ip) then []
      else if Bans(p, es + [e], ip, |es|) then BanTimes(p, es, ip) + [e.at]
      else BanTimes(p, es, ip)
  {
    assert (es + [e])[..|es|] == es;
  }

  lemma LastSaid(p: Policy, es: seq<Event>, e: Event)
    requires ValidPolicy(p) && e.Failed? && Monotone(es, e.at)
    ensures Said(p, es + [e], |es|) == Judge(p, History(p, es, e.ip), e.at)
  {
    assert (es + [e])[..|es|] == es;
    TrackerRefinesHistory(p, es, e.ip, e.user, e.at);
  }

  // ----- the ledger in these terms -----

  /** The ledger says from `now` on what the events say. */
  ghost predicate Reads(p: Policy, es: seq<Event>, ip: Addr, l: Ledger, now: Time) {
    && (After(l.until, now) <==> Barred(p, es, ip, now))
    && |Recent(l.recorded, now - p.findTime)| == |Counted(p, es, ip, now)|
  }

  /** The ledger counts the current run of bans. */
  ghost predicate Chained(l: Ledger, times: seq<Time>) {
    if times == [] then l.bans == 0 && l.lastBan.None?
    else var n := |times| - 1; l.lastBan == Some(times[n]) && l.bans > 0 && IsChain(times[..n], times[n], l.bans - 1)
  }

  lemma CurrentRunIsChain(l: Ledger, times: seq<Time>, at: Time)
    requires Chained(l, times)
    ensures IsChain(times, at, CurrentRun(l.bans, l.lastBan, at))
  {
    if times != [] {
      var n := |times| - 1;
      var k := CurrentRun(l.bans, l.lastBan, at);
      var all, before := times + [at], times[..n] + [times[n]];
      assert before == times;
      assert forall i :: 0 <= i <= n ==> all[i] == before[i];
      assert all[n + 1] == at;
    }
  }

  lemma FailureReads(p: Policy, es: seq<Event>, e: Event, l: Ledger, now: Time)
    requires ValidPolicy(p) && e.Failed? && e.at <= now && Monotone(es, e.at) && l == History(p, es, e.ip)
    requires Reads(p, es, e.ip, l, now) && Reads(p, es, e.ip, l, e.at)
    ensures Reads(p, es + [e], e.ip, Note(p, l, e.ip, e), now)
  {
    var ip := e.ip;
    LastSaid(p, es, e);
    BarredNext(p, es, e, ip, now);
    CountedNext(p, es, e, ip, now);
    LastCounts(p, es, e, ip, now);
    RecentAppend(l.recorded, e.at, now - p.findTime);
    assert |es| !in Counted(p, es, ip, now);
    hide Recent, Barred, Counts, Judge, History, Answer, BanLength, CurrentRun;
  }

  lemma OtherReads(p: Policy, es: seq<Event>, e: Event, ip: Addr, l: Ledger, now: Time)
    requires Reads(p, es, ip, l, now) && (e.Failed? ==> e.ip != ip)
    ensures Reads(p, es + [e], ip, Note(p, l, ip, e), now)
  {
    BarredNext(p, es, e, ip, now);
    CountedNext(p, es, e, ip, now);
    LastCounts(p, es, e, ip, now);
    assert Recent([], now - p.findTime) == [];
    hide Recent, Barred, Counts;
  }

  lemma {:induction false} LedgerReads(p: Policy, es: seq<Event>, ip: Addr, now: Time)
    requires ValidPolicy(p) && Monotone(es, now)
    ensures Reads(p, es, ip, History(p, es, ip), now) && Chained(History(p, es, ip), BanTimes(p, es, ip))
  {
    if es != [] {
      hide Reads;
      var n := |es| - 1;
      var init, e := es[..n], es[n];
      assert init + [e] == es;
      assert Monotone(init, now);
      LedgerReads(p, init, ip, now);
      BanTimesNext(p, init, e, ip);
      if e.Failed? && e.ip == ip {
        LedgerReads(p, init, ip, e.at);
        FailureReads(p, init, e, History(p, init, ip), now);
        LastSaid(p, init, e);
        ChainGrows(p, init, e);
      } else {
        OtherReads(p, init, e, ip, History(p, init, ip), now);
      }
    }
  }

  lemma ChainGrows(p: Policy, es: seq<Event>, e: Event)
    requires ValidPolicy(p) && e.Failed? && Monotone(es, e.at) && Chained(History(p, es, e.ip), BanTimes(p, es, e.ip))
    ensures Chained(Note(p, History(p, es, e.ip), e.ip, e), BanTimes(p, es + [e], e.ip))
  {
    var l, times := History(p, es, e.ip), BanTimes(p, es, e.ip);
    LastSaid(p, es, e);
    BanTimesNext(p, es, e, e.ip);
    CurrentRunIsChain(l, times, e.at);
    assert (times + [e.at])[..|times|] == times;
    hide Recent, History, BanTimes, IsChain, Said;
  }

  /** The answer to every failure, after every history with a clock that does not go back. The address is
      banned exactly if no earlier ban still holds and the failures that count, this one included, reach
      MaxRetry; the length doubles once for each ban of the longest unbroken chain of bans up to now. */
  lemma BansExactly(p: Policy, es: seq<Event>, ip: Addr, user: string, at: Time)
    requires ValidPolicy(p) && Monotone(es, at)
    ensures var n, said := |Counted(p, es, ip, at)| + 1, Answer(p, es, ip, user, at);
      if Barred(p, es, ip, at) || n < p.maxRetry then said == Pass
      else exists k: nat :: IsChain(BanTimes(p, es, ip), at, k) && said == Banned(at + Min(p.banTime * Pow2(k), p.banTimeMax), n, k + 1)
  {
    var l := History(p, es, ip);
    var k := CurrentRun(l.bans, l.lastBan, at);
    LedgerReads(p, es, ip, at);
    TrackerRefinesHistory(p, es, ip, user, at);
    RecentAppend(l.recorded, at, at - p.findTime);
    CurrentRunIsChain(l, BanTimes(p, es, ip), at);
    BanLengthIsCappedPower(p, k);
    hide Recent, Counted, Barred, BanTimes, IsChain, Answer, History, CurrentRun;
  }

  /** The link that is `d` from the last. */
  predicate Link(all: seq<Time>, d: nat) {
    d + 2 <= |all| && all[|all| - 1 - d] - all[|all| - 2 - d] <= SEVEN_DAYS
  }

  lemma ChainLinks(times: seq<Time>, at: Time, k: nat)
    requires IsChain(times, at, k)
    ensures k <= |times| && (forall d: nat :: d < k ==> Link(times + [at], d)) && (k < |times| ==> !Link(times + [at], k))
  {
    var n := |times|;
    forall d: nat | d < k ensures Link(times + [at], d) { assert n - k <= n - d - 1 < n; }
  }

  /** There is only one such chain. */
  lemma ChainIsUnique(times: seq<Time>, at: Time, k: nat, k': nat)
    requires IsChain(times, at, k) && IsChain(times, at, k')
    ensures k == k'
  {
    hide IsChain, Link;
    ChainLinks(times, at, k);
    ChainLinks(times, at, k');
  }

  // ----- pruning -----

  /** A record outlasts a prune exactly if it can still matter: the address is banned, a failure counts
      against it, or it was banned within the last seven days. */
  lemma PruneKeepsExactly(p: Policy, es: seq<Event>, ip: Addr, now: Time)
    requires ValidPolicy(p) && Monotone(es, now)
    ensures var times := BanTimes(p, es, ip);
      ip in Play(p, es + [Prune(now)]) <==>
        Barred(p, es, ip, now) || Counted(p, es, ip, now) != {} || (times != [] && now - times[|times| - 1] <= SEVEN_DAYS)
  {
    assert (es + [Prune(now)])[..|es|] == es;
    LedgerReads(p, es, ip, now);
    PlayAgrees(p, es, now);
    assert Agrees(p, Lookup(Play(p, es), ip), History(p, es, ip), now);
    assert |Counted(p, es, ip, now)| == 0 <==> Counted(p, es, ip, now) == {};
    hide Counted, Barred, BanTimes, History, IsChain;
  }

  // ----- the name in a ban -----

  /** The user that the latest failure with a user name names, since the last unban. */
  function NewestName(es: seq<Event>, ip: Addr): string {
    if es == [] then ""
    else
      var e, init := es[|es| - 1], es[..|es| - 1];
      if e == Unbanned(ip) then ""
      else if e.Failed? && e.ip == ip && e.user != "" then e.user
      else NewestName(init, ip)
  }

  lemma {:induction false} NameSurvives(p: Policy, es: seq<Event>, ip: Addr, at: Time, j: nat)
    requires ValidPolicy(p) && Monotone(es, at) && j < |es| && Counts(p, es, ip, j, at) && es[j].user != ""
    ensures Lookup(Play(p, es), ip).lastUser == NewestName(es, ip)
  {
    var n := |es| - 1;
    var init, e := es[..n], es[n];
    assert init + [e] == es;
    if j < n {
      CountsNext(p, init, e, ip, j, at);
      assert Monotone(init, at);
      NameSurvives(p, init, ip, at, j);
      if e.Prune? { CountedStays(p, init, ip, at, j, e.at); }
    }
    hide Recent, Counts, Said, Counted, Barred, BanLength, CurrentRun, PruneFate;
  }

  lemma CountedStays(p: Policy, es: seq<Event>, ip: Addr, at: Time, j: nat, now: Time)
    requires ValidPolicy(p) && Monotone(es, now) && now <= at && j < |es| && Counts(p, es, ip, j, at)
    ensures var m := Play(p, es); ip in m && ip in Pruned(p, m, now) && Pruned(p, m, now)[ip].lastUser == m[ip].lastUser
  {
    assert (es + [Prune(now)])[..|es|] == es;
    assert Counts(p, es, ip, j, now);
    assert j in Counted(p, es, ip, now);
    PruneKeepsExactly(p, es, ip, now);
    hide Counts, Counted, Barred, BanTimes, PruneFate;
  }

  /** A ban names its address and the user that the latest failure names, if this failure or one that counts
      names a user; pruning in between does not lose it. */
  lemma BanNamesUser(p: Policy, es: seq<Event>, ip: Addr, user: string, at: Time, j: nat)
    requires ValidPolicy(p) && Monotone(es, at)
    requires user != "" || (j < |es| && Counts(p, es, ip, j, at) && es[j].user != "")
    ensures match ObserveBan(p, ip, Lookup(Play(p, es), ip), user, at)
      case None => true
      case Some(b) => b.ip == ip && b.user == NewestName(es + [Failed(ip, user, at)], ip)
  {
    assert (es + [Failed(ip, user, at)])[..|es|] == es;
    if user == "" { NameSurvives(p, es, ip, at, j); }
    hide Recent, Counts, BanLength, CurrentRun;
  }
}
