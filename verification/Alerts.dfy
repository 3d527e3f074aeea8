/** The alert evaluator: a state row, a history and a list of notices for every (rule, host, label key). */
module Alerts {
  // Times are integers in nanoseconds.

  import opened Options

  type Time = int

  const SECOND: int := 1_000_000_000

  datatype Rule = Rule(id: int, comparator: string, threshold: real, forS: int, cooldownS: int, enabled: bool)

  function Compare(r: Rule, value: real): bool {
    match r.comparator
    case ">" => value > r.threshold
    case "<" => value < r.threshold
    case ">=" => value >= r.threshold
    case "<=" => value <= r.threshold
    case "==" => value == r.threshold
    case "!=" => value != r.threshold
    case _ => false
  }

  /** On which side of zero a number lies. */
  function Side(x: real): int {
    if x > 0.0 then 1 else if x < 0.0 then -1 else 0
  }

  /** The sides of the threshold that a comparator accepts. */
  function Accepted(comparator: string): set<int> {
    match comparator
    case ">" => {1}
    case "<" => {-1}
    case ">=" => {0, 1}
    case "<=" => {-1, 0}
    case "==" => {0}
    case "!=" => {-1, 1}
    case _ => {}
  }

  predicate Meets(r: Rule, value: real) {
    Side(value - r.threshold) in Accepted(r.comparator)
  }

  const COMPARATORS: set<string> := {">", "<", ">=", "<=", "==", "!="}

  lemma CompareMeets(r: Rule, value: real)
    ensures Compare(r, value) <==> Meets(r, value)
  {}

  /** Does the comparator accept the value beside the threshold? */
  predicate Says(r: Rule, comparator: string, value: real, threshold: real) {
    Compare(r.(comparator := comparator, threshold := threshold), value)
  }

  /** What the comparators mean, for every rule and value: ">" accepts what lies above the threshold, "<" is ">"
      with the sides swapped, and the others are made of these; anything else accepts nothing. */
  lemma ComparatorsMean(r: Rule, v: real, t: real)
    ensures Says(r, ">", v, t) <==> v > t
    ensures Says(r, "<", v, t) <==> Says(r, ">", t, v)
    ensures Says(r, "==", v, t) <==> !Says(r, ">", v, t) && !Says(r, "<", v, t)
    ensures Says(r, ">=", v, t) <==> Says(r, ">", v, t) || Says(r, "==", v, t)
    ensures Says(r, "<=", v, t) <==> !Says(r, ">", v, t)
    ensures Says(r, "!=", v, t) <==> !Says(r, "==", v, t)
    ensures forall c :: c !in COMPARATORS ==> !Says(r, c, v, t)
  {}

  datatype Key = Key(rule: int, host: int, labelKey: string)

  datatype Status = Idle | Pending | Firing

  // A row of alert_states
  datatype Row = Row(status: Status, since: Time, notified: Option<Time>, value: real)

  // A row of alert_history
  datatype Entry = Entry(firedAt: Time, value: real, resolvedAt: Option<Time>)

  datatype Kind = Fire | Resolve

  datatype Notice = Notice(kind: Kind, at: Time, rule: Rule, value: real)

  /** Everything stored and sent about one key. */
  datatype Record = Record(row: Option<Row>, history: seq<Entry>, notices: seq<Notice>)

  type Tables = map<Key, Record>

  const BLANK := Record(None, [], [])

  function At(t: Tables, k: Key): Record {
    if k in t then t[k] else BLANK
  }

  function StatusOf(rec: Record): Status {
    if rec.row.None? then Idle else rec.row.value.status
  }

  predicate Active(t: Tables, k: Key) {
    !StatusOf(At(t, k)).Idle?
  }

  /** One evaluation of a rule for one key. */
  datatype Evaluation = Evaluation(rule: Rule, host: int, labelKey: string, holds: bool, value: real, now: Time) {
    function Of(): Key { Key(rule.id, host, labelKey) }
  }

  // ----- one transition -----

  // The open row that the resolving query picks: the one fired last.
  function LatestOpen(h: seq<Entry>): (i: Option<nat>)
    ensures i.None? <==> forall j :: 0 <= j < |h| ==> h[j].resolvedAt.Some?
    ensures i.Some? ==> i.value < |h| && h[i.value].resolvedAt.None?
    ensures i.Some? ==> forall j :: 0 <= j < |h| && h[j].resolvedAt.None? ==> h[j].firedAt <= h[i.value].firedAt
  {
    if h == [] then None
    else
      var n := |h| - 1;
      var i := LatestOpen(h[..n]);
      if h[n].resolvedAt.Some? then i
      else if i.None? || h[i.value].firedAt <= h[n].firedAt then Some(n)
      else i
  }

  function Begun(rec: Record, e: Evaluation): Record {
    rec.(row := Some(Row(Pending, e.now, if rec.row.None? then None else rec.row.value.notified, e.value)))
  }

  function Fired(rec: Record, e: Evaluation): Record {
    rec.(row := Some(Row(Firing, e.now, Some(e.now), e.value)),
         history := rec.history + [Entry(e.now, e.value, None)],
         notices := rec.notices + [Notice(Fire, e.now, e.rule, e.value)])
  }

  function Ripened(rec: Record, since: Time, e: Evaluation): Record
    requires rec.row.Some?
  {
    if e.now - since < e.rule.forS * SECOND then rec.(row := Some(rec.row.value.(value := e.value)))
    else Fired(rec, e)
  }

  predicate RenotifyDue(row: Row, e: Evaluation) {
    row.notified.None? || e.now - row.notified.value >= e.rule.cooldownS * SECOND
  }

  function Kept(rec: Record, e: Evaluation): Record
    requires rec.row.Some?
  {
    var row := rec.row.value.(value := e.value);
    if RenotifyDue(row, e) then
      rec.(row := Some(row.(notified := Some(e.now))), notices := rec.notices + [Notice(Fire, e.now, e.rule, e.value)])
    else rec.(row := Some(row))
  }

  function Ended(rec: Record, e: Evaluation): Record
    requires rec.row.Some?
  {
    var row := rec.row.value;
    var rec' := rec.(row := Some(row.(status := Idle, since := e.now, value := e.value)));
    if !row.status.Firing? then rec'
    else
      var i := LatestOpen(rec.history);
      rec'.(history := if i.None? then rec.history
                       else rec.history[i.value := rec.history[i.value].(resolvedAt := Some(e.now))],
            notices := rec.notices + [Notice(Resolve, e.now, e.rule, e.value)])
  }

  function Turned(rec: Record, e: Evaluation): Record {
    match StatusOf(rec)
    case Idle =>
      if !e.holds then rec
      else if e.rule.forS > 0 then Begun(rec, e)
      else Ripened(Begun(rec, e), e.now, e)
    case Pending => if e.holds then Ripened(rec, rec.row.value.since, e) else Ended(rec, e)
    case Firing => if e.holds then Kept(rec, e) else Ended(rec, e)
  }

  function Stepped(t: Tables, e: Evaluation): Tables {
    if !e.holds && !Active(t, e.Of()) then t else t[e.Of() := Turned(At(t, e.Of()), e)]
  }

  lemma SteppedAt(t: Tables, e: Evaluation, k: Key)
    ensures At(Stepped(t, e), k) == if k == e.Of() then Turned(At(t, k), e) else At(t, k)
    ensures Active(Stepped(t, e), e.Of()) <==> e.holds
  {}

  function Play(es: seq<Evaluation>): Tables {
    if es == [] then map[] else Stepped(Play(es[..|es| - 1]), es[|es| - 1])
  }

  lemma PlayNext(es: seq<Evaluation>, e: Evaluation)
    ensures Play(es + [e]) == Stepped(Play(es), e)
  {
    assert (es + [e])[..|es|] == es;
  }

  // ----- what a key's state means, in terms of all evaluations so far -----

  /** The evaluations of k since its predicate was last false. */
  function Streak(es: seq<Evaluation>, k: Key): seq<Evaluation> {
    if es == [] then []
    else
      var e, before := es[|es| - 1], Streak(es[..|es| - 1], k);
      if e.Of() != k then before else if e.holds then before + [e] else []
  }

  /** Some evaluation of the streak came at least the rule's ForS after its start. */
  ghost predicate Held(streak: seq<Evaluation>) {
    exists i :: 0 <= i < |streak| && HeldAt(streak, i)
  }

  ghost predicate HeldAt(streak: seq<Evaluation>, i: nat)
    requires i < |streak|
  {
    streak[i].now - streak[0].now >= streak[i].rule.forS * SECOND
  }

  ghost predicate FiringBy(es: seq<Evaluation>, k: Key) {
    Held(Streak(es, k))
  }

  ghost function StatusBy(es: seq<Evaluation>, k: Key): Status {
    if FiringBy(es, k) then Firing else if Streak(es, k) != [] then Pending else Idle
  }

  /** The firing episodes of k, as the evaluations alone determine them. */
  ghost function Episodes(es: seq<Evaluation>, k: Key): seq<Entry> {
    if es == [] then []
    else
      var e, init := es[|es| - 1], es[..|es| - 1];
      var before := Episodes(init, k);
      if FiringBy(es, k) && !FiringBy(init, k) then before + [Entry(e.now, e.value, None)]
      else if FiringBy(init, k) && !FiringBy(es, k) && before != [] then
        before[|before| - 1 := before[|before| - 1].(resolvedAt := Some(e.now))]
      else before
  }

  lemma StreakNext(es: seq<Evaluation>, e: Evaluation, k: Key)
    ensures Streak(es + [e], k) ==
      if e.Of() != k then Streak(es, k) else if e.holds then Streak(es, k) + [e] else []
  {
    assert (es + [e])[..|es|] == es;
  }

  lemma EpisodesNext(es: seq<Evaluation>, e: Evaluation, k: Key)
    ensures var before := Episodes(es, k);
      Episodes(es + [e], k) ==
      if FiringBy(es + [e], k) && !FiringBy(es, k) then before + [Entry(e.now, e.value, None)]
      else if FiringBy(es, k) && !FiringBy(es + [e], k) && before != [] then
        before[|before| - 1 := before[|before| - 1].(resolvedAt := Some(e.now))]
      else before
  {
    assert (es + [e])[..|es|] == es;
  }

  lemma HeldNext(s: seq<Evaluation>, e: Evaluation)
    ensures Held(s + [e]) <==> Held(s) || e.now - (s + [e])[0].now >= e.rule.forS * SECOND
  {
    var s' := s + [e];
    if Held(s) {
      var i :| 0 <= i < |s| && HeldAt(s, i);
      assert HeldAt(s', i);
    }
    if Held(s') {
      var i :| 0 <= i < |s'| && HeldAt(s', i);
      assert i < |s| ==> HeldAt(s, i);
    }
    assert e.now - s'[0].now >= e.rule.forS * SECOND ==> HeldAt(s', |s|);
  }

  /** All but the last episode are closed; the last one is open exactly while firing. */
  ghost predicate Shaped(h: seq<Entry>, firing: bool) {
    && (forall i :: 0 <= i < |h| - 1 ==> h[i].resolvedAt.Some?)
    && (firing <==> h != [] && h[|h| - 1].resolvedAt.None?)
  }

  lemma {:induction false} EpisodesShaped(es: seq<Evaluation>, k: Key)
    ensures Shaped(Episodes(es, k), FiringBy(es, k))
  {
    if es != [] { EpisodesShaped(es[..|es| - 1], k); }
  }

  lemma LatestOpenIsLast(h: seq<Entry>)
    requires Shaped(h, true)
    ensures LatestOpen(h) == Some(|h| - 1)
  {}

  ghost predicate Means(rec: Record, es: seq<Evaluation>, k: Key) {
    && StatusOf(rec) == StatusBy(es, k)
    && (StatusOf(rec).Pending? ==> rec.row.value.since == Streak(es, k)[0].now)
    && rec.history == Episodes(es, k)
  }

  lemma MeansNext(rec: Record, es: seq<Evaluation>, e: Evaluation)
    requires Means(rec, es, e.Of())
    ensures Means(Turned(rec, e), es + [e], e.Of())
  {
    var k := e.Of();
    var s := Streak(es, k);
    hide Held, Streak, Episodes, LatestOpen;
    StreakNext(es, e, k);
    EpisodesNext(es, e, k);
    EpisodesShaped(es, k);
    HeldNext(s, e);
    NothingHeld();
    if StatusOf(rec).Firing? && !e.holds { LatestOpenIsLast(rec.history); }
  }

  lemma NothingHeld()
    ensures !Held([])
  {}

  lemma MeansOther(rec: Record, es: seq<Evaluation>, e: Evaluation, k: Key)
    requires Means(rec, es, k) && e.Of() != k
    ensures Means(rec, es + [e], k)
  {
    StreakNext(es, e, k);
    EpisodesNext(es, e, k);
  }

  /** After any evaluations, for every key: the state is firing exactly when the predicate has been true at
      every evaluation since some first one and one of these came at least ForS after it, pending exactly
      when it has only been true, and the history is exactly the list of firing episodes. */
  lemma {:induction false} StateMeansHistory(es: seq<Evaluation>)
    ensures forall k :: Means(At(Play(es), k), es, k)
  {
    hide Turned, Means;
    if es == [] {
      forall k ensures Means(At(Play(es), k), es, k) { BlankMeans(k); }
    } else {
      var init, e := es[..|es| - 1], es[|es| - 1];
      assert init + [e] == es;
      StateMeansHistory(init);
      forall k ensures Means(At(Play(es), k), es, k) {
        SteppedAt(Play(init), e, k);
        assert Means(At(Play(init), k), init, k);
        if e.Of() == k {
          MeansNext(At(Play(init), k), init, e);
        } else {
          MeansOther(At(Play(init), k), init, e, k);
        }
      }
    }
  }

  lemma BlankMeans(k: Key)
    ensures Means(At(map[], k), [], k)
  {
    NothingHeld();
  }

  /** Exactly one open history row while firing, none otherwise. */
  lemma OneOpenRowIffFiring(es: seq<Evaluation>, k: Key)
    ensures var rec := At(Play(es), k);
      && (StatusOf(rec).Firing? <==> exists i :: 0 <= i < |rec.history| && rec.history[i].resolvedAt.None?)
      && forall i, j | 0 <= i < |rec.history| && 0 <= j < |rec.history| ::
          rec.history[i].resolvedAt.None? && rec.history[j].resolvedAt.None? ==> i == j
  {
    StateMeansHistory(es);
    EpisodesShaped(es, k);
    var h := At(Play(es), k).history;
    assert h != [] && h[|h| - 1].resolvedAt.None? ==> exists i :: 0 <= i < |h| && h[i].resolvedAt.None?;
  }

  /** From index a on, every evaluation of k found the predicate true. */
  ghost predicate TrueFrom(es: seq<Evaluation>, k: Key, a: nat, b: nat) {
    a <= b < |es| && es[a].Of() == k && es[b].Of() == k
    && forall m :: a <= m <= b && es[m].Of() == k ==> es[m].holds
  }

  ghost predicate Justified(es: seq<Evaluation>, k: Key, fired: Entry, a: nat, b: nat) {
    && TrueFrom(es, k, a, b)
    && es[b].now == fired.firedAt
    && es[b].now - es[a].now >= es[b].rule.forS * SECOND
  }

  /** The streak begins at index a: from there on, every evaluation of k found the predicate true. */
  ghost predicate StreakFrom(es: seq<Evaluation>, k: Key, a: nat) {
    && Streak(es, k) != [] && a < |es| && es[a] == Streak(es, k)[0] && es[a].Of() == k
    && forall m :: a <= m < |es| && es[m].Of() == k ==> es[m].holds
  }

  lemma {:induction false} StreakStart(es: seq<Evaluation>, k: Key)
    requires Streak(es, k) != []
    ensures exists a: nat :: StreakFrom(es, k, a)
  {
    var init, e := es[..|es| - 1], es[|es| - 1];
    if Streak(init, k) == [] {
      assert StreakFrom(es, k, |init|);
    } else {
      StreakStart(init, k);
      var a: nat :| StreakFrom(init, k, a);
      assert forall m :: a <= m < |init| ==> es[m] == init[m];
      assert StreakFrom(es, k, a);
    }
  }

  /** Every history row was fired by an evaluation before which the predicate had been true at every
      evaluation for at least that rule's ForS. */
  lemma FiresOnlyAfterHolding(es: seq<Evaluation>, k: Key, i: nat)
    requires i < |At(Play(es), k).history|
    ensures exists a, b :: Justified(es, k, At(Play(es), k).history[i], a, b)
  {
    StateMeansHistory(es);
    EpisodeJustified(es, k, i);
  }

  lemma {:induction false} EpisodeJustified(es: seq<Evaluation>, k: Key, i: nat)
    requires i < |Episodes(es, k)|
    ensures exists a, b :: Justified(es, k, Episodes(es, k)[i], a, b)
  {
    var init, e := es[..|es| - 1], es[|es| - 1];
    assert es == init + [e];
    if i < |Episodes(init, k)| {
      EpisodeJustified(init, k, i);
      var a, b :| Justified(init, k, Episodes(init, k)[i], a, b);
      assert forall m :: 0 <= m < |init| ==> es[m] == init[m];
      assert Justified(es, k, Episodes(es, k)[i], a, b);
    } else {
      StreakNext(init, e, k);
      HeldNext(Streak(init, k), e);
      NothingHeld();
      StreakStart(es, k);
      var a: nat :| StreakFrom(es, k, a);
      assert Justified(es, k, Episodes(es, k)[i], a, |init|);
    }
  }

  // ----- notices -----

  ghost predicate Chronological(es: seq<Evaluation>) {
    forall i, j :: 0 <= i < j < |es| ==> es[i].now <= es[j].now
  }

  ghost predicate Paired(ns: seq<Notice>) {
    && (forall i :: 0 <= i < |ns| && ns[i].kind.Resolve? ==> 0 < i && ns[i - 1].kind.Fire?)
    && (forall i :: 0 < i < |ns| && ns[i - 1].kind.Fire? && ns[i].kind.Fire?
          ==> ns[i].at - ns[i - 1].at >= ns[i].rule.cooldownS * SECOND)
  }

  ghost predicate Announced(rec: Record) {
    && Paired(rec.notices)
    && (StatusOf(rec).Firing? <==> rec.notices != [] && rec.notices[|rec.notices| - 1].kind.Fire?)
    && (StatusOf(rec).Firing? ==> rec.row.value.notified == Some(rec.notices[|rec.notices| - 1].at))
  }

  lemma AnnouncedNext(rec: Record, e: Evaluation)
    requires Announced(rec)
    ensures Announced(Turned(rec, e))
  {
    hide LatestOpen;
  }

  /** Every resolve notice directly follows a fire notice of the same key, the last notice is a fire notice
      exactly while the key is firing, and two fire notices without a resolve between them are at least the
      later rule's CooldownS apart. */
  lemma {:induction false} NoticesPaired(es: seq<Evaluation>)
    ensures forall k :: Announced(At(Play(es), k))
  {
    if es != [] {
      var init, e := es[..|es| - 1], es[|es| - 1];
      NoticesPaired(init);
      forall k ensures Announced(At(Play(es), k)) {
        SteppedAt(Play(init), e, k);
        AnnouncedNext(At(Play(init), e.Of()), e);
        hide Turned, Announced;
        assert Announced(At(Play(init), k));
      }
    }
  }

  /** What an evaluation sends: a resolve exactly when it ends a firing streak; a fire exactly when it
      makes the key firing, or the key stays firing and the last fire notice is CooldownS old. */
  lemma NoticesExactly(es: seq<Evaluation>, e: Evaluation)
    ensures
      var k := e.Of();
      var ns, ns' := At(Play(es), k).notices, At(Play(es + [e]), k).notices;
      var was, fires := FiringBy(es, k), FiringBy(es + [e], k);
      && (was ==> ns != [])
      && ns' == if was && !fires then ns + [Notice(Resolve, e.now, e.rule, e.value)]
                else if fires && (was ==> e.now - ns[|ns| - 1].at >= e.rule.cooldownS * SECOND)
                  then ns + [Notice(Fire, e.now, e.rule, e.value)]
                else ns
  {
    var k := e.Of();
    var rec := At(Play(es), k);
    hide Held, Play, Episodes, Streak, LatestOpen;
    StateMeansHistory(es);
    StateMeansHistory(es + [e]);
    NoticesPaired(es);
    PlayNext(es, e);
    SteppedAt(Play(es), e, k);
    StreakNext(es, e, k);
  }

  ghost predicate Ordered(ns: seq<Notice>, last: Time) {
    && (forall i, j :: 0 <= i < j < |ns| ==> ns[i].at <= ns[j].at)
    && (forall i :: 0 <= i < |ns| ==> ns[i].at <= last)
  }

  lemma {:induction false} NoticesOrdered(es: seq<Evaluation>, k: Key, last: Time)
    requires Chronological(es) && forall i :: 0 <= i < |es| ==> es[i].now <= last
    ensures Ordered(At(Play(es), k).notices, last)
  {
    if es != [] {
      var init, e := es[..|es| - 1], es[|es| - 1];
      NoticesOrdered(init, k, e.now);
      SteppedAt(Play(init), e, k);
    }
  }

  /** With a clock that never goes back, any two fire notices of one episode are at least CooldownS apart. */
  lemma CooldownWithinEpisode(es: seq<Evaluation>, k: Key, i: nat, j: nat)
    requires Chronological(es) && i < j < |At(Play(es), k).notices|
    requires forall m :: i <= m <= j ==> At(Play(es), k).notices[m].kind.Fire?
    ensures var ns := At(Play(es), k).notices; ns[j].at - ns[i].at >= ns[j].rule.cooldownS * SECOND
  {
    NoticesPaired(es);
    var ns := At(Play(es), k).notices;
    NoticesOrdered(es, k, if es == [] then 0 else es[|es| - 1].now);
    assert ns[j - 1].kind.Fire? && ns[i].at <= ns[j - 1].at;
  }

  ghost predicate Consecutive(h: seq<Entry>, last: Time) {
    && (forall i :: 0 <= i < |h| ==> h[i].firedAt <= last && (h[i].resolvedAt.Some? ==> h[i].firedAt <= h[i].resolvedAt.value <= last))
    && (forall i :: 0 < i < |h| && h[i - 1].resolvedAt.Some? ==> h[i - 1].resolvedAt.value <= h[i].firedAt)
  }

  lemma {:induction false} EpisodesConsecutive(es: seq<Evaluation>, k: Key, last: Time)
    requires Chronological(es) && forall i :: 0 <= i < |es| ==> es[i].now <= last
    ensures Consecutive(Episodes(es, k), last)
  {
    if es != [] {
      var init, e := es[..|es| - 1], es[|es| - 1];
      EpisodesConsecutive(init, k, e.now);
      EpisodesShaped(init, k);
    }
  }

  /** With a clock that never goes back, the rows of a key's history do not overlap: each ends no earlier
      than it fired and no later than the next one fired. */
  lemma HistoryConsecutive(es: seq<Evaluation>, k: Key)
    requires Chronological(es)
    ensures Consecutive(At(Play(es), k).history, if es == [] then 0 else es[|es| - 1].now)
  {
    StateMeansHistory(es);
    EpisodesConsecutive(es, k, if es == [] then 0 else es[|es| - 1].now);
  }

  // ----- what a key's row shows -----

  /** The latest evaluation that found the predicate true or ended an alert. */
  function Shown(es: seq<Evaluation>, k: Key): Option<Evaluation> {
    if es == [] then None
    else
      var e, init := es[|es| - 1], es[..|es| - 1];
      if e.Of() == k && (e.holds || Streak(init, k) != []) then Some(e) else Shown(init, k)
  }

  lemma ShownNext(es: seq<Evaluation>, e: Evaluation, k: Key)
    ensures Shown(es + [e], k) == if e.Of() == k && (e.holds || Streak(es, k) != []) then Some(e) else Shown(es, k)
  {
    assert (es + [e])[..|es|] == es;
  }

  ghost predicate RowShows(row: Option<Row>, es: seq<Evaluation>, k: Key) {
    if row.None? then Shown(es, k).None?
    else
      && Shown(es, k).Some? && row.value.value == Shown(es, k).value.value
      && match StatusBy(es, k)
         case Idle => row.value.since == Shown(es, k).value.now
         case Pending => row.value.since == Streak(es, k)[0].now
         case Firing => var h := Episodes(es, k); h != [] && row.value.since == h[|h| - 1].firedAt
  }

  lemma RowNext(rec: Record, es: seq<Evaluation>, e: Evaluation)
    requires Means(rec, es, e.Of()) && RowShows(rec.row, es, e.Of())
    ensures RowShows(Turned(rec, e).row, es + [e], e.Of())
  {
    var k := e.Of();
    MeansNext(rec, es, e);
    ShownNext(es, e, k);
    StreakNext(es, e, k);
    EpisodesNext(es, e, k);
    EpisodesShaped(es, k);
    HeldNext(Streak(es, k), e);
    NothingHeld();
    hide Held, Streak, Episodes, LatestOpen, Shown;
  }

  lemma RowOther(rec: Record, es: seq<Evaluation>, e: Evaluation, k: Key)
    requires RowShows(rec.row, es, k) && e.Of() != k
    ensures RowShows(rec.row, es + [e], k)
  {
    ShownNext(es, e, k);
    StreakNext(es, e, k);
    EpisodesNext(es, e, k);
    hide Held, Streak, Episodes, Shown;
  }

  /** After any evaluations, for every key: a row is there exactly if an evaluation ever found the predicate
      true; its value is that of the latest evaluation that did or that ended an alert; and it says since
      when the key has been pending, firing or neither. */
  lemma {:induction false} RowShowsLatest(es: seq<Evaluation>)
    ensures forall k :: RowShows(At(Play(es), k).row, es, k)
  {
    hide Turned, Means, RowShows;
    if es == [] {
      forall k ensures RowShows(At(Play(es), k).row, es, k) { NoRow(k); }
    } else {
      var init, e := es[..|es| - 1], es[|es| - 1];
      assert init + [e] == es;
      RowShowsLatest(init);
      StateMeansHistory(init);
      forall k ensures RowShows(At(Play(es), k).row, es, k) {
        SteppedAt(Play(init), e, k);
        assert RowShows(At(Play(init), k).row, init, k) && Means(At(Play(init), k), init, k);
        if e.Of() == k {
          RowNext(At(Play(init), k), init, e);
        } else {
          RowOther(At(Play(init), k), init, e, k);
        }
      }
    }
  }

  lemma NoRow(k: Key)
    ensures RowShows(At(map[], k).row, [], k)
  {}

  // ----- a round of the engine -----

  /** A loaded rule, the hosts it matches (None: the query failed) and the values measured on each host
      (a host that is missing: its query failed). */
  datatype Loaded = Loaded(rule: Rule, hosts: Option<seq<int>>, groups: map<int, map<string, real>>)

  /** The alerts of the rule that are up on the host are those whose value meets the rule. */
  ghost predicate Settled(t: Tables, l: Loaded, h: int)
    requires h in l.groups
  {
    forall key: string :: Active(t, Key(l.rule.id, h, key)) <==> key in l.groups[h] && Meets(l.rule, l.groups[h][key])
  }

  ghost predicate SameElsewhere(t: Tables, t': Tables, rule: int, h: int) {
    forall k: Key :: k.rule != rule || k.host != h ==> At(t', k) == At(t, k)
  }

  ghost predicate SameBut(t: Tables, t': Tables, rule: int, hosts: seq<int>) {
    forall k: Key :: k.rule != rule || k.host !in hosts ==> At(t', k) == At(t, k)
  }

  // ----- the evaluations of a round -----

  /** The evaluation reports what was measured, or ends an alert for which nothing was measured. */
  predicate Reports(l: Loaded, e: Evaluation, now: Time) {
    && e.rule == l.rule && e.now == now && e.host in l.groups
    && if e.labelKey in l.groups[e.host] then
         e.value == l.groups[e.host][e.labelKey] && (e.holds <==> Meets(l.rule, e.value))
       else !e.holds && e.value == 0.0
  }

  /** The log has grown, by at most one evaluation for each key. */
  ghost predicate Grown(log: seq<Evaluation>, log': seq<Evaluation>) {
    log <= log' && forall i, j :: |log| <= i < j < |log'| ==> log'[i].Of() != log'[j].Of()
  }

  ghost predicate Covers(log: seq<Evaluation>, from: nat, k: Key) {
    exists i :: from <= i < |log| && log[i].Of() == k
  }

  /** New evaluations report what was measured on the host, every measured value among them. */
  ghost predicate HostReported(l: Loaded, h: int, log: seq<Evaluation>, log': seq<Evaluation>, now: Time)
    requires h in l.groups
  {
    && Grown(log, log')
    && (forall i :: |log| <= i < |log'| ==> Reports(l, log'[i], now) && log'[i].host == h)
    && forall key :: key in l.groups[h] ==> Covers(log', |log|, Key(l.rule.id, h, key))
  }

  /** The values of all hosts up to this one could be read. */
  ghost predicate Read(l: Loaded, hosts: seq<int>, i: nat)
    requires i <= |hosts|
  {
    forall j :: 0 <= j < i ==> hosts[j] in l.groups
  }

  ghost predicate RuleReported(l: Loaded, hosts: seq<int>, log: seq<Evaluation>, log': seq<Evaluation>, now: Time) {
    && Grown(log, log')
    && (forall i :: |log| <= i < |log'| ==> Reports(l, log'[i], now) && log'[i].host in hosts)
    && forall i, key :: 0 <= i < |hosts| && Read(l, hosts, i + 1) && key in l.groups[hosts[i]] ==>
         Covers(log', |log|, Key(l.rule.id, hosts[i], key))
  }

  class Engine {
    var tables: Tables
    ghost var log: seq<Evaluation>

    /** The tables are what the evaluations made so far leave. */
    ghost predicate Valid()
      reads this
    {
      tables == Play(log)
    }

    constructor ()
      ensures Valid() && tables == map[] && log == []
    {
      tables, log := map[], [];
    }

    method Transition(e: Evaluation)
      requires Valid()
      modifies this
      ensures Valid() && log == old(log) + [e] && tables == Stepped(old(tables), e)
    {
      hide LatestOpen, Play;
      var k := e.Of();
      var rec := At(tables, k);
      var status, since := Idle, e.now;
      if rec.row.Some? {
        status, since := rec.row.value.status, rec.row.value.since;
      }
      PlayNext(log, e);
      log := log + [e];
      if e.holds && !status.Firing? {
        if status.Idle? {
          rec := Begun(rec, e);
          since := e.now;
        }
        if status.Idle? && e.rule.forS > 0 {
          // wait for the next evaluation
        } else if e.now - since < e.rule.forS * SECOND {
          rec := rec.(row := Some(rec.row.value.(value := e.value)));
        } else {
          rec := rec.(row := Some(Row(Firing, e.now, Some(e.now), e.value)));
          rec := rec.(history := rec.history + [Entry(e.now, e.value, None)]);
          rec := rec.(notices := rec.notices + [Notice(Fire, e.now, e.rule, e.value)]);
        }
        tables := tables[k := rec];
      } else if e.holds {
        var renotify := RenotifyDue(rec.row.value, e);
        rec := rec.(row := Some(rec.row.value.(value := e.value)));
        if renotify {
          rec := rec.(row := Some(rec.row.value.(notified := Some(e.now))));
          rec := rec.(notices := rec.notices + [Notice(Fire, e.now, e.rule, e.value)]);
        }
        tables := tables[k := rec];
      } else if !status.Idle? {
        rec := rec.(row := Some(rec.row.value.(status := Idle, since := e.now, value := e.value)));
        if status.Firing? {
          var i := LatestOpen(rec.history);
          if i.Some? {
            rec := rec.(history := rec.history[i.value := rec.history[i.value].(resolvedAt := Some(e.now))]);
          }
          rec := rec.(notices := rec.notices + [Notice(Resolve, e.now, e.rule, e.value)]);
        }
        tables := tables[k := rec];
      }
    }

    // staleStates: the pending and firing keys of the host that no group reported.
    method StaleStates(l: Loaded, h: int) returns (stale: set<string>)
      requires h in l.groups
      ensures forall key :: key in stale <==> Active(tables, Key(l.rule.id, h, key)) && key !in l.groups[h]
    {
      stale := set k | k in tables && k.rule == l.rule.id && k.host == h && Active(tables, k) && k.labelKey !in l.groups[h] :: k.labelKey;
    }

    method EvaluateHost(l: Loaded, h: int, now: Time)
      requires Valid() && h in l.groups
      modifies this
      ensures Valid() && Settled(tables, l, h) && SameElsewhere(old(tables), tables, l.rule.id, h)
      ensures HostReported(l, h, old(log), log, now)
    {
      hide Turned, Stepped, Play, Meets, Compare;
      var labels := l.groups[h].Keys;
      while labels != {}
        invariant Valid() && labels <= l.groups[h].Keys && SameElsewhere(old(tables), tables, l.rule.id, h)
        invariant forall key :: key in l.groups[h] && key !in labels ==>
          (Active(tables, Key(l.rule.id, h, key)) <==> Meets(l.rule, l.groups[h][key])) && Covers(log, |old(log)|, Key(l.rule.id, h, key))
        invariant HostPart(l, h, l.groups[h].Keys - labels, old(log), log, now)
      {
        var key :| key in labels;
        labels := labels - {key};
        CompareMeets(l.rule, l.groups[h][key]);
        var e := Evaluation(l.rule, h, key, Compare(l.rule, l.groups[h][key]), l.groups[h][key], now);
        SteppedAll(tables, e);
        CoversNext(log, |old(log)|, e);
        Transition(e);
      }
      EndStale(l, h, old(tables), old(log), now);
    }

    /** The second half of a host: alerts for which nothing was measured end. */
    method EndStale(l: Loaded, h: int, ghost t: Tables, ghost from: seq<Evaluation>, now: Time)
      requires Valid() && h in l.groups && SameElsewhere(t, tables, l.rule.id, h)
      requires HostPart(l, h, l.groups[h].Keys, from, log, now)
      requires forall key :: key in l.groups[h] ==> Covers(log, |from|, Key(l.rule.id, h, key))
      requires forall key :: key in l.groups[h] ==> (Active(tables, Key(l.rule.id, h, key)) <==> Meets(l.rule, l.groups[h][key]))
      modifies this
      ensures Valid() && Settled(tables, l, h) && SameElsewhere(t, tables, l.rule.id, h) && HostReported(l, h, from, log, now)
    {
      hide Turned, Stepped, Play, Meets, Compare;
      var stale := StaleStates(l, h);
      ghost var done := l.groups[h].Keys;
      while stale != {}
        invariant Valid() && SameElsewhere(t, tables, l.rule.id, h)
        invariant forall key :: key in stale ==> key !in l.groups[h] && key !in done
        invariant forall key :: key in l.groups[h] ==> Covers(log, |from|, Key(l.rule.id, h, key))
        invariant forall key: string :: key !in stale ==>
          (Active(tables, Key(l.rule.id, h, key)) <==> key in l.groups[h] && Meets(l.rule, l.groups[h][key]))
        invariant HostPart(l, h, done, from, log, now)
      {
        var key :| key in stale;
        stale := stale - {key};
        done := done + {key};
        var e := Evaluation(l.rule, h, key, false, 0.0, now);
        SteppedAll(tables, e);
        CoversNext(log, |from|, e);
        Transition(e);
      }
    }

    /** ok is false when a host's values could not be read; the hosts after it are then not evaluated. */
    method EvaluateRule(l: Loaded, hosts: seq<int>, now: Time) returns (ok: bool)
      requires Valid() && forall i, j :: 0 <= i < j < |hosts| ==> hosts[i] != hosts[j]
      modifies this
      ensures Valid() && SameBut(old(tables), tables, l.rule.id, hosts)
      ensures ok <==> forall h :: h in hosts ==> h in l.groups
      ensures ok ==> forall h :: h in hosts ==> Settled(tables, l, h)
      ensures RuleReported(l, hosts, old(log), log, now)
    {
      hide Play, Meets, StatusOf, Active, HostReported;
      var i := 0;
      assert hosts[..0] == [];
      while i < |hosts|
        invariant 0 <= i <= |hosts| && Valid() && SameBut(old(tables), tables, l.rule.id, hosts[..i])
        invariant forall j :: 0 <= j < i ==> hosts[j] in l.groups && Settled(tables, l, hosts[j])
        invariant RuleReported(l, hosts[..i], old(log), log, now)
      {
        var h := hosts[i];
        assert h in hosts;
        if h !in l.groups {
          ReportedUpTo(l, hosts, i, old(log), log, now);
          return false;
        }
        ghost var t, before := tables, log;
        EvaluateHost(l, h, now);
        forall j | 0 <= j < i ensures Settled(tables, l, hosts[j]) { SettledKept(t, tables, l, hosts[j], h); }
        ReportedNext(l, hosts, i, old(log), before, log, now);
        i := i + 1;
      }
      assert hosts[..i] == hosts;
      return true;
    }

    // sweepOrphans: alerts of disabled rules, and of hosts a rule no longer matches.
    method SweepOrphans(rules: seq<Loaded>, now: Time)
      requires Valid() && Distinct(rules)
      modifies this
      ensures Valid()
      ensures forall k :: At(tables, k) == At(old(tables), k) || (Orphan(rules, k) && !Active(tables, k))
      ensures forall k :: Orphan(rules, k) ==> !Active(tables, k)
      ensures Swept(rules, old(tables), old(log), log, now)
    {
      hide Turned, Stepped, Play;
      var orphans := set k | k in tables && Active(tables, k) && Orphan(rules, k);
      while orphans != {}
        invariant Valid()
        invariant forall k :: k in orphans ==> Orphan(rules, k) && At(tables, k) == At(old(tables), k)
        invariant forall k :: At(tables, k) == At(old(tables), k) || (Orphan(rules, k) && !Active(tables, k))
        invariant forall k :: Orphan(rules, k) && Active(tables, k) ==> k in orphans
        invariant Swept(rules, old(tables), old(log), log, now)
        invariant forall i :: |old(log)| <= i < |log| ==> log[i].Of() !in orphans
      {
        var k :| k in orphans;
        orphans := orphans - {k};
        var l := OwnRule(rules, k);
        var rec := At(tables, k);
        var e := Evaluation(l.rule, k.host, k.labelKey, false, if rec.row.Some? then rec.row.value.value else 0.0, now);
        assert e.Of() == k && Sweeps(rules, old(tables), e, now);
        SteppedAll(tables, e);
        Transition(e);
      }
    }

    /** One round over the loaded rules. Afterwards no alert of a disabled rule or of an unmatched host is
        up, and where every value could be read, an alert is up exactly if its value meets the rule now. */
    method EvaluateAll(rules: seq<Loaded>, now: Time)
      requires Valid() && Distinct(rules)
      modifies this
      ensures Valid()
      ensures forall l: Loaded, k: Key :: l in rules && k.rule == l.rule.id ==> Right(l, k, Active(tables, k))
      ensures RoundReported(rules, old(tables), old(log), log, now)
    {
      hide Play, Meets, StatusOf, Active, RuleReported, Reports;
      var i := 0;
      while i < |rules|
        invariant 0 <= i <= |rules| && Valid()
        invariant forall j :: 0 <= j < i ==> Evaluated(tables, rules[j])
        invariant PartReported(rules, i, old(log), log, now)
        invariant forall k :: Orphan(rules, k) ==> At(tables, k) == At(old(tables), k)
      {
        var l := rules[i];
        assert l in rules;
        ghost var t, before := tables, log;
        if l.rule.enabled && l.hosts.Some? {
          var ok := EvaluateRule(l, l.hosts.value, now);
          forall j | 0 <= j < i ensures Evaluated(tables, rules[j]) {
            EvaluatedKept(t, tables, rules[j], l.rule.id, l.hosts.value);
          }
          forall k | Orphan(rules, k) ensures At(tables, k) == At(t, k) {
            if k.rule == l.rule.id { OnlyOwnRule(rules, l, k); }
          }
        }
        PartNext(rules, i, old(log), before, log, now);
        i := i + 1;
      }
      ghost var t, before := tables, log;
      SweepOrphans(rules, now);
      RoundComplete(rules, old(tables), t, old(log), before, log, now);
      forall l: Loaded, k: Key | l in rules && k.rule == l.rule.id ensures Right(l, k, Active(tables, k)) {
        RoundIsRight(t, tables, rules, l, k);
      }
    }
  }

  lemma SteppedAll(t: Tables, e: Evaluation)
    ensures forall k :: k != e.Of() ==> At(Stepped(t, e), k) == At(t, k)
    ensures forall k :: k != e.Of() ==> Active(Stepped(t, e), k) == Active(t, k)
    ensures Active(Stepped(t, e), e.Of()) <==> e.holds
  {
    SteppedAt(t, e, e.Of());
  }

  lemma SettledKept(t: Tables, t': Tables, l: Loaded, h: int, other: int)
    requires h in l.groups && Settled(t, l, h) && h != other && SameElsewhere(t, t', l.rule.id, other)
    ensures Settled(t', l, h)
  {
    forall key: string
      ensures Active(t', Key(l.rule.id, h, key)) <==> key in l.groups[h] && Meets(l.rule, l.groups[h][key])
    {
      assert Active(t', Key(l.rule.id, h, key)) == Active(t, Key(l.rule.id, h, key));
    }
  }

  /** Part of a host's evaluations: those of the label keys in `done`. */
  ghost predicate HostPart(l: Loaded, h: int, done: set<string>, log: seq<Evaluation>, log': seq<Evaluation>, now: Time)
    requires h in l.groups
  {
    && Grown(log, log')
    && forall i :: |log| <= i < |log'| ==> Reports(l, log'[i], now) && log'[i].host == h && log'[i].labelKey in done
  }

  lemma CoversNext(log: seq<Evaluation>, from: nat, e: Evaluation)
    requires from <= |log|
    ensures forall k :: Covers(log, from, k) ==> Covers(log + [e], from, k)
    ensures Covers(log + [e], from, e.Of())
  {
    var log' := log + [e];
    assert log'[|log|] == e;
    forall k | Covers(log, from, k) ensures Covers(log', from, k) {
      var i :| from <= i < |log| && log[i].Of() == k;
      assert log'[i] == log[i];
    }
  }

  lemma CoversLonger(log: seq<Evaluation>, log': seq<Evaluation>, from: nat, from': nat)
    requires log <= log' && from' <= from <= |log'|
    ensures forall k :: Covers(log, from', k) || Covers(log', from, k) ==> Covers(log', from', k)
  {
    forall k | Covers(log, from', k) ensures Covers(log', from', k) {
      var i :| from' <= i < |log| && log[i].Of() == k;
      assert log'[i] == log[i];
    }
  }

  /** The hosts after one whose values could not be read are not evaluated. */
  lemma ReportedUpTo(l: Loaded, hosts: seq<int>, i: nat, log: seq<Evaluation>, log': seq<Evaluation>, now: Time)
    requires i < |hosts| && hosts[i] !in l.groups && RuleReported(l, hosts[..i], log, log', now)
    ensures RuleReported(l, hosts, log, log', now)
  {
    forall j, key | 0 <= j < |hosts| && Read(l, hosts, j + 1) && key in l.groups[hosts[j]]
      ensures Covers(log', |log|, Key(l.rule.id, hosts[j], key))
    {
      assert j < i && hosts[..i][j] == hosts[j];
      assert Read(l, hosts[..i], j + 1);
    }
  }

  lemma ReportedNext(l: Loaded, hosts: seq<int>, i: nat, log: seq<Evaluation>, log': seq<Evaluation>, log'': seq<Evaluation>, now: Time)
    requires i < |hosts| && hosts[i] in l.groups && forall j :: 0 <= j < i ==> hosts[j] != hosts[i]
    requires RuleReported(l, hosts[..i], log, log', now) && HostReported(l, hosts[i], log', log'', now)
    ensures RuleReported(l, hosts[..i + 1], log, log'', now)
  {
    hide Reports, Covers;
    var next := hosts[..i + 1];
    assert next[..i] == hosts[..i] && next == hosts[..i] + [hosts[i]];
    CoversLonger(log', log'', |log'|, |log|);
    forall j, key | 0 <= j < |next| && Read(l, next, j + 1) && key in l.groups[next[j]]
      ensures Covers(log'', |log|, Key(l.rule.id, next[j], key))
    {
      if j < i {
        assert next[j] == hosts[..i][j];
        assert Read(l, hosts[..i], j + 1);
      }
    }
    forall a, b | |log| <= a < b < |log''| ensures log''[a].Of() != log''[b].Of() {
      if a < |log'| && |log'| <= b { assert log''[a] == log'[a]; }
    }
  }

  // alert_rules.id is a primary key, and so is hosts.id
  ghost predicate Distinct(rules: seq<Loaded>) {
    && (forall i, j :: 0 <= i < j < |rules| ==> rules[i].rule.id != rules[j].rule.id)
    && forall l :: l in rules && l.hosts.Some? ==>
         forall i, j :: 0 <= i < j < |l.hosts.value| ==> l.hosts.value[i] != l.hosts.value[j]
  }

  predicate OrphanOf(l: Loaded, k: Key) {
    k.rule == l.rule.id && (!l.rule.enabled || (l.hosts.Some? && k.host !in l.hosts.value))
  }

  predicate Orphan(rules: seq<Loaded>, k: Key) {
    exists l :: l in rules && OrphanOf(l, k)
  }

  function OwnRule(rules: seq<Loaded>, k: Key): (l: Loaded)
    requires Orphan(rules, k)
    ensures l in rules && l.rule.id == k.rule
  {
    if rules[0].rule.id == k.rule then rules[0] else OwnRule(rules[1..], k)
  }

  /** The evaluation ends an orphaned alert, with the last value that it showed. */
  ghost predicate Sweeps(rules: seq<Loaded>, t: Tables, e: Evaluation, now: Time) {
    && !e.holds && e.now == now && (exists l :: l in rules && l.rule == e.rule) && Orphan(rules, e.Of())
    && var row := At(t, e.Of()).row; row.Some? ==> e.value == row.value.value
  }

  ghost predicate Swept(rules: seq<Loaded>, t: Tables, log: seq<Evaluation>, log': seq<Evaluation>, now: Time) {
    Grown(log, log') && forall i :: |log| <= i < |log'| ==> Sweeps(rules, t, log'[i], now)
  }

  /** The rule is evaluated, on the hosts that it matches. */
  predicate Evaluates(l: Loaded, e: Evaluation, now: Time) {
    l.rule.enabled && l.hosts.Some? && e.host in l.hosts.value && Reports(l, e, now)
  }

  /** The first i rules cover every value that could be read. */
  ghost predicate CoversRules(rules: seq<Loaded>, i: nat, log: seq<Evaluation>, from: nat)
    requires i <= |rules|
  {
    forall j, h, key :: 0 <= j < i && Reads(rules[j], h) && key in rules[j].groups[h] ==>
      Covers(log, from, Key(rules[j].rule.id, h, key))
  }

  /** The rule gets to the host: it is enabled, and no host up to this one failed to be read. */
  ghost predicate Reads(l: Loaded, h: int) {
    && l.rule.enabled && l.hosts.Some? && h in l.groups
    && exists i :: 0 <= i < |l.hosts.value| && l.hosts.value[i] == h && Read(l, l.hosts.value, i + 1)
  }

  ghost predicate PartReported(rules: seq<Loaded>, i: nat, log: seq<Evaluation>, log': seq<Evaluation>, now: Time)
    requires i <= |rules|
  {
    && Grown(log, log') && CoversRules(rules, i, log', |log|)
    && forall j :: |log| <= j < |log'| ==> OneEvaluates(rules, i, log'[j], now)
  }

  ghost predicate OneEvaluates(rules: seq<Loaded>, i: nat, e: Evaluation, now: Time)
    requires i <= |rules|
  {
    exists m :: 0 <= m < i && Evaluates(rules[m], e, now)
  }

  /** A round evaluates each key at most once: every value that could be read, with that value; and otherwise
      it only ends alerts, those for which nothing was measured and the orphaned ones. */
  ghost predicate RoundReported(rules: seq<Loaded>, t: Tables, log: seq<Evaluation>, log': seq<Evaluation>, now: Time) {
    && Grown(log, log') && CoversRules(rules, |rules|, log', |log|)
    && forall j :: |log| <= j < |log'| ==>
         OneEvaluates(rules, |rules|, log'[j], now) || Sweeps(rules, t, log'[j], now)
  }

  lemma PartNext(rules: seq<Loaded>, i: nat, log: seq<Evaluation>, log': seq<Evaluation>, log'': seq<Evaluation>, now: Time)
    requires Distinct(rules) && i < |rules| && PartReported(rules, i, log, log', now)
    requires var l := rules[i];
      if l.rule.enabled && l.hosts.Some? then RuleReported(l, l.hosts.value, log', log'', now) else log'' == log'
    ensures PartReported(rules, i + 1, log, log'', now)
  {
    hide Covers, Reports;
    var l := rules[i];
    CoversLonger(log', log'', |log'|, |log|);
    forall j | |log| <= j < |log''| ensures OneEvaluates(rules, i + 1, log''[j], now) {
      if j < |log'| {
        assert log''[j] == log'[j] && OneEvaluates(rules, i, log'[j], now);
      } else {
        assert Evaluates(rules[i], log''[j], now);
      }
    }
    forall a, b | |log| <= a < b < |log''| ensures log''[a].Of() != log''[b].Of() {
      if a < |log'| && |log'| <= b {
        assert OneEvaluates(rules, i, log'[a], now);
        var m :| 0 <= m < i && Evaluates(rules[m], log'[a], now);
        ReportsOwn(rules[m], log''[a], now);
        ReportsOwn(l, log''[b], now);
      }
    }
  }

  lemma ReportsOwn(l: Loaded, e: Evaluation, now: Time)
    requires Reports(l, e, now)
    ensures e.Of().rule == l.rule.id
  {}

  lemma RoundComplete(rules: seq<Loaded>, t0: Tables, t: Tables, log: seq<Evaluation>, log': seq<Evaluation>, log'': seq<Evaluation>, now: Time)
    requires Distinct(rules) && PartReported(rules, |rules|, log, log', now) && Swept(rules, t, log', log'', now)
    requires forall k :: Orphan(rules, k) ==> At(t, k) == At(t0, k)
    ensures RoundReported(rules, t0, log, log'', now)
  {
    hide Covers, Orphan;
    CoversLonger(log', log'', |log'|, |log|);
    forall j | |log'| <= j < |log''| ensures Sweeps(rules, t0, log''[j], now) {
      assert Sweeps(rules, t, log''[j], now);
    }
    forall a, b | |log| <= a < b < |log''| ensures log''[a].Of() != log''[b].Of() {
      if a < |log'| && |log'| <= b {
        assert OneEvaluates(rules, |rules|, log'[a], now);
        var m :| 0 <= m < |rules| && Evaluates(rules[m], log'[a], now);
        ReportsOwn(rules[m], log''[a], now);
        if log''[a].Of() == log''[b].Of() { OnlyOwnRule(rules, rules[m], log''[b].Of()); }
      }
    }
  }

  ghost predicate Answered(l: Loaded) {
    l.rule.enabled && l.hosts.Some? && forall h :: h in l.hosts.value ==> h in l.groups
  }

  ghost predicate Evaluated(t: Tables, l: Loaded) {
    Answered(l) ==> forall h :: h in l.hosts.value ==> Settled(t, l, h)
  }

  /** What a round over the rule owes an alert that is up, or not. */
  ghost predicate Right(l: Loaded, k: Key, up: bool) {
    && (up ==> l.rule.enabled && (l.hosts.Some? ==> k.host in l.hosts.value))
    && (Answered(l) ==>
         (up <==> k.host in l.hosts.value && k.labelKey in l.groups[k.host] && Meets(l.rule, l.groups[k.host][k.labelKey])))
  }

  lemma EvaluatedKept(t: Tables, t': Tables, l: Loaded, other: int, hosts: seq<int>)
    requires Evaluated(t, l) && l.rule.id != other && SameBut(t, t', other, hosts)
    ensures Evaluated(t', l)
  {
    if Answered(l) {
      forall h | h in l.hosts.value ensures Settled(t', l, h) {
        assert Settled(t, l, h);
        forall key: string
          ensures Active(t', Key(l.rule.id, h, key)) <==> key in l.groups[h] && Meets(l.rule, l.groups[h][key])
        {
          assert Active(t', Key(l.rule.id, h, key)) == Active(t, Key(l.rule.id, h, key));
        }
      }
    }
  }

  lemma RoundIsRight(t: Tables, t': Tables, rules: seq<Loaded>, l: Loaded, k: Key)
    requires Distinct(rules) && l in rules && k.rule == l.rule.id && Evaluated(t, l)
    requires At(t', k) == At(t, k) || (Orphan(rules, k) && !Active(t', k))
    requires Orphan(rules, k) ==> !Active(t', k)
    ensures Right(l, k, Active(t', k))
  {
    hide Meets;
    OnlyOwnRule(rules, l, k);
    assert k == Key(l.rule.id, k.host, k.labelKey);
    if Answered(l) && k.host in l.hosts.value {
      assert Settled(t, l, k.host);
    }
  }

  lemma OnlyOwnRule(rules: seq<Loaded>, l: Loaded, k: Key)
    requires Distinct(rules) && l in rules && k.rule == l.rule.id
    ensures Orphan(rules, k) <==> OrphanOf(l, k)
  {}
}
