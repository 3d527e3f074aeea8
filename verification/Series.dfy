/** How a series query is split among the raw samples, the five-minute aggregate and the archive. */
module Series {
  // The raw samples behind the aggregate's retention are a tier of their own. Times are integers (nanoseconds);
  // steps are whole seconds.

  import opened Options

  type Time = int

  const SECOND := 1_000_000_000
  const CA_STEP := 300
  const SLOT := CA_STEP * SECOND
  const ROLLUP_MIN_RANGE := 12 * 3600 * SECOND
  const ROLLUP_LIVE_TAIL := 900 * SECOND
  const MAX_BUCKETS := 10000

  datatype Interval = Interval(from: Time, to: Time)

  function Max(a: int, b: int): int { if a < b then b else a }
  function Min(a: int, b: int): int { if a < b then a else b }

  predicate Inside(t: Time, lo: Time, hi: Time) { lo <= t < hi }

  // ----- the step -----

  const STEP_BUCKETS := [1, 2, 5, 10, 15, 30, 60, 120, 300, 600, 900, 1800, 3600]

  predicate IsListed(step: int) {
    step in {1, 2, 5, 10, 15, 30, 60, 120, 300, 600, 900, 1800, 3600}
  }

  lemma ListedSteps(i: nat, step: int)
    requires i < |STEP_BUCKETS| && IsListed(step) && step < STEP_BUCKETS[i]
    ensures exists j :: 0 <= j < i && STEP_BUCKETS[j] == step
  {
    assert exists j :: 0 <= j < |STEP_BUCKETS| && STEP_BUCKETS[j] == step by {
      assert STEP_BUCKETS[0] == 1 && STEP_BUCKETS[1] == 2 && STEP_BUCKETS[2] == 5 && STEP_BUCKETS[3] == 10 && STEP_BUCKETS[4] == 15;
      assert STEP_BUCKETS[5] == 30 && STEP_BUCKETS[6] == 60 && STEP_BUCKETS[7] == 120 && STEP_BUCKETS[8] == 300;
      assert STEP_BUCKETS[9] == 600 && STEP_BUCKETS[10] == 900 && STEP_BUCKETS[11] == 1800 && STEP_BUCKETS[12] == 3600;
    }
    var j :| 0 <= j < |STEP_BUCKETS| && STEP_BUCKETS[j] == step;
    assert forall k :: i <= k < |STEP_BUCKETS| ==> STEP_BUCKETS[k] >= STEP_BUCKETS[i];
  }

  /** chooseStep: the smallest listed step that is at least the interval and at least the span divided by
      720, rounded down, or the largest. */
  method ChooseStep(spanSeconds: nat, intervalS: int) returns (step: int)
    ensures IsListed(step)
    ensures var raw := Max(spanSeconds / 720, if intervalS <= 0 then 10 else intervalS);
      && (step >= raw || step == 3600)
      && forall b :: IsListed(b) && b < step ==> b < raw
  {
    var raw := spanSeconds / 720;
    var interval := if intervalS <= 0 then 10 else intervalS;
    if raw < interval { raw := interval; }
    for i := 0 to |STEP_BUCKETS|
      invariant forall j :: 0 <= j < i ==> STEP_BUCKETS[j] < raw
    {
      if STEP_BUCKETS[i] >= raw {
        forall b | IsListed(b) && b < STEP_BUCKETS[i] ensures b < raw { ListedSteps(i, b); }
        return STEP_BUCKETS[i];
      }
    }
    forall b | IsListed(b) && b < STEP_BUCKETS[12] ensures b < raw { ListedSteps(12, b); }
    return STEP_BUCKETS[|STEP_BUCKETS| - 1];
  }

  /** clampStepBuckets: a step that gives more than ten thousand buckets is widened to the ten-thousandth
      part of the span, rounded up. */
  function ClampStep(spanSeconds: nat, step: int): (r: int)
    ensures step > 0 ==> r > 0 && spanSeconds / r <= 10000
    ensures step > 0 && spanSeconds / step <= 10000 ==> r == step
    ensures step > 0 && spanSeconds / step > 10000 ==> (r - 1) * 10000 < spanSeconds <= r * 10000
  {
    if step > 0 && spanSeconds / step > MAX_BUCKETS then
      var r := (spanSeconds + MAX_BUCKETS - 1) / MAX_BUCKETS;
      ClampEnough(spanSeconds, r);
      r
    else step
  }

  lemma ClampEnough(span: nat, r: nat)
    requires r == (span + MAX_BUCKETS - 1) / MAX_BUCKETS && span > 0
    ensures r > 0 && span / r <= MAX_BUCKETS
  {
    assert r * MAX_BUCKETS >= span;
    QuotientBound(span, r, MAX_BUCKETS);
  }

  lemma QuotientBound(a: nat, d: nat, n: nat)
    requires d > 0 && a <= d * n
    ensures a / d <= n
  {
    Split(a, d);
    assert (n + 1) * d == d * n + d;
    MulLess(a / d, n + 1, d);
  }

  lemma MulLess(x: int, y: int, d: int)
    requires d > 0 && x * d < y * d
    ensures x < y
  {}

  lemma Split(a: int, d: int)
    requires d > 0
    ensures a == (a / d) * d + a % d && 0 <= a % d < d
  {}

  // ----- the tier bounds -----

  /** time.Unix of a moment, and the remainder of Go's division, which keeps the dividend's sign. */
  function Unix(t: Time): (s: int)
    ensures s * SECOND <= t < s * SECOND + SECOND
  {
    t / SECOND
  }

  function GoMod(a: int, b: int): (r: int)
    requires b > 0
    ensures -b < r < b && (r > 0 ==> a > 0) && (r < 0 ==> a < 0)
    ensures (a - r) % b == 0
  {
    GoRemainder(a, b);
    if a >= 0 then a % b else -((-a) % b)
  }

  lemma GoRemainder(a: int, b: int)
    requires b > 0
    ensures (a - a % b) % b == 0 && (a + (-a) % b) % b == 0
  {
    Split(a, b);
    Split(-a, b);
    MultipleMod(a / b, b);
    MultipleMod(-((-a) / b), b);
    assert a + (-a) % b == -((-a) / b) * b;
  }

  /** rollupBoundary; None is the zero time, and the step comes back widened. */
  method RollupBoundary(now: Time, from: Time, to: Time, step: int) returns (boundary: Option<Time>, step': int)
    requires step > 0
    ensures to - from < 12 * 3600 * SECOND ==> boundary.None? && step' == step
    ensures to - from >= 12 * 3600 * SECOND ==>
      && boundary.Some? && step' == Max(step, 300)
      && boundary.value == (Unix(now - ROLLUP_LIVE_TAIL) - GoMod(Unix(now - ROLLUP_LIVE_TAIL), step')) * SECOND
  {
    if to - from < ROLLUP_MIN_RANGE { return None, step; }
    step' := step;
    if step' < CA_STEP { step' := CA_STEP; }
    var b := Unix(now - ROLLUP_LIVE_TAIL);
    b := b - GoMod(b, step');
    boundary := Some(b * SECOND);
  }

  /** The moments that separate the tiers of one query. */
  datatype Query = Query(from: Time, to: Time, coldCutoff: Time, rawAvail: Time, rawStart: Time)

  /** rawStart is where raw retention begins, or the rollup boundary if that is later. */
  ghost predicate WellPlanned(q: Query) {
    q.from < q.to && q.rawAvail <= q.rawStart
  }


  /** coldRawClamp */
  function ColdRawClamp(q: Query): Option<Interval> {
    var lo := if q.from < q.rawAvail then q.rawAvail else q.from;
    var hi := if q.coldCutoff > q.rawStart then q.rawStart else q.coldCutoff;
    if hi > lo then Some(Interval(lo, hi)) else None
  }

  // ----- the gaps that the archive leaves -----

  /** The archive holds five-minute buckets that begin in [from, to]. */
  predicate Covers(c: Interval, t: Time) {
    c.from <= t < c.to + SLOT
  }

  predicate Covered(cs: seq<Interval>, t: Time) {
    exists i :: 0 <= i < |cs| && Covers(cs[i], t)
  }

  predicate InGaps(gaps: seq<Interval>, t: Time) {
    exists i :: 0 <= i < |gaps| && Inside(t, gaps[i].from, gaps[i].to)
  }

  /** Coverage as the archive lists it: by start, none ending before it begins. */
  ghost predicate Listed(cs: seq<Interval>) {
    && (forall i :: 0 <= i < |cs| ==> cs[i].from <= cs[i].to)
    && (forall i, j :: 0 <= i < j < |cs| ==> cs[i].from <= cs[j].from)
  }

  ghost predicate Separate(gaps: seq<Interval>) {
    && (forall i :: 0 <= i < |gaps| ==> gaps[i].from < gaps[i].to)
    && (forall i, j :: 0 <= i < j < |gaps| ==> gaps[i].to <= gaps[j].from)
  }

  lemma InGapsAppend(gaps: seq<Interval>, g: Interval, t: Time)
    ensures InGaps(gaps + [g], t) <==> InGaps(gaps, t) || Inside(t, g.from, g.to)
  {
    var more := gaps + [g];
    assert more[|gaps|] == g;
    if InGaps(gaps, t) {
      var i :| 0 <= i < |gaps| && Inside(t, gaps[i].from, gaps[i].to);
      assert more[i] == gaps[i];
    }
  }

  /** What the loop has found when `n` intervals are behind it and the cursor stands at `cursor`. */
  ghost predicate Found(lo: Time, hi: Time, cs: seq<Interval>, n: nat, cursor: Time, gaps: seq<Interval>)
    requires n <= |cs|
  {
    && lo <= cursor
    && (forall j :: 0 <= j < n ==> cs[j].to + SLOT <= cursor)
    && Separate(gaps) && (forall i :: 0 <= i < |gaps| ==> gaps[i].to <= cursor)
    && forall t :: InGaps(gaps, t) <==> Inside(t, lo, hi) && t < cursor && !Covered(cs, t)
  }

  lemma GapFound(lo: Time, hi: Time, cs: seq<Interval>, n: nat, cursor: Time, t: Time)
    requires Listed(cs) && n < |cs| && (forall j :: 0 <= j < n ==> cs[j].to + SLOT <= cursor)
    requires cursor <= t < Max(cursor, cs[n].to + SLOT)
    ensures !Covered(cs, t) <==> t < cs[n].from
  {
    if t < cs[n].from {
      forall i | 0 <= i < |cs| ensures !Covers(cs[i], t) {}
    } else {
      assert Covers(cs[n], t);
    }
  }

  lemma LoopFinds(lo: Time, hi: Time, cs: seq<Interval>, n: nat, cursor: Time, gaps: seq<Interval>)
    requires Listed(cs) && n < |cs| && Found(lo, hi, cs, n, cursor, gaps)
    ensures var gapHi := Min(cs[n].from, hi);
      Found(lo, hi, cs, n + 1, Max(cursor, cs[n].to + SLOT), if gapHi > cursor then gaps + [Interval(cursor, gapHi)] else gaps)
  {
    var gapHi := Min(cs[n].from, hi);
    var gaps' := if gapHi > cursor then gaps + [Interval(cursor, gapHi)] else gaps;
    var cursor' := Max(cursor, cs[n].to + SLOT);
    forall t ensures InGaps(gaps', t) <==> Inside(t, lo, hi) && t < cursor' && !Covered(cs, t) {
      if gapHi > cursor { InGapsAppend(gaps, Interval(cursor, gapHi), t); }
      if cursor <= t < cursor' { GapFound(lo, hi, cs, n, cursor, t); }
    }
  }

  lemma EndFinds(lo: Time, hi: Time, cs: seq<Interval>, cursor: Time, gaps: seq<Interval>)
    requires Found(lo, hi, cs, |cs|, cursor, gaps)
    ensures var all := if hi > cursor then gaps + [Interval(cursor, hi)] else gaps;
      Separate(all) && forall t :: InGaps(all, t) <==> Inside(t, lo, hi) && !Covered(cs, t)
  {
    var all := if hi > cursor then gaps + [Interval(cursor, hi)] else gaps;
    forall t ensures InGaps(all, t) <==> Inside(t, lo, hi) && !Covered(cs, t) {
      if hi > cursor { InGapsAppend(gaps, Interval(cursor, hi), t); }
      if t >= cursor {
        forall i | 0 <= i < |cs| ensures !Covers(cs[i], t) {}
      }
    }
  }

  /** coldRawGaps finds exactly the uncovered instants of [lo, hi), as ordered disjoint intervals. */
  method ColdRawGaps(lo: Time, hi: Time, covered: seq<Interval>) returns (gaps: seq<Interval>)
    requires Listed(covered)
    ensures Separate(gaps)
    ensures forall t :: InGaps(gaps, t) <==> Inside(t, lo, hi) && !Covered(covered, t)
  {
    gaps := [];
    var cursor := lo;
    for i := 0 to |covered|
      invariant Found(lo, hi, covered, i, cursor, gaps)
    {
      LoopFinds(lo, hi, covered, i, cursor, gaps);
      var c := covered[i];
      var gapHi := c.from;
      if gapHi > hi { gapHi := hi; }
      if gapHi > cursor { gaps := gaps + [Interval(cursor, gapHi)]; }
      if c.to + SLOT > cursor { cursor := c.to + SLOT; }
    }
    EndFinds(lo, hi, covered, cursor, gaps);
    if hi > cursor { gaps := gaps + [Interval(cursor, hi)]; }
  }

  // ----- the partition -----

  datatype Plan = Plan(cold: seq<Interval>, rollup: Option<Interval>, raw: Option<Interval>)

  predicate Reads(i: Option<Interval>, t: Time) {
    i.Some? && Inside(t, i.value.from, i.value.to)
  }

  /** The reads of seriesHandler for one query, given what the archive covers. */
  method PlanReads(q: Query, covered: seq<Interval>) returns (p: Plan)
    requires WellPlanned(q) && Listed(covered)
    ensures forall t :: InGaps(p.cold, t) <==> Inside(t, Max(q.from, q.rawAvail), Min(q.coldCutoff, q.rawStart)) && !Covered(covered, t)
    ensures forall t :: Reads(p.rollup, t) <==> Inside(t, Max(q.from, q.coldCutoff), Min(q.to, q.rawStart))
    ensures forall t :: Reads(p.raw, t) <==> Inside(t, Max(q.from, q.rawStart), q.to)
    ensures Partitioned(q, covered, p) && Bounded(q, p)
  {
    var cold := [];
    var clamp := ColdRawClamp(q);
    if clamp.Some? { cold := ColdRawGaps(clamp.value.from, clamp.value.to, covered); }
    var caFrom := q.from;
    if caFrom < q.coldCutoff { caFrom := q.coldCutoff; }
    var caTo := q.to;
    if caTo > q.rawStart { caTo := q.rawStart; }
    var rawFrom := q.from;
    if rawFrom < q.rawStart { rawFrom := q.rawStart; }
    p := Plan(cold,
              if caTo > caFrom then Some(Interval(caFrom, caTo)) else None,
              if q.to > rawFrom then Some(Interval(rawFrom, q.to)) else None);
    ReadsPartition(q, covered, p);
  }

  /** No instant before the query or before raw retention is read from the raw samples, and none after the
      query by the aggregate or the live raw tier. */
  ghost predicate Bounded(q: Query, p: Plan) {
    && (forall t :: Reads(p.raw, t) || Reads(p.rollup, t) ==> Inside(t, q.from, q.to))
    && (forall t :: InGaps(p.cold, t) ==> Max(q.from, q.rawAvail) <= t < q.coldCutoff)
    && (forall t :: Reads(p.raw, t) ==> t >= q.rawAvail)
    && (forall t :: Reads(p.rollup, t) ==> t >= q.coldCutoff)
  }

  /** No instant is read twice, cold reads keep off what is archived, and nothing that is still
      stored raw is missed. */
  ghost predicate Partitioned(q: Query, covered: seq<Interval>, p: Plan) {
    && (forall t :: !(Reads(p.raw, t) && Reads(p.rollup, t)))
    && (forall t :: !(Reads(p.raw, t) && InGaps(p.cold, t)))
    && (forall t :: !(Reads(p.rollup, t) && InGaps(p.cold, t)))
    && (forall t :: InGaps(p.cold, t) ==> !Covered(covered, t))
    && (forall t :: Inside(t, Max(q.from, q.rawAvail), q.to) ==>
          Reads(p.raw, t) || Reads(p.rollup, t) || InGaps(p.cold, t) || Covered(covered, t))
  }

  lemma ReadsPartition(q: Query, covered: seq<Interval>, p: Plan)
    requires WellPlanned(q)
    requires forall t :: InGaps(p.cold, t) <==> Inside(t, Max(q.from, q.rawAvail), Min(q.coldCutoff, q.rawStart)) && !Covered(covered, t)
    requires forall t :: Reads(p.rollup, t) <==> Inside(t, Max(q.from, q.coldCutoff), Min(q.to, q.rawStart))
    requires forall t :: Reads(p.raw, t) <==> Inside(t, Max(q.from, q.rawStart), q.to)
    ensures Partitioned(q, covered, p) && Bounded(q, p)
  {}

  /** The cold reads do not stop at the end of the query: they go past it if and only if the query ends
      before the aggregate begins and before the live tail, and some instant from there on is still stored
      raw and not archived. */
  lemma PastTheEndExactly(q: Query, covered: seq<Interval>, p: Plan)
    requires WellPlanned(q)
    requires forall t :: InGaps(p.cold, t) <==> Inside(t, Max(q.from, q.rawAvail), Min(q.coldCutoff, q.rawStart)) && !Covered(covered, t)
    ensures (exists t :: InGaps(p.cold, t) && t >= q.to) <==>
      exists t :: Inside(t, Max(q.to, q.rawAvail), Min(q.coldCutoff, q.rawStart)) && !Covered(covered, t)
    ensures covered == [] ==> ((exists t :: InGaps(p.cold, t) && t >= q.to) <==> Max(q.to, q.rawAvail) < Min(q.coldCutoff, q.rawStart))
  {
    if t :| InGaps(p.cold, t) && t >= q.to {
      assert Inside(t, Max(q.to, q.rawAvail), Min(q.coldCutoff, q.rawStart)) && !Covered(covered, t);
    }
    if t :| Inside(t, Max(q.to, q.rawAvail), Min(q.coldCutoff, q.rawStart)) && !Covered(covered, t) {
      assert InGaps(p.cold, t) && t >= q.to;
    }
    var first := Max(q.to, q.rawAvail);
    assert covered == [] && first < Min(q.coldCutoff, q.rawStart) ==> Inside(first, first, Min(q.coldCutoff, q.rawStart)) && !Covered(covered, first);
  }

  // ----- counting samples -----

  /** The five-minute aggregate files a sample under the start of its slot. */
  function SlotOf(t: Time): Time { t - t % SLOT }

  /** A sample that both the aggregate and the raw tier would report. */
  ghost predicate CountedTwice(q: Query, t: Time) {
    Inside(t, Max(q.from, q.rawStart), q.to) && Inside(SlotOf(t), Max(q.from, q.coldCutoff), Min(q.to, q.rawStart))
  }

  /** Exactly when the cut between the two tiers falls inside a slot that the aggregate reads, some
      sample is counted twice. */
  lemma DoubleCountingExactly(q: Query)
    requires WellPlanned(q)
    ensures (exists t :: CountedTwice(q, t)) <==>
      q.rawStart % SLOT != 0 && Max(q.from, q.coldCutoff) <= SlotOf(q.rawStart) && q.rawStart < q.to
  {
    var cut := q.rawStart;
    if cut % SLOT != 0 && Max(q.from, q.coldCutoff) <= SlotOf(cut) && cut < q.to {
      assert CountedTwice(q, cut);
    }
    if exists t :: CountedTwice(q, t) {
      var t :| CountedTwice(q, t);
      SameSlot(SlotOf(t), cut, t);
    }
  }

  lemma SameSlot(b: Time, c: Time, t: Time)
    requires b == SlotOf(t) && b < c <= t
    ensures SlotOf(c) == b && c % SLOT != 0
  {
    assert b % SLOT == 0;
    assert 0 < c - b < SLOT;
    assert (c - b) % SLOT == c - b;
  }

  /** A rollup boundary that lies inside raw retention and comes from a step of whole slots cuts
      between slots: no sample is counted twice. */
  lemma NoDoubleCounting(q: Query, now: Time, step: int)
    requires WellPlanned(q) && step > 0 && step % CA_STEP == 0 && now >= ROLLUP_LIVE_TAIL
    requires q.rawStart == (Unix(now - ROLLUP_LIVE_TAIL) - GoMod(Unix(now - ROLLUP_LIVE_TAIL), step)) * SECOND
    ensures forall t :: !CountedTwice(q, t)
  {
    var u := Unix(now - ROLLUP_LIVE_TAIL);
    AlignedCut(u, step);
    DoubleCountingExactly(q);
  }

  lemma AlignedCut(u: int, step: int)
    requires u >= 0 && step > 0 && step % CA_STEP == 0
    ensures (u - GoMod(u, step)) % step == 0
    ensures ((u - GoMod(u, step)) * SECOND) % SLOT == 0
  {
    var k, m := u / step, step / CA_STEP;
    assert u == k * step + u % step;
    assert step == m * CA_STEP;
    assert (k * step) % step == 0 by { MultipleMod(k, step); }
    assert u - u % step == k * step == (k * m) * CA_STEP by { assert k * (m * CA_STEP) == (k * m) * CA_STEP; }
    assert (u - u % step) * SECOND == (k * m) * SLOT;
  }

  lemma MultipleMod(k: int, d: int)
    requires d > 0
    ensures (k * d) % d == 0
  {
    RemainderUnique(k * d, d, k, 0);
  }

  lemma RemainderUnique(a: int, d: int, k: int, r: int)
    requires d > 0 && a == k * d + r && 0 <= r < d
    ensures a % d == r && a / d == k
  {
    Split(a, d);
    assert (k - a / d) * d == a % d - r by { assert k * d - (a / d) * d == (k - a / d) * d; }
    LessThanOne(k - a / d, d);
  }

  lemma LessThanOne(k: int, d: int)
    requires d > 0 && -d < k * d < d
    ensures k == 0
  {}

  // ----- output buckets -----

  /** The bucket of the answer that a row at `t` goes to; `origin` is where the database starts counting. */
  function BucketOf(t: Time, width: int, origin: Time): int
    requires width > 0
  {
    (t - origin) / width
  }

  predicate OnSlot(b: Time) { b % SLOT == 0 }

  ghost predicate NeverMixed(cut: Time, width: int, origin: Time)
    requires width > 0
  {
    forall b, t :: OnSlot(b) && b < cut <= t ==> BucketOf(b, width, origin) != BucketOf(t, width, origin)
  }

  /** No bucket of the answer mixes slots before the cut with samples after it, if and only if the cut
      is a bucket edge. */
  lemma TiersNeverMixExactly(cut: Time, width: int, origin: Time)
    requires width > 0 && OnSlot(width) && OnSlot(cut) && OnSlot(origin)
    ensures NeverMixed(cut, width, origin) <==> (cut - origin) % width == 0
  {
    if (cut - origin) % width == 0 {
      EdgeNeverMixes(cut, width, origin);
    } else {
      MixedAtCut(cut, width, origin);
    }
  }

  /** At a rollup boundary with a step of whole slots, no bucket mixes the two tiers if and only if the
      origin from which the database counts its buckets is a multiple of the step. */
  lemma BoundaryNeverMixesExactly(now: Time, step: int, origin: Time)
    requires step > 0 && step % CA_STEP == 0 && now >= ROLLUP_LIVE_TAIL && OnSlot(origin)
    ensures var cut := (Unix(now - ROLLUP_LIVE_TAIL) - GoMod(Unix(now - ROLLUP_LIVE_TAIL), step)) * SECOND;
      NeverMixed(cut, step * SECOND, origin) <==> origin % (step * SECOND) == 0
  {
    var u, width := Unix(now - ROLLUP_LIVE_TAIL), step * SECOND;
    var whole := u - GoMod(u, step);
    var cut := whole * SECOND;
    AlignedCut(u, step);
    var k, m := whole / step, step / CA_STEP;
    Split(whole, step);
    assert cut == k * width by { assert k * step * SECOND == k * (step * SECOND); }
    assert width == m * SLOT && OnSlot(width) by { MultipleMod(m, SLOT); }
    TiersNeverMixExactly(cut, width, origin);
    SameEdge(k, origin, width);
  }

  lemma SameEdge(k: int, origin: int, width: int)
    requires width > 0
    ensures (k * width - origin) % width == 0 <==> origin % width == 0
  {
    Split(origin, width);
    Split(k * width - origin, width);
    var q, p := origin / width, (k * width - origin) / width;
    if origin % width == 0 {
      assert k * width - q * width == (k - q) * width;
      MultipleMod(k - q, width);
    }
    if (k * width - origin) % width == 0 {
      assert k * width - p * width == (k - p) * width;
      MultipleMod(k - p, width);
    }
  }

  // Monday 2000-01-03, from which time_bucket counts
  const BUCKET_ORIGIN := 946857600 * SECOND

  /** The listed steps never mix tiers; a step of 2100 seconds does. */
  lemma ListedStepsNeverMix(now: Time, step: int)
    requires IsListed(step) && step >= 300 && now >= ROLLUP_LIVE_TAIL
    ensures var u := Unix(now - ROLLUP_LIVE_TAIL); NeverMixed((u - GoMod(u, step)) * SECOND, step * SECOND, BUCKET_ORIGIN)
    ensures var u := Unix(now - ROLLUP_LIVE_TAIL); !NeverMixed((u - GoMod(u, 2100)) * SECOND, 2100 * SECOND, BUCKET_ORIGIN)
  {
    hide NeverMixed, GoMod, Unix;
    BoundaryNeverMixesExactly(now, step, BUCKET_ORIGIN);
    BoundaryNeverMixesExactly(now, 2100, BUCKET_ORIGIN);
    assert step == 300 || step == 600 || step == 900 || step == 1800 || step == 3600;
  }

  lemma EdgeNeverMixes(cut: Time, width: int, origin: Time)
    requires width > 0 && (cut - origin) % width == 0
    ensures NeverMixed(cut, width, origin)
  {
    hide OnSlot;
    forall b, t | OnSlot(b) && b < cut <= t ensures BucketOf(b, width, origin) != BucketOf(t, width, origin) {
      EdgeSeparates(b - origin, cut - origin, t - origin, width);
    }
  }

  lemma MixedAtCut(cut: Time, width: int, origin: Time)
    requires width > 0 && OnSlot(width) && OnSlot(cut) && OnSlot(origin) && (cut - origin) % width != 0
    ensures OnSlot(cut - SLOT) && BucketOf(cut - SLOT, width, origin) == BucketOf(cut, width, origin)
    ensures !NeverMixed(cut, width, origin)
  {
    OnSlotDifference(cut, origin);
    OnSlotDifference(cut, SLOT);
    SharedBucket(cut - origin, width);
  }

  lemma OnSlotDifference(a: int, b: int)
    requires OnSlot(a) && OnSlot(b)
    ensures OnSlot(a - b)
  {}

  lemma SharedBucket(e: int, width: int)
    requires width > 0 && width % SLOT == 0 && e % SLOT == 0 && e % width != 0
    ensures (e - SLOT) / width == e / width
  {
    Split(e, width);
    SlotRemainder(e, width);
    AtLeastSlot(e % width);
    RemainderUnique(e - SLOT, width, e / width, e % width - SLOT);
  }

  lemma AtLeastSlot(r: int)
    requires r > 0 && r % SLOT == 0
    ensures r >= SLOT
  {}

  lemma EdgeSeparates(b: int, edge: int, t: int, width: int)
    requires width > 0 && edge % width == 0 && b < edge <= t
    ensures b / width < edge / width <= t / width
  {
    Split(b, width);
    Split(edge, width);
    Split(t, width);
    MulLess(b / width, edge / width, width);
    assert (t / width + 1) * width == (t / width) * width + width;
    MulLess(edge / width, t / width + 1, width);
  }

  /** A multiple of the slot leaves a multiple of the slot. */
  lemma SlotRemainder(a: int, width: int)
    requires width > 0 && width % SLOT == 0 && a % SLOT == 0
    ensures (a % width) % SLOT == 0
  {
    var k, m, n := a / width, width / SLOT, a / SLOT;
    assert a % width == a - k * width;
    assert k * width == (k * m) * SLOT by { assert width == m * SLOT; assert k * (m * SLOT) == (k * m) * SLOT; }
    assert a % width == (n - k * m) * SLOT;
    MultipleMod(n - k * m, SLOT);
  }

  // ----- which samples are read at all -----

  ghost predicate SampleRead(q: Query, covered: seq<Interval>, t: Time) {
    || Inside(t, Max(q.from, q.rawStart), q.to)
    || Inside(SlotOf(t), Max(q.from, q.coldCutoff), Min(q.to, q.rawStart))
    || (Inside(t, Max(q.from, q.rawAvail), Min(q.coldCutoff, q.rawStart)) && !Covered(covered, t))
  }

  /** Of the samples in the queried part of raw retention that the archive does not cover, exactly
      those are read by no tier whose slot begins before the aggregate's share of the query. */
  lemma UnreadExactly(q: Query, covered: seq<Interval>, t: Time)
    requires WellPlanned(q) && Inside(t, Max(q.from, q.rawAvail), q.to) && !Covered(covered, t)
    ensures !SampleRead(q, covered, t) <==> Inside(t, Max(q.from, q.coldCutoff), Min(q.to, q.rawStart)) && SlotOf(t) < Max(q.from, q.coldCutoff)
  {
    assert SlotOf(t) <= t;
  }

  // ----- steps that the server picks itself -----

  /** The widened step of a range that is too long for hourly buckets. */
  function LongStep(spanSeconds: nat): int {
    (spanSeconds + MAX_BUCKETS - 1) / MAX_BUCKETS
  }

  /** seriesHandler's step for a request that names none: a listed one for every range of up to ten
      thousand whole hours. At a rollup boundary it is whole slots exactly for those ranges and for the
      longer ones whose widened step happens to be a multiple of 300. */
  method AutoStep(spanSeconds: nat, intervalS: int) returns (step: int)
    ensures spanSeconds / 3600 <= MAX_BUCKETS ==> IsListed(step)
    ensures spanSeconds / 3600 > MAX_BUCKETS ==> step == LongStep(spanSeconds)
    ensures step > 0
    ensures Max(step, CA_STEP) % CA_STEP == 0 <==>
      spanSeconds / 3600 <= MAX_BUCKETS || LongStep(spanSeconds) % CA_STEP == 0
  {
    step := ChooseStep(spanSeconds, intervalS);
    if spanSeconds / 3600 <= MAX_BUCKETS { PointsBound(spanSeconds, step); }
    step := ClampStep(spanSeconds, step);
  }

  lemma PointsBound(span: nat, step: int)
    requires step > 0 && span / 3600 <= MAX_BUCKETS && (step >= span / 720 || step == 3600)
    ensures span / step <= MAX_BUCKETS
  {
    if step != 3600 {
      Split(span, 720);
      assert span <= step * 720 + 719;
      assert step * 720 + 719 <= step * (720 + 719);
      QuotientBound(span, step, 1439);
    }
  }

  /** A request for 40,000,000 seconds that names no step: the server picks 4000 s, the boundary falls
      inside a slot, and its samples count twice. */
  lemma LongRangeCountsTwice()
    ensures var now := 40_004_900 * SECOND;
      var q := Query(4_900 * SECOND, now, 0, 0, 40_004_000 * SECOND);
      && q.to - q.from == 40_000_000 * SECOND && 40_000_000 / 3600 > MAX_BUCKETS && LongStep(40_000_000) == 4000
      && q.rawStart == (Unix(now - ROLLUP_LIVE_TAIL) - GoMod(Unix(now - ROLLUP_LIVE_TAIL), 4000)) * SECOND
      && WellPlanned(q) && CountedTwice(q, q.rawStart)
  {
    assert Unix(40_004_900 * SECOND - ROLLUP_LIVE_TAIL) == 40_004_000;
  }

  /** A requested step of 450 seconds puts the boundary inside a slot: its samples count twice. */
  lemma RequestedStepCountsTwice()
    ensures var now, step := 451350 * SECOND, 450;
      var q := Query(407250 * SECOND, 450550 * SECOND, 0, 0, 450450 * SECOND);
      && q.to - q.from >= ROLLUP_MIN_RANGE
      && q.rawStart == (Unix(now - ROLLUP_LIVE_TAIL) - GoMod(Unix(now - ROLLUP_LIVE_TAIL), step)) * SECOND
      && WellPlanned(q) && CountedTwice(q, q.rawStart)
  {
    assert Unix(451350 * SECOND - ROLLUP_LIVE_TAIL) == 450450;
  }

  // ----- a whole request -----

  /** seriesHandler's step, and its part of the plan, for one request. */
  method ServeSeries(now: Time, from: Time, to: Time, requested: int, intervalS: int, coldRetention: nat, rawRetention: nat, covered: seq<Interval>)
    returns (step: int, q: Query, p: Plan)
    requires from < to && Listed(covered)
    ensures step > 0 && (requested > 0 && intervalS <= requested && (to - from) / SECOND / requested <= 10000 ==> step in {requested, 300})
    ensures requested > 0 && requested < intervalS && (to - from) / SECOND / intervalS <= 10000 ==> step in {intervalS, 300}
    ensures requested <= 0 && (to - from) / SECOND / 3600 <= 10000 ==> IsListed(step)
    ensures q == Query(from, to, now - coldRetention, now - rawRetention, q.rawStart) && WellPlanned(q)
    ensures q.rawStart != q.rawAvail ==> to - from >= 12 * 3600 * SECOND && step >= 300
    ensures Partitioned(q, covered, p) && Bounded(q, p)
    ensures forall t :: Reads(p.rollup, t) <==> Inside(t, Max(from, q.coldCutoff), Min(to, q.rawStart))
    ensures forall t :: Reads(p.raw, t) <==> Inside(t, Max(from, q.rawStart), to)
    ensures now >= ROLLUP_LIVE_TAIL && q.rawStart != q.rawAvail ==>
      && q.rawStart % (step * SECOND) == 0 && q.rawStart <= now - 900 * SECOND < q.rawStart + step * SECOND
      && (step % 300 == 0 ==> forall t :: !CountedTwice(q, t))
    ensures now >= ROLLUP_LIVE_TAIL && to - from >= 12 * 3600 * SECOND && rawRetention >= (900 + step) * SECOND ==> q.rawStart != q.rawAvail
  {
    step := RequestStep((to - from) / SECOND, requested, intervalS);
    var boundary;
    boundary, step := RollupBoundary(now, from, to, step);
    var rawStart := now - rawRetention;
    if boundary.Some? {
      if boundary.value > rawStart { rawStart := boundary.value; }
      if now >= ROLLUP_LIVE_TAIL { LastMultiple(now, step); }
    }
    q := Query(from, to, now - coldRetention, now - rawRetention, rawStart);
    p := PlanReads(q, covered);
    if now >= ROLLUP_LIVE_TAIL && rawStart != q.rawAvail && step % 300 == 0 { NoDoubleCounting(q, now, step); }
  }

  /** The boundary is the last multiple of the step that is not in the live tail. */
  lemma LastMultiple(now: Time, step: int)
    requires now >= ROLLUP_LIVE_TAIL && step > 0
    ensures var b := (Unix(now - ROLLUP_LIVE_TAIL) - GoMod(Unix(now - ROLLUP_LIVE_TAIL), step)) * SECOND;
      b % (step * SECOND) == 0 && b <= now - ROLLUP_LIVE_TAIL < b + step * SECOND
  {
    var u := Unix(now - ROLLUP_LIVE_TAIL);
    var r := GoMod(u, step);
    Split(u - r, step);
    var k := (u - r) / step;
    assert (u - r) * SECOND == k * (step * SECOND) by { assert k * step * SECOND == k * (step * SECOND); }
    MultipleMod(k, step * SECOND);
  }

  method RequestStep(spanSeconds: nat, requested: int, intervalS: int) returns (step: int)
    ensures step > 0
    ensures requested <= 0 && spanSeconds / 3600 <= 10000 ==> IsListed(step)
    ensures requested > 0 && spanSeconds / Max(requested, intervalS) <= 10000 ==> step == Max(requested, intervalS)
    ensures requested > 0 && spanSeconds / Max(requested, intervalS) > 10000 ==> (step - 1) * 10000 < spanSeconds <= step * 10000
  {
    if requested <= 0 {
      step := AutoStep(spanSeconds, intervalS);
    } else {
      step := if intervalS > 0 && requested < intervalS then intervalS else requested;
      step := ClampStep(spanSeconds, step);
    }
  }
}
