/** The backup node's own list of targets: who may write where, and how many bytes they use. The server's
    list replaces it, measurements and uploads change the usage, and reports carry it back. */
module Registry {
  import opened Options

  type Hash = seq<nat>

  datatype Target = Target(id: int, hash: Hash, quota: int, used: int, revoked: bool, ready: bool, dirty: bool)

  /** One target of a server configuration; `raw` is the hex-decoded secret hash, if it decodes. */
  datatype TargetInfo = TargetInfo(name: string, raw: Option<seq<nat>>, quota: int, revoked: bool)

  datatype UsageEntry = UsageEntry(name: string, used: int)

  /** The registry as a value: what the mutex protects. */
  datatype Book = Book(byName: map<string, Target>, byId: map<int, string>, nextId: int)

  const EMPTY: Book := Book(map[], map[], 1)

  // ----- what each call does to the book -----

  function ReserveOn(t: Target, delta: int): (bool, Target) {
    if t.revoked || !t.ready || (t.quota > 0 && (delta > t.quota || t.used > t.quota - delta)) then (false, t)
    else (true, t.(used := t.used + delta, dirty := true))
  }

  function ReleaseOn(t: Target, delta: int): Target {
    t.(used := if t.used - delta < 0 then 0 else t.used - delta, dirty := true)
  }

  function UsableHash(t: TargetInfo): bool {
    t.raw.Some? && |t.raw.value| == 32
  }

  function Admit(b: Book, t: TargetInfo): Book {
    if !UsableHash(t) then b
    else if t.name in b.byName then
      b.(byName := b.byName[t.name := b.byName[t.name].(hash := t.raw.value, quota := t.quota, revoked := t.revoked)])
    else
      Book(b.byName[t.name := Target(b.nextId, t.raw.value, t.quota, 0, t.revoked, false, false)],
           b.byId[b.nextId := t.name],
           b.nextId + 1)
  }

  /** A target whose usage has to be measured: new, not yet measured, or with a new secret. */
  predicate NeedsMeasuring(b: Book, t: TargetInfo) {
    UsableHash(t) && (t.name in b.byName ==> !b.byName[t.name].ready || b.byName[t.name].hash != t.raw.value)
  }

  function AdmitAll(b: Book, ts: seq<TargetInfo>): Book {
    if ts == [] then b else Admit(AdmitAll(b, ts[..|ts| - 1]), ts[|ts| - 1])
  }

  function Added(b: Book, ts: seq<TargetInfo>): seq<TargetInfo> {
    if ts == [] then []
    else
      var t := ts[|ts| - 1];
      Added(b, ts[..|ts| - 1]) + (if NeedsMeasuring(AdmitAll(b, ts[..|ts| - 1]), t) then [t] else [])
  }

  function Names(ts: seq<TargetInfo>): set<string> {
    set t | t in ts :: t.name
  }

  function KeepOnly(b: Book, seen: set<string>): Book {
    b.(byName := map n | n in b.byName && n in seen :: b.byName[n],
       byId := map i | i in b.byId && b.byId[i] in seen :: b.byId[i])
  }

  function SetUsed(b: Book, name: string, used: int): Book {
    if name in b.byName then b.(byName := b.byName[name := b.byName[name].(used := used, ready := true, dirty := true)]) else b
  }

  function Clean(b: Book): Book {
    b.(byName := map n | n in b.byName :: b.byName[n].(dirty := false))
  }

  function Reserve(b: Book, id: int, delta: int): (bool, Book) {
    if delta == 0 then (true, b)
    else if id !in b.byId || b.byId[id] !in b.byName then (false, b)
    else
      var (ok, t) := ReserveOn(b.byName[b.byId[id]], delta);
      (ok, b.(byName := b.byName[b.byId[id] := t]))
  }

  function Release(b: Book, id: int, delta: int): Book {
    if delta <= 0 || id !in b.byId || b.byId[id] !in b.byName then b
    else b.(byName := b.byName[b.byId[id] := ReleaseOn(b.byName[b.byId[id]], delta)])
  }

  function MarkDirty(b: Book, es: seq<UsageEntry>): Book {
    b.(byName := map n | n in b.byName ::
         if exists i :: 0 <= i < |es| && es[i].name == n then b.byName[n].(dirty := true) else b.byName[n])
  }

  // ----- the two indexes agree -----

  ghost predicate Valid(b: Book) {
    && (forall n :: n in b.byName ==> b.byName[n].id in b.byId && b.byId[b.byName[n].id] == n)
    && (forall i :: i in b.byId ==> i < b.nextId && b.byId[i] in b.byName && b.byName[b.byId[i]].id == i)
  }

  /** A registry guarded by its mutex: each method is one critical section. */
  class LocalRegistry {
    var byName: map<string, Target>
    var byId: map<int, string>
    var nextId: int

    function Value(): Book reads this { Book(byName, byId, nextId) }

    constructor ()
      ensures Value() == EMPTY && Valid(Value())
    {
      byName, byId, nextId := map[], map[], 1;
    }

    method ReplaceTargets(targets: seq<TargetInfo>) returns (added: seq<TargetInfo>)
      requires Valid(Value())
      modifies this
      ensures Valid(Value())
      ensures Value() == KeepOnly(AdmitAll(old(Value()), targets), Names(targets))
      ensures added == Added(old(Value()), targets)
    {
      ghost var start := Value();
      var seen: set<string> := {};
      added := [];
      for i := 0 to |targets|
        invariant Valid(Value()) && Value() == AdmitAll(start, targets[..i])
        invariant seen == Names(targets[..i])
        invariant added == Added(start, targets[..i])
      {
        assert targets[..i + 1][..i] == targets[..i] && targets[..i + 1][i] == targets[i];
        seen := seen + {targets[i].name};
        var measure := AdmitTarget(targets[i]);
        if measure {
          added := added + [targets[i]];
        }
      }
      assert targets[..|targets|] == targets;
      DropUnseen(seen);
    }

    method AdmitTarget(t: TargetInfo) returns (measure: bool)
      requires Valid(Value())
      modifies this
      ensures Valid(Value()) && Value() == Admit(old(Value()), t) && measure == NeedsMeasuring(old(Value()), t)
    {
      if t.raw.None? || |t.raw.value| != 32 { return false; }
      if t.name in byName {
        var existing := byName[t.name];
        var rebound := existing.hash != t.raw.value;
        byName := byName[t.name := existing.(hash := t.raw.value, quota := t.quota, revoked := t.revoked)];
        return !existing.ready || rebound;
      }
      var id := nextId;
      nextId := nextId + 1;
      byName := byName[t.name := Target(id, t.raw.value, t.quota, 0, t.revoked, false, false)];
      byId := byId[id := t.name];
      return true;
    }

    method DropUnseen(seen: set<string>)
      requires Valid(Value())
      modifies this
      ensures Valid(Value()) && Value() == KeepOnly(old(Value()), seen)
    {
      ghost var full := Value();
      var names := byName.Keys;
      KeepAll(full, seen);
      while names != {}
        invariant names <= full.byName.Keys && Value() == KeepOnly(full, names + seen)
      {
        var name :| name in names;
        KeepLess(full, names + seen, name);
        if name !in seen {
          assert names - {name} + seen == names + seen - {name};
          byId := byId - {byName[name].id};
          byName := byName - {name};
        } else {
          assert names - {name} + seen == names + seen;
        }
        names := names - {name};
      }
      assert names + seen == seen;
      KeepOnlyValid(full, seen);
    }

    method SetUsage(name: string, used: int)
      requires Valid(Value())
      modifies this
      ensures Valid(Value()) && Value() == SetUsed(old(Value()), name, used)
      ensures name in byName ==> byName[name].used == used && byName[name].ready && byName[name].dirty
    {
      if name in byName {
        byName := byName[name := byName[name].(used := used, ready := true, dirty := true)];
      }
    }

    /** Only a measured, unrevoked target with the right secret resolves. */
    method ResolveTarget(repo: string, candidate: Hash) returns (id: int, quota: int, used: int, ok: bool)
      ensures ok <==> repo in byName && byName[repo].hash == candidate && !byName[repo].revoked && byName[repo].ready
      ensures ok ==> id == byName[repo].id && quota == byName[repo].quota && used == byName[repo].used
    {
      if repo !in byName { return 0, 0, 0, false; }
      var t := byName[repo];
      if t.hash != candidate { return 0, 0, 0, false; }
      if t.revoked || !t.ready { return 0, 0, 0, false; }
      return t.id, t.quota, t.used, true;
    }

    /** `ok` is None for the error of a negative delta. */
    method ReserveUsage(id: int, delta: int) returns (ok: Option<bool>)
      requires Valid(Value())
      modifies this
      ensures Valid(Value())
      ensures delta < 0 ==> ok.None? && Value() == old(Value())
      ensures delta >= 0 ==> (ok, Value()) == (Some(Reserve(old(Value()), id, delta).0), Reserve(old(Value()), id, delta).1)
    {
      if delta < 0 { return None; }
      if delta == 0 { return Some(true); }
      if id !in byId { return Some(false); }
      var t := byName[byId[id]];
      if t.revoked || !t.ready || (t.quota > 0 && (delta > t.quota || t.used > t.quota - delta)) {
        assert byName == byName[byId[id] := t];
        return Some(false);
      }
      byName := byName[byId[id] := t.(used := t.used + delta, dirty := true)];
      return Some(true);
    }

    method ReleaseUsage(id: int, delta: int)
      requires Valid(Value())
      modifies this
      ensures Valid(Value()) && Value() == Release(old(Value()), id, delta)
    {
      if delta <= 0 || id !in byId { return; }
      var t := byName[byId[id]];
      t := t.(used := t.used - delta);
      if t.used < 0 { t := t.(used := 0); }
      byName := byName[byId[id] := t.(dirty := true)];
    }

    /** Each dirty target is reported once, in any order, and is then clean. */
    method UsageSnapshot() returns (out: seq<UsageEntry>)
      requires Valid(Value())
      modifies this
      ensures Valid(Value()) && Value() == Clean(old(Value()))
      ensures forall n, u :: UsageEntry(n, u) in out <==> n in old(byName) && old(byName)[n].dirty && old(byName)[n].used == u
      ensures forall i, j :: 0 <= i < j < |out| ==> out[i].name != out[j].name
    {
      out := [];
      var names := byName.Keys;
      while names != {}
        invariant names <= old(byName).Keys && byId == old(byId) && nextId == old(nextId)
        invariant byName == map n | n in old(byName) :: if n in names then old(byName)[n] else old(byName)[n].(dirty := false)
        invariant forall n, u :: UsageEntry(n, u) in out <==>
          n in old(byName) && n !in names && old(byName)[n].dirty && old(byName)[n].used == u
        invariant forall i, j :: 0 <= i < j < |out| ==> out[i].name != out[j].name
      {
        var name :| name in names;
        var t := byName[name];
        names := names - {name};
        if t.dirty {
          assert forall i :: 0 <= i < |out| ==> out[i] in out && out[i] == UsageEntry(out[i].name, out[i].used) && out[i].name != name;
          out := out + [UsageEntry(name, t.used)];
          byName := byName[name := t.(dirty := false)];
        }
      }
    }

    method RestoreDirty(entries: seq<UsageEntry>)
      requires Valid(Value())
      modifies this
      ensures Valid(Value()) && Value() == MarkDirty(old(Value()), entries)
    {
      for i := 0 to |entries|
        invariant byId == old(byId) && nextId == old(nextId)
        invariant byName == MarkDirty(old(Value()), entries[..i]).byName
      {
        assert entries[..i + 1] == entries[..i] + [entries[i]];
        if entries[i].name in byName {
          byName := byName[entries[i].name := byName[entries[i].name].(dirty := true)];
        }
      }
      assert entries[..|entries|] == entries;
    }
  }

  lemma AdmitValid(b: Book, t: TargetInfo)
    requires Valid(b)
    ensures Valid(Admit(b, t))
  {}

  lemma KeepOnlyValid(b: Book, seen: set<string>)
    requires Valid(b)
    ensures Valid(KeepOnly(b, seen))
  {}

  lemma KeepAll(b: Book, seen: set<string>)
    requires Valid(b)
    ensures KeepOnly(b, b.byName.Keys + seen) == b
  {
    assert KeepOnly(b, b.byName.Keys + seen).byName == b.byName;
    var k := KeepOnly(b, b.byName.Keys + seen);
    forall i | i in b.byId ensures i in k.byId { assert b.byId[i] in b.byName; }
    assert k.byId == b.byId;
  }

  lemma KeepLess(b: Book, seen: set<string>, name: string)
    requires Valid(b) && name in b.byName && name in seen
    ensures var k := KeepOnly(b, seen);
      && name in k.byName
      && KeepOnly(b, seen - {name}) == k.(byName := k.byName - {name}, byId := k.byId - {k.byName[name].id})
  {
    var k := KeepOnly(b, seen);
    assert KeepOnly(b, seen - {name}).byName == k.byName - {name};
    var less := KeepOnly(b, seen - {name});
    forall i | i in b.byId ensures i in less.byId <==> i in k.byId && i != b.byName[name].id {
      assert b.byName[b.byId[i]].id == i;
    }
    assert less.byId == k.byId - {k.byName[name].id};
  }

  // ----- over whole histories -----

  datatype Op =
    | Replacing(targets: seq<TargetInfo>)
    | Measuring(name: string, used: int)
    | Reserving(id: int, delta: int)
    | Releasing(id: int, delta: int)
    | Snapshotting
    | Restoring(entries: seq<UsageEntry>)

  function Do(b: Book, op: Op): Book {
    match op
    case Replacing(ts) => KeepOnly(AdmitAll(b, ts), Names(ts))
    case Measuring(name, used) => SetUsed(b, name, used)
    case Reserving(id, delta) => if delta < 0 then b else Reserve(b, id, delta).1
    case Releasing(id, delta) => Release(b, id, delta)
    case Snapshotting => Clean(b)
    case Restoring(es) => MarkDirty(b, es)
  }

  function DoAll(b: Book, ops: seq<Op>): Book {
    if ops == [] then b else Do(DoAll(b, ops[..|ops| - 1]), ops[|ops| - 1])
  }

  /** `b'` continues `b`: a number handed out in `b` still means what it meant, or nothing. */
  ghost predicate Continues(b: Book, b': Book) {
    && b.nextId <= b'.nextId
    && forall i :: i in b'.byId && i < b.nextId ==> i in b.byId && b'.byId[i] == b.byId[i]
  }

  lemma {:induction false} AdmitAllContinues(b: Book, ts: seq<TargetInfo>)
    requires Valid(b)
    ensures forall k :: 0 <= k <= |ts| ==> Valid(AdmitAll(b, ts[..k])) && Continues(b, AdmitAll(b, ts[..k]))
  {
    if ts != [] {
      var n := |ts| - 1;
      AdmitAllContinues(b, ts[..n]);
      assert ts[..n][..n] == ts[..n];
      AdmitValid(AdmitAll(b, ts[..n]), ts[n]);
      hide Valid;
      forall k | 0 <= k <= |ts| ensures Valid(AdmitAll(b, ts[..k])) && Continues(b, AdmitAll(b, ts[..k])) {
        if k < |ts| { assert ts[..n][..k] == ts[..k]; } else { assert ts[..k] == ts; }
      }
    }
  }

  lemma DoContinues(b: Book)
    requires Valid(b)
    ensures forall op :: Valid(Do(b, op)) && Continues(b, Do(b, op))
  {
    forall op ensures Valid(Do(b, op)) && Continues(b, Do(b, op)) {
      if op.Replacing? {
        AdmitAllContinues(b, op.targets);
        assert op.targets[..|op.targets|] == op.targets;
        KeepOnlyValid(AdmitAll(b, op.targets), Names(op.targets));
      }
    }
  }

  /** The last entry of a list for the name whose secret is usable. */
  function Listing(ts: seq<TargetInfo>, n: string): Option<TargetInfo> {
    if ts == [] then None
    else
      var t := ts[|ts| - 1];
      if t.name == n && UsableHash(t) then Some(t) else Listing(ts[..|ts| - 1], n)
  }

  /** The target carries what the list says, and keeps its number, usage and measurement; a new one starts
      without any. */
  ghost predicate Listed(old_: Option<Target>, now: Target, t: Option<TargetInfo>) {
    && (t.Some? ==> t.value.raw == Some(now.hash) && now.quota == t.value.quota && now.revoked == t.value.revoked)
    && (t.None? ==> old_ == Some(now))
    && (old_.Some? ==> now.id == old_.value.id && now.used == old_.value.used && now.ready == old_.value.ready && now.dirty == old_.value.dirty)
    && (old_.None? ==> now.used == 0 && !now.ready && !now.dirty)
  }

  function Find(b: Book, n: string): Option<Target> {
    if n in b.byName then Some(b.byName[n]) else None
  }

  lemma {:induction false} AdmittedByName(b: Book, ts: seq<TargetInfo>, n: string)
    ensures var r := AdmitAll(b, ts);
      && (n in r.byName <==> n in b.byName || Listing(ts, n).Some?)
      && (n in r.byName ==> Listed(Find(b, n), r.byName[n], Listing(ts, n)))
  {
    if ts != [] {
      AdmittedByName(b, ts[..|ts| - 1], n);
      hide AdmitAll, Listing;
      assert AdmitAll(b, ts) == Admit(AdmitAll(b, ts[..|ts| - 1]), ts[|ts| - 1]) by { AdmitLast(b, ts); }
      assert Listing(ts, n) == (if ts[|ts| - 1].name == n && UsableHash(ts[|ts| - 1]) then Some(ts[|ts| - 1]) else Listing(ts[..|ts| - 1], n)) by { ListLast(ts, n); }
    }
  }

  lemma AdmitLast(b: Book, ts: seq<TargetInfo>)
    requires ts != []
    ensures AdmitAll(b, ts) == Admit(AdmitAll(b, ts[..|ts| - 1]), ts[|ts| - 1])
  {}

  lemma ListLast(ts: seq<TargetInfo>, n: string)
    requires ts != []
    ensures var t := ts[|ts| - 1];
      Listing(ts, n) == if t.name == n && UsableHash(t) then Some(t) else Listing(ts[..|ts| - 1], n)
  {}

  /** After a list of targets, name by name: exactly the listed names that were known or have a usable secret
      are there; each carries the hash, quota and revocation of its last usable entry; and a known target
      keeps its number, its usage and whether it was measured. */
  lemma ReplacedByName(b: Book, ts: seq<TargetInfo>, n: string)
    ensures var r := Do(b, Replacing(ts));
      && (n in r.byName <==> n in Names(ts) && (n in b.byName || Listing(ts, n).Some?))
      && (n in r.byName ==> Listed(Find(b, n), r.byName[n], Listing(ts, n)))
  {
    AdmittedByName(b, ts, n);
  }

  /** Which targets of a list with distinct names are to be measured: those that are new, that have not been
      measured yet, or whose secret has changed. */
  lemma {:induction false} AddedByName(b: Book, ts: seq<TargetInfo>)
    requires forall i, j :: 0 <= i < j < |ts| ==> ts[i].name != ts[j].name
    ensures forall t :: t in Added(b, ts) <==>
      t in ts && UsableHash(t) && !(t.name in b.byName && b.byName[t.name].ready && b.byName[t.name].hash == t.raw.value)
  {
    if ts != [] {
      var n := |ts| - 1;
      AddedByName(b, ts[..n]);
      AdmittedByName(b, ts[..n], ts[n].name);
      Unlisted(ts[..n], ts[n].name);
      assert ts[..n] + [ts[n]] == ts;
      hide AdmitAll, Listing;
    }
  }

  lemma {:induction false} Unlisted(ts: seq<TargetInfo>, n: string)
    requires forall t :: t in ts ==> t.name != n
    ensures Listing(ts, n).None?
  {
    if ts != [] { Unlisted(ts[..|ts| - 1], n); }
  }

  /** Throughout every history the indexes stay inverse to each other and no id is ever used again. */
  lemma {:induction false} IdsNeverReused(b: Book, ops: seq<Op>)
    requires Valid(b)
    ensures forall k :: 0 <= k <= |ops| ==> Valid(DoAll(b, ops[..k])) && Continues(b, DoAll(b, ops[..k]))
  {
    hide Valid;
    if ops != [] {
      var n := |ops| - 1;
      IdsNeverReused(b, ops[..n]);
      assert ops[..n][..n] == ops[..n];
      DoContinues(DoAll(b, ops[..n]));
      forall k | 0 <= k <= |ops| ensures Valid(DoAll(b, ops[..k])) && Continues(b, DoAll(b, ops[..k])) {
        if k < |ops| { assert ops[..n][..k] == ops[..k]; } else { assert ops[..k] == ops; }
      }
    }
  }

  /** An id whose target was removed changes nothing, however much happens in between. */
  lemma StaleIdIsHarmless(b: Book, id: int, ops: seq<Op>, delta: int)
    requires Valid(b) && id < b.nextId && id !in b.byId
    ensures var later := DoAll(b, ops);
      && Release(later, id, delta) == later
      && Reserve(later, id, delta) == (delta == 0, later)
  {
    IdsNeverReused(b, ops);
    assert ops[..|ops|] == ops;
  }

  /** A live id changes its own target and no other. */
  lemma IdChangesOwnTargetOnly(b: Book, id: int, delta: int, n: string)
    requires Valid(b) && n in b.byName && b.byName[n].id != id
    ensures var r := Reserve(b, id, delta).1; n in r.byName && r.byName[n] == b.byName[n]
    ensures var r := Release(b, id, delta); n in r.byName && r.byName[n] == b.byName[n]
  {}

  ghost predicate NonNegative(b: Book) {
    forall n :: n in b.byName ==> b.byName[n].used >= 0
  }

  lemma {:induction false} AdmitAllNonNegative(b: Book, ts: seq<TargetInfo>)
    requires NonNegative(b)
    ensures NonNegative(AdmitAll(b, ts))
  {
    if ts != [] { AdmitAllNonNegative(b, ts[..|ts| - 1]); }
  }

  /** Recorded usage never goes negative when every measurement is non-negative. */
  lemma {:induction false} UsageNeverNegative(b: Book, ops: seq<Op>)
    requires NonNegative(b)
    requires forall i :: 0 <= i < |ops| && ops[i].Measuring? ==> ops[i].used >= 0
    ensures NonNegative(DoAll(b, ops))
  {
    if ops != [] {
      var rest, op := ops[..|ops| - 1], ops[|ops| - 1];
      UsageNeverNegative(b, rest);
      if op.Replacing? { AdmitAllNonNegative(DoAll(b, rest), op.targets); }
    }
  }

  // ----- reporting usage to the server -----

  /** The book, the entries of a report that is on its way, and what the server has been told. */
  datatype Node = Node(book: Book, flight: Option<seq<UsageEntry>>, server: map<string, int>)

  datatype Event =
    | Working(op: Op)
    | Sending(entries: seq<UsageEntry>)
    | Delivered
    | Failing(reached: bool)

  /** What UsageSnapshot returns: each dirty target once, with its usage. */
  ghost predicate IsSnapshot(b: Book, es: seq<UsageEntry>) {
    && (forall n, u :: UsageEntry(n, u) in es <==> n in b.byName && b.byName[n].dirty && b.byName[n].used == u)
    && (forall i, j :: 0 <= i < j < |es| ==> es[i].name != es[j].name)
  }

  predicate Mentions(es: seq<UsageEntry>, n: string) {
    exists i :: 0 <= i < |es| && es[i].name == n
  }

  function Told(server: map<string, int>, es: seq<UsageEntry>): map<string, int> {
    if es == [] then server else Told(server, es[..|es| - 1])[es[|es| - 1].name := es[|es| - 1].used]
  }

  /** One report is on its way at a time; a report that fails may still have reached the server. */
  ghost predicate Reports(x: Node, e: Event, y: Node) {
    match e
    case Working(op) => !op.Snapshotting? && !op.Restoring? && y == x.(book := Do(x.book, op))
    case Sending(es) => x.flight.None? && IsSnapshot(x.book, es) && y == x.(book := Clean(x.book), flight := Some(es))
    case Delivered => x.flight.Some? && y == x.(flight := None, server := Told(x.server, x.flight.value))
    case Failing(reached) =>
      && x.flight.Some?
      && y == Node(MarkDirty(x.book, x.flight.value), None, if reached then Told(x.server, x.flight.value) else x.server)
  }

  ghost predicate Current(x: Node, n: string)
    requires n in x.book.byName
  {
    if x.flight.Some? && Mentions(x.flight.value, n) then UsageEntry(n, x.book.byName[n].used) in x.flight.value
    else n in x.server && x.server[n] == x.book.byName[n].used
  }

  /** Every measured target is marked for the next report, or its usage is on its way, or with the server. */
  ghost predicate Accounted(x: Node) {
    && Valid(x.book)
    && (forall n :: n in x.book.byName && x.book.byName[n].ready && !x.book.byName[n].dirty ==> Current(x, n))
    && (x.flight.Some? ==> forall i, j :: 0 <= i < j < |x.flight.value| ==> x.flight.value[i].name != x.flight.value[j].name)
  }

  lemma {:induction false} ToldMeans(server: map<string, int>, es: seq<UsageEntry>, n: string)
    requires forall i, j :: 0 <= i < j < |es| ==> es[i].name != es[j].name
    ensures !Mentions(es, n) ==> (n in Told(server, es) <==> n in server) && (n in server ==> Told(server, es)[n] == server[n])
    ensures forall u :: UsageEntry(n, u) in es ==> n in Told(server, es) && Told(server, es)[n] == u
  {
    if es != [] {
      var k := |es| - 1;
      ToldMeans(server, es[..k], n);
      if Mentions(es[..k], n) {
        var i :| 0 <= i < k && es[..k][i].name == n;
        assert es[i].name == n;
      }
      assert es[k].name == n ==> Mentions(es, n);
      assert forall u :: UsageEntry(n, u) in es <==> UsageEntry(n, u) in es[..k] || es[k] == UsageEntry(n, u);
      assert forall u :: UsageEntry(n, u) in es[..k] ==> exists i :: 0 <= i < k && es[i] == UsageEntry(n, u);
    }
  }

  /** The usage of a measured target that is not to be reported. */
  function Quiet(b: Book, n: string): Option<int> {
    if n in b.byName && b.byName[n].ready && !b.byName[n].dirty then Some(b.byName[n].used) else None
  }

  /** A target that is ready and not dirty after an operation was so before it, with the same usage. */
  lemma QuietBefore(b: Book, op: Op, n: string)
    requires Valid(b) && !op.Snapshotting? && !op.Restoring?
    ensures Quiet(Do(b, op), n).None? || Quiet(Do(b, op), n) == Quiet(b, n)
  {
    if op.Replacing? { AdmitQuiet(b, op.targets, n); }
  }

  lemma {:induction false} AdmitQuiet(b: Book, ts: seq<TargetInfo>, n: string)
    ensures Quiet(AdmitAll(b, ts), n).None? || Quiet(AdmitAll(b, ts), n) == Quiet(b, n)
  {
    if ts != [] { AdmitQuiet(b, ts[..|ts| - 1], n); }
  }

  lemma ReportAccounted(x: Node)
    requires Accounted(x)
    ensures forall e, y :: Reports(x, e, y) ==> Accounted(y)
  {
    forall e, y | Reports(x, e, y) ensures Accounted(y) {
      match e
      case Working(op) =>
        DoContinues(x.book);
        forall n | n in y.book.byName && y.book.byName[n].ready && !y.book.byName[n].dirty ensures Current(y, n) {
          QuietBefore(x.book, op, n);
          assert Current(x, n);
        }
      case Sending(es) => SentAccounted(x, es, y);
      case Delivered =>
        forall n | n in y.book.byName && y.book.byName[n].ready && !y.book.byName[n].dirty ensures Current(y, n) {
          assert Current(x, n);
          ToldMeans(x.server, x.flight.value, n);
        }
      case Failing(reached) =>
        forall n | n in y.book.byName && y.book.byName[n].ready && !y.book.byName[n].dirty ensures Current(y, n) {
          assert !Mentions(x.flight.value, n) && x.book.byName[n] == y.book.byName[n];
          assert Current(x, n);
          ToldMeans(x.server, x.flight.value, n);
        }
    }
  }

  lemma SentAccounted(x: Node, es: seq<UsageEntry>, y: Node)
    requires Accounted(x) && Reports(x, Sending(es), y)
    ensures Accounted(y)
  {
    assert forall i :: 0 <= i < |es| ==> es[i] == UsageEntry(es[i].name, es[i].used) && es[i] in es;
    forall n | n in y.book.byName && y.book.byName[n].ready ensures Current(y, n) {
      var t := x.book.byName[n];
      if t.dirty {
        assert UsageEntry(n, t.used) in es;
        var i :| 0 <= i < |es| && es[i] == UsageEntry(n, t.used);
        assert Mentions(es, n);
      } else {
        assert Current(x, n);
      }
    }
  }

  ghost predicate IsReportRun(xs: seq<Node>, es: seq<Event>) {
    && |xs| == |es| + 1 && xs[0] == Node(EMPTY, None, map[])
    && forall i :: 0 <= i < |es| ==> Reports(xs[i], es[i], xs[i + 1])
  }

  /** Over every history of target lists, measurements, reservations, releases and reports, however many
      reports fail: every measured target is dirty, or its usage is on its way, or the server has it. So
      once nothing is dirty and no report is on its way, the server has every usage. */
  lemma {:induction false} NoUsageChangeLost(xs: seq<Node>, es: seq<Event>, i: nat)
    requires IsReportRun(xs, es) && i < |xs|
    ensures forall j :: 0 <= j <= i ==> Accounted(xs[j])
    ensures xs[i].flight.None? && (forall n :: n in xs[i].book.byName ==> !xs[i].book.byName[n].dirty) ==>
      forall n :: n in xs[i].book.byName && xs[i].book.byName[n].ready ==> n in xs[i].server && xs[i].server[n] == xs[i].book.byName[n].used
  {
    if i > 0 {
      NoUsageChangeLost(xs, es, i - 1);
      ReportAccounted(xs[i - 1]);
    }
    hide Valid, IsReportRun;
    forall n | xs[i].flight.None? && n in xs[i].book.byName && xs[i].book.byName[n].ready && !xs[i].book.byName[n].dirty
      ensures n in xs[i].server && xs[i].server[n] == xs[i].book.byName[n].used
    {
      assert Current(xs[i], n);
    }
  }
}
