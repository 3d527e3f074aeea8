/** The bounded buffer of events that wait to be reported: pushing into a full one drops the oldest, and the
    server acknowledges events by their identifiers. Identifiers are unique; here they count the pushes. */
module Journals {

  const MAX_EVENTS: nat := 2000

  datatype Item<T> = Item(id: nat, event: T)

  datatype Journal<T> = Journal(log: seq<Item<T>>, dropped: nat, pushed: nat)

  function Pushed<T>(j: Journal<T>, e: T): Journal<T> {
    var item := Item(j.pushed, e);
    if |j.log| >= MAX_EVENTS then Journal(j.log[1..] + [item], j.dropped + 1, j.pushed + 1)
    else Journal(j.log + [item], j.dropped, j.pushed + 1)
  }

  function PushedAll<T>(j: Journal<T>, es: seq<T>): Journal<T> {
    if es == [] then j else Pushed(PushedAll(j, es[..|es| - 1]), es[|es| - 1])
  }

  function Remaining<T>(log: seq<Item<T>>, ids: set<nat>): seq<Item<T>> {
    if log == [] then []
    else
      var before, last := Remaining(log[..|log| - 1], ids), log[|log| - 1];
      if last.id in ids then before else before + [last]
  }

  function Acknowledged<T>(j: Journal<T>, ids: set<nat>): Journal<T> {
    j.(log := Remaining(j.log, ids))
  }

  function Ids<T>(log: seq<Item<T>>): set<nat> {
    set i | 0 <= i < |log| :: log[i].id
  }

  ghost predicate InOrder<T>(log: seq<Item<T>>) {
    forall i, j :: 0 <= i < j < |log| ==> log[i].id < log[j].id
  }

  /** The items are the events of the history `all` at their places, none of them acknowledged. */
  ghost predicate Genuine<T>(log: seq<Item<T>>, all: seq<T>, gone: set<nat>) {
    forall i :: 0 <= i < |log| ==> log[i].id < |all| && log[i].id !in gone && log[i].event == all[log[i].id]
  }

  /** Of the newest 2000 events, those not acknowledged are all there. */
  ghost predicate KeepsRecent<T>(log: seq<Item<T>>, all: seq<T>, gone: set<nat>) {
    forall id: nat :: |all| - 2000 <= id < |all| && id !in gone ==> id in Ids(log)
  }

  /** `all` is every event ever pushed, `gone` the identifiers acknowledged while in the journal. */
  ghost predicate Accounts<T>(j: Journal<T>, all: seq<T>, gone: set<nat>) {
    && j.pushed == |all| && |j.log| <= 2000
    && InOrder(j.log) && Genuine(j.log, all, gone) && KeepsRecent(j.log, all, gone)
    && (forall id :: id in gone ==> id < |all|)
    && |all| == |j.log| + |gone| + j.dropped
  }

  lemma {:induction false} FirstIsOld<T>(log: seq<Item<T>>, bound: nat)
    requires log != [] && InOrder(log) && log[|log| - 1].id < bound
    ensures log[0].id + |log| <= bound
  {
    if |log| > 1 { FirstIsOld(log[..|log| - 1], log[|log| - 1].id); }
  }

  lemma PushAccounts<T>(j: Journal<T>, all: seq<T>, gone: set<nat>)
    requires Accounts(j, all, gone)
    ensures forall e :: Accounts(Pushed(j, e), all + [e], gone)
  {
    forall e ensures Accounts(Pushed(j, e), all + [e], gone) {
      if |j.log| >= MAX_EVENTS {
        FirstIsOld(j.log, |all|);
        DropFirst(j.log, all, gone);
        GrowLog(j.log[1..], all, gone, e);
      } else {
        GrowLog(j.log, all, gone, e);
      }
    }
  }

  ghost predicate KeepsFrom<T>(log: seq<Item<T>>, all: seq<T>, gone: set<nat>, from: int) {
    forall id: nat :: from <= id < |all| && id !in gone ==> id in Ids(log)
  }

  lemma DropFirst<T>(log: seq<Item<T>>, all: seq<T>, gone: set<nat>)
    requires log != [] && InOrder(log) && Genuine(log, all, gone) && KeepsRecent(log, all, gone) && log[0].id + MAX_EVENTS <= |all|
    ensures InOrder(log[1..]) && Genuine(log[1..], all, gone) && KeepsFrom(log[1..], all, gone, |all| + 1 - MAX_EVENTS)
  {
    forall id: nat | |all| + 1 - MAX_EVENTS <= id < |all| && id !in gone ensures id in Ids(log[1..]) {
      assert id in Ids(log);
      var i :| 0 <= i < |log| && log[i].id == id;
      assert log[1..][i - 1].id == id;
    }
  }

  lemma GrowLog<T>(log: seq<Item<T>>, all: seq<T>, gone: set<nat>, e: T)
    requires InOrder(log) && Genuine(log, all, gone) && KeepsFrom(log, all, gone, |all| + 1 - MAX_EVENTS)
    requires forall id :: id in gone ==> id < |all|
    ensures var log', all' := log + [Item(|all|, e)], all + [e];
      InOrder(log') && Genuine(log', all', gone) && KeepsRecent(log', all', gone)
  {
    var log', all' := log + [Item(|all|, e)], all + [e];
    forall id: nat | |all'| - MAX_EVENTS <= id < |all'| && id !in gone ensures id in Ids(log') {
      if id < |all| {
        assert id in Ids(log);
        var i :| 0 <= i < |log| && log[i].id == id;
        assert log'[i].id == id;
      } else {
        assert log'[|log|].id == id;
      }
    }
  }

  lemma {:induction false} PushAllAccounts<T>(j: Journal<T>, all: seq<T>, gone: set<nat>, es: seq<T>)
    requires Accounts(j, all, gone)
    ensures forall k :: 0 <= k <= |es| ==> Accounts(PushedAll(j, es[..k]), all + es[..k], gone)
  {
    hide Accounts, Pushed;
    if es == [] {
      assert all + es == all && es[..0] == [];
    } else {
      var n := |es| - 1;
      PushAllAccounts(j, all, gone, es[..n]);
      assert es[..n][..n] == es[..n];
      PushAccounts(PushedAll(j, es[..n]), all + es[..n], gone);
      assert all + es == all + es[..n] + [es[n]];
      forall k | 0 <= k <= |es| ensures Accounts(PushedAll(j, es[..k]), all + es[..k], gone) {
        if k < |es| { assert es[..n][..k] == es[..k]; } else { assert es[..k] == es; }
      }
    }
  }

  // ----- acknowledgement -----

  lemma {:induction false} RemainingOrdered<T>(log: seq<Item<T>>, ids: set<nat>)
    requires InOrder(log)
    ensures InOrder(Remaining(log, ids)) && forall x :: x in Remaining(log, ids) ==> x in log
  {
    if log != [] {
      var init, last := log[..|log| - 1], log[|log| - 1];
      RemainingOrdered(init, ids);
      var left := Remaining(init, ids);
      forall i | 0 <= i < |left| ensures left[i].id < last.id {
        assert left[i] in init;
      }
    }
  }

  /** An acknowledgement removes exactly the items that it names. */
  lemma {:induction false} RemainingMeans<T>(log: seq<Item<T>>, ids: set<nat>)
    requires InOrder(log)
    ensures Ids(Remaining(log, ids)) == Ids(log) - ids && |Remaining(log, ids)| + |Ids(log) * ids| == |log|
  {
    if log != [] {
      var init, last := log[..|log| - 1], log[|log| - 1];
      RemainingMeans(init, ids);
      assert last.id !in Ids(init);
      assert init + [last] == log;
      IdsNext(init, last);
      IdsNext(Remaining(init, ids), last);
      hide Ids, InOrder;
      SplitCount(Ids(init), last.id, ids);
    }
  }

  lemma SplitCount(a: set<nat>, x: nat, ids: set<nat>)
    requires x !in a
    ensures |(a + {x}) * ids| == if x in ids then |a * ids| + 1 else |a * ids|
  {
    assert (a + {x}) * ids == a * ids + (if x in ids then {x} else {});
  }

  lemma IdsNext<T>(log: seq<Item<T>>, x: Item<T>)
    ensures Ids(log + [x]) == Ids(log) + {x.id}
  {
    assert forall i :: 0 <= i < |log| ==> (log + [x])[i] == log[i];
    assert (log + [x])[|log|] == x;
  }

  lemma AckAccounts<T>(j: Journal<T>, all: seq<T>, gone: set<nat>)
    requires Accounts(j, all, gone)
    ensures forall ids :: Accounts(Acknowledged(j, ids), all, gone + Ids(j.log) * ids)
  {
    forall ids ensures Accounts(Acknowledged(j, ids), all, gone + Ids(j.log) * ids) {
      var now := Ids(j.log) * ids;
      RemainingMeans(j.log, ids);
      RemainingOrdered(j.log, ids);
      assert gone !! now;
      assert |gone + now| == |gone| + |now|;
      var left := Remaining(j.log, ids);
      forall i | 0 <= i < |left| ensures left[i] in j.log && left[i].id !in ids {
        assert left[i] in left && left[i].id in Ids(left);
      }
    }
  }

  /** Acknowledging events that were dropped or acknowledged before removes nothing. */
  lemma {:induction false} ForeignAck<T>(j: Journal<T>, ids: set<nat>)
    requires Ids(j.log) !! ids
    ensures Acknowledged(j, ids) == j
    decreases |j.log|
  {
    if j.log != [] {
      var init, last := j.log[..|j.log| - 1], j.log[|j.log| - 1];
      assert init + [last] == j.log;
      IdsNext(init, last);
      ForeignAck(j.(log := init), ids);
    }
  }
}
