/** How a call of acquireRunLock ends, with nobody in its way, and what each outcome means in every run. */
module RunLockOutcome {
  import opened RunLock

  /** The owner that the bytes name is running; if they tell its start time, it is that very process. */
  predicate Running(c: Content, procs: map<Pid, nat>) {
    match c
    case V2(pid, start, _) => pid in procs && (start == 0 || procs[pid] == start)
    case Legacy(pid) => pid in procs
    case _ => false
  }

  predicate Versioned(c: Content) { c.V2? || c.BrokenV2? }

  predicate Unreadable(c: Content) { c.Blank? || c.BrokenV2? || c.BrokenLegacy? }

  // ----- a session with nobody in its way -----

  /** Every call and every probe succeeds; the lock file may be younger than a day. */
  function Calm(young: bool): Choice { Choice(false, false, young, CleanProbe) }

  /** In n steps of its own, none of them failing, the session leads from s to t. */
  ghost predicate Leads(s: State, p: SessionId, young: bool, t: State, n: nat)
    decreases n
  {
    if n == 0 then s == t
    else var l := Act(p, Calm(young)); Enabled(s, l) && Leads(Apply(s, l), p, young, t, n - 1)
  }

  ghost predicate ComesTo(s: State, p: SessionId, young: bool, t: State) {
    exists n: nat :: Leads(s, p, young, t, n)
  }

  /** The state with the session at another point and other files. */
  function At(s: State, p: SessionId, fs: Files, pc: Pc): State
    requires p in s.sessions
  {
    s.(fs := fs, sessions := s.sessions[p := s.sessions[p].(pc := pc)])
  }

  /** The session holds the lock with a new file, whose name is the lock file's; no other name has changed. */
  function Takes(s: State, p: SessionId, slot: nat): State
    requires p in s.sessions
  {
    var ino, fs := s.fs.nextInode, s.fs;
    At(s, p, Files(fs.dir[LockFile := ino], fs.data[ino := s.sessions[p].token], ino + 1, slot), Hold(ino))
  }

  /** What a session that enters and is left alone comes to. */
  function Ending(s: State, p: SessionId, young: bool): State
    requires p in s.sessions
  {
    if LockFile !in s.fs.dir then Takes(s, p, s.fs.nextSlot)
    else
      var owner := s.fs.Read(LockFile);
      if (young && !Versioned(owner)) || Running(owner, s.procs) then At(s, p, s.fs, Done(Skipped))
      else if Unreadable(owner) then At(s, p, s.fs, Done(Failed))
      else Takes(s, p, s.fs.nextSlot + 1)
  }

  lemma LeadsOn(s: State, p: SessionId, young: bool, fs: Files, pc: Pc, t: State)
    requires Live(s, p)
    requires var (pc', call) := Next(fs, s.procs, pc, s.sessions[p].token, Calm(young));
      ComesTo(At(s, p, Perform(fs, call), pc'), p, young, t)
    ensures ComesTo(At(s, p, fs, pc), p, young, t)
  {
    hide Next, Perform;
    var now, l := At(s, p, fs, pc), Act(p, Calm(young));
    var (pc', call) := Next(fs, s.procs, pc, s.sessions[p].token, Calm(young));
    assert Live(now, p);
    assert Apply(now, l).sessions == At(s, p, Perform(fs, call), pc').sessions;
    var n: nat :| Leads(At(s, p, Perform(fs, call), pc'), p, young, t, n);
    assert Leads(now, p, young, t, n + 1);
  }

  lemma LeadsCreate(s: State, p: SessionId, young: bool, fs: Files)
    requires Live(s, p) && LockFile !in fs.dir
    ensures var ino := fs.nextInode;
      ComesTo(At(s, p, fs, Create), p, young,
            At(s, p, Files(fs.dir[LockFile := ino], fs.data[ino := s.sessions[p].token], ino + 1, fs.nextSlot), Hold(ino)))
  {
    var ino, token := fs.nextInode, s.sessions[p].token;
    var made := Perform(fs, CreateLock);
    var done := Perform(made, WriteFile(ino, token));
    assert done == Files(fs.dir[LockFile := ino], fs.data[ino := token], ino + 1, fs.nextSlot);
    hide Perform, ComesTo;
    var t := At(s, p, done, Hold(ino));
    LeadsNowhere(t, p, young);
    LeadsOn(s, p, young, made, Write(ino), t);
    LeadsOn(s, p, young, fs, Create, t);
  }

  lemma LeadsNowhere(t: State, p: SessionId, young: bool)
    ensures ComesTo(t, p, young, t)
  {
    assert Leads(t, p, young, t, 0);
  }

  /** The calls that reclaim a dead owner's file. */
  lemma Reclaiming4(fs: Files, procs: map<Pid, nat>, nonces: set<nat>, owner: Content, token: Content, young: bool)
    requires ValidFiles(fs, nonces) && LockFile in fs.dir && fs.Read(LockFile) == owner
    ensures var slot, c := fs.nextSlot, Calm(young);
      var moved := Perform(fs, MoveLock);
      && Next(fs, procs, Recheck(owner), token, c) == (Rename(owner), NoCall)
      && Next(fs, procs, Rename(owner), token, c) == (Grab(owner, slot), MoveLock)
      && Next(moved, procs, Grab(owner, slot), token, c) == (Drop(owner, slot), NoCall)
      && Next(moved, procs, Drop(owner, slot), token, c) == (Create, Remove(ReclaimFile(slot)))
      && Perform(fs, NoCall) == fs && Perform(moved, NoCall) == moved
      && Perform(moved, Remove(ReclaimFile(slot))) == Cleared(fs)
  {
    var moved := Perform(fs, MoveLock);
    assert ReclaimFile(fs.nextSlot) !in fs.dir;
    assert moved.Read(ReclaimFile(fs.nextSlot)) == owner;
    assert Perform(moved, Remove(ReclaimFile(fs.nextSlot))).dir == fs.dir - {LockFile};
  }

  lemma LeadsReclaim(s: State, p: SessionId, young: bool, owner: Content, t: State)
    requires Live(s, p) && ValidFiles(s.fs, s.nonces) && LockFile in s.fs.dir && s.fs.Read(LockFile) == owner
    requires ComesTo(At(s, p, Cleared(s.fs), Create), p, young, t)
    ensures ComesTo(At(s, p, s.fs, Recheck(owner)), p, young, t)
  {
    var fs, slot := s.fs, s.fs.nextSlot;
    var moved := Perform(fs, MoveLock);
    Reclaiming4(fs, s.procs, s.nonces, owner, s.sessions[p].token, young);
    hide Perform, ComesTo, Next, ValidFiles, At;
    LeadsOn(s, p, young, moved, Drop(owner, slot), t);
    LeadsOn(s, p, young, moved, Grab(owner, slot), t);
    LeadsOn(s, p, young, fs, Rename(owner), t);
    LeadsOn(s, p, young, fs, Recheck(owner), t);
  }

  lemma LeadsJudge(s: State, p: SessionId, young: bool, t: State)
    requires Live(s, p) && LockFile in s.fs.dir
    requires ComesTo(At(s, p, s.fs, Judge(s.fs.Read(LockFile), young)), p, young, t)
    ensures ComesTo(At(s, p, s.fs, Create), p, young, t)
  {
    hide ComesTo;
    LeadsOn(s, p, young, s.fs, ReadOwner(young), t);
    LeadsOn(s, p, young, s.fs, Stat, t);
    LeadsOn(s, p, young, s.fs, Create, t);
  }

  /** What the calm probe says of an owner. */
  lemma CalmVerdict(fs: Files, procs: map<Pid, nat>, owner: Content, token: Content, young: bool)
    ensures Next(fs, procs, Judge(owner, young), token, Calm(young)) ==
      (if (young && !Versioned(owner)) || Running(owner, procs) then Done(Skipped)
       else if Unreadable(owner) then Done(Failed) else Recheck(owner), NoCall)
    ensures Perform(fs, NoCall) == fs
  {}

  /** The files once the dead owner's file is gone. */
  function Cleared(fs: Files): Files {
    fs.(dir := fs.dir - {LockFile}, nextSlot := fs.nextSlot + 1)
  }

  lemma LeadsAfresh(s: State, p: SessionId, young: bool)
    requires Live(s, p)
    ensures ComesTo(At(s, p, Cleared(s.fs), Create), p, young, Takes(s, p, s.fs.nextSlot + 1))
  {
    var fs := Cleared(s.fs);
    assert fs.dir[LockFile := fs.nextInode] == s.fs.dir[LockFile := s.fs.nextInode];
    LeadsCreate(s, p, young, fs);
    hide ComesTo;
  }

  lemma LoneReclaims(s: State, p: SessionId, young: bool)
    requires ValidFiles(s.fs, s.nonces) && Live(s, p) && LockFile in s.fs.dir
    requires var owner := s.fs.Read(LockFile);
      !(young && !Versioned(owner)) && !Running(owner, s.procs) && !Unreadable(owner)
    ensures ComesTo(At(s, p, s.fs, Create), p, young, Takes(s, p, s.fs.nextSlot + 1))
  {
    var owner, t := s.fs.Read(LockFile), Takes(s, p, s.fs.nextSlot + 1);
    CalmVerdict(s.fs, s.procs, owner, s.sessions[p].token, young);
    hide ComesTo, Next, Perform, ValidFiles, Live, Running, Unreadable, Versioned, At, Takes, Cleared;
    LeadsAfresh(s, p, young);
    LeadsReclaim(s, p, young, owner, t);
    LeadsOn(s, p, young, s.fs, Judge(owner, young), t);
    LeadsJudge(s, p, young, t);
  }

  lemma LoneStops(s: State, p: SessionId, young: bool, outcome: Outcome)
    requires Live(s, p) && LockFile in s.fs.dir
    requires var owner := s.fs.Read(LockFile);
      if (young && !Versioned(owner)) || Running(owner, s.procs) then outcome == Skipped else Unreadable(owner) && outcome == Failed
    ensures ComesTo(At(s, p, s.fs, Create), p, young, At(s, p, s.fs, Done(outcome)))
  {
    var owner, t := s.fs.Read(LockFile), At(s, p, s.fs, Done(outcome));
    CalmVerdict(s.fs, s.procs, owner, s.sessions[p].token, young);
    LeadsNowhere(t, p, young);
    hide ComesTo, Next, Perform, At;
    LeadsOn(s, p, young, s.fs, Judge(owner, young), t);
    LeadsJudge(s, p, young, t);
  }

  lemma LoneAcquires(s: State, p: SessionId, young: bool)
    requires ValidFiles(s.fs, s.nonces) && Live(s, p) && s.sessions[p].pc.Create?
    ensures ComesTo(s, p, young, Ending(s, p, young))
  {
    assert s == At(s, p, s.fs, Create);
    hide ComesTo, Live;
    if LockFile !in s.fs.dir {
      LeadsCreate(s, p, young, s.fs);
    } else {
      var owner := s.fs.Read(LockFile);
      if (young && !Versioned(owner)) || Running(owner, s.procs) {
        LoneStops(s, p, young, Skipped);
      } else if Unreadable(owner) {
        LoneStops(s, p, young, Failed);
      } else {
        LoneReclaims(s, p, young);
      }
    }
  }

  /** From every state of every run: a live session that enters and is left alone, none of its calls
      failing, takes the lock with its own file if there is no lock file or its owner is dead; skips and
      leaves every file alone if the owner is running, or the file names no version and is younger than a
      day; and fails, leaving every file alone, if it cannot make out the owner. */
  lemma EnteringEndsExactly(run: seq<State>, labels: seq<Label>, i: nat, p: SessionId, young: bool)
    requires IsRun(run, labels) && i < |run| && Live(run[i], p) && run[i].sessions[p].pc.Create?
    ensures ComesTo(run[i], p, young, Ending(run[i], p, young))
  {
    RunSound(run, labels, i);
    LoneAcquires(run[i], p, young);
  }

  /** A dead owner's lock never outlives the next run: if the lock file holds a token whose process is gone,
      or whose pid now belongs to a process with another start time, a session left alone gets the lock. */
  lemma DeadOwnerIsReclaimed(run: seq<State>, labels: seq<Label>, i: nat, p: SessionId, young: bool)
    requires IsRun(run, labels) && i < |run| && Live(run[i], p) && run[i].sessions[p].pc.Create?
    requires LockFile in run[i].fs.dir
    requires var c := run[i].fs.Read(LockFile);
      c.V2? && c.start != 0 && (c.pid !in run[i].procs || run[i].procs[c.pid] != c.start)
    ensures exists t :: ComesTo(run[i], p, young, t) && Holder(t, p) && InPlace(t, p) && t.fs.Read(LockFile) == t.sessions[p].token
  {
    EnteringEndsExactly(run, labels, i, p, young);
    var t := Ending(run[i], p, young);
    assert Holder(t, p) && InPlace(t, p) && t.fs.Read(LockFile) == t.sessions[p].token;
    hide ComesTo;
  }

  /** Since it entered, the session is the process that entered, and its token tells that process. */
  lemma {:induction false} TokenTells(run: seq<State>, labels: seq<Label>, j: nat, i: nat)
    requires IsRun(run, labels) && j < i < |run| && labels[j].Begin? && labels[j].startKnown
    ensures var p, pid := labels[j].id, labels[j].parent;
      && p in run[i].sessions && pid in run[j].procs && run[i].sessions[p].pid == pid && run[i].sessions[p].start == run[j].procs[pid]
      && run[i].sessions[p].token == V2(pid, run[j].procs[pid], labels[j].nonce) && run[j].procs[pid] != 0
  {
    RunSound(run, labels, j);
    if i > j + 1 { TokenTells(run, labels, j, i - 1); }
  }

  /** A process that entered, knew its own start time and ended while the lock file held its token does not
      block the next run, whoever has its pid now: a session left alone gets the lock. */
  lemma CrashedHolderIsReclaimed(run: seq<State>, labels: seq<Label>, j: nat, i: nat, q: SessionId, young: bool)
    requires IsRun(run, labels) && j < i < |run| && labels[j].Begin? && labels[j].startKnown
    requires labels[j].id in run[i].sessions && !Live(run[i], labels[j].id)
    requires LockFile in run[i].fs.dir && run[i].fs.Read(LockFile) == run[i].sessions[labels[j].id].token
    requires Live(run[i], q) && run[i].sessions[q].pc.Create?
    ensures exists t :: ComesTo(run[i], q, young, t) && Holder(t, q) && InPlace(t, q) && t.fs.Read(LockFile) == t.sessions[q].token
  {
    TokenTells(run, labels, j, i);
    hide ComesTo, Apply, Enabled;
    DeadOwnerIsReclaimed(run, labels, i, q, young);
  }

  /** What a session that releases the lock and is left alone leaves behind. */
  function Freed(s: State, p: SessionId): State
    requires p in s.sessions
  {
    var mine := LockFile in s.fs.dir && s.fs.Read(LockFile) == s.sessions[p].token;
    At(s, p, if mine then s.fs.(dir := s.fs.dir - {LockFile}) else s.fs, Done(Released))
  }

  /** From every state of every run: a holder that releases and is left alone removes the lock file if it
      holds the session's own token, and touches no other file. */
  lemma ReleaseEndsExactly(run: seq<State>, labels: seq<Label>, i: nat, p: SessionId, young: bool)
    requires IsRun(run, labels) && i < |run| && Live(run[i], p) && run[i].sessions[p].pc.Hold?
    ensures ComesTo(run[i], p, young, Freed(run[i], p))
  {
    var s, t := run[i], Freed(run[i], p);
    var ino := s.sessions[p].pc.ino;
    assert s == At(s, p, s.fs, Hold(ino));
    LeadsNowhere(t, p, young);
    hide ComesTo;
    if LockFile in s.fs.dir && s.fs.Read(LockFile) == s.sessions[p].token {
      LeadsOn(s, p, young, s.fs, ReleaseRemove(ino), t);
      LeadsOn(s, p, young, s.fs, ReleaseRead(ino), t);
      LeadsOn(s, p, young, s.fs, Hold(ino), t);
    } else {
      LeadsOn(s, p, young, s.fs, ReleaseRead(ino), t);
      LeadsOn(s, p, young, s.fs, Hold(ino), t);
    }
  }

  /** The files after a session has put back, or given up, the file that it should not have renamed. */
  function Restored(fs: Files, slot: nat): Files
    requires ReclaimFile(slot) in fs.dir
  {
    var dir := if LockFile in fs.dir then fs.dir else fs.dir[LockFile := fs.dir[ReclaimFile(slot)]];
    fs.(dir := dir - {ReclaimFile(slot)})
  }

  /** From every state of every run: a session that finds that it renamed another file than the one it
      judged, and is left alone, links it back as the lock file unless there is a new one, and skips. */
  lemma RenamedFileIsPutBack(run: seq<State>, labels: seq<Label>, i: nat, p: SessionId, young: bool)
    requires IsRun(run, labels) && i < |run| && Live(run[i], p) && run[i].sessions[p].pc.Grab?
    requires var pc := run[i].sessions[p].pc;
      ReclaimFile(pc.slot) in run[i].fs.dir ==> run[i].fs.Read(ReclaimFile(pc.slot)) != pc.owner
    ensures ReclaimFile(run[i].sessions[p].pc.slot) in run[i].fs.dir
    ensures ComesTo(run[i], p, young, At(run[i], p, Restored(run[i].fs, run[i].sessions[p].pc.slot), Done(Skipped)))
  {
    RunSound(run, labels, i);
    var s, pc := run[i], run[i].sessions[p].pc;
    assert ValidSession(s, s.sessions[p]);
    PutsRenamedBack(s, p, young, pc.owner, pc.slot);
  }

  lemma PutsRenamedBack(s: State, p: SessionId, young: bool, owner: Content, slot: nat)
    requires Live(s, p) && s.sessions[p].pc == Grab(owner, slot)
    requires ReclaimFile(slot) in s.fs.dir && s.fs.Read(ReclaimFile(slot)) != owner
    ensures ComesTo(s, p, young, At(s, p, Restored(s.fs, slot), Done(Skipped)))
  {
    var fs := s.fs;
    var t := At(s, p, Restored(fs, slot), Done(Skipped));
    assert s == At(s, p, fs, Grab(owner, slot));
    LeadsNowhere(t, p, young);
    hide ComesTo;
    if LockFile in fs.dir {
      LeadsOn(s, p, young, fs, Discard(slot, Skipped), t);
      LeadsOn(s, p, young, fs, Restore(slot), t);
    } else {
      LeadsOn(s, p, young, Perform(fs, LinkLock(slot)), Unlink(slot), t);
      LeadsOn(s, p, young, fs, Restore(slot), t);
    }
    LeadsOn(s, p, young, fs, Grab(owner, slot), t);
  }

  // ----- a session alone with failing calls -----

  /** The session's steps, each with its own choice. */
  function Alone(s: State, p: SessionId, cs: seq<Choice>): (t: State)
    requires p in s.sessions
    ensures p in t.sessions && t.sessions[p].token == s.sessions[p].token
  {
    if cs == [] then s else Advance(Alone(s, p, cs[..|cs| - 1]), p, cs[|cs| - 1])
  }

  /** A call that removes a file, or reads it for that. */
  predicate Removes(pc: Pc) {
    pc.Abort? || pc.Drop? || pc.Unlink? || pc.Discard? || pc.ReleaseRead? || pc.ReleaseRemove?
  }

  /** No such call fails. */
  ghost predicate Tidy(s: State, p: SessionId, cs: seq<Choice>)
    requires p in s.sessions
  {
    forall i :: 0 <= i < |cs| && cs[i].fault ==> !Removes(Alone(s, p, cs[..i]).sessions[p].pc)
  }

  /** What the directory looks like at a point of the session, `dir` being what it found. */
  ghost predicate Traces(dir: map<Name, Inode>, fs: Files, pc: Pc, token: Content) {
    match pc
    case Done(Skipped) => fs.dir == dir
    case Done(_) => fs.dir == dir || fs.dir == dir - {LockFile}
    case Create => fs.dir == dir || fs.dir == dir - {LockFile}
    case Recheck(owner) => fs.dir == dir
    case Rename(owner) => fs.dir == dir && (LockFile in dir ==> fs.Read(LockFile) == owner)
    case Grab(owner, slot) => Renamed(dir, fs.dir, slot) && fs.Read(ReclaimFile(slot)) == owner
    case Drop(owner, slot) => Renamed(dir, fs.dir, slot)
    case Discard(slot, result) => Renamed(dir, fs.dir, slot) && result.Failed?
    case Restore(_) => false
    case Unlink(_) => false
    case Write(ino) => fs.dir == dir[LockFile := ino]
    case Abort(ino) => fs.dir == dir[LockFile := ino]
    case Hold(ino) => fs.dir == dir[LockFile := ino] && ino in fs.data && fs.data[ino] == token
    case ReleaseRead(ino) => fs.dir == dir[LockFile := ino] && ino in fs.data && fs.data[ino] == token
    case ReleaseRemove(ino) => fs.dir == dir[LockFile := ino]
    case _ => fs.dir == dir
  }

  ghost predicate Renamed(dir: map<Name, Inode>, dir': map<Name, Inode>, slot: nat) {
    LockFile in dir && ReclaimFile(slot) !in dir && dir' == (dir - {LockFile})[ReclaimFile(slot) := dir[LockFile]]
  }

  lemma TracesAcquiring(dir: map<Name, Inode>, fs: Files, procs: map<Pid, nat>, nonces: set<nat>, pc: Pc, token: Content, c: Choice)
    requires pc.Create? || pc.Rename? || pc.Grab? || pc.Drop? || pc.Discard? || pc.Restore? || pc.Unlink?
    requires Traces(dir, fs, pc, token) && ValidFiles(fs, nonces) && (c.fault ==> !Removes(pc))
    ensures var (pc', call) := Next(fs, procs, pc, token, c); Traces(dir, Perform(fs, call), pc', token)
  {
    match pc
    case Create => if LockFile !in fs.dir { assert fs.dir[LockFile := fs.nextInode] == dir[LockFile := fs.nextInode]; }
    case Rename(_) => if LockFile in dir { assert ReclaimFile(fs.nextSlot) !in dir; }
    case Drop(_, slot) => assert fs.dir - {ReclaimFile(slot)} == dir - {LockFile};
    case Discard(slot, _) => assert fs.dir - {ReclaimFile(slot)} == dir - {LockFile};
    case _ =>
  }

  lemma TracesOwning(dir: map<Name, Inode>, fs: Files, procs: map<Pid, nat>, nonces: set<nat>, pc: Pc, token: Content, c: Choice)
    requires Owns(pc)
    requires Traces(dir, fs, pc, token) && ValidFiles(fs, nonces) && (c.fault ==> !Removes(pc))
    ensures var (pc', call) := Next(fs, procs, pc, token, c); Traces(dir, Perform(fs, call), pc', token)
  {
    assert dir[LockFile := pc.ino] - {LockFile} == dir - {LockFile};
  }

  lemma TracesNext(dir: map<Name, Inode>, fs: Files, procs: map<Pid, nat>, nonces: set<nat>, pc: Pc, token: Content, c: Choice)
    requires Traces(dir, fs, pc, token) && ValidFiles(fs, nonces) && (c.fault ==> !Removes(pc))
    ensures var (pc', call) := Next(fs, procs, pc, token, c); Traces(dir, Perform(fs, call), pc', token)
  {
    if Owns(pc) {
      TracesOwning(dir, fs, procs, nonces, pc, token, c);
    } else if pc.Create? || pc.Rename? || pc.Grab? || pc.Drop? || pc.Discard? || pc.Restore? || pc.Unlink? {
      TracesAcquiring(dir, fs, procs, nonces, pc, token, c);
    } else {
      assert Perform(fs, NoCall) == fs;
    }
  }

  /** Whatever fails, apart from the removal of a file: a session that is alone leaves no file behind. After
      it skipped, the directory is as it found it; after it failed or released, the same without, at most,
      the lock file; while it holds the lock, the same but for the lock file, which is its own. */
  lemma {:induction false} LeavesNothingBehind(s: State, p: SessionId, cs: seq<Choice>)
    requires Sound(s) && p in s.sessions && s.sessions[p].pc.Create? && Tidy(s, p, cs)
    ensures var t := Alone(s, p, cs); Sound(t) && Traces(s.fs.dir, t.fs, t.sessions[p].pc, t.sessions[p].token)
  {
    if cs != [] {
      var n := |cs| - 1;
      forall i | 0 <= i < n && cs[..n][i].fault ensures !Removes(Alone(s, p, cs[..n][..i]).sessions[p].pc) {
        assert cs[..n][..i] == cs[..i] && cs[i].fault;
      }
      LeavesNothingBehind(s, p, cs[..n]);
      var t := Alone(s, p, cs[..n]);
      ActSound(t, p, cs[n]);
      TracesNext(s.fs.dir, t.fs, t.procs, t.nonces, t.sessions[p].pc, t.sessions[p].token, cs[n]);
      hide Sound, Traces, Next, Perform, Removes;
    }
  }

  // ----- what an outcome means -----

  predicate Own(l: Label, p: SessionId) { l.Act? && l.who == p }

  /** The session spared the owner that it judged: running, as far as the probe could tell, or too young. */
  ghost predicate Spares(s: State, l: Label, p: SessionId) {
    && Own(l, p) && p in s.sessions && s.sessions[p].pc.Judge?
    && var pc := s.sessions[p].pc;
       || (pc.young && !Versioned(pc.owner))
       || (Running(pc.owner, s.procs) && !l.choice.probe.ExistsFault?)
       || (pc.owner.V2? && pc.owner.pid in s.procs && l.choice.probe.StartUnreadable?)
  }

  /** The session saw that the file it had renamed is not the one that it had judged. */
  ghost predicate Mistook(s: State, l: Label, p: SessionId) {
    && Own(l, p) && p in s.sessions && s.sessions[p].pc.Grab?
    && var pc := s.sessions[p].pc; ReclaimFile(pc.slot) in s.fs.dir && s.fs.Read(ReclaimFile(pc.slot)) != pc.owner
  }

  /** A call or a probe of the session failed, or it could not make out the owner. */
  ghost predicate Troubled(s: State, l: Label, p: SessionId) {
    && Own(l, p) && p in s.sessions
    && (l.choice.fault || !l.choice.probe.CleanProbe? || (s.sessions[p].pc.Judge? && Unreadable(s.sessions[p].pc.owner)))
  }

  /** The lock file still held the owner that was judged dead. */
  ghost predicate Confirms(s: State, l: Label, p: SessionId, owner: Content) {
    && Own(l, p) && p in s.sessions && s.sessions[p].pc == Recheck(owner)
    && LockFile in s.fs.dir && s.fs.Read(LockFile) == owner
  }

  ghost predicate SparedBefore(run: seq<State>, labels: seq<Label>, i: nat, p: SessionId)
    requires i <= |labels| < |run|
  {
    exists j :: 0 <= j < i && Spares(run[j], labels[j], p)
  }

  ghost predicate MistookBefore(run: seq<State>, labels: seq<Label>, i: nat, p: SessionId)
    requires i <= |labels| < |run|
  {
    exists j :: 0 <= j < i && Mistook(run[j], labels[j], p)
  }

  ghost predicate TroubledBefore(run: seq<State>, labels: seq<Label>, i: nat, p: SessionId)
    requires i <= |labels| < |run|
  {
    exists j :: 0 <= j < i && Troubled(run[j], labels[j], p)
  }

  /** The session's last step found the lock file to hold that owner. */
  ghost predicate JustConfirmed(run: seq<State>, labels: seq<Label>, i: nat, p: SessionId, owner: Content)
    requires i <= |labels| < |run|
  {
    exists j :: 0 <= j < i && Confirms(run[j], labels[j], p, owner) && forall m :: j < m < i ==> !Own(labels[m], p)
  }

  predicate Failing(pc: Pc) { pc == Done(Failed) || pc.Abort? || (pc.Discard? && pc.result.Failed?) }

  predicate GivingUp(pc: Pc) { pc.Restore? || pc.Unlink? || (pc.Discard? && pc.result.Skipped?) }

  ghost predicate Explained(run: seq<State>, labels: seq<Label>, i: nat, p: SessionId, pc: Pc)
    requires i <= |labels| < |run|
  {
    && (pc == Done(Skipped) ==> SparedBefore(run, labels, i, p) || MistookBefore(run, labels, i, p))
    && (GivingUp(pc) ==> MistookBefore(run, labels, i, p))
    && (Failing(pc) ==> TroubledBefore(run, labels, i, p))
    && (pc.Rename? ==> JustConfirmed(run, labels, i, p, pc.owner))
  }

  lemma OwnStepExplained(s: State, p: SessionId, c: Choice)
    requires Sound(s) && Live(s, p)
    ensures var pc, pc', l := s.sessions[p].pc, Apply(s, Act(p, c)).sessions[p].pc, Act(p, c);
      && (pc' == Done(Skipped) ==> pc == pc' || Spares(s, l, p) || GivingUp(pc))
      && (GivingUp(pc') ==> GivingUp(pc) || Mistook(s, l, p))
      && (Failing(pc') ==> Failing(pc) || Troubled(s, l, p))
      && (pc'.Rename? ==> Confirms(s, l, p, pc'.owner))
  {
    assert ValidSession(s, s.sessions[p]);
  }

  /** In every run, faults included: a session skips only if it met a running owner, or a young lock file
      without a version, or had renamed a file that it had not judged; it fails only if a call or a probe
      of its own failed or it could not make out the owner; and it renames only a lock file that it found,
      in the step before, to hold what it judged. */
  lemma {:induction false} OutcomesExplained(run: seq<State>, labels: seq<Label>, i: nat, p: SessionId)
    requires IsRun(run, labels) && i < |run| && p in run[i].sessions
    ensures Explained(run, labels, i, p, run[i].sessions[p].pc)
  {
    if i > 0 {
      var l := labels[i - 1];
      if p in run[i - 1].sessions {
        OutcomesExplained(run, labels, i - 1, p);
        RunSound(run, labels, i - 1);
        if Own(l, p) { OwnStepExplained(run[i - 1], p, l.choice); }
        ExplainedNext(run, labels, i, p);
      }
    }
  }

  lemma ExplainedNext(run: seq<State>, labels: seq<Label>, i: nat, p: SessionId)
    requires IsRun(run, labels) && 0 < i < |run| && p in run[i - 1].sessions && p in run[i].sessions
    requires var pc, pc', s, l := run[i - 1].sessions[p].pc, run[i].sessions[p].pc, run[i - 1], labels[i - 1];
      if Own(l, p) then
        && (pc' == Done(Skipped) ==> pc == pc' || Spares(s, l, p) || GivingUp(pc))
        && (GivingUp(pc') ==> GivingUp(pc) || Mistook(s, l, p))
        && (Failing(pc') ==> Failing(pc) || Troubled(s, l, p))
        && (pc'.Rename? ==> Confirms(s, l, p, pc'.owner))
      else pc' == pc
    requires Explained(run, labels, i - 1, p, run[i - 1].sessions[p].pc)
    ensures Explained(run, labels, i, p, run[i].sessions[p].pc)
  {
    BeforeLater(run, labels, i - 1, p);
    var pc' := run[i].sessions[p].pc;
    if pc'.Rename? && !Own(labels[i - 1], p) { ConfirmedLater(run, labels, i - 1, p, pc'.owner); }
    hide Spares, Mistook, Troubled, Confirms, Apply, Enabled, Initial, Failing, GivingUp, IsRun, JustConfirmed;
    if Own(labels[i - 1], p) { ConfirmedNow(run, labels, i, p); }
  }

  lemma BeforeLater(run: seq<State>, labels: seq<Label>, i: nat, p: SessionId)
    requires i < |labels| < |run|
    ensures SparedBefore(run, labels, i + 1, p) <==> SparedBefore(run, labels, i, p) || Spares(run[i], labels[i], p)
    ensures MistookBefore(run, labels, i + 1, p) <==> MistookBefore(run, labels, i, p) || Mistook(run[i], labels[i], p)
    ensures TroubledBefore(run, labels, i + 1, p) <==> TroubledBefore(run, labels, i, p) || Troubled(run[i], labels[i], p)
  {
    hide Spares, Mistook, Troubled;
  }

  lemma ConfirmedLater(run: seq<State>, labels: seq<Label>, i: nat, p: SessionId, owner: Content)
    requires i < |labels| < |run| && JustConfirmed(run, labels, i, p, owner) && !Own(labels[i], p)
    ensures JustConfirmed(run, labels, i + 1, p, owner)
  {
    hide Confirms;
    var j :| 0 <= j < i && Confirms(run[j], labels[j], p, owner) && forall m :: j < m < i ==> !Own(labels[m], p);
    assert forall m :: j < m < i + 1 ==> !Own(labels[m], p);
  }

  lemma ConfirmedNow(run: seq<State>, labels: seq<Label>, i: nat, p: SessionId)
    requires 0 < i <= |labels| < |run|
    ensures forall owner :: Confirms(run[i - 1], labels[i - 1], p, owner) ==> JustConfirmed(run, labels, i, p, owner)
  {
    hide Confirms;
    forall owner | Confirms(run[i - 1], labels[i - 1], p, owner) ensures JustConfirmed(run, labels, i, p, owner) {
      assert Confirms(run[i - 1], labels[i - 1], p, owner);
    }
  }

  /** A call that fails where the session cannot go on without it, or no answer whether the owner exists. */
  predicate Fatal(s: State, l: Label)
    requires Enabled(s, l)
  {
    l.Act? &&
    match s.sessions[l.who].pc
    case Create => l.choice.fault
    case Write(_) => l.choice.fault
    case Stat => l.choice.fault && LockFile in s.fs.dir
    case ReadOwner(_) => l.choice.fault && LockFile in s.fs.dir
    case Judge(owner, young) =>
      (Versioned(owner) || !young) && (Unreadable(owner) || l.choice.probe.ExistsFault?)
    case Recheck(_) => l.choice.fault && LockFile in s.fs.dir
    case Rename(_) => l.choice.fault && LockFile in s.fs.dir
    case Grab(_, _) => l.choice.fault
    case Drop(_, _) => l.choice.fault
    case _ => false
  }

  /** A session never gets the lock, and never skips, after such a step: it fails. */
  lemma {:induction false} FatalStepsFail(run: seq<State>, labels: seq<Label>, j: nat, i: nat)
    requires IsRun(run, labels) && j < i < |run| && Fatal(run[j], labels[j])
    ensures labels[j].who in run[i].sessions && Failing(run[i].sessions[labels[j].who].pc)
  {
    if i > j + 1 { FatalStepsFail(run, labels, j, i - 1); }
  }
}
