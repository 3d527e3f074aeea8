/** The lock file that keeps two backup runs from overlapping. */
module RunLock {
  // Every file-system call, liveness probe and process exit is one atomic step, so that the calls of any
  // number of processes interleave freely.

  type Pid = nat
  type Inode = nat
  type SessionId = nat

  // ----- files -----

  /** What a reader makes of the bytes of a lock file. */
  datatype Content =
    | Blank
    | V2(pid: Pid, start: nat, nonce: nat)
    | BrokenV2
    | Legacy(legacyPid: Pid)
    | BrokenLegacy

  datatype Name = LockFile | ReclaimFile(slot: nat)

  /** The directory of the lock file. A hard link is a second name for an inode. */
  datatype Files = Files(dir: map<Name, Inode>, data: map<Inode, Content>, nextInode: Inode, nextSlot: nat) {
    function Read(n: Name): Content
      requires n in dir
    {
      if dir[n] in data then data[dir[n]] else Blank
    }
  }

  datatype Call =
    | NoCall
    | CreateLock
    | WriteFile(ino: Inode, bytes: Content)
    | Remove(name: Name)
    | MoveLock
    | LinkLock(from: nat)

  /** The effect of a call that succeeds. Reclaim names are random, so each rename takes a new one. */
  function Perform(fs: Files, call: Call): Files {
    match call
    case NoCall => fs
    case CreateLock =>
      fs.(dir := fs.dir[LockFile := fs.nextInode], data := fs.data[fs.nextInode := Blank], nextInode := fs.nextInode + 1)
    case WriteFile(ino, bytes) => fs.(data := fs.data[ino := bytes])
    case Remove(n) => fs.(dir := fs.dir - {n})
    case MoveLock =>
      if LockFile !in fs.dir then fs
      else fs.(dir := (fs.dir - {LockFile})[ReclaimFile(fs.nextSlot) := fs.dir[LockFile]], nextSlot := fs.nextSlot + 1)
    case LinkLock(slot) =>
      if ReclaimFile(slot) !in fs.dir then fs
      else fs.(dir := fs.dir[LockFile := fs.dir[ReclaimFile(slot)]])
  }

  // ----- processes -----

  /** How the questions about a pid go: all answered, no answer whether it exists, no handle on the
      process although it exists, no start time. */
  datatype Probe = CleanProbe | ExistsFault | HandleFault | StartUnreadable
  datatype Verdict = Alive | Dead | Fault

  /** runLockOwnerAlive with pidAliveWithStart. */
  function OwnerVerdict(c: Content, procs: map<Pid, nat>, probe: Probe): Verdict {
    match c
    case Blank => Fault
    case BrokenV2 => Fault
    case BrokenLegacy => Fault
    case V2(pid, start, _) =>
      if probe.ExistsFault? then Fault
      else if pid !in procs then Dead
      else if start == 0 then Alive
      else if probe.HandleFault? then Dead
      else if probe.StartUnreadable? then Alive
      else if procs[pid] == start then Alive else Dead
    case Legacy(pid) =>
      if probe.ExistsFault? then Fault else if pid in procs then Alive else Dead
  }

  // ----- one call of acquireRunLock and the release it returns -----

  datatype Outcome = Released | Skipped | Failed

  datatype Pc =
    | Create
    | Write(ino: Inode)
    | Abort(ino: Inode)
    | Hold(ino: Inode)
    | ReleaseRead(ino: Inode)
    | ReleaseRemove(ino: Inode)
    | Stat
    | ReadOwner(young: bool)
    | Judge(owner: Content, young: bool)
    | Recheck(owner: Content)
    | Rename(owner: Content)
    | Grab(owner: Content, slot: nat)
    | Drop(owner: Content, slot: nat)
    | Restore(slot: nat)
    | Unlink(slot: nat)
    | Discard(slot: nat, result: Outcome)
    | Done(outcome: Outcome)

  /** What the environment decides in a step: does the call fail, does Close fail after the write,
      is the file younger than a day, how does the process probe go. */
  datatype Choice = Choice(fault: bool, late: bool, young: bool, probe: Probe)

  /** The next program point of a session and the file-system call that takes it there. */
  function Next(fs: Files, procs: map<Pid, nat>, pc: Pc, token: Content, c: Choice): (Pc, Call) {
    match pc
    case Create =>
      if c.fault then (Done(Failed), NoCall)
      else if LockFile in fs.dir then (Stat, NoCall)
      else (Write(fs.nextInode), CreateLock)
    case Write(ino) =>
      if !c.fault then (Hold(ino), WriteFile(ino, token))
      else (Abort(ino), if c.late then WriteFile(ino, token) else NoCall)
    case Abort(_) => (Done(Failed), if c.fault then NoCall else Remove(LockFile))
    case Hold(ino) => (ReleaseRead(ino), NoCall)
    case ReleaseRead(ino) =>
      if c.fault || LockFile !in fs.dir || fs.Read(LockFile) != token then (Done(Released), NoCall)
      else (ReleaseRemove(ino), NoCall)
    case ReleaseRemove(_) => (Done(Released), if c.fault then NoCall else Remove(LockFile))
    case Stat =>
      (if LockFile !in fs.dir then Create else if c.fault then Done(Failed) else ReadOwner(c.young), NoCall)
    case ReadOwner(young) =>
      (if LockFile !in fs.dir then Create
       else if c.fault then Done(Failed)
       else Judge(fs.Read(LockFile), young), NoCall)
    case Judge(owner, young) =>
      if !(owner.V2? || owner.BrokenV2?) && young then (Done(Skipped), NoCall)
      else (match OwnerVerdict(owner, procs, c.probe)
            case Fault => Done(Failed)
            case Alive => Done(Skipped)
            case Dead => Recheck(owner), NoCall)
    case Recheck(owner) =>
      (if LockFile !in fs.dir then Create
       else if c.fault then Done(Failed)
       else if fs.Read(LockFile) != owner then Create
       else Rename(owner), NoCall)
    case Rename(owner) =>
      if LockFile !in fs.dir then (Create, NoCall)
      else if c.fault then (Done(Failed), NoCall)
      else (Grab(owner, fs.nextSlot), MoveLock)
    case Grab(owner, slot) =>
      (if c.fault || ReclaimFile(slot) !in fs.dir then Discard(slot, Failed)
       else if fs.Read(ReclaimFile(slot)) == owner then Drop(owner, slot)
       else Restore(slot), NoCall)
    case Drop(_, slot) =>
      if c.fault then (Done(Failed), NoCall) else (Create, Remove(ReclaimFile(slot)))
    case Restore(slot) =>
      if c.fault || LockFile in fs.dir || ReclaimFile(slot) !in fs.dir then (Discard(slot, Skipped), NoCall)
      else (Unlink(slot), LinkLock(slot))
    case Unlink(slot) =>
      if c.fault then (Discard(slot, Skipped), NoCall) else (Done(Skipped), Remove(ReclaimFile(slot)))
    case Discard(slot, result) => (Done(result), if c.fault then NoCall else Remove(ReclaimFile(slot)))
    case Done(_) => (pc, NoCall)
  }

  // ----- all sessions together -----

  datatype Session = Session(pid: Pid, start: nat, token: Content, pc: Pc)

  datatype State = State(
    fs: Files,
    sessions: map<SessionId, Session>,
    procs: map<Pid, nat>,
    used: set<(Pid, nat)>,
    nonces: set<nat>)

  /** A process exits or is born, a live process enters acquireRunLock, or a session takes a step. */
  datatype Label =
    | Exit(gone: Pid)
    | Spawn(born: Pid, at: nat)
    | Begin(id: SessionId, parent: Pid, startKnown: bool, nonce: nat)
    | Act(who: SessionId, choice: Choice)

  predicate Live(s: State, p: SessionId) {
    p in s.sessions && s.sessions[p].pid in s.procs && s.procs[s.sessions[p].pid] == s.sessions[p].start
  }

  /** Pids recur, but a (pid, start time) pair never does; token nonces never do. */
  predicate Enabled(s: State, l: Label) {
    match l
    case Exit(pid) => pid in s.procs
    case Spawn(pid, start) => pid !in s.procs && start > 0 && (pid, start) !in s.used
    case Begin(p, pid, _, nonce) => p !in s.sessions && pid in s.procs && nonce !in s.nonces
    case Act(p, _) => Live(s, p)
  }

  function Advance(s: State, p: SessionId, c: Choice): State
    requires p in s.sessions
  {
    var x := s.sessions[p];
    var (pc, call) := Next(s.fs, s.procs, x.pc, x.token, c);
    s.(fs := Perform(s.fs, call), sessions := s.sessions[p := x.(pc := pc)])
  }

  function Apply(s: State, l: Label): State
    requires Enabled(s, l)
  {
    match l
    case Exit(pid) => s.(procs := s.procs - {pid})
    case Spawn(pid, start) => s.(procs := s.procs[pid := start], used := s.used + {(pid, start)})
    case Begin(p, pid, known, nonce) =>
      var token := V2(pid, if known then s.procs[pid] else 0, nonce);
      s.(sessions := s.sessions[p := Session(pid, s.procs[pid], token, Create)], nonces := s.nonces + {nonce})
    case Act(p, c) => Advance(s, p, c)
  }

  // ----- what every interleaving keeps, file-system failures included -----

  /** From the exclusive create to the end of the release: the file is this session's own. */
  predicate Owns(pc: Pc) {
    pc.Write? || pc.Abort? || pc.Hold? || pc.ReleaseRead? || pc.ReleaseRemove?
  }

  /** Between the rename and the remove or link that ends it. */
  predicate InWindow(pc: Pc) {
    pc.Grab? || pc.Drop? || pc.Restore?
  }

  predicate HasSlot(pc: Pc) {
    InWindow(pc) || pc.Unlink? || pc.Discard?
  }

  /** The session has judged the owner of the file it found to be dead. */
  predicate Reclaiming(pc: Pc) {
    pc.Recheck? || pc.Rename? || pc.Grab? || pc.Drop?
  }

  ghost predicate Known(nonces: set<nat>, c: Content) {
    c.V2? ==> c.nonce in nonces
  }

  ghost predicate ValidFiles(fs: Files, nonces: set<nat>) {
    && (forall n :: n in fs.dir ==> fs.dir[n] in fs.data && (n.ReclaimFile? ==> n.slot < fs.nextSlot))
    && (forall i :: i in fs.data ==> i < fs.nextInode && Known(nonces, fs.data[i]))
  }

  ghost predicate ValidProcesses(s: State) {
    && (forall pid :: pid in s.procs ==> s.procs[pid] > 0 && (pid, s.procs[pid]) in s.used)
    && (forall p :: p in s.sessions ==> (s.sessions[p].pid, s.sessions[p].start) in s.used)
  }

  /** What a program point may rely on in the files. */
  ghost predicate ValidPc(fs: Files, nonces: set<nat>, pc: Pc, token: Content) {
    match pc
    case Write(ino) => ino in fs.data && fs.data[ino] == Blank
    case Abort(ino) => ino in fs.data && (fs.data[ino] == Blank || fs.data[ino] == token)
    case Hold(ino) => ino in fs.data && fs.data[ino] == token
    case ReleaseRead(ino) => ino in fs.data && fs.data[ino] == token
    case ReleaseRemove(ino) => ino in fs.data && fs.data[ino] == token
    case Judge(owner, _) => Known(nonces, owner)
    case Grab(_, slot) => ReclaimFile(slot) in fs.dir
    case Drop(owner, slot) => ReclaimFile(slot) in fs.dir && fs.Read(ReclaimFile(slot)) == owner
    case Restore(slot) => ReclaimFile(slot) in fs.dir
    case Unlink(slot) => slot < fs.nextSlot
    case Discard(slot, _) => slot < fs.nextSlot
    case _ => true
  }

  ghost predicate ValidSession(s: State, x: Session) {
    && x.token.V2? && x.token.pid == x.pid && (x.token.start == 0 || x.token.start == x.start)
    && x.token.nonce in s.nonces
    && ValidPc(s.fs, s.nonces, x.pc, x.token)
    && (Reclaiming(x.pc) ==> !x.pc.owner.Blank? && Known(s.nonces, x.pc.owner))
  }

  /** Two sessions never share a token, an owned file or a reclaim name. */
  ghost predicate Apart(x: Session, y: Session) {
    && x.token != y.token
    && (Owns(x.pc) && Owns(y.pc) ==> x.pc.ino != y.pc.ino)
    && (HasSlot(x.pc) && HasSlot(y.pc) ==> x.pc.slot != y.pc.slot)
  }

  ghost predicate Sound(s: State) {
    && ValidProcesses(s)
    && ValidFiles(s.fs, s.nonces)
    && (forall p :: p in s.sessions ==> ValidSession(s, s.sessions[p]))
    && (forall p, q :: p in s.sessions && q in s.sessions && p != q ==> Apart(s.sessions[p], s.sessions[q]))
  }

  /** No call is in progress; the directory may hold any leftovers of earlier runs. */
  ghost predicate Initial(s: State) {
    s.sessions == map[] && ValidProcesses(s) && ValidFiles(s.fs, s.nonces)
  }

  /** A session writes only into its own blank file and removes only its own reclaim name. */
  ghost predicate Permitted(fs: Files, pc: Pc, token: Content, call: Call) {
    match call
    case NoCall => true
    case CreateLock => pc.Create? && LockFile !in fs.dir
    case WriteFile(ino, bytes) => pc == Write(ino) && bytes == token
    case Remove(LockFile) => pc.Abort? || pc.ReleaseRemove?
    case Remove(ReclaimFile(slot)) => HasSlot(pc) && slot == pc.slot && !pc.Grab? && !pc.Restore?
    case MoveLock => pc.Rename? && LockFile in fs.dir
    case LinkLock(slot) => pc == Restore(slot) && LockFile !in fs.dir && ReclaimFile(slot) in fs.dir
  }

  lemma NextPermitted(fs: Files, procs: map<Pid, nat>, pc: Pc, token: Content, c: Choice)
    ensures Permitted(fs, pc, token, Next(fs, procs, pc, token, c).1)
  {}

  lemma PerformValid(fs: Files, nonces: set<nat>, pc: Pc, token: Content, call: Call)
    requires ValidFiles(fs, nonces) && Permitted(fs, pc, token, call) && Known(nonces, token) && ValidPc(fs, nonces, pc, token)
    ensures ValidFiles(Perform(fs, call), nonces)
  {}

  lemma NextValid(fs: Files, procs: map<Pid, nat>, nonces: set<nat>, pc: Pc, token: Content, c: Choice)
    requires ValidFiles(fs, nonces) && ValidPc(fs, nonces, pc, token)
    ensures var (after, call) := Next(fs, procs, pc, token, c); ValidPc(Perform(fs, call), nonces, after, token)
  {}

  /** A step of one session leaves the files another session relies on alone. */
  lemma OtherValid(fs: Files, nonces: set<nat>, pc: Pc, token: Content, call: Call, pc': Pc, token': Content)
    requires ValidFiles(fs, nonces) && Permitted(fs, pc, token, call) && ValidPc(fs, nonces, pc, token)
    requires ValidPc(fs, nonces, pc', token') && !token.Blank? && (pc'.Drop? ==> !pc'.owner.Blank?)
    requires Owns(pc) && Owns(pc') ==> pc.ino != pc'.ino
    requires HasSlot(pc) && HasSlot(pc') ==> pc.slot != pc'.slot
    ensures ValidPc(Perform(fs, call), nonces, pc', token')
  {}

  /** A session's next file and reclaim name are the ones it had or new ones. */
  lemma NextNames(fs: Files, procs: map<Pid, nat>, pc: Pc, token: Content, c: Choice)
    ensures var after := Next(fs, procs, pc, token, c).0;
      && (Owns(after) ==> (Owns(pc) && after.ino == pc.ino) || after == Write(fs.nextInode))
      && (HasSlot(after) ==> (HasSlot(pc) && after.slot == pc.slot) || (pc.Rename? && after == Grab(pc.owner, fs.nextSlot)))
      && (Reclaiming(after) ==> (Reclaiming(pc) && after.owner == pc.owner) ||
                                (pc.Judge? && after == Recheck(pc.owner) && OwnerVerdict(pc.owner, procs, c.probe) == Dead))
  {}

  lemma ActorValid(s: State, p: SessionId, c: Choice)
    requires Sound(s) && p in s.sessions
    ensures var t := Advance(s, p, c); ValidSession(t, t.sessions[p])
  {
    var t := Advance(s, p, c);
    var x := s.sessions[p];
    assert ValidSession(s, x);
    NextValid(s.fs, s.procs, s.nonces, x.pc, x.token, c);
    NextNames(s.fs, s.procs, x.pc, x.token, c);
  }

  lemma BystanderValid(s: State, p: SessionId, c: Choice, q: SessionId)
    requires Sound(s) && p in s.sessions && q in s.sessions && p != q
    ensures var t := Advance(s, p, c); ValidSession(t, t.sessions[q])
  {
    var t := Advance(s, p, c);
    var x, y := s.sessions[p], s.sessions[q];
    assert ValidSession(s, x) && ValidSession(s, y) && Apart(x, y);
    var call := Next(s.fs, s.procs, x.pc, x.token, c).1;
    NextPermitted(s.fs, s.procs, x.pc, x.token, c);
    OtherValid(s.fs, s.nonces, x.pc, x.token, call, y.pc, y.token);
  }

  lemma ActorApart(s: State, p: SessionId, c: Choice, q: SessionId)
    requires Sound(s) && p in s.sessions && q in s.sessions && p != q
    ensures Apart(Advance(s, p, c).sessions[p], s.sessions[q])
  {
    var x, y := s.sessions[p], s.sessions[q];
    assert ValidSession(s, y) && Apart(x, y);
    NextNames(s.fs, s.procs, x.pc, x.token, c);
  }

  lemma ActSound(s: State, p: SessionId, c: Choice)
    requires Sound(s) && p in s.sessions
    ensures Sound(Advance(s, p, c))
  {
    var t := Advance(s, p, c);
    var x := s.sessions[p];
    assert ValidSession(s, x);
    NextPermitted(s.fs, s.procs, x.pc, x.token, c);
    PerformValid(s.fs, s.nonces, x.pc, x.token, Next(s.fs, s.procs, x.pc, x.token, c).1);
    forall q | q in t.sessions ensures ValidSession(t, t.sessions[q]) {
      if q == p { ActorValid(s, p, c); } else { BystanderValid(s, p, c, q); }
    }
    forall q, r | q in t.sessions && r in t.sessions && q != r ensures Apart(t.sessions[q], t.sessions[r]) {
      if q == p { ActorApart(s, p, c, r); } else if r == p { ActorApart(s, p, c, q); }
    }
  }

  lemma ProcessSound(s: State, l: Label)
    requires Sound(s) && Enabled(s, l) && (l.Exit? || l.Spawn?)
    ensures Sound(Apply(s, l))
  {
    var t := Apply(s, l);
    forall q | q in t.sessions ensures ValidSession(t, t.sessions[q]) {
      assert ValidSession(s, s.sessions[q]);
    }
  }

  lemma BeginSound(s: State, l: Label)
    requires Sound(s) && Enabled(s, l) && l.Begin?
    ensures Sound(Apply(s, l))
  {
    var t := Apply(s, l);
    forall q | q in t.sessions ensures ValidSession(t, t.sessions[q]) {
      if q != l.id { assert ValidSession(s, s.sessions[q]); }
    }
    forall q, r | q in t.sessions && r in t.sessions && q != r ensures Apart(t.sessions[q], t.sessions[r]) {
      if q != l.id { assert ValidSession(s, s.sessions[q]); }
      if r != l.id { assert ValidSession(s, s.sessions[r]); }
    }
  }

  lemma StepSound(s: State, l: Label)
    requires Sound(s) && Enabled(s, l)
    ensures Sound(Apply(s, l))
  {
    match l
    case Act(p, c) => ActSound(s, p, c);
    case Begin(_, _, _, _) => BeginSound(s, l);
    case _ => ProcessSound(s, l);
  }

  // ----- runs -----

  /** States `run[0], run[1], ..` linked by `labels`. */
  ghost predicate IsRun(run: seq<State>, labels: seq<Label>) {
    && |run| == |labels| + 1
    && Initial(run[0])
    && forall i :: 0 <= i < |labels| ==> Enabled(run[i], labels[i]) && run[i + 1] == Apply(run[i], labels[i])
  }

  lemma {:induction false} RunSound(run: seq<State>, labels: seq<Label>, i: nat)
    requires IsRun(run, labels) && i < |run|
    ensures forall j :: 0 <= j <= i ==> Sound(run[j])
  {
    if i > 0 {
      RunSound(run, labels, i - 1);
      StepSound(run[i - 1], labels[i - 1]);
    }
  }

  /** From its exclusive create to the end of its release, with its process still running. */
  predicate Guarded(s: State, p: SessionId) {
    Live(s, p) && Owns(s.sessions[p].pc)
  }

  /** The session has the lock: its create succeeded, and it has neither failed nor begun to release. */
  predicate Holder(s: State, p: SessionId) {
    Live(s, p) && (s.sessions[p].pc.Write? || s.sessions[p].pc.Hold?)
  }

  ghost predicate AtMostOneHolder(s: State) {
    forall p, q :: Holder(s, p) && Holder(s, q) ==> p == q
  }

  /** Session `q` has renamed inode `i` away and may still put it back. */
  predicate Carries(s: State, q: SessionId, i: Inode) {
    && q in s.sessions && (s.sessions[q].pc.Grab? || s.sessions[q].pc.Restore?)
    && ReclaimFile(s.sessions[q].pc.slot) in s.fs.dir
    && s.fs.dir[ReclaimFile(s.sessions[q].pc.slot)] == i
  }

  // ----- is a reclaimed owner dead? -----

  /** No live session put this content into a lock file, and none will. */
  ghost predicate OwnerDead(s: State, c: Content) {
    forall p :: p in s.sessions && s.sessions[p].token == c ==> !Live(s, p)
  }

  /** Whoever is being reclaimed is dead. */
  ghost predicate Truthful(s: State) {
    forall p :: p in s.sessions && Reclaiming(s.sessions[p].pc) ==> OwnerDead(s, s.sessions[p].pc.owner)
  }

  /** The step judges a live session's token, with its start time, and gets no handle on its process. */
  ghost predicate Misjudges(s: State, l: Label)
    requires Enabled(s, l)
  {
    && l.Act? && l.choice.probe.HandleFault? && s.sessions[l.who].pc.Judge?
    && var owner := s.sessions[l.who].pc.owner;
       owner.V2? && owner.start != 0 && exists p :: Live(s, p) && s.sessions[p].token == owner
  }

  /** A verdict of death is wrong exactly if a live owner's process could not be opened. */
  lemma DeadIsDeadExactly(s: State, l: Label)
    requires Sound(s) && Enabled(s, l) && l.Act? && s.sessions[l.who].pc.Judge?
    requires OwnerVerdict(s.sessions[l.who].pc.owner, s.procs, l.choice.probe) == Dead
    ensures OwnerDead(s, s.sessions[l.who].pc.owner) <==> !Misjudges(s, l)
  {
    var c := s.sessions[l.who].pc.owner;
    forall p | p in s.sessions && s.sessions[p].token == c && Live(s, p) ensures Misjudges(s, l) {
      assert ValidSession(s, s.sessions[p]);
    }
  }

  lemma StillDead(s: State, l: Label, c: Content)
    requires Sound(s) && Enabled(s, l) && OwnerDead(s, c) && Known(s.nonces, c)
    ensures OwnerDead(Apply(s, l), c)
  {
    var t := Apply(s, l);
    forall q | q in t.sessions && t.sessions[q].token == c ensures !Live(t, q) {
      if q in s.sessions { assert ValidSession(s, s.sessions[q]) && s.sessions[q].token == c; }
    }
  }

  lemma StepTruthful(s: State, l: Label)
    requires Sound(s) && Truthful(s) && Enabled(s, l)
    ensures Truthful(Apply(s, l)) <==> !Misjudges(s, l)
  {
    var t := Apply(s, l);
    if Misjudges(s, l) {
      var x := s.sessions[l.who];
      assert x.pc.owner.pid in s.procs by {
        var p :| Live(s, p) && s.sessions[p].token == x.pc.owner;
        assert ValidSession(s, s.sessions[p]);
      }
      DeadIsDeadExactly(s, l);
      var p :| p in s.sessions && s.sessions[p].token == x.pc.owner && Live(s, p);
      assert Live(t, p) && t.sessions[p].token == t.sessions[l.who].pc.owner;
    } else {
      forall p | p in t.sessions && Reclaiming(t.sessions[p].pc) ensures OwnerDead(t, t.sessions[p].pc.owner) {
        StepKeepsDead(s, l, p);
      }
    }
  }

  lemma StepKeepsDead(s: State, l: Label, p: SessionId)
    requires Sound(s) && Truthful(s) && Enabled(s, l) && !Misjudges(s, l)
    requires p in Apply(s, l).sessions && Reclaiming(Apply(s, l).sessions[p].pc)
    ensures OwnerDead(Apply(s, l), Apply(s, l).sessions[p].pc.owner)
  {
    assert p in s.sessions;
    var x := s.sessions[p];
    assert ValidSession(s, x);
    if l.Act? && l.who == p {
      NextNames(s.fs, s.procs, x.pc, x.token, l.choice);
      if !Reclaiming(x.pc) { DeadIsDeadExactly(s, l); }
    }
    StillDead(s, l, x.pc.owner);
  }

  lemma {:induction false} RunTruthful(run: seq<State>, labels: seq<Label>, i: nat)
    requires IsRun(run, labels) && i < |run| && forall j :: 0 <= j < i ==> !Misjudges(run[j], labels[j])
    ensures Truthful(run[i])
  {
    if i > 0 {
      RunSound(run, labels, i - 1);
      RunTruthful(run, labels, i - 1);
      StepTruthful(run[i - 1], labels[i - 1]);
    }
  }

  /** Over a whole run, whoever is being reclaimed is dead if and only if no liveness check met a live
      owner whose process it could not open. */
  lemma ReclaimedIsDeadExactly(run: seq<State>, labels: seq<Label>)
    requires IsRun(run, labels)
    ensures (forall i :: 0 <= i < |run| ==> Truthful(run[i])) <==>
      (forall j :: 0 <= j < |labels| ==> !Misjudges(run[j], labels[j]))
  {
    if forall i :: 0 <= i < |run| ==> Truthful(run[i]) {
      forall j | 0 <= j < |labels| ensures !Misjudges(run[j], labels[j]) {
        RunSound(run, labels, j);
        StepTruthful(run[j], labels[j]);
        assert Truthful(run[j + 1]);
      }
    }
    if forall j :: 0 <= j < |labels| ==> !Misjudges(run[j], labels[j]) {
      forall i | 0 <= i < |run| ensures Truthful(run[i]) { RunTruthful(run, labels, i); }
    }
  }

  /** The file that the retry branch deletes holds the token that was judged; and unless a check before
      it failed to open a live owner's process, that owner is dead and the file is no live session's. */
  lemma RetryDeletesOnlyTheDead(run: seq<State>, labels: seq<Label>, i: nat)
    requires IsRun(run, labels) && i < |labels|
    requires labels[i].Act? && run[i].sessions[labels[i].who].pc.Drop?
    ensures var x := run[i].sessions[labels[i].who];
      ReclaimFile(x.pc.slot) in run[i].fs.dir && run[i].fs.Read(ReclaimFile(x.pc.slot)) == x.pc.owner
    ensures (forall j :: 0 <= j < i ==> !Misjudges(run[j], labels[j])) ==>
      var x := run[i].sessions[labels[i].who];
      && OwnerDead(run[i], x.pc.owner)
      && forall p :: Guarded(run[i], p) ==> run[i].fs.dir[ReclaimFile(x.pc.slot)] != run[i].sessions[p].pc.ino
  {
    RunSound(run, labels, i);
    var x := run[i].sessions[labels[i].who];
    assert ValidSession(run[i], x);
    if forall j :: 0 <= j < i ==> !Misjudges(run[j], labels[j]) {
      RunTruthful(run, labels, i);
      DroppedIsNobodys(run[i], labels[i].who);
    }
    hide Sound, Guarded, Misjudges, Apply, Enabled;
  }

  lemma DroppedIsNobodys(s: State, q: SessionId)
    requires Sound(s) && Truthful(s) && q in s.sessions && s.sessions[q].pc.Drop? && ReclaimFile(s.sessions[q].pc.slot) in s.fs.dir
    ensures forall p :: Guarded(s, p) ==> s.fs.dir[ReclaimFile(s.sessions[q].pc.slot)] != s.sessions[p].pc.ino
  {
    assert ValidSession(s, s.sessions[q]);
    forall p | Guarded(s, p) ensures s.fs.dir[ReclaimFile(s.sessions[q].pc.slot)] != s.sessions[p].pc.ino {
      assert ValidSession(s, s.sessions[p]);
    }
  }

  // ----- mutual exclusion -----

  /** The live owner's file is the lock file, or someone carries it and nothing has taken its place. */
  ghost predicate Placed(s: State, p: SessionId)
    requires p in s.sessions && Owns(s.sessions[p].pc)
  {
    var ino := s.sessions[p].pc.ino;
    if LockFile in s.fs.dir then s.fs.dir[LockFile] == ino else exists q :: Carries(s, q, ino)
  }

  ghost predicate Safe(s: State) {
    && Sound(s) && Truthful(s)
    && (forall p :: Guarded(s, p) ==> Placed(s, p))
    && (forall p, q :: Guarded(s, p) && Guarded(s, q) ==> p == q)
  }

  /** While a live owner's file is carried, nobody else creates or links the lock file, and the
      carrier's own calls succeed; no live owner is misjudged. */
  ghost predicate Undisturbed(s: State, l: Label)
    requires Enabled(s, l)
  {
    !Misjudges(s, l) && (l.Act? ==>
      var x := s.sessions[l.who];
      var (pc, call) := Next(s.fs, s.procs, x.pc, x.token, l.choice);
      && (call.CreateLock? || call.LinkLock? ==>
            forall p, q :: Guarded(s, p) && Carries(s, q, s.sessions[p].pc.ino) ==> q == l.who)
      && (pc.Discard? ==> forall p :: Guarded(s, p) ==> !Carries(s, l.who, s.sessions[p].pc.ino)))
  }

  lemma CarrierKeeps(s: State, w: SessionId, c: Choice, p: SessionId, r: SessionId)
    requires Safe(s) && Live(s, w) && Undisturbed(s, Act(w, c))
    requires Guarded(s, p) && Guarded(Advance(s, w, c), p)
    requires LockFile !in s.fs.dir && Carries(s, r, s.sessions[p].pc.ino)
    ensures Placed(Advance(s, w, c), p)
  {
    var t := Advance(s, w, c);
    var x := s.sessions[w];
    var (pc, call) := Next(s.fs, s.procs, x.pc, x.token, c);
    assert ValidSession(s, x) && ValidSession(s, s.sessions[p]) && ValidSession(s, s.sessions[r]);
    NextPermitted(s.fs, s.procs, x.pc, x.token, c);
    NextNames(s.fs, s.procs, x.pc, x.token, c);
    if r != w {
      assert Apart(x, s.sessions[r]);
      assert Carries(t, r, s.sessions[p].pc.ino);
    } else if call.LinkLock? {
    } else {
      assert !pc.Discard?;
      assert !pc.Drop?;
      assert Carries(t, r, s.sessions[p].pc.ino);
    }
  }

  lemma PlacedKept(s: State, w: SessionId, c: Choice, p: SessionId)
    requires Safe(s) && Live(s, w) && Undisturbed(s, Act(w, c))
    requires Guarded(s, p) && Guarded(Advance(s, w, c), p)
    ensures Placed(Advance(s, w, c), p)
  {
    var t := Advance(s, w, c);
    var x := s.sessions[w];
    var (pc, call) := Next(s.fs, s.procs, x.pc, x.token, c);
    NextPermitted(s.fs, s.procs, x.pc, x.token, c);
    NextNames(s.fs, s.procs, x.pc, x.token, c);
    assert Placed(s, p);
    if LockFile in s.fs.dir {
      if call.MoveLock? { assert Carries(t, w, s.sessions[p].pc.ino); }
      if call == Remove(LockFile) { assert Guarded(s, w); }
    } else {
      var r :| Carries(s, r, s.sessions[p].pc.ino);
      CarrierKeeps(s, w, c, p, r);
    }
  }

  lemma NewOwner(s: State, w: SessionId, c: Choice, p: SessionId)
    requires p in s.sessions && w in s.sessions && Guarded(Advance(s, w, c), p) && !Guarded(s, p)
    ensures p == w && Next(s.fs, s.procs, s.sessions[w].pc, s.sessions[w].token, c) == (Write(s.fs.nextInode), CreateLock)
  {
    NextNames(s.fs, s.procs, s.sessions[w].pc, s.sessions[w].token, c);
  }

  lemma ActSafe(s: State, w: SessionId, c: Choice)
    requires Safe(s) && Live(s, w) && Undisturbed(s, Act(w, c))
    ensures Safe(Advance(s, w, c))
  {
    var t := Advance(s, w, c);
    ActSound(s, w, c);
    StepTruthful(s, Act(w, c));
    NextPermitted(s.fs, s.procs, s.sessions[w].pc, s.sessions[w].token, c);
    forall p | Guarded(t, p) ensures Placed(t, p) {
      if Guarded(s, p) { PlacedKept(s, w, c, p); } else { NewOwner(s, w, c, p); }
    }
    forall p, q | Guarded(t, p) && Guarded(t, q) ensures p == q {
      if !Guarded(s, p) { NewOwner(s, w, c, p); }
      if !Guarded(s, q) { NewOwner(s, w, c, q); }
      if Guarded(s, p) { assert Placed(s, p); }
      if Guarded(s, q) { assert Placed(s, q); }
    }
  }

  lemma OtherSafe(s: State, l: Label)
    requires Safe(s) && Enabled(s, l) && !l.Act?
    ensures Safe(Apply(s, l))
  {
    var t := Apply(s, l);
    StepSound(s, l);
    StepTruthful(s, l);
    forall p | Guarded(t, p) ensures Guarded(s, p) && Placed(t, p) {
      assert Placed(s, p);
      if LockFile !in s.fs.dir {
        var r :| Carries(s, r, s.sessions[p].pc.ino);
        assert Carries(t, r, s.sessions[p].pc.ino);
      }
    }
  }

  lemma StepSafe(s: State, l: Label)
    requires Safe(s) && Enabled(s, l) && Undisturbed(s, l)
    ensures Safe(Apply(s, l))
  {
    if l.Act? { ActSafe(s, l.who, l.choice); } else { OtherSafe(s, l); }
  }

  lemma {:induction false} RunSafe(run: seq<State>, labels: seq<Label>, i: nat)
    requires IsRun(run, labels) && i < |run|
    requires forall j :: 0 <= j < i ==> Undisturbed(run[j], labels[j])
    ensures forall j :: 0 <= j <= i ==> Safe(run[j])
  {
    if i > 0 {
      RunSafe(run, labels, i - 1);
      StepSafe(run[i - 1], labels[i - 1]);
    }
  }

  /** Mutual exclusion over whole runs. */
  lemma MutualExclusion(run: seq<State>, labels: seq<Label>)
    requires IsRun(run, labels)
    requires forall j :: 0 <= j < |labels| ==> Undisturbed(run[j], labels[j])
    ensures forall i :: 0 <= i < |run| ==> AtMostOneHolder(run[i])
  {
    forall i | 0 <= i < |run| ensures AtMostOneHolder(run[i]) {
      RunSafe(run, labels, i);
      forall p, q | Holder(run[i], p) && Holder(run[i], q) ensures p == q {
        assert Guarded(run[i], p) && Guarded(run[i], q);
      }
    }
  }

  // ----- what breaks mutual exclusion, in all runs -----

  /** The call that a step makes. */
  function CallOf(s: State, l: Label): Call
    requires Enabled(s, l)
  {
    if l.Act? then Next(s.fs, s.procs, s.sessions[l.who].pc, s.sessions[l.who].token, l.choice).1 else NoCall
  }

  /** The file that the session created is the lock file. */
  predicate InPlace(s: State, p: SessionId)
    requires p in s.sessions && Owns(s.sessions[p].pc)
  {
    LockFile in s.fs.dir && s.fs.dir[LockFile] == s.sessions[p].pc.ino
  }

  /** The step renames or removes the lock file that is the holder's own. */
  predicate Displaces(s: State, l: Label, p: SessionId)
    requires Enabled(s, l)
  {
    Holder(s, p) && InPlace(s, p) && (CallOf(s, l).MoveLock? || CallOf(s, l) == Remove(LockFile))
  }

  /** The step links the holder's file back. */
  predicate PutsBack(s: State, l: Label, p: SessionId)
    requires Enabled(s, l)
  {
    && Holder(s, p) && CallOf(s, l).LinkLock?
    && var n := ReclaimFile(CallOf(s, l).from); n in s.fs.dir && s.fs.dir[n] == s.sessions[p].pc.ino
  }

  lemma HolderBefore(s: State, l: Label, p: SessionId)
    requires Sound(s) && Enabled(s, l) && Holder(Apply(s, l), p)
    ensures Holder(s, p) || (l == Act(p, l.choice) && CallOf(s, l).CreateLock?)
    ensures Holder(s, p) ==> Apply(s, l).sessions[p].pc.ino == s.sessions[p].pc.ino
    ensures !Holder(s, p) ==> InPlace(Apply(s, l), p)
  {
    hide ValidFiles, ValidSession, Apart;
  }

  /** A holder's file stops being the lock file exactly in a step that renames or removes it, and becomes
      the lock file again exactly in a step that links it back. */
  lemma DisplacedExactly(s: State, l: Label, p: SessionId)
    requires Sound(s) && Enabled(s, l) && Holder(s, p) && Holder(Apply(s, l), p)
    ensures InPlace(s, p) ==> (InPlace(Apply(s, l), p) <==> !Displaces(s, l, p))
    ensures !InPlace(s, p) ==> (InPlace(Apply(s, l), p) <==> PutsBack(s, l, p))
  {
    if l.Act? {
      var x := s.sessions[l.who];
      assert ValidSession(s, s.sessions[p]);
      NextPermitted(s.fs, s.procs, x.pc, x.token, l.choice);
      HolderBefore(s, l, p);
      hide Next, ValidSession, Apart;
    }
  }

  /** Only a session that has lost its own lock file removes another's: it is giving up or releasing. */
  lemma RemoverLostItsOwn(s: State, l: Label, p: SessionId)
    requires Sound(s) && Enabled(s, l) && Displaces(s, l, p) && CallOf(s, l) == Remove(LockFile)
    ensures var x := s.sessions[l.who]; l.who != p && (x.pc.Abort? || x.pc.ReleaseRemove?) && !InPlace(s, l.who)
  {
    NextPermitted(s.fs, s.procs, s.sessions[l.who].pc, s.sessions[l.who].token, l.choice);
    assert l.who != p ==> Apart(s.sessions[l.who], s.sessions[p]);
  }

  /** Between steps k and i the holder's file was displaced and not put back. */
  ghost predicate LostSince(run: seq<State>, labels: seq<Label>, p: SessionId, k: nat, i: nat)
    requires IsRun(run, labels)
  {
    k < i <= |labels| && Displaces(run[k], labels[k], p)
    && forall m :: k < m < i ==> !PutsBack(run[m], labels[m], p)
  }

  ghost predicate Lost(run: seq<State>, labels: seq<Label>, p: SessionId, i: nat)
    requires IsRun(run, labels)
  {
    exists k: nat :: LostSince(run, labels, p, k, i)
  }

  lemma {:induction false} LostExactly(run: seq<State>, labels: seq<Label>, p: SessionId, i: nat)
    requires IsRun(run, labels) && i < |run| && Holder(run[i], p)
    ensures !InPlace(run[i], p) <==> Lost(run, labels, p, i)
  {
    if i > 0 {
      var s, l := run[i - 1], labels[i - 1];
      RunSound(run, labels, i - 1);
      HolderBefore(s, l, p);
      if Holder(s, p) {
        LostExactly(run, labels, p, i - 1);
        DisplacedExactly(s, l, p);
        LostStep(run, labels, p, i - 1);
      } else {
        NeverHeldBefore(run, labels, p, i - 1);
      }
    }
  }

  lemma LostStep(run: seq<State>, labels: seq<Label>, p: SessionId, i: nat)
    requires IsRun(run, labels) && i < |labels|
    ensures Lost(run, labels, p, i + 1) <==>
      Displaces(run[i], labels[i], p) || (Lost(run, labels, p, i) && !PutsBack(run[i], labels[i], p))
  {
    hide Displaces, PutsBack;
    if Displaces(run[i], labels[i], p) { assert LostSince(run, labels, p, i, i + 1); }
    if Lost(run, labels, p, i) && !PutsBack(run[i], labels[i], p) {
      var k: nat :| LostSince(run, labels, p, k, i);
      assert LostSince(run, labels, p, k, i + 1);
    }
    if Lost(run, labels, p, i + 1) {
      var k: nat :| LostSince(run, labels, p, k, i + 1);
      assert k < i ==> LostSince(run, labels, p, k, i);
    }
  }

  /** A session holds the lock in one stretch: before its create it never did. */
  predicate Early(pc: Pc) {
    !Owns(pc) && !pc.Done?
  }

  lemma EarlyBefore(s: State, l: Label, p: SessionId)
    requires Enabled(s, l) && p in s.sessions && Early(Apply(s, l).sessions[p].pc)
    ensures Early(s.sessions[p].pc)
  {
    if l.Act? { NextNames(s.fs, s.procs, s.sessions[l.who].pc, s.sessions[l.who].token, l.choice); }
  }

  lemma {:induction false} NeverHeldBefore(run: seq<State>, labels: seq<Label>, p: SessionId, i: nat)
    requires IsRun(run, labels) && i < |run| && (p in run[i].sessions ==> Early(run[i].sessions[p].pc))
    ensures forall k :: 0 <= k <= i ==> !Holder(run[k], p)
  {
    if i > 0 {
      if p in run[i - 1].sessions { EarlyBefore(run[i - 1], labels[i - 1], p); }
      NeverHeldBefore(run, labels, p, i - 1);
    }
  }

  /** The step creates the lock file after a live holder's file was renamed or removed and not linked back. */
  ghost predicate CreatesAfterLoss(run: seq<State>, labels: seq<Label>, i: nat)
    requires IsRun(run, labels) && i < |labels|
  {
    CallOf(run[i], labels[i]).CreateLock? && exists p :: Holder(run[i], p) && Lost(run, labels, p, i)
  }

  /** The exact limit of the protocol, over every run, faults and misjudgements included: at most one live
      process holds the lock in all its states if and only if no step creates the lock file after a live
      holder's file was renamed or removed and before it was linked back. */
  lemma ExclusionExactly(run: seq<State>, labels: seq<Label>)
    requires IsRun(run, labels)
    ensures (forall i :: 0 <= i < |run| ==> AtMostOneHolder(run[i])) <==>
      (forall i :: 0 <= i < |labels| ==> !CreatesAfterLoss(run, labels, i))
  {
    if forall i :: 0 <= i < |run| ==> AtMostOneHolder(run[i]) {
      forall i | 0 <= i < |labels| ensures !CreatesAfterLoss(run, labels, i) {
        assert AtMostOneHolder(run[i + 1]);
        if CreatesAfterLoss(run, labels, i) { CreateMakesTwo(run, labels, i); }
      }
    }
    if forall i :: 0 <= i < |labels| ==> !CreatesAfterLoss(run, labels, i) {
      forall i | 0 <= i < |run| ensures AtMostOneHolder(run[i]) { OneHolderKept(run, labels, i); }
    }
  }

  lemma CreateMakesTwo(run: seq<State>, labels: seq<Label>, i: nat)
    requires IsRun(run, labels) && i < |labels| && CreatesAfterLoss(run, labels, i)
    ensures !AtMostOneHolder(run[i + 1])
  {
    var s, l := run[i], labels[i];
    var p :| Holder(s, p) && Lost(run, labels, p, i);
    NextPermitted(s.fs, s.procs, s.sessions[l.who].pc, s.sessions[l.who].token, l.choice);
    assert Holder(run[i + 1], p) && Holder(run[i + 1], l.who) && p != l.who;
  }

  /** A holder after a step that breaks nothing held before and saw no create, or has just created. */
  lemma HolderFrom(run: seq<State>, labels: seq<Label>, p: SessionId, i: nat)
    requires IsRun(run, labels) && i < |labels| && !CreatesAfterLoss(run, labels, i) && Holder(run[i + 1], p)
    ensures (CallOf(run[i], labels[i]).CreateLock? && labels[i] == Act(p, labels[i].choice))
      || (!CallOf(run[i], labels[i]).CreateLock? && Holder(run[i], p))
  {
    RunSound(run, labels, i);
    HolderBefore(run[i], labels[i], p);
    hide CallOf, CreatesAfterLoss, Sound, Holder, InPlace, Next;
    if Holder(run[i], p) && CallOf(run[i], labels[i]).CreateLock? { CreateNeedsLoss(run, labels, p, i); }
  }

  lemma {:induction false} OneHolderKept(run: seq<State>, labels: seq<Label>, i: nat)
    requires IsRun(run, labels) && i < |run|
    requires forall j :: 0 <= j < i ==> !CreatesAfterLoss(run, labels, j)
    ensures AtMostOneHolder(run[i])
  {
    hide CallOf, CreatesAfterLoss, Holder, Enabled, Apply;
    if i > 0 {
      OneHolderKept(run, labels, i - 1);
      forall p, q | Holder(run[i], p) && Holder(run[i], q) ensures p == q {
        HolderFrom(run, labels, p, i - 1);
        HolderFrom(run, labels, q, i - 1);
      }
    } else {
      NobodyAtFirst(run[0]);
    }
  }

  lemma NobodyAtFirst(s: State)
    requires Initial(s)
    ensures AtMostOneHolder(s)
  {}

  lemma CreateNeedsLoss(run: seq<State>, labels: seq<Label>, p: SessionId, i: nat)
    requires IsRun(run, labels) && i < |labels| && Holder(run[i], p) && CallOf(run[i], labels[i]).CreateLock?
    ensures CreatesAfterLoss(run, labels, i)
  {
    var s, l := run[i], labels[i];
    NextPermitted(s.fs, s.procs, s.sessions[l.who].pc, s.sessions[l.who].token, l.choice);
    LostExactly(run, labels, p, i);
  }

  // ----- the root of every failure -----

  /** The step renames away the file of a live session that owns it. */
  ghost predicate Steals(s: State, l: Label)
    requires Enabled(s, l)
  {
    CallOf(s, l).MoveLock? && exists p :: Guarded(s, p) && InPlace(s, p)
  }

  ghost predicate AllInPlace(s: State) {
    forall p :: Guarded(s, p) ==> InPlace(s, p)
  }

  lemma ActInPlace(s: State, w: SessionId, c: Choice, p: SessionId)
    requires Sound(s) && AllInPlace(s) && Live(s, w) && !Steals(s, Act(w, c)) && Guarded(Advance(s, w, c), p)
    ensures InPlace(Advance(s, w, c), p)
  {
    var x := s.sessions[w];
    var call := Next(s.fs, s.procs, x.pc, x.token, c).1;
    NextPermitted(s.fs, s.procs, x.pc, x.token, c);
    NextNames(s.fs, s.procs, x.pc, x.token, c);
    if !Guarded(s, p) {
      NewOwner(s, w, c, p);
    } else {
      assert InPlace(s, p) && !call.MoveLock?;
      if p != w && call == Remove(LockFile) { assert Apart(x, s.sessions[p]) && Guarded(s, w); }
    }
  }

  lemma StepInPlace(s: State, l: Label)
    requires Sound(s) && AllInPlace(s) && Enabled(s, l) && !Steals(s, l)
    ensures AllInPlace(Apply(s, l))
  {
    var t := Apply(s, l);
    forall p | Guarded(t, p) ensures InPlace(t, p) {
      if l.Act? {
        ActInPlace(s, l.who, l.choice, p);
      } else {
        assert Guarded(s, p);
      }
    }
  }

  lemma {:induction false} RunInPlace(run: seq<State>, labels: seq<Label>, i: nat)
    requires IsRun(run, labels) && i < |run| && forall j :: 0 <= j < i ==> !Steals(run[j], labels[j])
    ensures AllInPlace(run[i])
  {
    if i > 0 {
      RunSound(run, labels, i - 1);
      RunInPlace(run, labels, i - 1);
      StepInPlace(run[i - 1], labels[i - 1]);
    }
  }

  /** Whatever else goes wrong, faults included: as long as no rename takes a live owner's file, at most
      one live session owns the lock. Every failure begins with such a rename. */
  lemma ExclusionUntilSteal(run: seq<State>, labels: seq<Label>, i: nat)
    requires IsRun(run, labels) && i < |run| && forall j :: 0 <= j < i ==> !Steals(run[j], labels[j])
    ensures forall p, q :: Guarded(run[i], p) && Guarded(run[i], q) ==> p == q
  {
    RunSound(run, labels, i);
    RunInPlace(run, labels, i);
    forall p, q | Guarded(run[i], p) && Guarded(run[i], q) ensures p == q {
      assert InPlace(run[i], p) && InPlace(run[i], q);
      assert p != q ==> Apart(run[i].sessions[p], run[i].sessions[q]);
    }
  }

  // ----- the window condition in terms of steps only -----

  /** While a session is between its rename and its link or remove, or crashed there, no other session
      creates or renames the lock file, and its own reads and links do not fail; no live owner is
      misjudged. */
  ghost predicate WindowClean(s: State, l: Label)
    requires Enabled(s, l)
  {
    !Misjudges(s, l) && (l.Act? ==>
      var x := s.sessions[l.who];
      var call := Next(s.fs, s.procs, x.pc, x.token, l.choice).1;
      && (call.CreateLock? || call.MoveLock? ==>
            forall q :: q in s.sessions && q != l.who ==> !InWindow(s.sessions[q].pc))
      && (x.pc.Grab? || x.pc.Restore? ==> !l.choice.fault))
  }

  ghost predicate OneWindow(s: State) {
    && (forall p, q :: p in s.sessions && q in s.sessions && InWindow(s.sessions[p].pc) && InWindow(s.sessions[q].pc) ==> p == q)
    && (forall p :: p in s.sessions && InWindow(s.sessions[p].pc) ==> LockFile !in s.fs.dir)
  }

  lemma WindowStep(s: State, l: Label)
    requires Sound(s) && OneWindow(s) && Enabled(s, l) && WindowClean(s, l)
    ensures OneWindow(Apply(s, l)) && Undisturbed(s, l)
  {
    if l.Act? {
      var x := s.sessions[l.who];
      assert ValidSession(s, x);
      NextPermitted(s.fs, s.procs, x.pc, x.token, l.choice);
      NextNames(s.fs, s.procs, x.pc, x.token, l.choice);
    }
  }

  lemma {:induction false} CleanRun(run: seq<State>, labels: seq<Label>, i: nat)
    requires IsRun(run, labels) && i < |run|
    requires forall j :: 0 <= j < |labels| ==> WindowClean(run[j], labels[j])
    ensures forall j :: 0 <= j <= i ==> OneWindow(run[j])
  {
    if i > 0 {
      CleanRun(run, labels, i - 1);
      RunSound(run, labels, i - 1);
      WindowStep(run[i - 1], labels[i - 1]);
    }
  }

  /** Mutual exclusion whenever no rename-inspect-restore window is interleaved with another
      session's create or rename and its own calls succeed; releases, probes and exits of other
      sessions may land anywhere. */
  lemma MutualExclusionOutsideWindows(run: seq<State>, labels: seq<Label>)
    requires IsRun(run, labels)
    requires forall j :: 0 <= j < |labels| ==> WindowClean(run[j], labels[j])
    ensures forall i :: 0 <= i < |run| ==> AtMostOneHolder(run[i])
  {
    forall j | 0 <= j < |labels| ensures Undisturbed(run[j], labels[j]) {
      CleanRun(run, labels, j);
      RunSound(run, labels, j);
      WindowStep(run[j], labels[j]);
    }
    MutualExclusion(run, labels);
  }

  // ----- a run that breaks mutual exclusion -----

  /** Some run leads to the state; with `clean`, one in which every call and every probe succeeds. */
  ghost predicate Reaches(s: State, clean: bool) {
    exists run, labels :: IsRun(run, labels) && run[|labels|] == s && (clean ==> Faultless(labels))
  }

  ghost predicate Faultless(labels: seq<Label>) {
    forall i :: 0 <= i < |labels| && labels[i].Act? ==> labels[i].choice == OK
  }

  lemma Extend(s: State, clean: bool, l: Label)
    requires Reaches(s, clean) && Enabled(s, l) && (clean && l.Act? ==> l.choice == OK)
    ensures Reaches(Apply(s, l), clean)
  {
    var run, labels :| IsRun(run, labels) && run[|labels|] == s && (clean ==> Faultless(labels));
    var run', labels' := run + [Apply(s, l)], labels + [l];
    assert IsRun(run', labels') && run'[|labels'|] == Apply(s, l);
  }

  const OK: Choice := Choice(false, false, false, CleanProbe)
  const FAULTY: Choice := OK.(fault := true)
  const GHOST: Content := V2(9, 5, 0)

  ghost function Token(p: nat): Content { V2(p, p + 1, p + 1) }

  const PROCS: map<Pid, nat> := map[0 := 1, 1 := 2, 2 := 3, 3 := 4]

  datatype Points = Points(a: Pc, b: Pc, c: Pc, d: Pc) {
    function Of(p: nat): Pc { if p == 0 then a else if p == 1 then b else if p == 2 then c else d }
    function With(p: nat, pc: Pc): Points {
      if p == 0 then this.(a := pc) else if p == 1 then this.(b := pc) else if p == 2 then this.(c := pc) else this.(d := pc)
    }
  }

  /** Sessions 0 to 3 of the live processes 0 to 3. */
  ghost function Cast(fs: Files, pcs: Points): State {
    State(fs, map p | 0 <= p < 4 :: Session(p, p + 1, Token(p), pcs.Of(p)),
          PROCS, {(0, 1), (1, 2), (2, 3), (3, 4), (9, 5)}, {0, 1, 2, 3, 4})
  }

  ghost function React(fs: Files, pc: Pc, p: nat, c: Choice): (Pc, Call) {
    Next(fs, PROCS, pc, Token(p), c)
  }

  const IDLE: Points := Points(Create, Create, Create, Create)

  ghost function Upto(n: nat): set<nat> { if n == 0 then {0} else Upto(n - 1) + {n} }

  /** The first n processes have entered. */
  ghost function Entered(fs: Files, n: nat): State
    requires n <= 4
  {
    State(fs, map p | 0 <= p < n :: Session(p, p + 1, Token(p), Create),
          PROCS, {(0, 1), (1, 2), (2, 3), (3, 4), (9, 5)}, Upto(n))
  }

  lemma Enter(fs: Files, n: nat)
    requires n < 4 && Reaches(Entered(fs, n), true)
    ensures Reaches(Entered(fs, n + 1), true)
  {
    hide Next, Reaches;
    var l := Begin(n, n, true, n + 1);
    Extend(Entered(fs, n), true, l);
    assert Apply(Entered(fs, n), l).sessions == Entered(fs, n + 1).sessions;
    assert Apply(Entered(fs, n), l).nonces == Entered(fs, n + 1).nonces;
  }

  lemma Start(fs: Files)
    requires ValidFiles(fs, {0})
    ensures Reaches(Cast(fs, IDLE), true)
  {
    var s := Entered(fs, 0);
    assert Initial(s) by { assert s.nonces == {0}; assert s.sessions == map[]; }
    assert IsRun([s], []) && [s][0] == s;
    AllEntered(fs);
    hide IsRun, Entered, Cast;
    Enter(fs, 0);
    Enter(fs, 1);
    Enter(fs, 2);
    Enter(fs, 3);
  }

  lemma AllEntered(fs: Files)
    ensures Entered(fs, 4) == Cast(fs, IDLE)
  {
    assert Entered(fs, 4).nonces == {0, 1, 2, 3, 4};
    assert Entered(fs, 4).sessions == Cast(fs, IDLE).sessions;
  }

  /** Session `who` takes its next step. */
  lemma Turn(clean: bool, who: nat, c: Choice, fs: Files, pcs: Points, fs': Files, pcs': Points)
    requires Reaches(Cast(fs, pcs), clean) && who < 4 && (clean ==> c == OK)
    requires var r := React(fs, pcs.Of(who), who, c); fs' == Perform(fs, r.1) && pcs' == pcs.With(who, r.0)
    ensures Reaches(Cast(fs', pcs'), clean)
    ensures Enabled(Cast(fs, pcs), Act(who, c)) && Apply(Cast(fs, pcs), Act(who, c)) == Cast(fs', pcs')
  {
    hide Next, Perform, Reaches;
    var s := Cast(fs, pcs);
    assert Live(s, who);
    Extend(s, clean, Act(who, c));
    assert Apply(s, Act(who, c)).sessions == Cast(fs', pcs').sessions;
  }

  ghost function Left(): Files { Files(map[LockFile := 0], map[0 := GHOST], 1, 0) }
  ghost function Moved(): Files { Files(map[ReclaimFile(0) := 0], map[0 := GHOST], 1, 1) }
  ghost function Gone(): Files { Files(map[], map[0 := GHOST], 1, 1) }
  ghost function Made(): Files { Files(map[LockFile := 1], map[0 := GHOST, 1 := Blank], 2, 1) }
  ghost function Taken(dir: map<Name, Inode>, slot: nat): Files { Files(dir, map[0 := GHOST, 1 := Token(1)], 2, slot) }

  lemma Judging(fs: Files, owner: Content, p: nat, c: Choice)
    requires LockFile in fs.dir && fs.Read(LockFile) == owner && owner.V2? && OwnerVerdict(owner, PROCS, c.probe) == Dead && !c.fault && !c.young
    ensures React(fs, Create, p, c) == (Stat, NoCall)
    ensures React(fs, Stat, p, c) == (ReadOwner(false), NoCall)
    ensures React(fs, ReadOwner(false), p, c) == (Judge(owner, false), NoCall)
    ensures React(fs, Judge(owner, false), p, c) == (Recheck(owner), NoCall)
    ensures React(fs, Recheck(owner), p, c) == (Rename(owner), NoCall)
    ensures Perform(fs, NoCall) == fs
  {}

  /** A session finds the lock of a process it takes for dead and is about to rename it. */
  lemma Judges(clean: bool, who: nat, c: Choice, fs: Files, pcs: Points, owner: Content)
    requires Reaches(Cast(fs, pcs), clean) && who < 4 && pcs.Of(who) == Create && (clean ==> c == OK)
    requires LockFile in fs.dir && fs.Read(LockFile) == owner && owner.V2? && OwnerVerdict(owner, PROCS, c.probe) == Dead && !c.fault && !c.young
    ensures Reaches(Cast(fs, pcs.With(who, Rename(owner))), clean)
  {
    Judging(fs, owner, who, c);
    hide React, Perform, OwnerVerdict, Reaches, Cast, Apply, Enabled;
    var a, b := pcs.With(who, Stat), pcs.With(who, ReadOwner(false));
    var d, e, f := pcs.With(who, Judge(owner, false)), pcs.With(who, Recheck(owner)), pcs.With(who, Rename(owner));
    Turn(clean, who, c, fs, pcs, fs, a);
    Turn(clean, who, c, fs, a, fs, b);
    Turn(clean, who, c, fs, b, fs, d);
    Turn(clean, who, c, fs, d, fs, e);
    Turn(clean, who, c, fs, e, fs, f);
  }

  lemma Reclaim()
    ensures React(Left(), Rename(GHOST), 1, OK) == (Grab(GHOST, 0), MoveLock) && Perform(Left(), MoveLock) == Moved()
    ensures React(Moved(), Grab(GHOST, 0), 1, OK) == (Drop(GHOST, 0), NoCall) && Perform(Moved(), NoCall) == Moved()
    ensures React(Moved(), Drop(GHOST, 0), 1, OK) == (Create, Remove(ReclaimFile(0))) && Perform(Moved(), Remove(ReclaimFile(0))) == Gone()
    ensures React(Gone(), Create, 1, OK) == (Write(1), CreateLock) && Perform(Gone(), CreateLock) == Made()
    ensures React(Made(), Write(1), 1, OK) == (Hold(1), WriteFile(1, Token(1)))
    ensures Perform(Made(), WriteFile(1, Token(1))) == Taken(map[LockFile := 1], 1)
  {
    assert Perform(Left(), MoveLock).dir == Moved().dir;
    assert Perform(Moved(), Remove(ReclaimFile(0))).dir == Gone().dir;
    assert Perform(Gone(), CreateLock).data == Made().data;
    assert Perform(Made(), WriteFile(1, Token(1))).data == Taken(map[LockFile := 1], 1).data;
  }

  /** Sessions 0 and 1 judge the same dead owner; session 1 reclaims the lock and takes it. */
  lemma SecondTakes()
    ensures Reaches(Cast(Taken(map[LockFile := 1], 1), Points(Rename(GHOST), Hold(1), Create, Create)), true)
  {
    var r, c := Rename(GHOST), Create;
    Start(Left());
    Judges(true, 0, OK, Left(), IDLE, GHOST);
    Judges(true, 1, OK, Left(), Points(r, c, c, c), GHOST);
    Reclaim();
    hide React, Perform, Reaches, Cast, Apply, Enabled;
    Turn(true, 1, OK, Left(), Points(r, r, c, c), Moved(), Points(r, Grab(GHOST, 0), c, c));
    Turn(true, 1, OK, Moved(), Points(r, Grab(GHOST, 0), c, c), Moved(), Points(r, Drop(GHOST, 0), c, c));
    Turn(true, 1, OK, Moved(), Points(r, Drop(GHOST, 0), c, c), Gone(), Points(r, c, c, c));
    Turn(true, 1, OK, Gone(), Points(r, c, c, c), Made(), Points(r, Write(1), c, c));
    Turn(true, 1, OK, Made(), Points(r, Write(1), c, c), Taken(map[LockFile := 1], 1), Points(r, Hold(1), c, c));
  }

  const AWAY: map<Name, Inode> := map[ReclaimFile(1) := 1]

  lemma Steal()
    ensures React(Taken(map[LockFile := 1], 1), Rename(GHOST), 0, OK) == (Grab(GHOST, 1), MoveLock)
    ensures Perform(Taken(map[LockFile := 1], 1), MoveLock) == Taken(AWAY, 2)
  {
    assert Perform(Taken(map[LockFile := 1], 1), MoveLock).dir == AWAY;
  }

  ghost function Remade(dir: map<Name, Inode>): Files {
    Files(dir[LockFile := 2], map[0 := GHOST, 1 := Token(1), 2 := Blank], 3, 2)
  }

  lemma Recreate(dir: map<Name, Inode>)
    requires LockFile !in dir
    ensures React(Taken(dir, 2), Create, 2, OK) == (Write(2), CreateLock) && Perform(Taken(dir, 2), CreateLock) == Remade(dir)
  {
    assert Perform(Taken(dir, 2), CreateLock).data == Remade(dir).data;
  }

  /** No file in the directory is the session's own. */
  ghost predicate FileGone(s: State, p: SessionId)
    requires p in s.sessions && Owns(s.sessions[p].pc)
  {
    forall n :: n in s.fs.dir ==> s.fs.dir[n] != s.sessions[p].pc.ino
  }

  predicate Holding(pc: Pc) { pc.Write? || pc.Hold? }

  lemma CastHolders(fs: Files, pcs: Points, p: nat, q: nat)
    requires p < q < 4 && Holding(pcs.Of(p)) && Holding(pcs.Of(q))
    ensures !AtMostOneHolder(Cast(fs, pcs))
  {
    assert Holder(Cast(fs, pcs), p) && Holder(Cast(fs, pcs), q);
  }

  lemma CastHolder(fs: Files, pcs: Points, p: nat)
    requires p < 4 && Holding(pcs.Of(p)) && forall q :: 0 <= q < 4 && Holding(pcs.Of(q)) ==> q == p
    requires forall n :: n in fs.dir ==> fs.dir[n] != pcs.Of(p).ino
    ensures Holder(Cast(fs, pcs), p) && FileGone(Cast(fs, pcs), p) && AtMostOneHolder(Cast(fs, pcs))
  {}

  /** Session 0 renames the lock of session 1, and session 2 creates it before session 0 looks: two live
      processes hold the lock. No call fails. */
  lemma InterleavedWindowBreaksExclusion()
    ensures exists s :: Reaches(s, true) && !AtMostOneHolder(s)
  {
    SecondTakes();
    Steal();
    Recreate(AWAY);
    var c, h := Create, Hold(1);
    CastHolders(Remade(AWAY), Points(Grab(GHOST, 1), h, Write(2), c), 1, 2);
    hide React, Perform, Reaches, Cast, Apply, Enabled, AtMostOneHolder;
    Turn(true, 0, OK, Taken(map[LockFile := 1], 1), Points(Rename(GHOST), h, c, c), Taken(AWAY, 2), Points(Grab(GHOST, 1), h, c, c));
    Turn(true, 2, OK, Taken(AWAY, 2), Points(Grab(GHOST, 1), h, c, c), Remade(AWAY), Points(Grab(GHOST, 1), h, Write(2), c));
  }

  lemma LosesGrabbed()
    ensures React(Taken(AWAY, 2), Grab(GHOST, 1), 0, FAULTY) == (Discard(1, Failed), NoCall) && Perform(Taken(AWAY, 2), NoCall) == Taken(AWAY, 2)
    ensures React(Taken(AWAY, 2), Discard(1, Failed), 0, OK) == (Done(Failed), Remove(ReclaimFile(1)))
    ensures Perform(Taken(AWAY, 2), Remove(ReclaimFile(1))) == Taken(map[], 2)
  {
    assert Perform(Taken(AWAY, 2), Remove(ReclaimFile(1))).dir == map[];
  }

  /** The step makes a second holder beside a holder whose file is nowhere. */
  ghost predicate BreaksWithoutFile(s: State, l: Label, p: SessionId) {
    && Enabled(s, l) && Holder(s, p) && FileGone(s, p)
    && AtMostOneHolder(s) && !AtMostOneHolder(Apply(s, l))
  }

  /** Session 0 cannot read the live holder's file that it renamed, and deletes it. The lock file that
      session 2 creates later, when nobody carries anything, makes two holders. */
  lemma FailedReadBreaksExclusion()
    ensures exists s, l :: Reaches(s, false) && BreaksWithoutFile(s, l, 1)
  {
    SecondTakes();
    Weaken(Cast(Taken(map[LockFile := 1], 1), Points(Rename(GHOST), Hold(1), Create, Create)));
    Steal();
    LosesGrabbed();
    Recreate(map[]);
    var c, h := Create, Hold(1);
    CastHolder(Taken(map[], 2), Points(Done(Failed), h, c, c), 1);
    CastHolders(Remade(map[]), Points(Done(Failed), h, Write(2), c), 1, 2);
    var s, l := Cast(Taken(map[], 2), Points(Done(Failed), h, c, c)), Act(2, OK);
    hide React, Perform, Reaches, Cast, Apply, Enabled, AtMostOneHolder, FileGone, Holder;
    Turn(false, 0, OK, Taken(map[LockFile := 1], 1), Points(Rename(GHOST), h, c, c), Taken(AWAY, 2), Points(Grab(GHOST, 1), h, c, c));
    Turn(false, 0, FAULTY, Taken(AWAY, 2), Points(Grab(GHOST, 1), h, c, c), Taken(AWAY, 2), Points(Discard(1, Failed), h, c, c));
    Turn(false, 0, OK, Taken(AWAY, 2), Points(Discard(1, Failed), h, c, c), Taken(map[], 2), Points(Done(Failed), h, c, c));
    Turn(false, 2, OK, Taken(map[], 2), Points(Done(Failed), h, c, c), Remade(map[]), Points(Done(Failed), h, Write(2), c));
    assert Reaches(s, false) && BreaksWithoutFile(s, l, 1);
  }

  lemma Weaken(s: State)
    requires Reaches(s, true)
    ensures Reaches(s, false)
  {
    var run, labels :| IsRun(run, labels) && run[|labels|] == s && Faultless(labels);
  }

  const BOTH: map<Name, Inode> := map[ReclaimFile(1) := 1, LockFile := 2]

  ghost function Third(dir: map<Name, Inode>): Files {
    Files(dir, map[0 := GHOST, 1 := Token(1), 2 := Token(2)], 3, 2)
  }

  lemma Releasing()
    ensures React(Taken(map[LockFile := 1], 1), Hold(1), 1, OK) == (ReleaseRead(1), NoCall)
    ensures React(Taken(map[LockFile := 1], 1), ReleaseRead(1), 1, OK) == (ReleaseRemove(1), NoCall)
    ensures Perform(Taken(map[LockFile := 1], 1), NoCall) == Taken(map[LockFile := 1], 1)
  {}

  lemma ThirdLoses()
    ensures React(Remade(AWAY), Write(2), 2, OK) == (Hold(2), WriteFile(2, Token(2))) && Perform(Remade(AWAY), WriteFile(2, Token(2))) == Third(BOTH)
    ensures React(Third(BOTH), ReleaseRemove(1), 1, OK) == (Done(Released), Remove(LockFile)) && Perform(Third(BOTH), Remove(LockFile)) == Third(AWAY)
    ensures React(Third(AWAY), Create, 3, OK) == (Write(3), CreateLock)
  {
    assert Perform(Remade(AWAY), WriteFile(2, Token(2))).data == Third(BOTH).data;
    assert Remade(AWAY).dir == BOTH;
    assert Perform(Third(BOTH), Remove(LockFile)).dir == AWAY;
  }

  /** Session 1 has read its own token and is about to remove it when session 0 renames its file. */
  lemma StolenWhileReleasing()
    ensures Reaches(Cast(Taken(AWAY, 2), Points(Grab(GHOST, 1), ReleaseRemove(1), Create, Create)), true)
  {
    SecondTakes();
    Releasing();
    Steal();
    hide React, Perform, Reaches, Cast, Taken, Apply, Enabled;
    var c, r, m := Create, Rename(GHOST), ReleaseRemove(1);
    var t := Taken(map[LockFile := 1], 1);
    Turn(true, 1, OK, t, Points(r, Hold(1), c, c), t, Points(r, ReleaseRead(1), c, c));
    Turn(true, 1, OK, t, Points(r, ReleaseRead(1), c, c), t, Points(r, m, c, c));
    Turn(true, 0, OK, t, Points(r, m, c, c), Taken(AWAY, 2), Points(Grab(GHOST, 1), m, c, c));
  }

  /** Then session 2 creates a new lock, session 1 removes that one, and session 3 creates another. No
      call fails, and the holder's file that is lost was never renamed. */
  lemma ReleaseRaceBreaksExclusion()
    ensures exists s, l :: Reaches(s, true) && BreaksWithoutFile(s, l, 2)
  {
    var c, g, m, d := Create, Grab(GHOST, 1), ReleaseRemove(1), Done(Released);
    var last := Perform(Third(AWAY), CreateLock);
    StolenWhileReleasing();
    Recreate(AWAY);
    ThirdLoses();
    CastHolder(Third(AWAY), Points(g, d, Hold(2), c), 2);
    CastHolders(last, Points(g, d, Hold(2), Write(3)), 2, 3);
    var s, l := Cast(Third(AWAY), Points(g, d, Hold(2), c)), Act(3, OK);
    hide React, Perform, Reaches, Cast, Taken, Third, Remade, Apply, Enabled, AtMostOneHolder, FileGone, Holder;
    Turn(true, 2, OK, Taken(AWAY, 2), Points(g, m, c, c), Remade(AWAY), Points(g, m, Write(2), c));
    Turn(true, 2, OK, Remade(AWAY), Points(g, m, Write(2), c), Third(BOTH), Points(g, m, Hold(2), c));
    Turn(true, 1, OK, Third(BOTH), Points(g, m, Hold(2), c), Third(AWAY), Points(g, d, Hold(2), c));
    Turn(true, 3, OK, Third(AWAY), Points(g, d, Hold(2), c), last, Points(g, d, Hold(2), Write(3)));
    assert Reaches(s, true) && BreaksWithoutFile(s, l, 2);
  }

  // ----- a live owner that is misjudged -----

  ghost function Nothing(): Files { Files(map[], map[], 0, 0) }
  ghost function First(dir: map<Name, Inode>, slot: nat): Files { Files(dir, map[0 := Token(0)], 1, slot) }

  const UNOPENED: Choice := OK.(probe := HandleFault)

  lemma FirstLoses()
    ensures React(Nothing(), Create, 0, OK) == (Write(0), CreateLock)
    ensures React(Perform(Nothing(), CreateLock), Write(0), 0, OK) == (Hold(0), WriteFile(0, Token(0)))
    ensures Perform(Perform(Nothing(), CreateLock), WriteFile(0, Token(0))) == First(map[LockFile := 0], 0)
    ensures React(First(map[LockFile := 0], 0), Rename(Token(0)), 1, OK) == (Grab(Token(0), 0), MoveLock)
    ensures Perform(First(map[LockFile := 0], 0), MoveLock) == First(map[ReclaimFile(0) := 0], 1)
    ensures React(First(map[ReclaimFile(0) := 0], 1), Grab(Token(0), 0), 1, OK) == (Drop(Token(0), 0), NoCall)
    ensures Perform(First(map[ReclaimFile(0) := 0], 1), NoCall) == First(map[ReclaimFile(0) := 0], 1)
    ensures OwnerVerdict(Token(0), PROCS, HandleFault) == Dead
  {
    assert Perform(Perform(Nothing(), CreateLock), WriteFile(0, Token(0))).data == map[0 := Token(0)];
    assert Perform(First(map[LockFile := 0], 0), MoveLock).dir == map[ReclaimFile(0) := 0];
  }

  /** The session is about to delete, as a dead owner's, the file with which a live session holds the lock. */
  ghost predicate DeletesLive(s: State, q: SessionId, p: SessionId) {
    && Live(s, q) && s.sessions[q].pc.Drop? && Holder(s, p)
    && var n := ReclaimFile(s.sessions[q].pc.slot); n in s.fs.dir && s.fs.dir[n] == s.sessions[p].pc.ino
  }

  /** Session 1 cannot open the live process of session 0, takes it for dead, and is about to delete the
      file with which session 0 holds the lock. */
  lemma MisjudgedOwnerLosesItsFile()
    ensures exists s :: Reaches(s, false) && DeletesLive(s, 1, 0)
  {
    FirstLoses();
    var c, h, t := Create, Hold(0), Token(0);
    var f, g := First(map[LockFile := 0], 0), First(map[ReclaimFile(0) := 0], 1);
    var s := Cast(g, Points(h, Drop(t, 0), c, c));
    assert DeletesLive(s, 1, 0);
    Start(Nothing());
    Weaken(Cast(Nothing(), IDLE));
    hide React, Perform, OwnerVerdict, Reaches, Cast, Apply, Enabled, DeletesLive;
    Turn(false, 0, OK, Nothing(), IDLE, Perform(Nothing(), CreateLock), Points(Write(0), c, c, c));
    Turn(false, 0, OK, Perform(Nothing(), CreateLock), Points(Write(0), c, c, c), f, Points(h, c, c, c));
    Judges(false, 1, UNOPENED, f, Points(h, c, c, c), t);
    Turn(false, 1, OK, f, Points(h, Rename(t), c, c), g, Points(h, Grab(t, 0), c, c));
    Turn(false, 1, OK, g, Points(h, Grab(t, 0), c, c), g, Points(h, Drop(t, 0), c, c));
  }
}
