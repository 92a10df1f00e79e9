/**
 The two-file run lock (`.ascout/run.lock` changed only under `.ascout/run.lock.recovery`) as a
 step machine: any number of sessions, arbitrary interleaving, a crash or a failing system call
 at any step.

 One step of a session is one atomic action of the program: a `link`, an open-and-read, a
 liveness probe or an `unlink`. Whatever a session has read is kept in its program counter and
 may be stale by the time it acts on it.
 */
module RunLock {

  type Pid = nat
  type SessionId = nat

  /** Owner tokens are 128 random bits; they are assumed distinct, so they are named by who drew them. */
  datatype Token =
    | MainToken(session: SessionId)
    | GuardToken(session: SessionId, nth: nat)
    | ForeignToken(id: nat)

  datatype Record = Record(pid: Pid, token: Token)

  /** What opening and reading one of the two files can show. */
  datatype Slot = Missing | Invalid | Owned(owner: Record)

  datatype ErrorCode = Held | Unverifiable | RecoveryBusy | OwnershipLost | Io

  datatype Mode = Acquiring(attempt: nat) | Releasing

  /** How the operation performed under the guard ended, when it did not throw. */
  datatype Outcome = Acquired | Retry | Unlocked

  datatype Pc =
    // acquireMutationGuard
    | GuardPublish(tries: nat)
    | GuardInspect(tries: nat)
    // acquireMainLockUnderGuard and recoverDeadOwnerUnderGuard
    | MainRead
    | MainProbe(seen: Record)
    | RecoverRead(seen: Record)
    | RecoverProbe(seen: Record)
    | RecoverUnlink(seen: Record)
    | MainPublish
    // releaseOwnedLockUnderGuard
    | ReleaseRead
    | ReleaseUnlink
    // removeMutationGuard after an operation that returned
    | GuardCheck(outcome: Outcome)
    | GuardUnlink(outcome: Outcome)
    // removeMutationGuard after an operation that threw
    | CleanupCheck(error: ErrorCode)
    | CleanupUnlink(error: ErrorCode)
    // the rollback and second removal after a failed guard removal
    | RollbackRead
    | RollbackUnlink
    | GuardRecheck
    | GuardReunlink
    // the handle is open, the handle has been released, or acquireRunLock has thrown
    | Open
    | Closed
    | Failed(error: ErrorCode)

  /**
   One call of acquireRunLock and the handle it returns. `nth` numbers the guard tokens it has
   drawn. `holds` is a history variable: set when its record is linked as run.lock, cleared when it
   unlinks that record.
   */
  datatype Session = Session(pid: Pid, mode: Mode, nth: nat, pc: Pc, holds: bool)

  datatype Files = Files(main: Slot, guard: Slot)

  datatype State = State(files: Files, sessions: map<SessionId, Session>, dead: set<Pid>)

  const MAX_ACQUIRE_ATTEMPTS: nat := 4

  function MainRecord(sid: SessionId, s: Session): Record {
    Record(s.pid, MainToken(sid))
  }

  function GuardRecord(sid: SessionId, s: Session): Record {
    Record(s.pid, GuardToken(sid, s.nth))
  }

  /** An error leaves acquireRunLock for good; an error in release() leaves the handle open for another try. */
  function Throw(s: Session, e: ErrorCode): Session {
    s.(pc := if s.mode.Acquiring? then Failed(e) else Open)
  }

  /** Entering acquireMutationGuard draws a new guard owner. */
  function EnterGuard(s: Session): Session {
    s.(nth := s.nth + 1, pc := GuardPublish(0))
  }

  /** The guard has been removed and the guarded operation's result is returned. */
  function Finish(s: Session, outcome: Outcome): Session {
    match outcome
    case Acquired => s.(mode := Releasing, pc := Open)
    case Unlocked => s.(pc := Closed)
    case Retry =>
      if s.mode.Acquiring? && s.mode.attempt + 1 < MAX_ACQUIRE_ATTEMPTS
      then EnterGuard(s.(mode := Acquiring(s.mode.attempt + 1)))
      else Throw(s, Held)
  }

  /** The first removal of the guard has thrown. */
  function RemovalFailed(s: Session, outcome: Outcome): Session {
    match outcome
    case Acquired => s.(pc := RollbackRead)
    case Retry => s.(pc := GuardRecheck)
    case Unlocked => Throw(s, Io)
  }

  /**
   One atomic action of session `sid`. With `fault` the system call fails and changes nothing;
   `saysDead` is the verdict of a liveness probe.
   */
  function Act(sid: SessionId, s: Session, f: Files, fault: bool, saysDead: bool): (Files, Session) {
    match s.pc
    case GuardPublish(t) =>
      if fault then (f, Throw(s, Io))
      else if f.guard == Missing then
        (f.(guard := Owned(GuardRecord(sid, s))), s.(pc := if s.mode.Acquiring? then MainRead else ReleaseRead))
      else (f, s.(pc := GuardInspect(t)))
    case GuardInspect(t) =>
      if fault then (f, Throw(s, Io))
      else if f.guard == Invalid then (f, Throw(s, Unverifiable))
      else if f.guard.Owned? then (f, Throw(s, RecoveryBusy))
      else if t + 1 < MAX_ACQUIRE_ATTEMPTS then (f, s.(pc := GuardPublish(t + 1)))
      else (f, Throw(s, RecoveryBusy))
    case MainRead =>
      if fault then (f, s.(pc := CleanupCheck(Io)))
      else if f.main == Missing then (f, s.(pc := MainPublish))
      else if f.main == Invalid then (f, s.(pc := CleanupCheck(Unverifiable)))
      else (f, s.(pc := MainProbe(f.main.owner)))
    case MainProbe(r) =>
      (f, s.(pc := if saysDead then RecoverRead(r) else CleanupCheck(Held)))
    case RecoverRead(r) =>
      if fault then (f, s.(pc := CleanupCheck(Io)))
      else if f.main == Missing then (f, s.(pc := GuardCheck(Retry)))
      else if f.main == Invalid then (f, s.(pc := CleanupCheck(Unverifiable)))
      else if f.main.owner != r then (f, s.(pc := GuardCheck(Retry)))
      else (f, s.(pc := RecoverProbe(r)))
    case RecoverProbe(r) =>
      (f, s.(pc := if saysDead then RecoverUnlink(r) else CleanupCheck(Held)))
    case RecoverUnlink(r) =>
      if fault then (f, s.(pc := CleanupCheck(Io)))
      else if f.main == Missing then (f, s.(pc := GuardCheck(Retry)))
      else (f.(main := Missing), s.(pc := MainPublish))
    case MainPublish =>
      if fault then (f, s.(pc := CleanupCheck(Io)))
      else if f.main == Missing then
        (f.(main := Owned(MainRecord(sid, s))), s.(pc := GuardCheck(Acquired), holds := true))
      else (f, s.(pc := GuardCheck(Retry)))
    case ReleaseRead =>
      if fault then (f, s.(pc := CleanupCheck(Io)))
      else if f.main == Owned(MainRecord(sid, s)) then (f, s.(pc := ReleaseUnlink))
      else (f, s.(pc := CleanupCheck(OwnershipLost)))
    case ReleaseUnlink =>
      if fault || f.main == Missing then (f, s.(pc := CleanupCheck(Io)))
      else (f.(main := Missing), s.(pc := GuardCheck(Unlocked), holds := false))
    case GuardCheck(o) =>
      if fault then (f, RemovalFailed(s, o))
      else if f.guard == Missing then (f, Finish(s, o))
      else if f.guard == Owned(GuardRecord(sid, s)) then (f, s.(pc := GuardUnlink(o)))
      else (f, RemovalFailed(s, o))
    case GuardUnlink(o) =>
      if fault then (f, RemovalFailed(s, o)) else (f.(guard := Missing), Finish(s, o))
    case CleanupCheck(e) =>
      if fault then (f, Throw(s, Io))
      else if f.guard == Missing then (f, Throw(s, e))
      else if f.guard == Owned(GuardRecord(sid, s)) then (f, s.(pc := CleanupUnlink(e)))
      else (f, Throw(s, Io))
    case CleanupUnlink(e) =>
      if fault then (f, Throw(s, Io)) else (f.(guard := Missing), Throw(s, e))
    case RollbackRead =>
      if !fault && f.main == Owned(MainRecord(sid, s)) then (f, s.(pc := RollbackUnlink))
      else (f, s.(pc := GuardRecheck))
    case RollbackUnlink =>
      if fault then (f, s.(pc := GuardRecheck))
      else (f.(main := Missing), s.(pc := GuardRecheck, holds := false))
    case GuardRecheck =>
      if !fault && f.guard == Owned(GuardRecord(sid, s)) then (f, s.(pc := GuardReunlink))
      else (f, Throw(s, Io))
    case GuardReunlink =>
      if fault then (f, Throw(s, Io)) else (f.(guard := Missing), Throw(s, Io))
    case Open => (f, s)
    case Closed => (f, s)
    case Failed(_) => (f, s)
  }

  predicate Terminal(pc: Pc) {
    pc.Open? || pc.Closed? || pc.Failed?
  }

  // ---------------------------------------------------------------- the system

  datatype Action =
    | Start(sid: SessionId, pid: Pid)
    | Advance(sid: SessionId, fault: bool, saysDead: bool)
    | Release(sid: SessionId)
    | Crash(pid: Pid)

  predicate Live(st: State, sid: SessionId) {
    sid in st.sessions && st.sessions[sid].pid !in st.dead
  }

  /** The process whose liveness the session is about to probe, if any. */
  function Probed(pc: Pc): set<Pid> {
    if pc.MainProbe? || pc.RecoverProbe? then {pc.seen.pid} else {}
  }

  /** A probe may report a dead process as alive (pid reuse, EPERM) but never a live one as dead. */
  predicate Enabled(st: State, a: Action) {
    match a
    case Start(sid, pid) => sid !in st.sessions && pid !in st.dead
    case Advance(sid, _, saysDead) =>
      Live(st, sid) && !Terminal(st.sessions[sid].pc) && (saysDead ==> Probed(st.sessions[sid].pc) <= st.dead)
    case Release(sid) => Live(st, sid) && st.sessions[sid].pc == Open
    case Crash(_) => true
  }

  function Apply(st: State, a: Action): State
    requires Enabled(st, a)
  {
    match a
    case Start(sid, pid) =>
      st.(sessions := st.sessions[sid := EnterGuard(Session(pid, Acquiring(0), 0, Open, false))])
    case Advance(sid, fault, saysDead) =>
      var (f, s) := Act(sid, st.sessions[sid], st.files, fault, saysDead);
      st.(files := f, sessions := st.sessions[sid := s])
    case Release(sid) =>
      st.(sessions := st.sessions[sid := EnterGuard(st.sessions[sid])])
    case Crash(pid) =>
      st.(dead := st.dead + {pid})
  }

  /** No session yet; the two files hold whatever earlier runs left, under tokens nobody will draw again. */
  predicate Init(st: State) {
    && st.sessions == map[]
    && (st.files.main.Owned? ==> st.files.main.owner.token.ForeignToken?)
    && (st.files.guard.Owned? ==> st.files.guard.owner.token.ForeignToken?)
  }

  /** A run: one more state than actions, each action enabled and applied. */
  ghost predicate IsRun(states: seq<State>, actions: seq<Action>) {
    && |states| == |actions| + 1
    && forall i {:trigger actions[i]} | 0 <= i < |actions| ::
         Enabled(states[i], actions[i]) && states[i + 1] == Apply(states[i], actions[i])
  }

  ghost predicate IsFullRun(states: seq<State>, actions: seq<Action>) {
    IsRun(states, actions) && Init(states[0])
  }

  /** Between a successful acquire and its release's unlink of run.lock. */
  predicate Holder(st: State, sid: SessionId) {
    Live(st, sid) && st.sessions[sid].mode.Releasing? && st.sessions[sid].holds
  }
}
