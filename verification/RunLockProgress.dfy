/**
 Progress of the run lock: every call ends within a fixed number of its own steps whatever the
 other sessions, the crashes and the failing system calls do, and a call that runs undisturbed
 on a free or dead-owned lock acquires it.
 */
module RunLockProgress {
  import opened RunLock
  import opened RunLockSafety

  /** Own steps a session can still make before its current call returns or throws. */
  function PcRank(pc: Pc): nat {
    match pc
    case GuardPublish(t) => 14 + 2 * (if t < MAX_ACQUIRE_ATTEMPTS then MAX_ACQUIRE_ATTEMPTS - t else 0)
    case GuardInspect(t) => 13 + 2 * (if t < MAX_ACQUIRE_ATTEMPTS then MAX_ACQUIRE_ATTEMPTS - t else 0)
    case MainRead => 13
    case MainProbe(_) => 12
    case RecoverRead(_) => 11
    case RecoverProbe(_) => 10
    case RecoverUnlink(_) => 9
    case MainPublish => 8
    case ReleaseRead => 9
    case ReleaseUnlink => 8
    case GuardCheck(_) => 7
    case GuardUnlink(_) => 6
    case CleanupCheck(_) => 2
    case CleanupUnlink(_) => 1
    case RollbackRead => 4
    case RollbackUnlink => 3
    case GuardRecheck => 2
    case GuardReunlink => 1
    case Open => 0
    case Closed => 0
    case Failed(_) => 0
  }

  /** One attempt of the outer loop costs at most this many steps. */
  const ATTEMPT_STEPS: nat := 23

  function Rank(s: Session): nat {
    if Terminal(s.pc) then 0
    else PcRank(s.pc) +
         if s.mode.Acquiring? && s.mode.attempt < MAX_ACQUIRE_ATTEMPTS
         then ATTEMPT_STEPS * (MAX_ACQUIRE_ATTEMPTS - 1 - s.mode.attempt) else 0
  }

  const CALL_STEPS: nat := ATTEMPT_STEPS * MAX_ACQUIRE_ATTEMPTS

  lemma RankDecreases(sid: SessionId, s: Session, f: Files, dead: set<Pid>, fault: bool, saysDead: bool)
    requires SessionInv(sid, s, f, dead) && s.pid !in dead && !Terminal(s.pc)
    ensures Rank(Act(sid, s, f, fault, saysDead).1) < Rank(s) <= CALL_STEPS
  {
  }

  /** Own steps of `sid` among the first `n` actions. */
  function OwnSteps(actions: seq<Action>, sid: SessionId, n: nat): nat
    requires n <= |actions|
  {
    if n == 0 then 0
    else OwnSteps(actions, sid, n - 1) + if actions[n - 1].Advance? && actions[n - 1].sid == sid then 1 else 0
  }

  /** Action `k` starts a call of `sid`: acquireRunLock itself or a release() of its handle. */
  predicate StartsCall(a: Action, sid: SessionId) {
    (a.Start? || a.Release?) && a.sid == sid
  }

  lemma StepBudget(st: State, a: Action, sid: SessionId)
    requires Inv(st) && Enabled(st, a) && sid in st.sessions && !StartsCall(a, sid)
    ensures sid in Apply(st, a).sessions
    ensures Rank(Apply(st, a).sessions[sid]) + (if a.Advance? && a.sid == sid then 1 else 0) <= Rank(st.sessions[sid])
  {
    if a.Advance? && a.sid == sid {
      RankDecreases(sid, st.sessions[sid], st.files, st.dead, a.fault, a.saysDead);
    }
  }

  lemma {:induction false} CallBudget(states: seq<State>, actions: seq<Action>, sid: SessionId, i: nat, j: nat)
    requires IsFullRun(states, actions) && i < j < |states| && StartsCall(actions[i], sid)
    requires forall k | i < k < j :: !StartsCall(actions[k], sid)
    ensures sid in states[j].sessions
    ensures Rank(states[j].sessions[sid]) + OwnSteps(actions, sid, j) - OwnSteps(actions, sid, i) <= CALL_STEPS
  {
    if j == i + 1 {
      assert states[j] == Apply(states[i], actions[i]);
    } else {
      CallBudget(states, actions, sid, i, j - 1);
      RunKeepsInv(states, actions, j - 1);
      StepBudget(states[j - 1], actions[j - 1], sid);
    }
  }

  /**
   Every acquire and every release ends within its bounded attempts: in any run a call makes at
   most CALL_STEPS own steps, and as long as it has not ended its next step is enabled.
   */
  lemma EveryCallTerminates(states: seq<State>, actions: seq<Action>, sid: SessionId, i: nat, j: nat)
    requires IsFullRun(states, actions) && i < j < |states| && StartsCall(actions[i], sid)
    requires forall k | i < k < j :: !StartsCall(actions[k], sid)
    ensures OwnSteps(actions, sid, j) - OwnSteps(actions, sid, i) <= CALL_STEPS
    ensures sid in states[j].sessions
    ensures Live(states[j], sid) && !Terminal(states[j].sessions[sid].pc) ==>
              Enabled(states[j], Advance(sid, false, false))
    ensures OwnSteps(actions, sid, j) - OwnSteps(actions, sid, i) == CALL_STEPS ==> Terminal(states[j].sessions[sid].pc)
  {
    CallBudget(states, actions, sid, i, j);
    RunKeepsInv(states, actions, j);
  }

  // ---------------------------------------------------------------- an undisturbed call

  /** `n` undisturbed steps of one session with truthful probes. */
  function Solo(sid: SessionId, s: Session, f: Files, dead: set<Pid>, n: nat): (Files, Session)
    decreases n
  {
    if n == 0 then (f, s)
    else
      var (f', s') := Act(sid, s, f, false, Probed(s.pc) <= dead);
      Solo(sid, s', f', dead, n - 1)
  }

  /** The states in which the lock can be had: no guard, and no run.lock or one whose owner is dead. */
  predicate Available(f: Files, dead: set<Pid>) {
    f.guard == Missing && (f.main == Missing || (f.main.Owned? && f.main.owner.pid in dead))
  }

  /**
   An undisturbed acquire returns an open handle, with run.lock showing its record and the guard
   gone, exactly when the lock is available; otherwise it throws and leaves both files alone.
   */
  lemma SoloAcquire(sid: SessionId, s: Session, f: Files, dead: set<Pid>)
    requires s == EnterGuard(Session(s.pid, Acquiring(0), 0, Open, false)) && s.pid !in dead
    ensures var (f', s') := Solo(sid, s, f, dead, 9);
            if Available(f, dead)
            then f' == Files(Owned(MainRecord(sid, s)), Missing) && s'.pc == Open && s'.mode == Releasing && s'.holds
            else f' == f && s'.pc == Failed(
                   if f.guard == Invalid then Unverifiable else if f.guard.Owned? then RecoveryBusy
                   else if f.main == Invalid then Unverifiable else Held)
  {
    if f.guard != Missing {
      SoloGuardTaken(sid, s, f, dead);
    } else {
      var (f1, s1) := Act(sid, s, f, false, Probed(s.pc) <= dead);
      SoloStep(sid, s, f, dead, 9);
      SoloStep(sid, s1, f1, dead, 8);
      if f.main.Owned? {
        SoloMainTaken(sid, s1.(pc := MainProbe(f.main.owner)), f1, dead);
      } else {
        SoloMainUnowned(sid, s1.(pc := if f.main == Missing then MainPublish else CleanupCheck(Unverifiable)), f1, dead);
      }
    }
  }

  lemma SoloGuardTaken(sid: SessionId, s: Session, f: Files, dead: set<Pid>)
    requires s.pc == GuardPublish(0) && s.mode.Acquiring? && f.guard != Missing
    ensures Solo(sid, s, f, dead, 9) == (f, s.(pc := Failed(if f.guard == Invalid then Unverifiable else RecoveryBusy)))
  {
    var s1 := s.(pc := GuardInspect(0));
    SoloStep(sid, s, f, dead, 9);
    SoloStep(sid, s1, f, dead, 8);
    SoloRests(sid, s1.(pc := Failed(if f.guard == Invalid then Unverifiable else RecoveryBusy)), f, dead, 7);
  }

  lemma SoloMainUnowned(sid: SessionId, s: Session, f: Files, dead: set<Pid>)
    requires s.mode.Acquiring? && f.guard == Owned(GuardRecord(sid, s)) && !f.main.Owned?
    requires s.pc == if f.main == Missing then MainPublish else CleanupCheck(Unverifiable)
    ensures Solo(sid, s, f, dead, 7) ==
            if f.main == Missing
            then (Files(Owned(MainRecord(sid, s)), Missing), s.(mode := Releasing, pc := Open, holds := true))
            else (f.(guard := Missing), s.(pc := Failed(Unverifiable)))
  {
    var (f1, s1) := Act(sid, s, f, false, Probed(s.pc) <= dead);
    var (f2, s2) := Act(sid, s1, f1, false, Probed(s1.pc) <= dead);
    SoloStep(sid, s, f, dead, 7);
    SoloStep(sid, s1, f1, dead, 6);
    if f.main == Missing {
      SoloStep(sid, s2, f2, dead, 5);
      SoloRests(sid, s2.(mode := Releasing, pc := Open), f2.(guard := Missing), dead, 4);
    } else {
      SoloRests(sid, s2, f2, dead, 5);
    }
  }

  lemma SoloMainTaken(sid: SessionId, s: Session, f: Files, dead: set<Pid>)
    requires s.mode.Acquiring? && f.guard == Owned(GuardRecord(sid, s)) && f.main.Owned?
    requires s.pc == MainProbe(f.main.owner)
    ensures Solo(sid, s, f, dead, 7) ==
            if f.main.owner.pid in dead
            then (Files(Owned(MainRecord(sid, s)), Missing), s.(mode := Releasing, pc := Open, holds := true))
            else (f.(guard := Missing), s.(pc := Failed(Held)))
  {
    var (f1, s1) := Act(sid, s, f, false, Probed(s.pc) <= dead);
    var (f2, s2) := Act(sid, s1, f1, false, Probed(s1.pc) <= dead);
    var (f3, s3) := Act(sid, s2, f2, false, Probed(s2.pc) <= dead);
    SoloStep(sid, s, f, dead, 7);
    SoloStep(sid, s1, f1, dead, 6);
    SoloStep(sid, s2, f2, dead, 5);
    if f.main.owner.pid in dead {
      SoloFromUnlink(sid, s3, f3, dead);
    } else {
      SoloRests(sid, s3, f3, dead, 4);
    }
  }

  lemma SoloStep(sid: SessionId, s: Session, f: Files, dead: set<Pid>, n: nat)
    requires n > 0
    ensures Solo(sid, s, f, dead, n) ==
            var (f', s') := Act(sid, s, f, false, Probed(s.pc) <= dead); Solo(sid, s', f', dead, n - 1)
  {
  }

  lemma SoloFromUnlink(sid: SessionId, s: Session, f: Files, dead: set<Pid>)
    requires s.pc.RecoverUnlink? && s.mode.Acquiring? && f.main.Owned? && f.guard == Owned(GuardRecord(sid, s))
    ensures Solo(sid, s, f, dead, 4) ==
            (Files(Owned(MainRecord(sid, s)), Missing), s.(mode := Releasing, pc := Open, holds := true))
  {
    var (f1, s1) := Act(sid, s, f, false, Probed(s.pc) <= dead);
    var (f2, s2) := Act(sid, s1, f1, false, Probed(s1.pc) <= dead);
    var (f3, s3) := Act(sid, s2, f2, false, Probed(s2.pc) <= dead);
    SoloStep(sid, s, f, dead, 4);
    SoloStep(sid, s1, f1, dead, 3);
    SoloStep(sid, s2, f2, dead, 2);
    SoloStep(sid, s3, f3, dead, 1);
  }

  /** A cleaned-up failure is thrown as it was, and the own guard is gone. */
  lemma SoloCleanup(sid: SessionId, s: Session, f: Files, dead: set<Pid>)
    requires s.pc.CleanupCheck? && (f.guard == Missing || f.guard == Owned(GuardRecord(sid, s)))
    ensures Solo(sid, s, f, dead, 2) == (f.(guard := Missing), Throw(s, s.pc.error))
  {
    var (f1, s1) := Act(sid, s, f, false, Probed(s.pc) <= dead);
    SoloStep(sid, s, f, dead, 2);
    SoloStep(sid, s1, f1, dead, 1);
  }

  /** Every entry draws a guard record that differs from the one before and from the session's own record. */
  lemma GuardsAreFresh(sid: SessionId, s: Session)
    ensures GuardRecord(sid, EnterGuard(s)) != GuardRecord(sid, s)
    ensures GuardRecord(sid, EnterGuard(s)) != MainRecord(sid, EnterGuard(s)) == MainRecord(sid, s)
  {
  }

  /**
   An undisturbed release of a held lock closes the handle with both files gone, exactly when there
   is no guard; otherwise it throws and leaves both files and the handle alone.
   */
  lemma SoloRelease(sid: SessionId, s: Session, f: Files, dead: set<Pid>)
    requires s.pc == Open && s.mode == Releasing && s.holds && f.main == Owned(MainRecord(sid, s))
    ensures Solo(sid, EnterGuard(s), f, dead, 5) ==
            if f.guard == Missing
            then (Files(Missing, Missing), EnterGuard(s).(pc := Closed, holds := false))
            else (f, EnterGuard(s).(pc := Open))
  {
    var s0 := EnterGuard(s);
    var (f1, s1) := Act(sid, s0, f, false, Probed(s0.pc) <= dead);
    var (f2, s2) := Act(sid, s1, f1, false, Probed(s1.pc) <= dead);
    SoloStep(sid, s0, f, dead, 5);
    SoloStep(sid, s1, f1, dead, 4);
    if f.guard == Missing {
      SoloUnlock(sid, s2, f2, dead);
    } else {
      SoloRests(sid, s2, f2, dead, 3);
    }
  }

  lemma SoloUnlock(sid: SessionId, s: Session, f: Files, dead: set<Pid>)
    requires s.pc == ReleaseUnlink && s.mode == Releasing && f == Files(Owned(MainRecord(sid, s)), Owned(GuardRecord(sid, s)))
    ensures Solo(sid, s, f, dead, 3) == (Files(Missing, Missing), s.(pc := Closed, holds := false))
  {
    var (f1, s1) := Act(sid, s, f, false, Probed(s.pc) <= dead);
    var (f2, s2) := Act(sid, s1, f1, false, Probed(s1.pc) <= dead);
    SoloStep(sid, s, f, dead, 3);
    SoloStep(sid, s1, f1, dead, 2);
    SoloStep(sid, s2, f2, dead, 1);
  }

  /** A rollback without failures takes the own run.lock and the own guard away again, and the acquire throws. */
  lemma SoloRollback(sid: SessionId, s: Session, dead: set<Pid>)
    requires s.mode.Acquiring? && s.holds
    ensures var f := Files(Owned(MainRecord(sid, s)), Owned(GuardRecord(sid, s)));
            Solo(sid, RemovalFailed(s, Acquired), f, dead, 4) ==
            (Files(Missing, Missing), s.(pc := Failed(Io), holds := false))
  {
    var f := Files(Owned(MainRecord(sid, s)), Owned(GuardRecord(sid, s)));
    var s0 := RemovalFailed(s, Acquired);
    var (f1, s1) := Act(sid, s0, f, false, Probed(s0.pc) <= dead);
    var (f2, s2) := Act(sid, s1, f1, false, Probed(s1.pc) <= dead);
    var (f3, s3) := Act(sid, s2, f2, false, Probed(s2.pc) <= dead);
    SoloStep(sid, s0, f, dead, 4);
    SoloStep(sid, s1, f1, dead, 3);
    SoloStep(sid, s2, f2, dead, 2);
    SoloStep(sid, s3, f3, dead, 1);
  }

  /** A failed system call changes no file, and the error that it leads to is run_lock_io. */
  lemma FailedCallIsIo(sid: SessionId, s: Session, f: Files, saysDead: bool)
    requires !Terminal(s.pc) && Probed(s.pc) == {}
    ensures var (f', s') := Act(sid, s, f, true, saysDead);
            && f' == f && s'.mode == s.mode && s'.holds == s.holds
            && (s'.pc.Failed? || s'.pc.CleanupCheck? ==> s'.pc.error == Io)
            && (s'.pc.Failed? || s'.pc.CleanupCheck? || s'.pc == Open || s'.pc == RollbackRead || s'.pc == GuardRecheck)
  {
  }

  /** A publish that finds a guard which is gone when it is looked at. */
  function Contended(sid: SessionId, s: Session, f: Files, guarded: Slot): Session {
    var met := Act(sid, s, f.(guard := guarded), false, false).1;
    Act(sid, met, f.(guard := Missing), false, false).1
  }

  /** The guard is tried for four times, no more and no less. */
  lemma FourAttempts(sid: SessionId, s: Session, f: Files, guarded: Slot)
    requires s.pc == GuardPublish(0) && guarded != Missing
    ensures var second := Contended(sid, s, f, guarded);
            var third := Contended(sid, second, f, guarded);
            var fourth := Contended(sid, third, f, guarded);
            && second.pc.GuardPublish? && third.pc.GuardPublish? && fourth.pc.GuardPublish?
            && Contended(sid, fourth, f, guarded).pc == if s.mode.Acquiring? then Failed(RecoveryBusy) else Open
  {
  }

  function Fresh(pid: Pid): Session {
    EnterGuard(Session(pid, Acquiring(0), 0, Open, false))
  }

  /** Acquiring an available lock, releasing it and acquiring it again, all undisturbed, succeeds throughout. */
  lemma SoloCycle(first: SessionId, second: SessionId, p: Pid, q: Pid, f: Files, dead: set<Pid>)
    requires p !in dead && q !in dead && Available(f, dead)
    ensures var (held, handle) := Solo(first, Fresh(p), f, dead, 9);
            var (free, closed) := Solo(first, EnterGuard(handle), held, dead, 5);
            var (again, other) := Solo(second, Fresh(q), free, dead, 9);
            && handle.pc == Open && handle.holds && held == Files(Owned(MainRecord(first, handle)), Missing)
            && closed.pc == Closed && !closed.holds && free == Files(Missing, Missing)
            && other.pc == Open && other.holds && again == Files(Owned(MainRecord(second, other)), Missing)
  {
    hide Act;
    var (held, handle) := Solo(first, Fresh(p), f, dead, 9);
    SoloAcquire(first, Fresh(p), f, dead);
    SoloKeepsPid(first, Fresh(p), f, dead, 9);
    SoloRelease(first, handle, held, dead);
    SoloAcquire(second, Fresh(q), Files(Missing, Missing), dead);
    SoloKeepsPid(second, Fresh(q), Files(Missing, Missing), dead, 9);
  }

  lemma {:induction false} SoloKeepsPid(sid: SessionId, s: Session, f: Files, dead: set<Pid>, n: nat)
    ensures Solo(sid, s, f, dead, n).1.pid == s.pid
    decreases n
  {
    if n > 0 {
      var (f', s') := Act(sid, s, f, false, Probed(s.pc) <= dead);
      SoloKeepsPid(sid, s', f', dead, n - 1);
    }
  }

  lemma {:induction false} SoloRests(sid: SessionId, s: Session, f: Files, dead: set<Pid>, n: nat)
    requires Terminal(s.pc)
    ensures Solo(sid, s, f, dead, n) == (f, s)
  {
    if n > 0 {
      SoloRests(sid, s, f, dead, n - 1);
    }
  }
}
