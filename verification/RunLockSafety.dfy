/**
 What the run lock promises: mutual exclusion, stability of the holder's record, the absence of
 the "ownership lost" error, and the fail-closed freeze behind an orphaned guard, over every run.
 */
module RunLockSafety {
  import opened RunLock

  /** Program counters at which the session has published its guard record and not yet removed it. */
  predicate InGuard(pc: Pc) {
    !Terminal(pc) && !pc.GuardPublish? && !pc.GuardInspect?
  }

  predicate BeforeGuard(pc: Pc) {
    pc.Open? || pc.GuardPublish? || pc.GuardInspect?
  }

  /** The guard file still shows a record this session drew. */
  predicate GuardDrawnBy(f: Files, sid: SessionId) {
    f.guard.Owned? && f.guard.owner.token.GuardToken? && f.guard.owner.token.session == sid
  }

  /** What each program counter knows about the session's own fields. */
  predicate PhaseInv(s: Session) {
    && (s.mode.Acquiring? ==> s.mode.attempt < MAX_ACQUIRE_ATTEMPTS)
    && (match s.pc
        case GuardPublish(t) => t < MAX_ACQUIRE_ATTEMPTS && (s.mode.Acquiring? ==> !s.holds)
        case GuardInspect(t) => t < MAX_ACQUIRE_ATTEMPTS && (s.mode.Acquiring? ==> !s.holds)
        case GuardCheck(o) => (o.Acquired? || o.Retry? <==> s.mode.Acquiring?) && (o.Acquired? <==> s.holds)
        case GuardUnlink(o) => (o.Acquired? || o.Retry? <==> s.mode.Acquiring?) && (o.Acquired? <==> s.holds)
        case CleanupCheck(e) => e != OwnershipLost && (s.mode.Acquiring? <==> !s.holds)
        case CleanupUnlink(e) => e != OwnershipLost && (s.mode.Acquiring? <==> !s.holds)
        case ReleaseRead => s.mode.Releasing? && s.holds
        case ReleaseUnlink => s.mode.Releasing? && s.holds
        case RollbackRead => s.mode.Acquiring? && s.holds
        case RollbackUnlink => s.mode.Acquiring? && s.holds
        case GuardRecheck => s.mode.Acquiring?
        case GuardReunlink => s.mode.Acquiring?
        case Open => s.mode.Releasing?
        case Closed => s.mode.Releasing? && !s.holds
        case Failed(e) => s.mode.Acquiring? && e != OwnershipLost
        case _ => s.mode.Acquiring? && !s.holds)
  }

  /** What a session inside the guard knows about run.lock. */
  predicate MainInv(sid: SessionId, s: Session, f: Files, dead: set<Pid>) {
    match s.pc
    case MainProbe(r) => f.main == Owned(r)
    case RecoverRead(r) => f.main == Owned(r) && r.pid in dead
    case RecoverProbe(r) => f.main == Owned(r) && r.pid in dead
    case RecoverUnlink(r) => f.main == Owned(r) && r.pid in dead
    case MainPublish => f.main == Missing
    case ReleaseUnlink => f.main == Owned(MainRecord(sid, s))
    case RollbackUnlink => f.main == Owned(MainRecord(sid, s))
    case _ => true
  }

  predicate SessionInv(sid: SessionId, s: Session, f: Files, dead: set<Pid>) {
    && PhaseInv(s)
    && MainInv(sid, s, f, dead)
    && (InGuard(s.pc) ==> f.guard == Owned(GuardRecord(sid, s)))
    && (s.holds && s.pid !in dead ==> f.main == Owned(MainRecord(sid, s)))
    && (s.mode.Releasing? && !s.holds && BeforeGuard(s.pc) ==> GuardDrawnBy(f, sid))
  }

  ghost predicate Inv(st: State) {
    forall sid | sid in st.sessions :: SessionInv(sid, st.sessions[sid], st.files, st.dead)
  }

  predicate AcquiresUnderGuard(pc: Pc) {
    pc.MainRead? || pc.MainProbe? || pc.RecoverRead? || pc.RecoverProbe? || pc.RecoverUnlink? || pc.MainPublish?
  }

  predicate RemovesGuard(pc: Pc) {
    pc.GuardCheck? || pc.GuardUnlink?
  }

  lemma ActorKeepsUnderGuard(sid: SessionId, s: Session, f: Files, dead: set<Pid>, fault: bool, saysDead: bool)
    requires SessionInv(sid, s, f, dead) && s.pid !in dead && AcquiresUnderGuard(s.pc)
    requires saysDead ==> Probed(s.pc) <= dead
    ensures var (f', s') := Act(sid, s, f, fault, saysDead); SessionInv(sid, s', f', dead)
  {
    if s.pc.MainProbe? || s.pc.RecoverProbe? {
      assert s.pc.seen.pid in Probed(s.pc);
    }
  }

  lemma ActorKeepsRemoving(sid: SessionId, s: Session, f: Files, dead: set<Pid>, fault: bool, saysDead: bool)
    requires SessionInv(sid, s, f, dead) && s.pid !in dead && RemovesGuard(s.pc)
    ensures var (f', s') := Act(sid, s, f, fault, saysDead); SessionInv(sid, s', f', dead)
  {
  }

  lemma ActorKeepsElsewhere(sid: SessionId, s: Session, f: Files, dead: set<Pid>, fault: bool, saysDead: bool)
    requires SessionInv(sid, s, f, dead) && s.pid !in dead && !Terminal(s.pc)
    requires !AcquiresUnderGuard(s.pc) && !RemovesGuard(s.pc)
    ensures var (f', s') := Act(sid, s, f, fault, saysDead); SessionInv(sid, s', f', dead)
  {
  }

  lemma ActorKeeps(sid: SessionId, s: Session, f: Files, dead: set<Pid>, fault: bool, saysDead: bool)
    requires SessionInv(sid, s, f, dead) && s.pid !in dead && !Terminal(s.pc)
    requires saysDead ==> Probed(s.pc) <= dead
    ensures var (f', s') := Act(sid, s, f, fault, saysDead); SessionInv(sid, s', f', dead)
  {
    if AcquiresUnderGuard(s.pc) {
      ActorKeepsUnderGuard(sid, s, f, dead, fault, saysDead);
    } else if RemovesGuard(s.pc) {
      ActorKeepsRemoving(sid, s, f, dead, fault, saysDead);
    } else {
      ActorKeepsElsewhere(sid, s, f, dead, fault, saysDead);
    }
  }

  /** Files change only inside the guard, and only in the five ways the program means to change them. */
  lemma ActFrame(sid: SessionId, s: Session, f: Files, dead: set<Pid>, fault: bool, saysDead: bool)
    requires SessionInv(sid, s, f, dead) && s.pid !in dead && !Terminal(s.pc)
    ensures var (f', s') := Act(sid, s, f, fault, saysDead);
            && (f'.guard != f.guard ==>
                  || (f.guard == Missing && s.pc.GuardPublish? && f'.guard == Owned(GuardRecord(sid, s)))
                  || (InGuard(s.pc) && f.guard == Owned(GuardRecord(sid, s)) && f'.guard == Missing))
            && (f'.main != f.main ==>
                  && InGuard(s.pc)
                  && (|| (f.main == Missing && f'.main == Owned(MainRecord(sid, s)))
                      || (f.main == Owned(MainRecord(sid, s)) && f'.main == Missing)
                      || (s.pc.RecoverUnlink? && f.main == Owned(s.pc.seen) && s.pc.seen.pid in dead && f'.main == Missing)))
  {
  }

  lemma BystanderKeeps(sid: SessionId, s: Session, other: SessionId, o: Session, f: Files, dead: set<Pid>,
                       fault: bool, saysDead: bool)
    requires sid != other
    requires SessionInv(sid, s, f, dead) && s.pid !in dead && !Terminal(s.pc)
    requires SessionInv(other, o, f, dead)
    ensures SessionInv(other, o, Act(sid, s, f, fault, saysDead).0, dead)
  {
    ActFrame(sid, s, f, dead, fault, saysDead);
    assert GuardRecord(sid, s) != GuardRecord(other, o);
    assert MainRecord(sid, s) != MainRecord(other, o);
  }

  lemma StepKeepsInv(st: State, a: Action)
    requires Inv(st) && Enabled(st, a)
    ensures Inv(Apply(st, a))
  {
    if a.Advance? {
      var s := st.sessions[a.sid];
      ActorKeeps(a.sid, s, st.files, st.dead, a.fault, a.saysDead);
      forall other | other in st.sessions && other != a.sid
        ensures SessionInv(other, st.sessions[other], Act(a.sid, s, st.files, a.fault, a.saysDead).0, st.dead)
      {
        BystanderKeeps(a.sid, s, other, st.sessions[other], st.files, st.dead, a.fault, a.saysDead);
      }
    }
  }

  lemma {:induction false} RunKeepsInv(states: seq<State>, actions: seq<Action>, n: nat)
    requires IsRun(states, actions) && Inv(states[0]) && n < |states|
    ensures Inv(states[n])
  {
    if n > 0 {
      RunKeepsInv(states, actions, n - 1);
      StepKeepsInv(states[n - 1], actions[n - 1]);
    }
  }

  // ---------------------------------------------------------------- the theorems

  /** At most one live session is between a successful acquire and its release's unlink. */
  lemma MutualExclusion(states: seq<State>, actions: seq<Action>, n: nat, p: SessionId, q: SessionId)
    requires IsFullRun(states, actions) && n < |states|
    requires Holder(states[n], p) && Holder(states[n], q)
    ensures p == q
  {
    RunKeepsInv(states, actions, n);
    assert SessionInv(p, states[n].sessions[p], states[n].files, states[n].dead);
    assert SessionInv(q, states[n].sessions[q], states[n].files, states[n].dead);
  }

  /** While a live session holds the lock, run.lock contains exactly its record. */
  lemma HolderStability(states: seq<State>, actions: seq<Action>, n: nat, p: SessionId)
    requires IsFullRun(states, actions) && n < |states| && Holder(states[n], p)
    ensures states[n].files.main == Owned(MainRecord(p, states[n].sessions[p]))
  {
    RunKeepsInv(states, actions, n);
    assert SessionInv(p, states[n].sessions[p], states[n].files, states[n].dead);
  }

  /** Nobody but the holder itself, or its own crash, ends a holding. */
  lemma HoldingEndsByItself(states: seq<State>, actions: seq<Action>, n: nat, p: SessionId)
    requires IsFullRun(states, actions) && n < |actions| && Holder(states[n], p) && !Holder(states[n + 1], p)
    ensures || actions[n] == Crash(states[n].sessions[p].pid)
            || (&& actions[n].Advance? && actions[n].sid == p && !actions[n].fault
                && states[n].sessions[p].pc == ReleaseUnlink && states[n + 1].files.main == Missing)
  {
    RunKeepsInv(states, actions, n);
    assert SessionInv(p, states[n].sessions[p], states[n].files, states[n].dead);
  }

  /**
   Stale reads are harmless: a recovery unlink removes exactly the record that was read, whose
   owner is dead, and a publish of run.lock never finds the file taken.
   */
  lemma GuardedActionsFindWhatTheyRead(states: seq<State>, actions: seq<Action>, n: nat, sid: SessionId)
    requires IsFullRun(states, actions) && n < |states| && sid in states[n].sessions
    ensures var pc, f := states[n].sessions[sid].pc, states[n].files;
            && (pc.RecoverUnlink? ==> f.main == Owned(pc.seen) && pc.seen.pid in states[n].dead)
            && (pc.MainPublish? ==> f.main == Missing)
            && (InGuard(pc) ==> f.guard == Owned(GuardRecord(sid, states[n].sessions[sid])))
  {
    RunKeepsInv(states, actions, n);
  }

  /** No call of release() ever meets the "ownership lost" branch, and no call of acquire reports it. */
  lemma OwnershipIsNeverLost(states: seq<State>, actions: seq<Action>, n: nat, sid: SessionId)
    requires IsFullRun(states, actions) && n < |states| && Live(states[n], sid)
    ensures states[n].sessions[sid].pc == ReleaseRead ==>
              states[n].files.main == Owned(MainRecord(sid, states[n].sessions[sid]))
    ensures states[n].sessions[sid].pc !in {CleanupCheck(OwnershipLost), CleanupUnlink(OwnershipLost), Failed(OwnershipLost)}
  {
    RunKeepsInv(states, actions, n);
    assert SessionInv(sid, states[n].sessions[sid], states[n].files, states[n].dead);
  }

  // ---------------------------------------------------------------- no retry

  /** The session has had no reason to try again. */
  predicate FirstAttempt(s: Session) {
    && (s.mode.Acquiring? ==> s.mode.attempt == 0)
    && s.pc !in {GuardCheck(Retry), GuardUnlink(Retry)}
  }

  lemma ActStaysFirst(sid: SessionId, s: Session, f: Files, dead: set<Pid>, fault: bool, saysDead: bool)
    requires SessionInv(sid, s, f, dead) && s.pid !in dead && FirstAttempt(s)
    ensures FirstAttempt(Act(sid, s, f, fault, saysDead).1)
  {
  }

  /**
   While all sessions follow the protocol the bounded retry of an acquire is never taken: under the
   guard nothing that was read changes before it is acted on.
   */
  lemma {:induction false} NoAcquireRetries(states: seq<State>, actions: seq<Action>, n: nat, sid: SessionId)
    requires IsFullRun(states, actions) && n < |states| && sid in states[n].sessions
    ensures FirstAttempt(states[n].sessions[sid])
  {
    if n > 0 {
      var st, a := states[n - 1], actions[n - 1];
      RunKeepsInv(states, actions, n - 1);
      assert Enabled(st, a) && states[n] == Apply(st, a);
      if sid in st.sessions {
        NoAcquireRetries(states, actions, n - 1, sid);
        assert SessionInv(sid, st.sessions[sid], st.files, st.dead);
        if a.Advance? && a.sid == sid {
          ActStaysFirst(sid, st.sessions[sid], st.files, st.dead, a.fault, a.saysDead);
        }
      }
    }
  }

  // ---------------------------------------------------------------- fail-closed freeze

  /** The guard file is present and no live session is working under it. */
  ghost predicate Orphaned(st: State) {
    && st.files.guard != Missing
    && forall sid | Live(st, sid) :: !InGuard(st.sessions[sid].pc)
  }

  /**
   A guard whose owner is dead, or that names no owner, is orphaned: one that a crash left behind, one
   that a session could not remove before it died, or one from before the run.
   */
  lemma DeadOwnerOrphans(states: seq<State>, actions: seq<Action>, n: nat)
    requires IsFullRun(states, actions) && n < |states|
    requires var guard := states[n].files.guard; guard == Invalid || (guard.Owned? && guard.owner.pid in states[n].dead)
    ensures Orphaned(states[n])
  {
    RunKeepsInv(states, actions, n);
    var st := states[n];
    forall other | Live(st, other) ensures !InGuard(st.sessions[other].pc) {
      assert SessionInv(other, st.sessions[other], st.files, st.dead);
    }
  }

  /** A crash inside the guard orphans it. */
  lemma CrashInsideGuardOrphans(states: seq<State>, actions: seq<Action>, n: nat, sid: SessionId)
    requires IsFullRun(states, actions) && n < |actions|
    requires sid in states[n].sessions && InGuard(states[n].sessions[sid].pc)
    requires actions[n] == Crash(states[n].sessions[sid].pid)
    ensures Orphaned(states[n + 1])
  {
    RunKeepsInv(states, actions, n);
    assert SessionInv(sid, states[n].sessions[sid], states[n].files, states[n].dead);
    DeadOwnerOrphans(states, actions, n + 1);
  }

  lemma OrphanStep(st: State, a: Action)
    requires Inv(st) && Orphaned(st) && Enabled(st, a)
    ensures Orphaned(Apply(st, a)) && Apply(st, a).files == st.files
    ensures forall sid | Holder(Apply(st, a), sid) :: Holder(st, sid)
  {
    var st' := Apply(st, a);
    if a.Advance? {
      assert Live(st, a.sid);
      var s := st.sessions[a.sid];
      assert SessionInv(a.sid, s, st.files, st.dead);
      assert !InGuard(s.pc);
    }
    forall sid | Live(st', sid) ensures !InGuard(st'.sessions[sid].pc) {
      if sid in st.sessions {
        assert Live(st, sid);
      }
    }
  }

  /** Behind an orphaned guard neither lock file ever changes again and no new holder arises. */
  lemma {:induction false} OrphanFreeze(states: seq<State>, actions: seq<Action>, i: nat, j: nat)
    requires IsFullRun(states, actions) && i <= j < |states| && Orphaned(states[i])
    ensures Orphaned(states[j]) && states[j].files == states[i].files
    ensures forall sid | Holder(states[j], sid) :: Holder(states[i], sid)
  {
    if i < j {
      OrphanFreeze(states, actions, i, j - 1);
      RunKeepsInv(states, actions, j - 1);
      OrphanStep(states[j - 1], actions[j - 1]);
    }
  }

  /**
   A release that unlinked run.lock but could not remove its guard has orphaned it: the handle's
   later releases can only fail, and nobody can ever acquire.
   */
  lemma FailedReleaseFreezes(states: seq<State>, actions: seq<Action>, n: nat, sid: SessionId)
    requires IsFullRun(states, actions) && n < |states| && Live(states[n], sid)
    requires states[n].sessions[sid].mode.Releasing? && !states[n].sessions[sid].holds
    requires BeforeGuard(states[n].sessions[sid].pc)
    ensures Orphaned(states[n])
  {
    RunKeepsInv(states, actions, n);
    var st := states[n];
    assert SessionInv(sid, st.sessions[sid], st.files, st.dead);
    forall other | Live(st, other) ensures !InGuard(st.sessions[other].pc) {
      assert SessionInv(other, st.sessions[other], st.files, st.dead);
    }
  }
}
