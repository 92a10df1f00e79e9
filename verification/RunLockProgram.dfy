/**
 The program of the run lock in its own control flow: bounded loops, branches and error paths,
 with other sessions acting between any two of its system calls. Every system call changes the
 files by itself, and is the machine's next step, so a returned handle really holds the lock, alone.
 */
module RunLockProgram {
  import opened Wrappers
  import opened RunLock
  import opened RunLockSafety

  datatype File = MainFile | GuardFile

  datatype LinkResult = Linked | Exists | LinkFailed

  datatype UnlinkResult = Unlinked | NotThere | UnlinkFailed

  function SlotOf(f: Files, file: File): Slot {
    if file.MainFile? then f.main else f.guard
  }

  function Put(f: Files, file: File, slot: Slot): Files {
    if file.MainFile? then f.(main := slot) else f.(guard := slot)
  }

  /** A system call as the program makes it. */
  datatype Request = Read(file: File) | Publish(file: File, owner: Record) | Remove(file: File) | Probe(pid: Pid)

  /** What a system call does to the files; a failed one, a read and a probe do nothing. */
  function Effect(request: Request, f: Files, fault: bool): Files {
    match request
    case Publish(file, owner) => if fault || SlotOf(f, file) != Missing then f else Put(f, file, Owned(owner))
    case Remove(file) => if fault then f else Put(f, file, Missing)
    case _ => f
  }

  function ReadThenRemove(file: File): seq<Request> {
    [Read(file), Remove(file)]
  }

  /** Looking again at an owner that was probed dead, probing it again, and removing run.lock. */
  function Recovery(observed: Record): seq<Request> {
    [Read(MainFile), Probe(observed.pid), Remove(MainFile)]
  }

  /** Acquiring run.lock from a dead owner. */
  function Takeover(owner: Record, mine: Record): seq<Request> {
    [Read(MainFile), Probe(owner.pid)] + Recovery(owner) + [Publish(MainFile, mine)]
  }

  lemma TakeoverParts(before: seq<Request>, owner: Record, mine: Record)
    ensures before + [Read(MainFile)] + [Probe(owner.pid)] + Recovery(owner) + [Publish(MainFile, mine)] == before + Takeover(owner, mine)
  {
  }

  /** The guard is to be published where there is one. */
  predicate FindsGuard(request: Request, seen: Files) {
    request.Publish? && request.file.GuardFile? && seen.guard != Missing
  }

  /** run.lock is read and names no owner, or an owner is not said to be dead. */
  predicate MeetsOwner(request: Request, call: Call) {
    (request == Read(MainFile) && call.seen.main == Invalid) || (request.Probe? && !call.saysDead)
  }

  /** The system call that the machine makes next. */
  function Next(sid: SessionId, s: Session): Request
    requires !Terminal(s.pc)
  {
    match s.pc
    case GuardPublish(_) => Publish(GuardFile, GuardRecord(sid, s))
    case MainPublish => Publish(MainFile, MainRecord(sid, s))
    case MainProbe(r) => Probe(r.pid)
    case RecoverProbe(r) => Probe(r.pid)
    case RecoverUnlink(_) => Remove(MainFile)
    case ReleaseUnlink => Remove(MainFile)
    case RollbackUnlink => Remove(MainFile)
    case GuardUnlink(_) => Remove(GuardFile)
    case CleanupUnlink(_) => Remove(GuardFile)
    case GuardReunlink => Remove(GuardFile)
    case MainRead => Read(MainFile)
    case RecoverRead(_) => Read(MainFile)
    case ReleaseRead => Read(MainFile)
    case RollbackRead => Read(MainFile)
    case _ => Read(GuardFile)
  }

  /** The machine's step changes the files as that system call does, and probes the process it names. */
  lemma ActHasEffect(sid: SessionId, s: Session, f: Files, fault: bool, saysDead: bool)
    requires !Terminal(s.pc)
    ensures Act(sid, s, f, fault, saysDead).0 == Effect(Next(sid, s), f, fault)
    ensures Probed(s.pc) == if Next(sid, s).Probe? then {Next(sid, s).pid} else {}
  {
  }

  lemma ExtendRun(states: seq<State>, actions: seq<Action>, a: Action)
    requires IsFullRun(states, actions) && Enabled(states[|states| - 1], a)
    ensures IsFullRun(states + [Apply(states[|states| - 1], a)], actions + [a])
  {
    hide Apply;
    var last := states[|states| - 1];
    var more, acts := states + [Apply(last, a)], actions + [a];
    forall i {:trigger acts[i]} | 0 <= i < |acts| ensures Enabled(more[i], acts[i]) && more[i + 1] == Apply(more[i], acts[i]) {
      if i < |actions| {
        assert acts[i] == actions[i];
      }
    }
  }

  /** Anything another session may do: its own steps, a new session, a crash of another process. */
  predicate Foreign(sid: SessionId, pid: Pid, a: Action) {
    match a
    case Start(s, _) => s != sid
    case Advance(s, _, _) => s != sid
    case Release(s) => s != sid
    case Crash(p) => p != pid
  }

  lemma ForeignKeeps(st: State, sid: SessionId, a: Action)
    requires Live(st, sid) && Enabled(st, a) && Foreign(sid, st.sessions[sid].pid, a)
    ensures Live(Apply(st, a), sid) && Apply(st, a).sessions[sid] == st.sessions[sid]
  {
    hide Act;
  }

  /** One call of acquireRunLock and its handle, in a world of other sessions. */
  class LockCall {
    const sid: SessionId
    var st: State
    var released: bool
    ghost var states: seq<State>
    ghost var actions: seq<Action>
    /** The system calls made so far. */
    ghost var requests: seq<Request>
    /** In the current call a system call has failed, or the guard was found there when it was to be published. */
    ghost var disturbed: bool
    /** In the current call run.lock was unreadable, or its owner was not said to be dead. */
    ghost var occupied: bool

    /** The world is the end of a run of the machine in which this call is alive. */
    ghost predicate Valid()
      reads this
    {
      IsFullRun(states, actions) && st == states[|states| - 1] && Live(st, sid)
    }

    function Me(): Session
      reads this
      requires sid in st.sessions
    {
      st.sessions[sid]
    }

    /** What the call met was noted; and the session found what its program counter knows. */
    ghost predicate Noted(request: Request, before: Session, call: Call, wasDisturbed: bool, wasOccupied: bool)
      reads this
    {
      && SessionInv(sid, before, call.seen, st.dead)
      && disturbed == (wasDisturbed || call.fault || FindsGuard(request, call.seen))
      && occupied == (wasOccupied || MeetsOwner(request, call))
    }

    /** Other sessions act any number of times. */
    method Interfere()
      requires Valid()
      modifies this`st, this`states, this`actions
      ensures Valid() && Me() == old(Me())
    {
      hide IsFullRun, IsRun, Apply, Enabled;
      var n: int := *;
      for i := 0 to if n > 0 then n else 0
        invariant Valid() && Me() == old(Me())
      {
        var a: Action := *;
        if Enabled(st, a) && Foreign(sid, Me().pid, a) {
          ExtendRun(states, actions, a);
          ForeignKeeps(st, sid, a);
          st := Apply(st, a);
          states, actions := states + [st], actions + [a];
        }
      }
    }

    /**
     One system call of this session, after any interference; what it finds is what is there then.
     The files change as the call says, and that is the machine's step.
     */
    method Perform(request: Request) returns (call: Call)
      requires Valid() && !Terminal(Me().pc) && request == Next(sid, Me())
      modifies this`st, this`states, this`actions, this`requests, this`disturbed, this`occupied
      ensures Valid() && Did(sid, old(Me()), call, st)
      ensures st.files == Effect(request, call.seen, call.fault) && requests == old(requests) + [request]
      ensures request.Probe? && call.saysDead ==> request.pid in st.dead
      ensures Noted(request, old(Me()), call, old(disturbed), old(occupied))
    {
      hide IsFullRun, IsRun, Act, Effect, Next, SessionInv, FindsGuard, MeetsOwner, Apply, Enabled, Probed, Did;
      Interfere();
      var fault, saysDead := *, *;
      if saysDead && !(Probed(Me().pc) <= st.dead) {
        saysDead := false;
      }
      call := Call(fault, saysDead, st.files);
      SessionKnows(states, actions, st, sid);
      disturbed := disturbed || fault || FindsGuard(request, st.files);
      occupied := occupied || MeetsOwner(request, call);
      var a := Advance(sid, fault, saysDead);
      ActIsNext(st, sid, request, fault, saysDead);
      ExtendRun(states, actions, a);
      var next := Act(sid, Me(), st.files, fault, saysDead).1;
      st := st.(files := Effect(request, st.files, fault), sessions := st.sessions[sid := next]);
      states, actions := states + [st], actions + [a];
      requests := requests + [request];
    }

    /** readLockState: the record is read as it is when the file is opened. */
    method ReadLockState(file: File) returns (r: Result<Slot, ErrorCode>, ghost call: Call)
      requires Valid() && !Terminal(Me().pc) && Next(sid, Me()) == Read(file)
      modifies this`st, this`states, this`actions, this`requests, this`disturbed, this`occupied
      ensures Valid() && Did(sid, old(Me()), call, st) && st.files == call.seen && requests == old(requests) + [Read(file)]
      ensures Noted(Read(file), old(Me()), call, old(disturbed), old(occupied))
      ensures r == if call.fault then Err(Io) else Ok(SlotOf(call.seen, file))
    {
      hide IsFullRun, IsRun, Did, Next;
      var c := Perform(Read(file));
      call := c;
      r := if c.fault then Err(Io) else Ok(SlotOf(c.seen, file));
    }

    /** publishOwner: the complete record is linked if the file is absent. */
    method PublishOwner(file: File, owner: Record) returns (r: LinkResult, ghost call: Call)
      requires Valid() && !Terminal(Me().pc) && Next(sid, Me()) == Publish(file, owner)
      modifies this`st, this`states, this`actions, this`requests, this`disturbed, this`occupied
      ensures Valid() && Did(sid, old(Me()), call, st) && requests == old(requests) + [Publish(file, owner)]
      ensures Noted(Publish(file, owner), old(Me()), call, old(disturbed), old(occupied))
      ensures st.files == if r.Linked? then Put(call.seen, file, Owned(owner)) else call.seen
      ensures r == if call.fault then LinkFailed else if SlotOf(call.seen, file) == Missing then Linked else Exists
    {
      hide IsFullRun, IsRun, Did, Next;
      var c := Perform(Publish(file, owner));
      call := c;
      r := if c.fault then LinkFailed else if SlotOf(c.seen, file) == Missing then Linked else Exists;
    }

    method Unlink(file: File) returns (r: UnlinkResult, ghost call: Call)
      requires Valid() && !Terminal(Me().pc) && Next(sid, Me()) == Remove(file)
      modifies this`st, this`states, this`actions, this`requests, this`disturbed, this`occupied
      ensures Valid() && Did(sid, old(Me()), call, st) && requests == old(requests) + [Remove(file)]
      ensures Noted(Remove(file), old(Me()), call, old(disturbed), old(occupied))
      ensures st.files == if r.Unlinked? then Put(call.seen, file, Missing) else call.seen
      ensures r == if call.fault then UnlinkFailed else if SlotOf(call.seen, file) == Missing then NotThere else Unlinked
    {
      hide IsFullRun, IsRun, Did, Next;
      var c := Perform(Remove(file));
      call := c;
      r := if c.fault then UnlinkFailed else if SlotOf(c.seen, file) == Missing then NotThere else Unlinked;
    }

    /** A live process is never reported dead; a dead one may be reported alive. */
    method OwnerIsDefinitelyDead(pid: Pid) returns (dead: bool, ghost call: Call)
      requires Valid() && !Terminal(Me().pc) && Next(sid, Me()) == Probe(pid)
      modifies this`st, this`states, this`actions, this`requests, this`disturbed, this`occupied
      ensures Valid() && Did(sid, old(Me()), call, st) && dead == call.saysDead && st.files == call.seen
      ensures requests == old(requests) + [Probe(pid)] && (dead ==> pid in st.dead)
      ensures Noted(Probe(pid), old(Me()), call, old(disturbed), old(occupied))
    {
      hide IsFullRun, IsRun, Did, Next;
      var c := Perform(Probe(pid));
      call := c;
      dead := c.saysDead;
    }

    /**
     Publishes a guard record, at most four times; a foreign guard is never taken over. The probe of
     its owner only words the error, so it is left out.
     */
    method AcquireMutationGuard() returns (r: Result<(), ErrorCode>)
      requires Valid() && Me().pc == GuardPublish(0)
      modifies this`st, this`states, this`actions, this`requests, this`disturbed, this`occupied
      ensures Valid()
      ensures r.Ok? ==> Me() == old(Me()).(pc := if Me().mode.Acquiring? then MainRead else ReleaseRead)
      ensures r.Err? ==> r.error in {Io, Unverifiable, RecoveryBusy} && Me() == Throw(old(Me()), r.error)
      ensures (old(disturbed) || r.Err? ==> disturbed) && occupied == old(occupied)
    {
      hide IsFullRun, IsRun;
      var owner := GuardRecord(sid, Me());
      for attempt := 0 to MAX_ACQUIRE_ATTEMPTS
        invariant Valid()
        invariant Me() == if attempt < MAX_ACQUIRE_ATTEMPTS then old(Me()).(pc := GuardPublish(attempt)) else Throw(old(Me()), RecoveryBusy)
        invariant (old(disturbed) || attempt > 0 ==> disturbed) && occupied == old(occupied)
      {
        var published, _ := PublishOwner(GuardFile, owner);
        if published.LinkFailed? {
          return Err(Io);
        }
        if published.Linked? {
          return Ok(());
        }
        var state, _ := ReadLockState(GuardFile);
        if state.Err? {
          return Err(state.error);
        }
        if state.value.Missing? {
          continue;
        }
        if state.value.Invalid? {
          return Err(Unverifiable);
        }
        return Err(RecoveryBusy);
      }
      return Err(RecoveryBusy);
    }

    /** Removes the guard this session published: at the pc after an operation, after its error, or once more. */
    method RemoveMutationGuard() returns (r: Result<(), ErrorCode>)
      requires Valid() && (Me().pc.GuardCheck? || Me().pc.CleanupCheck? || Me().pc.GuardRecheck?)
      modifies this`st, this`states, this`actions, this`requests, this`disturbed, this`occupied
      ensures Valid() && (r.Err? ==> r.error == Io)
      ensures old(requests) < requests <= old(requests) + ReadThenRemove(GuardFile)
      ensures (old(disturbed) || r.Err? ==> disturbed) && occupied == old(occupied)
      ensures old(Me()).pc.GuardCheck? ==> Me() == if r.Ok? then Finish(old(Me()),
          old(Me()).pc.outcome) else RemovalFailed(old(Me()), old(Me()).pc.outcome)
      ensures old(Me()).pc.CleanupCheck? ==> Me() == Throw(old(Me()), if r.Ok? then old(Me()).pc.error else Io)
      ensures old(Me()).pc.GuardRecheck? ==> Me() == Throw(old(Me()), Io)
    {
      hide IsFullRun, IsRun;
      var mine := GuardRecord(sid, Me());
      var state, _ := ReadLockState(GuardFile);
      if state.Err? {
        return Err(Io);
      }
      if state.value.Missing? {
        return Ok(());
      }
      if state.value != Owned(mine) {
        return Err(Io);
      }
      var removed, _ := Unlink(GuardFile);
      if removed.UnlinkFailed? {
        return Err(Io);
      }
      return Ok(());
    }

    /** Looks again at the record that was probed dead, probes its owner again, and removes it. */
    method RecoverDeadOwnerUnderGuard(observed: Record) returns (r: Result<bool, ErrorCode>)
      requires Valid() && Me().pc == RecoverRead(observed)
      modifies this`st, this`states, this`actions, this`requests, this`disturbed, this`occupied
      ensures Valid()
      ensures old(requests) < requests <= old(requests) + Recovery(observed)
      ensures r == Ok(true) ==> requests == old(requests) + Recovery(observed)
      ensures r != Ok(false) && (old(disturbed) ==> disturbed) && (old(occupied) ==> occupied)
      ensures r.Err? ==> disturbed || occupied
      ensures r.Ok? ==> Me() == old(Me()).(pc := if r.value then MainPublish else GuardCheck(Retry))
      ensures r.Err? ==> Me() == old(Me()).(pc := CleanupCheck(r.error))
    {
      hide IsFullRun, IsRun;
      var state, _ := ReadLockState(MainFile);
      if state.Err? {
        return Err(state.error);
      }
      if state.value.Missing? {
        return Ok(false);
      }
      if state.value.Invalid? {
        return Err(Unverifiable);
      }
      if state.value.owner != observed {
        return Ok(false);
      }
      var dead, _ := OwnerIsDefinitelyDead(state.value.owner.pid);
      if !dead {
        return Err(Held);
      }
      var removed, _ := Unlink(MainFile);
      if removed.NotThere? {
        return Ok(false);
      }
      if removed.UnlinkFailed? {
        return Err(Io);
      }
      return Ok(true);
    }

    /** What the guarded operation came to: run.lock was absent, or its owner was found dead, twice. */
    method AcquireMainLockUnderGuard() returns (r: Result<Outcome, ErrorCode>)
      requires Valid() && Me().pc == MainRead && !Me().holds
      modifies this`st, this`states, this`actions, this`requests, this`disturbed, this`occupied
      ensures Valid()
      ensures r.Ok? ==> r.value == Acquired && Me() == old(Me()).(pc := GuardCheck(Acquired), holds := true)
      ensures (old(disturbed) ==> disturbed) && (old(occupied) ==> occupied)
      ensures r.Err? ==> disturbed || occupied
      ensures r == Ok(Acquired) ==>
        || requests == old(requests) + [Read(MainFile), Publish(MainFile, MainRecord(sid, old(Me())))]
        || exists owner :: requests == old(requests) + Takeover(owner, MainRecord(sid, old(Me())))
      ensures r.Err? ==> Me() == old(Me()).(pc := CleanupCheck(r.error))
    {
      hide IsFullRun, IsRun;
      var state, _ := ReadLockState(MainFile);
      if state.Err? {
        return Err(state.error);
      }
      if state.value.Invalid? {
        return Err(Unverifiable);
      }
      if state.value.Owned? {
        var dead, _ := OwnerIsDefinitelyDead(state.value.owner.pid);
        if !dead {
          return Err(Held);
        }
        var recovered := RecoverDeadOwnerUnderGuard(state.value.owner);
        if recovered.Err? {
          return Err(recovered.error);
        }
        if !recovered.value {
          return Ok(Retry);
        }
      }
      var mine := MainRecord(sid, Me());
      var published, _ := PublishOwner(MainFile, mine);
      if published.LinkFailed? {
        return Err(Io);
      }
      if state.value.Owned? {
        TakeoverParts(old(requests), state.value.owner, mine);
      }
      return Ok(if published.Linked? then Acquired else Retry);
    }

    /** Rolls an acquisition back after the guard could not be removed. */
    method RemoveOwnedMainLockBestEffort()
      requires Valid() && Me().pc == RollbackRead
      modifies this`st, this`states, this`actions, this`requests, this`disturbed, this`occupied
      ensures old(requests) < requests <= old(requests) + ReadThenRemove(MainFile)
      ensures (old(disturbed) ==> disturbed) && (old(occupied) ==> occupied)
      ensures Valid() && (Me() == old(Me()).(pc := GuardRecheck) || Me() == old(Me()).(pc := GuardRecheck, holds := false))
    {
      hide IsFullRun, IsRun;
      var mine := MainRecord(sid, Me());
      var state, _ := ReadLockState(MainFile);
      if state.Err? || state.value != Owned(mine) {
        return;
      }
      var removed, _ := Unlink(MainFile);
    }

    /** One attempt: guard, operation, removal of the guard, with the clean-up each failure needs. */
    method AcquireMainLockAttempt() returns (r: Result<Outcome, ErrorCode>)
      requires Valid() && Me().mode.Acquiring? && Me().mode.attempt < MAX_ACQUIRE_ATTEMPTS && Me().pc == GuardPublish(0) && !Me().holds
      modifies this`st, this`states, this`actions, this`requests, this`disturbed, this`occupied
      ensures Valid()
      ensures r.Ok? ==>
          r.value == Acquired && Me() == Finish(old(Me()).(pc := GuardUnlink(r.value), holds := r.value.Acquired?), r.value)
      ensures r.Err? ==> Me().pc == Failed(r.error)
      ensures r.Err? ==> disturbed || occupied
    {
      hide IsFullRun, IsRun;
      var guard := AcquireMutationGuard();
      if guard.Err? {
        return Err(guard.error);
      }
      var outcome := AcquireMainLockUnderGuard();
      if outcome.Err? {
        var cleaned := RemoveMutationGuard();
        return Err(if cleaned.Ok? then outcome.error else cleaned.error);
      }
      var removed := RemoveMutationGuard();
      if removed.Err? {
        if outcome.value.Acquired? {
          RemoveOwnedMainLockBestEffort();
        }
        var again := RemoveMutationGuard();
        return Err(removed.error);
      }
      return Ok(outcome.value);
    }

    /** A call of acquireRunLock by a live process that no session has been numbered for. */
    constructor (sid: SessionId, pid: Pid, st: State, ghost states: seq<State>, ghost actions: seq<Action>)
      requires IsFullRun(states, actions) && st == states[|states| - 1] && Enabled(st, Start(sid, pid))
      ensures Valid() && this.sid == sid && !released && !disturbed && !occupied
      ensures Me().mode == Acquiring(0) && Me().pc == GuardPublish(0) && !Me().holds
    {
      this.sid := sid;
      this.st := Apply(st, Start(sid, pid));
      this.released := false;
      this.states := states + [Apply(st, Start(sid, pid))];
      this.actions := actions + [Start(sid, pid)];
      this.requests, this.disturbed, this.occupied := [], false, false;
      ExtendRun(states, actions, Start(sid, pid));
    }

    /**
     At most four attempts. A handle is returned only when this session holds the lock, and then
     no other session does; an error leaves the session for good.
     */
    method AcquireRunLock() returns (r: Result<(), ErrorCode>)
      requires Valid() && Me().mode == Acquiring(0) && Me().pc == GuardPublish(0) && !Me().holds
      modifies this`st, this`states, this`actions, this`requests, this`disturbed, this`occupied
      ensures Valid()
      ensures r.Ok? ==> Me().pc == Open && Me().mode == Releasing && Holder(st, sid) && st.files.main == Owned(MainRecord(sid, Me()))
      ensures r.Ok? ==> forall other | Holder(st, other) :: other == sid
      ensures r.Err? ==> Me().pc == Failed(r.error)
      ensures r.Err? ==> disturbed || occupied
    {
      hide IsFullRun, IsRun, Act;
      for attempt := 0 to MAX_ACQUIRE_ATTEMPTS
        invariant Valid()
        invariant attempt < MAX_ACQUIRE_ATTEMPTS ==> Me().mode == Acquiring(attempt) && Me().pc == GuardPublish(0) && !Me().holds
        invariant attempt == MAX_ACQUIRE_ATTEMPTS ==> Me().pc == Failed(Held)
        invariant attempt > 0 ==> disturbed || occupied
      {
        var outcome := AcquireMainLockAttempt();
        if outcome.Err? {
          return Err(outcome.error);
        }
        if outcome.value.Acquired? {
          HolderIsAlone(states, actions, st, sid);
          return Ok(());
        }
      }
      return Err(Held);
    }

    /** Removes run.lock under the guard, only if it still is this handle's. */
    method ReleaseOwnedLockUnderGuard() returns (r: Result<(), ErrorCode>)
      requires Valid() && Me().pc == ReleaseRead
      modifies this`st, this`states, this`actions, this`requests, this`disturbed, this`occupied
      ensures Valid()
      ensures old(requests) < requests <= old(requests) + ReadThenRemove(MainFile)
      ensures r.Ok? ==> Me() == old(Me()).(pc := GuardCheck(Unlocked), holds := false)
      ensures r.Err? ==> Me() == old(Me()).(pc := CleanupCheck(r.error))
      ensures r != Err(OwnershipLost)
      ensures r.Ok? ==> requests == old(requests) + ReadThenRemove(MainFile)
      ensures old(disturbed) || r.Err? ==> disturbed
    {
      hide IsFullRun, IsRun;
      var mine := MainRecord(sid, Me());
      var state, _ := ReadLockState(MainFile);
      if state.Err? {
        return Err(state.error);
      }
      if state.value != Owned(mine) {
        NeverLost(states, actions, st, sid);
        return Err(OwnershipLost);
      }
      var removed, _ := Unlink(MainFile);
      if removed.Unlinked? {
        return Ok(());
      }
      return Err(Io);
    }

    /**
     Releases the handle, once. Success means this session's record is gone and it no longer holds;
     a failure leaves the handle open for another try, and comes from a failed system call or a guard
     met in this call. The ownership is never found lost.
     */
    method Release() returns (r: Result<(), ErrorCode>)
      requires Valid() && if released then Me().pc == Closed && !Me().holds else Me().pc == Open && Me().mode == Releasing
      modifies this
      ensures Valid() && released == (old(released) || r.Ok?)
      ensures old(released) ==> r.Ok? && st == old(st)
      ensures if released then Me().pc == Closed && !Me().holds else Me().pc == Open && Me().mode == Releasing
      ensures r != Err(OwnershipLost)
      ensures r.Err? ==> disturbed
    {
      hide IsFullRun, IsRun, Act;
      if released {
        return Ok(());
      }
      StartRelease();
      var guard := AcquireMutationGuard();
      if guard.Err? {
        return Err(guard.error);
      }
      var operation := ReleaseOwnedLockUnderGuard();
      var removed := RemoveMutationGuard();
      if operation.Err? {
        return Err(if removed.Ok? then operation.error else removed.error);
      }
      if removed.Err? {
        return Err(removed.error);
      }
      released := true;
      return Ok(());
    }

    /** The machine's step that begins a release. */
    method StartRelease()
      requires Valid() && Me().pc == Open
      modifies this`st, this`states, this`actions, this`disturbed, this`occupied
      ensures Valid() && Me() == EnterGuard(old(Me())) && !disturbed && !occupied
    {
      hide IsFullRun, IsRun, Act;
      ExtendRun(states, actions, RunLock.Action.Release(sid));
      st := Apply(st, RunLock.Action.Release(sid));
      states, actions := states + [st], actions + [RunLock.Action.Release(sid)];
      disturbed, occupied := false, false;
    }
  }

  lemma HolderIsAlone(states: seq<State>, actions: seq<Action>, st: State, sid: SessionId)
    requires IsFullRun(states, actions) && st == states[|states| - 1] && Holder(st, sid)
    ensures st.files.main == Owned(MainRecord(sid, st.sessions[sid]))
    ensures forall other | Holder(st, other) :: other == sid
  {
    hide IsRun, Holder;
    assert |states| == |actions| + 1 by {
      RunLength(states, actions);
    }
    HolderStability(states, actions, |states| - 1, sid);
    forall other | Holder(st, other) ensures other == sid {
      MutualExclusion(states, actions, |states| - 1, sid, other);
    }
  }

  lemma RunLength(states: seq<State>, actions: seq<Action>)
    requires IsRun(states, actions)
    ensures |states| == |actions| + 1
  {
  }

  lemma NeverLost(states: seq<State>, actions: seq<Action>, st: State, sid: SessionId)
    requires IsFullRun(states, actions) && st == states[|states| - 1] && Live(st, sid)
    ensures st.sessions[sid].pc != CleanupCheck(OwnershipLost)
  {
    hide IsRun;
    RunLength(states, actions);
    OwnershipIsNeverLost(states, actions, |states| - 1, sid);
  }

  lemma SessionKnows(states: seq<State>, actions: seq<Action>, st: State, sid: SessionId)
    requires IsFullRun(states, actions) && st == states[|states| - 1] && Live(st, sid)
    ensures SessionInv(sid, st.sessions[sid], st.files, st.dead)
  {
    hide IsRun;
    RunLength(states, actions);
    RunKeepsInv(states, actions, |states| - 1);
  }

  /** What one system call met: whether it failed, what a probe said, and the files at that moment. */
  datatype Call = Call(fault: bool, saysDead: bool, seen: Files)

  /** The session and the files are as the machine's action leaves them. */
  predicate Did(sid: SessionId, before: Session, call: Call, st: State) {
    sid in st.sessions && Act(sid, before, call.seen, call.fault, call.saysDead) == (st.files, st.sessions[sid])
  }

  /** The effect of the named system call, and the session's own step, are what the machine does next. */
  lemma ActIsNext(st: State, sid: SessionId, request: Request, fault: bool, saysDead: bool)
    requires Live(st, sid) && !Terminal(st.sessions[sid].pc) && request == Next(sid, st.sessions[sid])
    requires saysDead ==> Probed(st.sessions[sid].pc) <= st.dead
    ensures var next := Act(sid, st.sessions[sid], st.files, fault, saysDead).1;
            var after := st.(files := Effect(request, st.files, fault), sessions := st.sessions[sid := next]);
            && Enabled(st, Advance(sid, fault, saysDead)) && after == Apply(st, Advance(sid, fault, saysDead)) && Live(after, sid)
            && Did(sid, st.sessions[sid], Call(fault, saysDead, st.files), after)
    ensures request.Probe? && saysDead ==> request.pid in st.dead
  {
    hide Act, Effect, Next;
    ActKeepsPid(sid, st.sessions[sid], st.files, fault, saysDead);
    ActHasEffect(sid, st.sessions[sid], st.files, fault, saysDead);
  }

  lemma ActKeepsPid(sid: SessionId, s: Session, f: Files, fault: bool, saysDead: bool)
    ensures Act(sid, s, f, fault, saysDead).1.pid == s.pid
  {
  }
}
