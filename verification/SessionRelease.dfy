/** When a lock call that fails gives back more than it was granted. */
module SessionRelease {
  import opened LockManager
  import opened SessionClose
  import opened Visa

  /** Call `t` has released a lock because its remote lock failed, has lost its operation as well, and is
      about to release again, while its session owns the resource. */
  ghost predicate TakingAnother(s: State, t: ThreadId) {
    t in s.threads && s.threads[t].Locking? && s.threads[t].lock == LockLost(true, 1) && s.Owning()
  }

  /** It does so somewhere in the run. */
  ghost predicate TakesAnother(s: State, run: seq<Event>, t: ThreadId)
    decreases |run|
  {
    && run != [] && Enabled(s, run[0])
    && ((run[0].Run? && run[0].t == t && TakingAnother(s, t)) || TakesAnother(Apply(s, run[0]), run[1..], t))
  }

  function ReleasesOf(phase: LockPhase): nat {
    if phase.LockFinishing? || phase.LockDone? then phase.outcome.releases else 0
  }

  /** The call has ended, or is about to, with more releases than grants. */
  ghost predicate Over(s: State, t: ThreadId) {
    t in s.threads && s.threads[t].Locking? && ReleasesOf(s.threads[t].lock) > 1
  }

  lemma OverNext(s: State, e: Event, t: ThreadId)
    requires Inv(s) && Enabled(s, e)
    ensures Over(Apply(s, e), t) <==> Over(s, t) || (e.Run? && e.t == t && TakingAnother(s, t))
  {
    if e.Run? {
      StepOver(s, e.t, e.fails, t);
    }
  }

  /** The kind of a call stays what it is. */
  lemma KindStays(s: State, u: ThreadId, fails: bool)
    requires u in s.threads && !s.threads[u].Locking?
    ensures u in Step(s, u, fails).threads && !Step(s, u, fails).threads[u].Locking?
  {
    match s.threads[u] {
      case Unlocking(phase) =>
        var s' := UnlockStep(s, u, phase, fails);
        assert s'.threads[u].Unlocking?;
      case Transferring(phase) =>
        var s' := TransferStep(s, u, phase);
        assert s'.threads[u].Transferring?;
      case Closing(phase) =>
        var s' := CloseStep(s, u, phase);
        assert s'.threads[u].Closing?;
    }
  }

  lemma LockStepOver(s: State, t: ThreadId, kind: LockType, key: Option<string>, phase: LockPhase, fails: bool)
    requires t in s.threads && s.threads[t] == Locking(kind, key, phase) && LockOk(s, t, kind, phase)
    ensures var s' := LockStep(s, t, kind, key, phase, fails);
            && t in s'.threads && s'.threads[t].Locking?
            && (ReleasesOf(s'.threads[t].lock) > 1 <==> ReleasesOf(phase) > 1 || (phase == LockLost(true, 1) && s.Owning()))
  {
  }

  lemma StepOver(s: State, u: ThreadId, fails: bool, t: ThreadId)
    requires Inv(s) && Enabled(s, Run(u, fails))
    ensures Over(Step(s, u, fails), t) <==> Over(s, t) || (u == t && TakingAnother(s, t))
  {
    assert ThreadOk(s, u);
    if u != t {
      StepOk(s, u, fails);
    } else if s.threads[t].Locking? {
      LockStepOver(s, t, s.threads[t].kind, s.threads[t].key, s.threads[t].lock, fails);
    } else {
      KindStays(s, t, fails);
    }
  }

  lemma {:induction false} OverExactly(s: State, run: seq<Event>, s': State, t: ThreadId)
    requires Inv(s) && Reaches(s, run, s')
    ensures Over(s', t) <==> Over(s, t) || TakesAnother(s, run, t)
    decreases |run|
  {
    if run != [] {
      ApplyKeepsInv(s, run[0]);
      OverNext(s, run[0], t);
      OverExactly(Apply(s, run[0]), run[1..], s', t);
    }
  }

  /** A lock call that has returned has given back more than it was granted exactly when, in its run, it
      released for the second time while another lock of the session was there to be taken. */
  lemma OverRelease(me: SessionId, resource: string, locks: Locks, run: seq<Event>, s: State, t: ThreadId)
    requires Tidy(locks) && Reaches(Start(me, resource, locks), run, s)
    requires t in s.threads && s.threads[t].Locking? && s.threads[t].lock.LockDone?
    ensures var o := s.threads[t].lock.outcome;
            o.releases > Bit(o.granted) <==> TakesAnother(Start(me, resource, locks), run, t)
  {
    StartInv(me, resource, locks);
    RunKeepsInv(Start(me, resource, locks), run, s);
    assert ThreadOk(s, t);
    OverExactly(Start(me, resource, locks), run, s, t);
  }

  // A session whose lock calls do not overlap

  /** A lock call that has been made and has not returned. */
  ghost predicate InFlight(s: State, t: ThreadId) {
    t in s.threads && s.threads[t].Locking? && !s.threads[t].lock.LockDone?
  }

  /** No depth counter of the session has wrapped around. */
  ghost predicate Counted(s: State) {
    s.Owning() ==> OwnedDepth(s.locks, s.me, s.resource) > 0
  }

  /** While call `t` is in flight, no other lock call of the session is, in every state of the run; and no
      counter wraps around. */
  ghost predicate Alone(s: State, run: seq<Event>, t: ThreadId)
    decreases |run|
  {
    && Counted(s)
    && (InFlight(s, t) ==> forall u :: u != t ==> !InFlight(s, u))
    && (run != [] ==> Enabled(s, run[0]) && Alone(Apply(s, run[0]), run[1..], t))
  }

  /** What the session may own in each phase of its only lock call in flight. */
  ghost predicate SoloAt(s: State, phase: LockPhase) {
    match phase
    case LockWaiting(nested) => !nested ==> !s.Owning()
    case LockChecked(nested) => !nested ==> !s.Owning()
    case LockGranted(nested) => !nested && s.Owning() ==> OwnedDepth(s.locks, s.me, s.resource) == 1
    case LockRemoteFailed => s.Owning() ==> OwnedDepth(s.locks, s.me, s.resource) == 1
    case LockCompleting(remoteFailed, releases) => (remoteFailed ==> !s.Owning()) && releases <= Bit(remoteFailed)
    case LockLost(remoteFailed, releases) => (remoteFailed ==> !s.Owning()) && releases <= Bit(remoteFailed)
    case LockFinishing(outcome) => outcome.releases <= Bit(outcome.granted)
    case LockDone(outcome) => outcome.releases <= Bit(outcome.granted)
    case _ => true
  }

  ghost predicate Solo(s: State, t: ThreadId) {
    t in s.threads && s.threads[t].Locking? ==> SoloAt(s, s.threads[t].lock)
  }

  lemma OneDepthReleased(locks: Locks, me: SessionId, resource: string)
    requires Tidy(locks) && (Owns(locks, me, resource) ==> OwnedDepth(locks, me, resource) == 1)
    ensures !Owns(Released(locks, me, resource).0, me, resource)
  {
    assert Decrement(1) == 0;
  }

  lemma FirstDepth(locks: Locks, me: SessionId, resource: string, kind: LockType, key: string)
    requires Tidy(locks) && !Owns(locks, me, resource) && (kind == ExclusiveLock || kind == SharedLock)
    ensures var after := Granted(locks, me, resource, kind, key);
            Owns(after, me, resource) ==> OwnedDepth(after, me, resource) == 1
  {
    assert resource in locks ==> locks[resource].kind == ExclusiveLock || locks[resource].kind == SharedLock;
    assert Increment(0) == 1;
  }

  /** What another session does leaves the depth of this session's lock alone. */
  lemma DepthAfter(locks: Locks, c: Call, me: SessionId, resource: string)
    requires Tidy(locks) && c.owner != me
    ensures OwnedDepth(After(locks, c), me, resource) == OwnedDepth(locks, me, resource)
  {
    var state := Lookup(locks, c.resource);
    assert c.resource in locks ==> state.kind == ExclusiveLock || state.kind == SharedLock;
    assert me in state.sharedOwners <==> me in state.sharedOwners - {c.owner};
    assert me in state.sharedOwners ==> (state.sharedOwners - {c.owner})[me] == state.sharedOwners[me];
  }

  lemma SoloPhase(s: State, t: ThreadId, kind: LockType, key: Option<string>, phase: LockPhase, fails: bool)
    requires Tidy(s.locks) && t in s.threads && s.threads[t] == Locking(kind, key, phase) && LockOk(s, t, kind, phase)
    requires SoloAt(s, phase) && Counted(s)
    ensures var s' := LockStep(s, t, kind, key, phase, fails);
            t in s'.threads && s'.threads[t].Locking? && SoloAt(s', s'.threads[t].lock)
  {
    match phase {
      case LockWaiting(nested) => SoloWaiting(s, t, kind, key, nested, fails);
      case LockChecked(_) => SoloGrant(s, t, kind, key, phase, fails);
      case LockRemoteFailed => SoloRelease(s, t, kind, key, phase, fails);
      case LockLost(_, _) => SoloRelease(s, t, kind, key, phase, fails);
      case _ => SoloPassing(s, t, kind, key, phase, fails);
    }
  }

  lemma SoloWaiting(s: State, t: ThreadId, kind: LockType, key: Option<string>, nested: bool, fails: bool)
    requires t in s.threads && s.threads[t] == Locking(kind, key, LockWaiting(nested)) && (!nested ==> !s.Owning())
    ensures var s' := Acquiring(s, t, kind, key, nested, fails);
            t in s'.threads && s'.threads[t].Locking? && SoloAt(s', s'.threads[t].lock)
  {
    assert Acquiring(s, t, kind, key, nested, fails).locks == s.locks;
  }

  lemma SoloGrant(s: State, t: ThreadId, kind: LockType, key: Option<string>, phase: LockPhase, fails: bool)
    requires Tidy(s.locks) && t in s.threads && s.threads[t] == Locking(kind, key, phase) && LockOk(s, t, kind, phase)
    requires SoloAt(s, phase) && Counted(s) && phase.LockChecked?
    ensures var s' := LockStep(s, t, kind, key, phase, fails);
            t in s'.threads && s'.threads[t].Locking? && SoloAt(s', s'.threads[t].lock)
  {
    if !s.Owning() {
      FirstDepth(s.locks, s.me, s.resource, kind, KeyText(s.nextKey));
    }
  }

  lemma SoloRelease(s: State, t: ThreadId, kind: LockType, key: Option<string>, phase: LockPhase, fails: bool)
    requires Tidy(s.locks) && t in s.threads && s.threads[t] == Locking(kind, key, phase) && LockOk(s, t, kind, phase)
    requires SoloAt(s, phase) && Counted(s) && (phase.LockRemoteFailed? || phase.LockLost?)
    ensures var s' := LockStep(s, t, kind, key, phase, fails);
            t in s'.threads && s'.threads[t].Locking? && SoloAt(s', s'.threads[t].lock)
  {
    if phase.LockRemoteFailed? {
      OneDepthReleased(s.locks, s.me, s.resource);
    }
  }

  /** The other steps leave the locks alone. */
  lemma SoloPassing(s: State, t: ThreadId, kind: LockType, key: Option<string>, phase: LockPhase, fails: bool)
    requires Tidy(s.locks) && t in s.threads && s.threads[t] == Locking(kind, key, phase) && LockOk(s, t, kind, phase)
    requires SoloAt(s, phase) && Counted(s)
    requires !phase.LockWaiting? && !phase.LockChecked? && !phase.LockRemoteFailed? && !phase.LockLost?
    ensures var s' := LockStep(s, t, kind, key, phase, fails);
            t in s'.threads && s'.threads[t].Locking? && SoloAt(s', s'.threads[t].lock)
  {
    var s' := LockStep(s, t, kind, key, phase, fails);
    assert s'.locks == s.locks && s'.me == s.me && s'.resource == s.resource;
    assert s'.Owning() <==> s.Owning();
  }

  lemma SoloLockStep(s: State, t: ThreadId, fails: bool)
    requires Inv(s) && Solo(s, t) && Counted(s)
    requires t in s.threads && s.threads[t].Locking? && Enabled(s, Run(t, fails))
    ensures Solo(Step(s, t, fails), t)
  {
    assert ThreadOk(s, t);
    SoloPhase(s, t, s.threads[t].kind, s.threads[t].key, s.threads[t].lock, fails);
  }

  /** A step of another call changes the locks by a release of this session, if at all. */
  lemma OtherStepLocks(s: State, u: ThreadId, fails: bool)
    requires u in s.threads && !s.threads[u].Locking?
    ensures var s' := Step(s, u, fails);
            || s'.locks == s.locks
            || s'.locks == Released(s.locks, s.me, s.resource).0
            || s'.locks == ReleasedAll(s.locks, s.me, s.resource).0
  {
    match s.threads[u] {
      case Unlocking(phase) =>
        var s' := UnlockStep(s, u, phase, fails);
        assert s'.locks == s.locks || s'.locks == Released(s.locks, s.me, s.resource).0;
      case Transferring(phase) =>
        assert TransferStep(s, u, phase).locks == s.locks;
      case Closing(phase) =>
        var s' := CloseStep(s, u, phase);
        assert s'.locks == s.locks || s'.locks == ReleasedAll(s.locks, s.me, s.resource).0;
    }
  }

  /** Whatever else happens to the locks can only take from the session. */
  lemma SoloElse(s: State, s': State, t: ThreadId)
    requires Solo(s, t) && Tidy(s.locks) && s'.me == s.me && s'.resource == s.resource
    requires t in s.threads ==> t in s'.threads && s'.threads[t] == s.threads[t]
    requires t !in s.threads ==> t !in s'.threads || !s'.threads[t].Locking? || s'.threads[t].lock.LockStart?
    requires || s'.locks == s.locks
             || s'.locks == Released(s.locks, s.me, s.resource).0
             || s'.locks == ReleasedAll(s.locks, s.me, s.resource).0
    ensures Solo(s', t)
  {
    if Owns(s.locks, s.me, s.resource) ==> OwnedDepth(s.locks, s.me, s.resource) == 1 {
      OneDepthReleased(s.locks, s.me, s.resource);
    }
    OwnershipAfterRelease(s.locks, s.me, s.resource, s.me, s.resource);
    OwnershipAfterReleaseAll(s.locks, s.me, s.resource, s.me, s.resource);
  }

  lemma SoloOtherStep(s: State, t: ThreadId, u: ThreadId, fails: bool)
    requires Inv(s) && Solo(s, t) && u != t && Enabled(s, Run(u, fails))
    requires InFlight(s, t) ==> !InFlight(s, u)
    ensures Solo(Step(s, u, fails), t)
  {
    StepOk(s, u, fails);
    if t in s.threads && s.threads[t].Locking? && !s.threads[t].lock.LockDone? {
      if s.threads[u].Locking? {
        assert Step(s, u, fails) == s;
      } else {
        OtherStepLocks(s, u, fails);
        SoloElse(s, Step(s, u, fails), t);
      }
    }
  }

  lemma SoloApply(s: State, t: ThreadId, e: Event)
    requires Inv(s) && Solo(s, t) && Counted(s) && Enabled(s, e)
    requires InFlight(s, t) ==> forall u :: u != t ==> !InFlight(s, u)
    ensures Solo(Apply(s, e), t)
  {
    match e {
      case Spawn(_, _) => SoloElse(s, Apply(s, e), t);
      case Interrupt(_) => SoloElse(s, Apply(s, e), t);
      case Run(u, fails) =>
        if u != t {
          SoloOtherStep(s, t, u, fails);
        } else if s.threads[t].Locking? {
          SoloLockStep(s, t, fails);
        } else {
          KindStays(s, t, fails);
        }
      case Elsewhere(call) =>
        OwnershipAfter(s.locks, call, s.me, s.resource);
        DepthAfter(s.locks, call, s.me, s.resource);
    }
  }

  lemma {:induction false} SoloRun(s: State, run: seq<Event>, s': State, t: ThreadId)
    requires Inv(s) && Solo(s, t) && Reaches(s, run, s') && Alone(s, run, t)
    ensures Solo(s', t)
    decreases |run|
  {
    if run != [] {
      ApplyKeepsInv(s, run[0]);
      SoloApply(s, t, run[0]);
      SoloRun(Apply(s, run[0]), run[1..], s', t);
    }
  }

  /** If no other lock call of the session is in flight while this one is, it gives back no more than it
      was granted: whatever the session owned before, and whatever it unlocks meanwhile. */
  lemma SoloLockIsHonest(me: SessionId, resource: string, locks: Locks, run: seq<Event>, s: State, t: ThreadId)
    requires Tidy(locks) && Reaches(Start(me, resource, locks), run, s)
    requires Alone(Start(me, resource, locks), run, t)
    requires t in s.threads && s.threads[t].Locking? && s.threads[t].lock.LockDone?
    ensures var o := s.threads[t].lock.outcome; o.releases <= Bit(o.granted)
    ensures !TakesAnother(Start(me, resource, locks), run, t)
  {
    StartInv(me, resource, locks);
    SoloRun(Start(me, resource, locks), run, s, t);
    OverRelease(me, resource, locks, run, s, t);
  }
}
