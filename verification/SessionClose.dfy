/** One session whose `lock`, `unlock`, transfers and `close` run on any number of threads, beside
    other sessions that use the same lock manager. Each step is one critical section of the session's
    operations mutex or of the manager's mutex, one atomic exchange of an operation's result, or one
    call into the backend. `acquire` takes two steps inside one critical section of the manager: an
    operation can be cancelled between its last look at the operation and the grant. */
module SessionClose {
  import opened LockManager
  import opened Visa

  type ThreadId = nat

  datatype LockPhase =
    | LockStart
    | LockBegun
    | LockReading
    | LockWaiting(nested: bool)
    | LockChecked(nested: bool)
    | LockGranted(nested: bool)
    | LockRemoteFailed
    | LockCompleting(remoteFailed: bool, releases: nat)
    | LockLost(remoteFailed: bool, releases: nat)
    | LockFinishing(outcome: Outcome)
    | LockDone(outcome: Outcome)

  datatype UnlockPhase =
    | UnlockStart
    | UnlockNested
    | UnlockBeginning
    | UnlockRemote
    | UnlockCompleting(remoteFailed: bool)
    | UnlockReleasing
    | UnlockFinishing(result: UnlockOutcome)
    | UnlockDone(result: UnlockOutcome)

  /** How an unlock ended: it returns with success exactly if it released a lock. */
  datatype UnlockOutcome = UnlockOutcome(released: bool, remoteFailed: bool, lost: bool)

  /** `read`, `write` and `usb_control`. */
  datatype TransferPhase = TransferStart | TransferBegun | TransferRunning | TransferFinishing | TransferDone

  datatype ClosePhase = CloseStart | CloseWaiting | CloseReleasing | CloseDone

  datatype Thread =
    | Locking(kind: LockType, key: Option<string>, lock: LockPhase)
    | Unlocking(unlock: UnlockPhase)
    | Transferring(transfer: TransferPhase)
    | Closing(close: ClosePhase)
  {
    predicate Starting() {
      match this
      case Locking(_, _, phase) => phase.LockStart?
      case Unlocking(phase) => phase.UnlockStart?
      case Transferring(phase) => phase.TransferStart?
      case Closing(phase) => phase.CloseStart?
    }

    /** The thread is in the middle of a call that only an accepted operation may make. */
    predicate Busy() {
      match this
      case Locking(_, _, phase) =>
        phase.LockChecked? || phase.LockGranted? || phase.LockRemoteFailed? || phase.LockCompleting? || phase.LockLost?
      case Unlocking(phase) => phase.UnlockReleasing?
      case Transferring(phase) => phase.TransferRunning?
      case Closing(_) => false
    }

    /** The next step locks the manager's mutex. */
    predicate UsesManager() {
      match this
      case Locking(_, _, phase) => phase.LockReading? || phase.LockWaiting? || phase.LockRemoteFailed? || phase.LockLost?
      case Unlocking(phase) => phase.UnlockStart? || phase.UnlockNested? || phase.UnlockReleasing?
      case Transferring(_) => false
      case Closing(phase) => phase.CloseReleasing?
    }

    predicate ClosedDone() {
      Closing? && close.CloseDone?
    }
  }

  /** How a lock call ended, and how many times it released a lock of the session. */
  datatype Outcome = Outcome(ok: bool, granted: bool, remoteFailed: bool, lost: bool, releases: nat)

  const REFUSED := Outcome(false, false, false, false, 0)

  datatype State = State(
    me: SessionId,
    resource: string,
    locks: Locks,
    nextKey: nat,
    holder: Option<ThreadId>,
    closed: bool,
    registered: set<ThreadId>,
    completed: set<ThreadId>,
    threads: map<ThreadId, Thread>)
  {
    predicate Owning() {
      Owns(locks, me, resource)
    }

    /** Thread `t` moves on to `next`. */
    function At(t: ThreadId, next: Thread): State {
      this.(threads := threads[t := next])
    }

    /** `begin_operation`. */
    function Begin(t: ThreadId, next: Thread): State {
      if closed then this.(completed := completed + {t}, threads := threads[t := next])
      else this.(registered := registered + {t}, threads := threads[t := next])
    }

    /** `finish_operation`. */
    function Finish(t: ThreadId, next: Thread): State {
      this.(registered := registered - {t}, threads := threads[t := next])
    }

    /** `try_complete`. */
    function Complete(t: ThreadId, won: Thread, lost: Thread): State {
      if t in completed then this.(threads := threads[t := lost])
      else this.(completed := completed + {t}, threads := threads[t := won])
    }

    /** `LockManager::release` by this session. */
    function Release(t: ThreadId, next: Thread): State {
      this.(locks := Released(locks, me, resource).0, threads := threads[t := next])
    }

    function ReleaseAll(t: ThreadId, next: Thread): State {
      this.(locks := ReleasedAll(locks, me, resource).0, threads := threads[t := next])
    }

    /** `LockManager::acquire` finds the lock grantable and keeps the mutex. */
    function Check(t: ThreadId, next: Thread): State {
      this.(holder := Some(t), threads := threads[t := next])
    }

    /** The rest of `LockManager::acquire`, which then gives the mutex back. */
    function Grant(t: ThreadId, kind: LockType, next: Thread): State {
      this.(locks := Granted(locks, me, resource, kind, KeyText(nextKey)), nextKey := nextKey + 1, holder := None,
            threads := threads[t := next])
    }

    /** The first critical section of `close`. */
    function Shut(t: ThreadId, next: Thread): State {
      this.(closed := true, completed := completed + registered, threads := threads[t := next])
    }
  }

  function Start(me: SessionId, resource: string, locks: Locks): State {
    State(me, resource, locks, 1, None, false, {}, {}, map[])
  }

  datatype Event =
    | Spawn(t: ThreadId, start: Thread)
    | Run(t: ThreadId, fails: bool)
    | Interrupt(t: ThreadId)
    | Elsewhere(call: Call)

  function Bit(b: bool): nat {
    if b then 1 else 0
  }

  /** `LockManager::acquire` up to the grant; `fails` says that the deadline has passed. */
  function Acquiring(s: State, t: ThreadId, kind: LockType, key: Option<string>, nested: bool, fails: bool): State {
    var refused := Locking(kind, key, LockFinishing(REFUSED));
    if !(kind == ExclusiveLock || kind == SharedLock) || (kind == ExclusiveLock && key.Some? && key.value != "") then
      s.Complete(t, refused, refused)
    else if t in s.completed then s.At(t, refused)
    else if CanGrant(Lookup(s.locks, s.resource), s.me, kind, key) then
      s.Check(t, Locking(kind, key, LockChecked(nested)))
    else if fails then s.Complete(t, refused, refused)
    else s
  }

  function LockStep(s: State, t: ThreadId, kind: LockType, key: Option<string>, phase: LockPhase, fails: bool): State {
    match phase
    case LockStart => s.Begin(t, Locking(kind, key, LockBegun))
    case LockBegun => s.At(t, Locking(kind, key, if t in s.completed then LockFinishing(REFUSED) else LockReading))
    case LockReading => s.At(t, Locking(kind, key, LockWaiting(OwnedDepth(s.locks, s.me, s.resource) != 0)))
    case LockWaiting(nested) => Acquiring(s, t, kind, key, nested, fails)
    case LockChecked(nested) => s.Grant(t, kind, Locking(kind, key, LockGranted(nested)))
    case LockGranted(nested) =>
      s.At(t, Locking(kind, key, if !nested && fails then LockRemoteFailed else LockCompleting(false, 0)))
    case LockRemoteFailed => s.Release(t, Locking(kind, key, LockCompleting(true, Bit(s.Owning()))))
    case LockCompleting(remoteFailed, releases) =>
      s.Complete(t, Locking(kind, key, LockFinishing(Outcome(!remoteFailed, true, remoteFailed, false, releases))),
                 Locking(kind, key, LockLost(remoteFailed, releases)))
    case LockLost(remoteFailed, releases) =>
      s.Release(t, Locking(kind, key, LockFinishing(Outcome(false, true, remoteFailed, true, releases + Bit(s.Owning())))))
    case LockFinishing(outcome) => s.Finish(t, Locking(kind, key, LockDone(outcome)))
    case LockDone(_) => s
  }

  const NOT_OWNED := UnlockOutcome(false, false, false)

  function UnlockStep(s: State, t: ThreadId, phase: UnlockPhase, fails: bool): State {
    match phase
    case UnlockStart =>
      var depth := OwnedDepth(s.locks, s.me, s.resource);
      s.At(t, Unlocking(if depth == 0 then UnlockDone(NOT_OWNED) else if depth > 1 then UnlockNested else UnlockBeginning))
    case UnlockNested => s.Release(t, Unlocking(UnlockDone(UnlockOutcome(s.Owning(), false, false))))
    case UnlockBeginning => s.Begin(t, Unlocking(UnlockRemote))
    case UnlockRemote => s.At(t, Unlocking(UnlockCompleting(fails)))
    case UnlockCompleting(remoteFailed) =>
      s.Complete(t, Unlocking(if remoteFailed then UnlockFinishing(UnlockOutcome(false, true, false)) else UnlockReleasing),
                 Unlocking(UnlockFinishing(UnlockOutcome(false, remoteFailed, true))))
    case UnlockReleasing => s.Release(t, Unlocking(UnlockFinishing(UnlockOutcome(s.Owning(), false, false))))
    case UnlockFinishing(result) => s.Finish(t, Unlocking(UnlockDone(result)))
    case UnlockDone(_) => s
  }

  function TransferStep(s: State, t: ThreadId, phase: TransferPhase): State {
    match phase
    case TransferStart => s.Begin(t, Transferring(TransferBegun))
    case TransferBegun => s.At(t, Transferring(if t in s.completed then TransferFinishing else TransferRunning))
    case TransferRunning => s.Complete(t, Transferring(TransferFinishing), Transferring(TransferFinishing))
    case TransferFinishing => s.Finish(t, Transferring(TransferDone))
    case TransferDone => s
  }

  function CloseStep(s: State, t: ThreadId, phase: ClosePhase): State {
    match phase
    case CloseStart => s.Shut(t, Closing(CloseWaiting))
    case CloseWaiting => if s.registered == {} then s.At(t, Closing(CloseReleasing)) else s
    case CloseReleasing => s.ReleaseAll(t, Closing(CloseDone))
    case CloseDone => s
  }

  function Step(s: State, t: ThreadId, fails: bool): State
    requires t in s.threads
  {
    match s.threads[t]
    case Locking(kind, key, phase) => LockStep(s, t, kind, key, phase, fails)
    case Unlocking(phase) => UnlockStep(s, t, phase, fails)
    case Transferring(phase) => TransferStep(s, t, phase)
    case Closing(phase) => CloseStep(s, t, phase)
  }

  predicate Enabled(s: State, e: Event) {
    match e
    case Spawn(t, start) => t !in s.threads && start.Starting()
    case Run(t, _) => t in s.threads && (s.threads[t].UsesManager() ==> s.holder.None?)
    case Interrupt(t) => t in s.registered
    case Elsewhere(call) => call.owner != s.me && s.holder.None?
  }

  function Apply(s: State, e: Event): State
    requires Enabled(s, e)
  {
    match e
    case Spawn(t, start) => s.At(t, start)
    case Run(t, fails) => Step(s, t, fails)
    case Interrupt(t) => s.(completed := s.completed + {t})
    case Elsewhere(call) => s.(locks := After(s.locks, call))
  }

  ghost predicate Reaches(s: State, run: seq<Event>, s': State)
    decreases |run|
  {
    if run == [] then s == s' else Enabled(s, run[0]) && Reaches(Apply(s, run[0]), run[1..], s')
  }

  /** Nothing but exclusive and shared locks is stored. */
  ghost predicate Tidy(locks: Locks) {
    forall r :: r in locks ==> locks[r].kind == ExclusiveLock || locks[r].kind == SharedLock
  }

  ghost predicate OutcomeOk(o: Outcome) {
    && (o.ok <==> o.granted && !o.remoteFailed && !o.lost)
    && (o.remoteFailed || o.lost ==> o.granted)
    && o.releases <= Bit(o.remoteFailed) + Bit(o.lost)
  }

  ghost predicate LockOk(s: State, t: ThreadId, kind: LockType, phase: LockPhase) {
    && (phase.LockBegun? || phase.LockReading? || phase.LockWaiting? ==> t in s.registered || t in s.completed)
    && (phase.LockChecked? <==> s.holder == Some(t))
    && (phase.LockChecked? ==> kind == ExclusiveLock || kind == SharedLock)
    && (phase.LockCompleting? || phase.LockLost? ==> phase.releases <= Bit(phase.remoteFailed))
    && (phase.LockFinishing? || phase.LockDone? ==> OutcomeOk(phase.outcome))
  }

  ghost predicate CloseOk(s: State, phase: ClosePhase) {
    && (!phase.CloseStart? ==> s.closed)
    && (phase.CloseReleasing? || phase.CloseDone? ==> s.registered == {})
    && (phase.CloseDone? ==> !s.Owning())
  }

  ghost predicate ThreadOk(s: State, t: ThreadId)
    requires t in s.threads
  {
    && (s.threads[t].Starting() ==> t !in s.registered)
    && (s.threads[t].Busy() ==> t in s.registered)
    && match s.threads[t]
       case Locking(kind, _, phase) => LockOk(s, t, kind, phase)
       case Unlocking(phase) =>
         && s.holder != Some(t)
         && (phase.UnlockBeginning? ==> t !in s.registered)
         && (phase.UnlockRemote? || phase.UnlockCompleting? ==> t in s.registered || t in s.completed)
       case Transferring(phase) =>
         && s.holder != Some(t)
         && (phase.TransferBegun? ==> t in s.registered || t in s.completed)
       case Closing(phase) => s.holder != Some(t) && CloseOk(s, phase)
  }

  ghost predicate Inv(s: State) {
    && Tidy(s.locks)
    && s.registered <= s.threads.Keys
    && (s.closed ==> s.registered <= s.completed)
    && (s.holder.Some? ==> s.holder.value in s.threads)
    && forall t :: t in s.threads ==> ThreadOk(s, t)
  }

  lemma StartInv(me: SessionId, resource: string, locks: Locks)
    requires Tidy(locks)
    ensures Inv(Start(me, resource, locks))
  {
  }

  /** What the lock table's operations do to the ownership of one session. */
  lemma OwnershipAfterGrant(locks: Locks, owner: SessionId, r: string, kind: LockType, requestedKey: Option<string>,
                            key: string,
                            me: SessionId, resource: string)
    requires Tidy(locks) && (kind == ExclusiveLock || kind == SharedLock)
    requires CanGrant(Lookup(locks, r), owner, kind, requestedKey)
    ensures Tidy(Granted(locks, owner, r, kind, key))
    ensures owner != me ==> (Owns(Granted(locks, owner, r, kind, key), me, resource) <==> Owns(locks, me, resource))
  {
    assert r in locks ==> locks[r].kind == ExclusiveLock || locks[r].kind == SharedLock;
  }

  lemma OwnershipAfterRelease(locks: Locks, owner: SessionId, r: string, me: SessionId, resource: string)
    requires Tidy(locks)
    ensures Tidy(Released(locks, owner, r).0)
    ensures owner != me ==> (Owns(Released(locks, owner, r).0, me, resource) <==> Owns(locks, me, resource))
    ensures Owns(Released(locks, owner, r).0, me, resource) ==> Owns(locks, me, resource)
  {
    var state := Lookup(locks, r);
    assert owner != me && me in state.sharedOwners ==> me in state.sharedOwners - {owner};
  }

  lemma OwnershipAfterReleaseAll(locks: Locks, owner: SessionId, r: string, me: SessionId, resource: string)
    requires Tidy(locks)
    ensures Tidy(ReleasedAll(locks, owner, r).0)
    ensures owner != me ==> (Owns(ReleasedAll(locks, owner, r).0, me, resource) <==> Owns(locks, me, resource))
    ensures Owns(ReleasedAll(locks, owner, r).0, me, resource) ==> Owns(locks, me, resource)
    ensures !Owns(ReleasedAll(locks, owner, r).0, owner, r)
  {
    var state := Lookup(locks, r);
    assert owner != me && me in state.sharedOwners ==> me in state.sharedOwners - {owner};
  }

  /** What another session does with the lock manager leaves this session's ownership alone. */
  lemma OwnershipAfter(locks: Locks, c: Call, me: SessionId, resource: string)
    requires Tidy(locks) && c.owner != me
    ensures Tidy(After(locks, c)) && (Owns(After(locks, c), me, resource) <==> Owns(locks, me, resource))
  {
    if Succeeds(locks, c) {
      match c {
        case Acquire(owner, r, kind, requestedKey, key) =>
          OwnershipAfterGrant(locks, owner, r, kind, requestedKey, key, me, resource);
        case Release(owner, r) => OwnershipAfterRelease(locks, owner, r, me, resource);
        case ReleaseAll(owner, r) => OwnershipAfterReleaseAll(locks, owner, r, me, resource);
      }
    }
  }

  lemma GrantTidy(locks: Locks, owner: SessionId, resource: string, kind: LockType, key: string)
    requires Tidy(locks) && (kind == ExclusiveLock || kind == SharedLock)
    ensures Tidy(Granted(locks, owner, resource, kind, key))
  {
  }

  /** What a step leaves alone, seen from another thread. */
  ghost predicate Gentle(s: State, t: ThreadId, s': State) {
    && s'.me == s.me && s'.resource == s.resource
    && s'.threads.Keys == s.threads.Keys + {t}
    && (forall u :: u in s.threads && u != t ==> s'.threads[u] == s.threads[u])
    && (forall u :: u != t ==> (u in s'.registered <==> u in s.registered))
    && s.completed <= s'.completed
    && (s.closed ==> s'.closed && s'.registered <= s.registered)
    && (s'.closed && !s.closed ==> s'.registered <= s'.completed)
    && (s.holder.Some? && s.holder != Some(t) ==> s'.holder == s.holder)
    && (s'.holder.Some? && s'.holder != s.holder ==> s'.holder == Some(t) && s.holder.None?)
    && (s'.Owning() && !s.Owning() ==> s.holder == Some(t))
  }

  /** A gentle step keeps every other thread in order. */
  lemma OthersStayOk(s: State, t: ThreadId, s': State, u: ThreadId)
    requires Inv(s) && t in s.threads && Gentle(s, t, s') && u in s.threads && u != t
    ensures ThreadOk(s', u)
  {
    assert ThreadOk(s, u) && ThreadOk(s, t);
  }

  lemma AtGentle(s: State, t: ThreadId, next: Thread)
    requires t in s.threads
    ensures Gentle(s, t, s.At(t, next))
  {
  }

  lemma BeginGentle(s: State, t: ThreadId, next: Thread)
    requires t in s.threads
    ensures Gentle(s, t, s.Begin(t, next))
  {
  }

  lemma FinishGentle(s: State, t: ThreadId, next: Thread)
    requires t in s.threads
    ensures Gentle(s, t, s.Finish(t, next))
  {
  }

  lemma CompleteGentle(s: State, t: ThreadId, won: Thread, lost: Thread)
    requires t in s.threads
    ensures Gentle(s, t, s.Complete(t, won, lost))
  {
  }

  lemma ShutGentle(s: State, t: ThreadId, next: Thread)
    requires t in s.threads
    ensures Gentle(s, t, s.Shut(t, next))
  {
  }

  lemma ReleaseGentle(s: State, t: ThreadId, next: Thread)
    requires t in s.threads && Tidy(s.locks)
    ensures Gentle(s, t, s.Release(t, next)) && Tidy(s.Release(t, next).locks)
    ensures Gentle(s, t, s.ReleaseAll(t, next)) && Tidy(s.ReleaseAll(t, next).locks) && !s.ReleaseAll(t, next).Owning()
  {
    OwnershipAfterRelease(s.locks, s.me, s.resource, s.me, s.resource);
    OwnershipAfterReleaseAll(s.locks, s.me, s.resource, s.me, s.resource);
  }

  lemma GrantGentle(s: State, t: ThreadId, kind: LockType, next: Thread)
    requires t in s.threads && s.holder == Some(t) && Tidy(s.locks) && (kind == ExclusiveLock || kind == SharedLock)
    ensures Gentle(s, t, s.Grant(t, kind, next)) && Tidy(s.Grant(t, kind, next).locks)
  {
    GrantTidy(s.locks, s.me, s.resource, kind, KeyText(s.nextKey));
  }

  lemma AcquiringOk(s: State, t: ThreadId, kind: LockType, key: Option<string>, nested: bool, fails: bool)
    requires t in s.threads && s.threads[t] == Locking(kind, key, LockWaiting(nested)) && ThreadOk(s, t)
    requires s.holder.None?
    ensures var s' := Acquiring(s, t, kind, key, nested, fails); t in s'.threads && ThreadOk(s', t)
  {
  }

  lemma LockStepOk(s: State, t: ThreadId, kind: LockType, key: Option<string>, phase: LockPhase, fails: bool)
    requires Tidy(s.locks) && t in s.threads && s.threads[t] == Locking(kind, key, phase) && ThreadOk(s, t)
    requires s.threads[t].UsesManager() ==> s.holder.None?
    ensures var s' := LockStep(s, t, kind, key, phase, fails);
            t in s'.threads && ThreadOk(s', t)
  {
    match phase {
      case LockWaiting(nested) => AcquiringOk(s, t, kind, key, nested, fails);
      case _ =>
    }
  }

  lemma UnlockStepOk(s: State, t: ThreadId, phase: UnlockPhase, fails: bool)
    requires t in s.threads && s.threads[t] == Unlocking(phase) && ThreadOk(s, t)
    ensures var s' := UnlockStep(s, t, phase, fails);
            t in s'.threads && ThreadOk(s', t)
  {
  }

  lemma TransferStepOk(s: State, t: ThreadId, phase: TransferPhase)
    requires t in s.threads && s.threads[t] == Transferring(phase) && ThreadOk(s, t)
    ensures var s' := TransferStep(s, t, phase);
            t in s'.threads && ThreadOk(s', t)
  {
  }

  lemma CloseStepOk(s: State, t: ThreadId, phase: ClosePhase)
    requires Tidy(s.locks) && t in s.threads && s.threads[t] == Closing(phase) && ThreadOk(s, t)
    ensures var s' := CloseStep(s, t, phase);
            t in s'.threads && ThreadOk(s', t)
  {
    ReleaseGentle(s, t, Closing(CloseDone));
  }

  lemma CheckGentle(s: State, t: ThreadId, next: Thread)
    requires t in s.threads && s.holder.None?
    ensures Gentle(s, t, s.Check(t, next))
  {
  }

  lemma AcquiringGentle(s: State, t: ThreadId, kind: LockType, key: Option<string>, nested: bool, fails: bool)
    requires t in s.threads && s.threads[t] == Locking(kind, key, LockWaiting(nested)) && s.holder.None?
    ensures Gentle(s, t, Acquiring(s, t, kind, key, nested, fails))
  {
    var refused := Locking(kind, key, LockFinishing(REFUSED));
    AtGentle(s, t, refused);
    CompleteGentle(s, t, refused, refused);
    CheckGentle(s, t, Locking(kind, key, LockChecked(nested)));
    StayGentle(s, t);
  }

  lemma StayGentle(s: State, t: ThreadId)
    requires t in s.threads
    ensures Gentle(s, t, s)
  {
    assert s.threads.Keys == s.threads.Keys + {t};
  }

  lemma LockStepGentle(s: State, t: ThreadId, kind: LockType, key: Option<string>, phase: LockPhase, fails: bool)
    requires Tidy(s.locks) && t in s.threads && s.threads[t] == Locking(kind, key, phase) && LockOk(s, t, kind, phase)
    requires s.threads[t].UsesManager() ==> s.holder.None?
    ensures Gentle(s, t, LockStep(s, t, kind, key, phase, fails)) && Tidy(LockStep(s, t, kind, key, phase, fails).locks)
  {
    var s' := LockStep(s, t, kind, key, phase, fails);
    match phase {
      case LockStart => BeginGentle(s, t, s'.threads[t]);
      case LockBegun => AtGentle(s, t, s'.threads[t]);
      case LockReading => AtGentle(s, t, s'.threads[t]);
      case LockWaiting(nested) => AcquiringGentle(s, t, kind, key, nested, fails);
      case LockChecked(nested) => GrantGentle(s, t, kind, Locking(kind, key, LockGranted(nested)));
      case LockGranted(_) => AtGentle(s, t, s'.threads[t]);
      case LockRemoteFailed => ReleaseGentle(s, t, s'.threads[t]);
      case LockCompleting(remoteFailed, releases) =>
        CompleteGentle(s, t, Locking(kind, key, LockFinishing(Outcome(!remoteFailed, true, remoteFailed, false, releases))),
                       Locking(kind, key, LockLost(remoteFailed, releases)));
      case LockLost(_, _) => ReleaseGentle(s, t, s'.threads[t]);
      case LockFinishing(outcome) => FinishGentle(s, t, Locking(kind, key, LockDone(outcome)));
      case LockDone(_) => StayGentle(s, t);
    }
  }

  lemma UnlockStepGentle(s: State, t: ThreadId, phase: UnlockPhase, fails: bool)
    requires Tidy(s.locks) && t in s.threads && s.threads[t] == Unlocking(phase)
    ensures Gentle(s, t, UnlockStep(s, t, phase, fails)) && Tidy(UnlockStep(s, t, phase, fails).locks)
  {
    match phase {
      case UnlockStart => AtGentle(s, t, UnlockStep(s, t, phase, fails).threads[t]);
      case UnlockNested => ReleaseGentle(s, t, UnlockStep(s, t, phase, fails).threads[t]);
      case UnlockBeginning => BeginGentle(s, t, Unlocking(UnlockRemote));
      case UnlockRemote => AtGentle(s, t, Unlocking(UnlockCompleting(fails)));
      case UnlockCompleting(remoteFailed) =>
        CompleteGentle(s, t,
                       Unlocking(if remoteFailed then UnlockFinishing(UnlockOutcome(false, true, false)) else UnlockReleasing),
                       Unlocking(UnlockFinishing(UnlockOutcome(false, remoteFailed, true))));
      case UnlockReleasing => ReleaseGentle(s, t, UnlockStep(s, t, phase, fails).threads[t]);
      case UnlockFinishing(result) => FinishGentle(s, t, Unlocking(UnlockDone(result)));
      case UnlockDone(_) => StayGentle(s, t);
    }
  }

  lemma TransferStepGentle(s: State, t: ThreadId, phase: TransferPhase)
    requires Tidy(s.locks) && t in s.threads && s.threads[t] == Transferring(phase)
    ensures Gentle(s, t, TransferStep(s, t, phase)) && Tidy(TransferStep(s, t, phase).locks)
  {
    match phase {
      case TransferStart => BeginGentle(s, t, Transferring(TransferBegun));
      case TransferBegun => AtGentle(s, t, TransferStep(s, t, phase).threads[t]);
      case TransferRunning => CompleteGentle(s, t, Transferring(TransferFinishing), Transferring(TransferFinishing));
      case TransferFinishing => FinishGentle(s, t, Transferring(TransferDone));
      case TransferDone => StayGentle(s, t);
    }
  }

  lemma CloseStepGentle(s: State, t: ThreadId, phase: ClosePhase)
    requires Tidy(s.locks) && t in s.threads && s.threads[t] == Closing(phase)
    ensures Gentle(s, t, CloseStep(s, t, phase)) && Tidy(CloseStep(s, t, phase).locks)
  {
    match phase {
      case CloseStart => ShutGentle(s, t, Closing(CloseWaiting));
      case CloseWaiting =>
        AtGentle(s, t, Closing(CloseReleasing));
        StayGentle(s, t);
      case CloseReleasing => ReleaseGentle(s, t, Closing(CloseDone));
      case CloseDone => StayGentle(s, t);
    }
  }

  lemma StepOk(s: State, t: ThreadId, fails: bool)
    requires Inv(s) && Enabled(s, Run(t, fails))
    ensures var s' := Step(s, t, fails); Gentle(s, t, s') && Tidy(s'.locks) && ThreadOk(s', t)
  {
    assert ThreadOk(s, t);
    match s.threads[t] {
      case Locking(kind, key, phase) =>
        LockStepOk(s, t, kind, key, phase, fails);
        LockStepGentle(s, t, kind, key, phase, fails);
      case Unlocking(phase) =>
        UnlockStepOk(s, t, phase, fails);
        UnlockStepGentle(s, t, phase, fails);
      case Transferring(phase) =>
        TransferStepOk(s, t, phase);
        TransferStepGentle(s, t, phase);
      case Closing(phase) =>
        CloseStepOk(s, t, phase);
        CloseStepGentle(s, t, phase);
    }
  }

  lemma StepKeepsInv(s: State, t: ThreadId, fails: bool)
    requires Inv(s) && Enabled(s, Run(t, fails))
    ensures Inv(Step(s, t, fails)) && Gentle(s, t, Step(s, t, fails))
  {
    var s' := Step(s, t, fails);
    StepOk(s, t, fails);
    assert s.threads.Keys == s'.threads.Keys;
    forall u | u in s'.threads && u != t ensures ThreadOk(s', u) {
      OthersStayOk(s, t, s', u);
    }
  }

  lemma ApplyKeepsInv(s: State, e: Event)
    requires Inv(s) && Enabled(s, e)
    ensures Inv(Apply(s, e)) && Apply(s, e).me == s.me && Apply(s, e).resource == s.resource
  {
    var s' := Apply(s, e);
    match e {
      case Run(t, fails) => StepKeepsInv(s, t, fails);
      case Spawn(t, start) =>
        forall u | u in s'.threads ensures ThreadOk(s', u) {
          assert u != t ==> ThreadOk(s, u);
        }
      case Interrupt(_) =>
        forall u | u in s'.threads ensures ThreadOk(s', u) {
          assert ThreadOk(s, u);
        }
      case Elsewhere(call) =>
        OwnershipAfter(s.locks, call, s.me, s.resource);
        forall u | u in s'.threads ensures ThreadOk(s', u) {
          assert ThreadOk(s, u);
        }
    }
  }

  /** A close that has returned stays returned. */
  lemma ApplyKeepsClosed(s: State, e: Event, t: ThreadId)
    requires Inv(s) && Enabled(s, e) && t in s.threads && s.threads[t].ClosedDone()
    ensures t in Apply(s, e).threads && Apply(s, e).threads[t].ClosedDone()
  {
    if e.Run? {
      StepKeepsInv(s, e.t, e.fails);
    }
  }

  lemma {:induction false} RunKeepsInv(s: State, run: seq<Event>, s': State)
    requires Inv(s) && Reaches(s, run, s')
    ensures Inv(s') && s'.me == s.me && s'.resource == s.resource
    ensures forall t :: t in s.threads && s.threads[t].ClosedDone() ==> t in s'.threads && s'.threads[t].ClosedDone()
    decreases |run|
  {
    if run != [] {
      ApplyKeepsInv(s, run[0]);
      forall t | t in s.threads && s.threads[t].ClosedDone()
        ensures t in Apply(s, run[0]).threads && Apply(s, run[0]).threads[t].ClosedDone()
      {
        ApplyKeepsClosed(s, run[0], t);
      }
      RunKeepsInv(Apply(s, run[0]), run[1..], s');
    }
  }

  /** Once a call of `close` has returned, the session owns no lock, in that state and in every later
      one, whatever lock calls are in flight or still to come and whatever other sessions do. Depth
      counters may even wrap around. */
  lemma ClosedSessionOwnsNothing(me: SessionId, resource: string, locks: Locks, run: seq<Event>, s: State,
                                 later: seq<Event>, s': State, closer: ThreadId)
    requires Tidy(locks) && Reaches(Start(me, resource, locks), run, s) && Reaches(s, later, s')
    requires closer in s.threads && s.threads[closer].ClosedDone()
    ensures !Owns(s'.locks, me, resource) && OwnedDepth(s'.locks, me, resource) == 0
  {
    StartInv(me, resource, locks);
    RunKeepsInv(Start(me, resource, locks), run, s);
    RunKeepsInv(s, later, s');
    assert ThreadOk(s', closer);
  }

  /** Once `close` has returned, no lock call is between its check and its end, no unlock is about to
      release and no transfer is in the backend; and none will ever be. */
  lemma ClosedSessionIsQuiet(me: SessionId, resource: string, locks: Locks, run: seq<Event>, s: State,
                             later: seq<Event>, s': State, closer: ThreadId, t: ThreadId)
    requires Tidy(locks) && Reaches(Start(me, resource, locks), run, s) && Reaches(s, later, s')
    requires closer in s.threads && s.threads[closer].ClosedDone() && t in s'.threads
    ensures s'.closed && s'.registered == {} && !s'.threads[t].Busy()
  {
    StartInv(me, resource, locks);
    RunKeepsInv(Start(me, resource, locks), run, s);
    RunKeepsInv(s, later, s');
    assert ThreadOk(s', closer) && ThreadOk(s', t);
  }

  /** How a lock call can end. One that succeeds was granted a lock and released none. One that fails
      releases a lock of the session at most once, unless its remote lock failed and its operation
      was cancelled as well: then it may release two. */
  lemma LockOutcomes(me: SessionId, resource: string, locks: Locks, run: seq<Event>, s: State, t: ThreadId)
    requires Tidy(locks) && Reaches(Start(me, resource, locks), run, s)
    requires t in s.threads && s.threads[t].Locking? && s.threads[t].lock.LockDone?
    ensures var o := s.threads[t].lock.outcome;
            && (o.ok ==> o.granted && o.releases == 0)
            && (o.releases > Bit(o.granted) ==> !o.ok && o.remoteFailed && o.lost && o.releases == 2)
  {
    StartInv(me, resource, locks);
    RunKeepsInv(Start(me, resource, locks), run, s);
    assert ThreadOk(s, t);
  }

  lemma {:induction false} ReachesMore(s: State, run: seq<Event>, s': State, e: Event)
    requires Reaches(s, run, s') && Enabled(s', e)
    ensures Reaches(s, run + [e], Apply(s', e))
    decreases |run|
  {
    if run == [] {
      assert run + [e] == [e] && [e][1..] == [];
      assert Reaches(Apply(s, e), [], Apply(s', e));
    } else {
      ReachesMore(Apply(s, run[0]), run[1..], s', e);
      assert (run + [e])[1..] == run[1..] + [e];
    }
  }

  /** A run can be extended by a step of thread `t`. */
  lemma {:induction false} RunsOn(s: State, run: seq<Event>, s': State, t: ThreadId, fails: bool)
    returns (longer: seq<Event>)
    requires Reaches(s, run, s') && t in s'.threads && (s'.threads[t].UsesManager() ==> s'.holder.None?)
    ensures Reaches(s, longer, Step(s', t, fails))
  {
    ReachesMore(s, run, s', Run(t, fails));
    longer := run + [Run(t, fails)];
  }

  function Exclusive(phase: LockPhase): Thread {
    Locking(ExclusiveLock, None, phase)
  }

  function Depth(n: nat): Locks {
    map["R" := EMPTY.(kind := ExclusiveLock, exclusiveOwner := 7, exclusiveDepth := n)]
  }

  lemma FirstReading() returns (run: seq<Event>, s: State)
    ensures Reaches(Start(7, "R", map[]), run, s)
    ensures s == State(7, "R", map[], 1, None, false, {1}, {}, map[1 := Exclusive(LockReading)])
  {
    var start := Start(7, "R", map[]);
    run, s := [], start;
    ReachesMore(start, run, s, Spawn(1, Exclusive(LockStart)));
    run, s := run + [Spawn(1, Exclusive(LockStart))], s.At(1, Exclusive(LockStart));
    run := RunsOn(start, run, s, 1, false);
    s := s.Begin(1, Exclusive(LockBegun));
    run := RunsOn(start, run, s, 1, false);
    s := s.At(1, Exclusive(LockReading));
    assert s.threads == map[1 := Exclusive(LockReading)];
  }

  /** Session 7 after its first lock call was granted, before the remote lock. */
  lemma FirstGrant() returns (run: seq<Event>, s: State)
    ensures Reaches(Start(7, "R", map[]), run, s)
    ensures s == State(7, "R", Depth(1), 2, None, false, {1}, {}, map[1 := Exclusive(LockGranted(false))])
  {
    var start := Start(7, "R", map[]);
    run, s := FirstReading();
    run := RunsOn(start, run, s, 1, false);
    s := s.At(1, Exclusive(LockWaiting(false)));
    run := RunsOn(start, run, s, 1, false);
    s := s.At(1, Exclusive(LockChecked(false))).(holder := Some(1));
    run := RunsOn(start, run, s, 1, false);
    s := s.Grant(1, ExclusiveLock, Exclusive(LockGranted(false)));
    assert s.locks == Depth(1);
    assert s.threads == map[1 := Exclusive(LockGranted(false))];
  }

  /** Both calls, in their phases. */
  function Two(first: LockPhase, second: LockPhase): map<ThreadId, Thread> {
    map[1 := Exclusive(first), 2 := Exclusive(second)]
  }

  lemma TwoMoves(first: LockPhase, second: LockPhase, next: LockPhase)
    ensures Two(first, second)[1 := Exclusive(next)] == Two(next, second)
    ensures Two(first, second)[2 := Exclusive(next)] == Two(first, next)
  {
  }

  lemma DepthMoves(key: string)
    ensures Granted(Depth(1), 7, "R", ExclusiveLock, key) == Depth(2)
    ensures Released(Depth(2), 7, "R").0 == Depth(1) && Released(Depth(1), 7, "R").0 == map[]
    ensures Owns(Depth(1), 7, "R") && Owns(Depth(2), 7, "R")
  {
  }

  const NESTED := Outcome(true, true, false, false, 0)

  /** Its second lock call meanwhile, nested in the first. */
  lemma SecondBegun() returns (run: seq<Event>, s: State)
    ensures Reaches(Start(7, "R", map[]), run, s)
    ensures s == State(7, "R", Depth(1), 2, None, false, {1, 2}, {}, Two(LockGranted(false), LockReading))
  {
    var start := Start(7, "R", map[]);
    run, s := FirstGrant();
    ReachesMore(start, run, s, Spawn(2, Exclusive(LockStart)));
    run, s := run + [Spawn(2, Exclusive(LockStart))], s.At(2, Exclusive(LockStart));
    run := RunsOn(start, run, s, 2, false);
    TwoMoves(LockGranted(false), LockStart, LockBegun);
    assert {1} + {2} == {1, 2} && s.threads == Two(LockGranted(false), LockStart);
    s := State(7, "R", Depth(1), 2, None, false, {1, 2}, {}, Two(LockGranted(false), LockBegun));
    TwoMoves(LockGranted(false), LockBegun, LockReading);
    run := RunsOn(start, run, s, 2, false);
    s := s.(threads := Two(LockGranted(false), LockReading));
  }

  lemma SecondGrant() returns (run: seq<Event>, s: State)
    ensures Reaches(Start(7, "R", map[]), run, s)
    ensures s == State(7, "R", Depth(2), 3, None, false, {1, 2}, {}, Two(LockGranted(false), LockGranted(true)))
  {
    var start := Start(7, "R", map[]);
    run, s := SecondBegun();
    TwoMoves(LockGranted(false), LockReading, LockWaiting(true));
    run := RunsOn(start, run, s, 2, false);
    s := s.(threads := Two(LockGranted(false), LockWaiting(true)));
    TwoMoves(LockGranted(false), LockWaiting(true), LockChecked(true));
    run := RunsOn(start, run, s, 2, false);
    s := s.(holder := Some(2), threads := Two(LockGranted(false), LockChecked(true)));
    TwoMoves(LockGranted(false), LockChecked(true), LockGranted(true));
    DepthMoves(KeyText(2));
    run := RunsOn(start, run, s, 2, false);
    s := State(7, "R", Depth(2), 3, None, false, {1, 2}, {}, Two(LockGranted(false), LockGranted(true)));
  }

  /** The second call returns with success. */
  lemma SecondLock() returns (run: seq<Event>, s: State)
    ensures Reaches(Start(7, "R", map[]), run, s)
    ensures s == State(7, "R", Depth(2), 3, None, false, {1}, {2}, Two(LockGranted(false), LockDone(NESTED)))
  {
    var start := Start(7, "R", map[]);
    run, s := SecondGrant();
    TwoMoves(LockGranted(false), LockGranted(true), LockCompleting(false, 0));
    run := RunsOn(start, run, s, 2, false);
    s := s.(threads := Two(LockGranted(false), LockCompleting(false, 0)));
    TwoMoves(LockGranted(false), LockCompleting(false, 0), LockFinishing(NESTED));
    run := RunsOn(start, run, s, 2, false);
    assert {} + {2} == {2};
    s := s.(completed := {2}, threads := Two(LockGranted(false), LockFinishing(NESTED)));
    TwoMoves(LockGranted(false), LockFinishing(NESTED), LockDone(NESTED));
    run := RunsOn(start, run, s, 2, false);
    assert {1, 2} - {2} == {1};
    s := s.(registered := {1}, threads := Two(LockGranted(false), LockDone(NESTED)));
  }

  /** The first call fails remotely, gives its lock back, and is cancelled. */
  lemma FirstFailed() returns (run: seq<Event>, s: State)
    ensures Reaches(Start(7, "R", map[]), run, s)
    ensures s == State(7, "R", Depth(1), 3, None, false, {1}, {2}, Two(LockCompleting(true, 1), LockDone(NESTED)))
  {
    var start := Start(7, "R", map[]);
    run, s := SecondLock();
    DepthMoves("");
    TwoMoves(LockGranted(false), LockDone(NESTED), LockRemoteFailed);
    run := RunsOn(start, run, s, 1, true);
    s := s.(threads := Two(LockRemoteFailed, LockDone(NESTED)));
    TwoMoves(LockRemoteFailed, LockDone(NESTED), LockCompleting(true, 1));
    run := RunsOn(start, run, s, 1, false);
    s := s.(locks := Depth(1), threads := Two(LockCompleting(true, 1), LockDone(NESTED)));
  }

  lemma FirstLost() returns (run: seq<Event>, s: State)
    ensures Reaches(Start(7, "R", map[]), run, s)
    ensures s == State(7, "R", Depth(1), 3, None, false, {1}, {1, 2}, Two(LockLost(true, 1), LockDone(NESTED)))
  {
    var start := Start(7, "R", map[]);
    run, s := FirstFailed();
    ReachesMore(start, run, s, Interrupt(1));
    assert {2} + {1} == {1, 2};
    run, s := run + [Interrupt(1)], s.(completed := {1, 2});
    TwoMoves(LockCompleting(true, 1), LockDone(NESTED), LockLost(true, 1));
    run := RunsOn(start, run, s, 1, false);
    s := s.(threads := Two(LockLost(true, 1), LockDone(NESTED)));
  }

  /** A lock call that fails can take away the lock of another call of the same session: here the
      second call has returned with success, nothing was unlocked or closed, and yet the session owns
      no lock once the first call has failed. */
  lemma FailedLockTakesAnother() returns (run: seq<Event>, s: State)
    ensures Reaches(Start(7, "R", map[]), run, s)
    ensures s.threads == Two(LockDone(Outcome(false, true, true, true, 2)), LockDone(Outcome(true, true, false, false, 0)))
    ensures !s.closed && !s.Owning()
  {
    var start := Start(7, "R", map[]);
    run, s := FirstLost();
    DepthMoves("");
    var outcome := Outcome(false, true, true, true, 2);
    TwoMoves(LockLost(true, 1), LockDone(NESTED), LockFinishing(outcome));
    run := RunsOn(start, run, s, 1, false);
    s := s.(locks := map[], threads := Two(LockFinishing(outcome), LockDone(NESTED)));
    TwoMoves(LockFinishing(outcome), LockDone(NESTED), LockDone(outcome));
    run := RunsOn(start, run, s, 1, false);
    s := s.Finish(1, Exclusive(LockDone(outcome)));
  }
}
