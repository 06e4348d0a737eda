/** How deep a session's lock is after any run of its calls: what they were granted and have not given
    back. */
module SessionDepth {
  import opened LockManager
  import opened SessionClose
  import opened SessionRelease
  import opened Visa

  function Depth(s: State): nat {
    OwnedDepth(s.locks, s.me, s.resource)
  }

  /** What a call has been granted and has not given back, or has taken away. */
  function Held(thread: Thread): int {
    match thread
    case Locking(_, _, phase) =>
      (match phase
       case LockGranted(_) => 1
       case LockRemoteFailed => 1
       case LockCompleting(_, releases) => 1 - releases
       case LockLost(_, releases) => 1 - releases
       case LockFinishing(outcome) => Bit(outcome.granted) - outcome.releases
       case LockDone(outcome) => Bit(outcome.granted) - outcome.releases
       case _ => 0)
    case Unlocking(phase) =>
      (match phase
       case UnlockFinishing(result) => -(Bit(result.released) as int)
       case UnlockDone(result) => -(Bit(result.released) as int)
       case _ => 0)
    case _ => 0
  }

  /** The same for all calls together. */
  ghost function Total(threads: map<ThreadId, Thread>): int
    decreases |threads|
  {
    if threads == map[] then 0
    else
      var t :| t in threads;
      assert |threads - {t}| < |threads| by {
        assert threads.Keys == (threads - {t}).Keys + {t};
      }
      Held(threads[t]) + Total(threads - {t})
  }

  lemma Fewer(threads: map<ThreadId, Thread>, t: ThreadId)
    requires t in threads
    ensures |threads - {t}| == |threads| - 1
  {
    assert threads.Keys == (threads - {t}).Keys + {t};
    assert |(threads - {t}).Keys| == |threads - {t}| && |threads.Keys| == |threads|;
  }

  /** Whichever call is taken first, the total is the same. */
  lemma {:induction false} TotalWithout(threads: map<ThreadId, Thread>, t: ThreadId)
    requires t in threads
    ensures Total(threads) == Held(threads[t]) + Total(threads - {t})
    decreases |threads|
  {
    var u :| u in threads && Total(threads) == Held(threads[u]) + Total(threads - {u});
    if u != t {
      Fewer(threads, u);
      Fewer(threads, t);
      TotalWithout(threads - {u}, t);
      TotalWithout(threads - {t}, u);
      assert threads - {u} - {t} == threads - {t} - {u};
    }
  }

  lemma TotalUpdated(threads: map<ThreadId, Thread>, t: ThreadId, next: Thread)
    ensures Total(threads[t := next]) == Total(threads) + Held(next) - if t in threads then Held(threads[t]) else 0
  {
    TotalWithout(threads[t := next], t);
    if t in threads {
      TotalWithout(threads, t);
      assert threads[t := next] - {t} == threads - {t};
    } else {
      assert threads[t := next] - {t} == threads;
    }
  }

  /** The session's depth counter has not wrapped around. */
  ghost predicate InRange(s: State) {
    s.Owning() ==> 0 < Depth(s) < DEPTH_LIMIT
  }

  /** It does so nowhere in the run. */
  ghost predicate AlwaysInRange(s: State, run: seq<Event>)
    decreases |run|
  {
    InRange(s) && (run != [] ==> Enabled(s, run[0]) && AlwaysInRange(Apply(s, run[0]), run[1..]))
  }

  /** While a lock call holds the manager's mutex, what it is about to be granted stays grantable. */
  ghost predicate Ready(s: State) {
    forall t :: t in s.threads && s.threads[t].Locking? && s.threads[t].lock.LockChecked? ==>
      CanGrant(Lookup(s.locks, s.resource), s.me, s.threads[t].kind, s.threads[t].key)
  }

  // One step

  lemma DepthReleased(locks: Locks, me: SessionId, resource: string)
    requires Tidy(locks) && (Owns(locks, me, resource) ==> 0 < OwnedDepth(locks, me, resource) < DEPTH_LIMIT)
    ensures OwnedDepth(Released(locks, me, resource).0, me, resource)
         == OwnedDepth(locks, me, resource) - Bit(Owns(locks, me, resource))
  {
    if Owns(locks, me, resource) {
      DecrementPositive(OwnedDepth(locks, me, resource));
    }
  }

  lemma DepthGranted(locks: Locks, me: SessionId, resource: string, kind: LockType, requestedKey: Option<string>,
                     key: string)
    requires Tidy(locks) && (kind == ExclusiveLock || kind == SharedLock)
    requires CanGrant(Lookup(locks, resource), me, kind, requestedKey)
    requires Owns(locks, me, resource) ==> 0 < OwnedDepth(locks, me, resource) < DEPTH_LIMIT
    ensures var after := Granted(locks, me, resource, kind, key);
            && Owns(after, me, resource)
            && (OwnedDepth(after, me, resource) > 0 ==>
                  OwnedDepth(after, me, resource) == OwnedDepth(locks, me, resource) + 1)
  {
    var depth := OwnedDepth(locks, me, resource);
    assert resource in locks ==> locks[resource].kind == ExclusiveLock || locks[resource].kind == SharedLock;
    assert Increment(depth) == if depth + 1 < DEPTH_LIMIT then depth + 1 else 0;
  }

  /** A step of a lock call moves the depth as it moves what the call holds. */
  lemma LockStepDepth(s: State, t: ThreadId, fails: bool)
    requires Inv(s) && InRange(s) && Ready(s) && t in s.threads && s.threads[t].Locking?
    requires Enabled(s, Run(t, fails)) && InRange(Step(s, t, fails))
    ensures t in Step(s, t, fails).threads
    ensures Depth(Step(s, t, fails)) - Depth(s) == Held(Step(s, t, fails).threads[t]) - Held(s.threads[t])
  {
    assert ThreadOk(s, t);
    var Locking(kind, key, phase) := s.threads[t];
    match phase {
      case LockWaiting(nested) => WaitingDepth(s, t, kind, key, nested, fails);
      case LockChecked(_) => DepthGranted(s.locks, s.me, s.resource, kind, key, KeyText(s.nextKey));
      case LockRemoteFailed => DepthReleased(s.locks, s.me, s.resource);
      case LockLost(_, _) => DepthReleased(s.locks, s.me, s.resource);
      case _ => PassingDepth(s, t, kind, key, phase, fails);
    }
  }

  lemma WaitingDepth(s: State, t: ThreadId, kind: LockType, key: Option<string>, nested: bool, fails: bool)
    requires t in s.threads && s.threads[t] == Locking(kind, key, LockWaiting(nested))
    ensures var s' := Acquiring(s, t, kind, key, nested, fails);
            t in s'.threads && Depth(s') == Depth(s) && Held(s'.threads[t]) == 0
  {
    assert Acquiring(s, t, kind, key, nested, fails).locks == s.locks;
  }

  lemma PassingDepth(s: State, t: ThreadId, kind: LockType, key: Option<string>, phase: LockPhase, fails: bool)
    requires t in s.threads && s.threads[t] == Locking(kind, key, phase)
    requires !phase.LockWaiting? && !phase.LockChecked? && !phase.LockRemoteFailed? && !phase.LockLost?
    ensures var s' := LockStep(s, t, kind, key, phase, fails);
            t in s'.threads && Depth(s') == Depth(s) && Held(s'.threads[t]) == Held(s.threads[t])
  {
    var s' := LockStep(s, t, kind, key, phase, fails);
    assert s'.locks == s.locks && s'.me == s.me && s'.resource == s.resource;
  }

  /** So does a step of an unlock. */
  lemma UnlockStepDepth(s: State, t: ThreadId, fails: bool)
    requires Inv(s) && InRange(s) && t in s.threads && s.threads[t].Unlocking?
    ensures t in Step(s, t, fails).threads
    ensures Depth(Step(s, t, fails)) - Depth(s) == Held(Step(s, t, fails).threads[t]) - Held(s.threads[t])
  {
    DepthReleased(s.locks, s.me, s.resource);
    var s' := UnlockStep(s, t, s.threads[t].unlock, fails);
    match s.threads[t].unlock {
      case UnlockNested => assert s'.threads[t] == Unlocking(UnlockDone(UnlockOutcome(s.Owning(), false, false)));
      case UnlockReleasing => assert s'.threads[t] == Unlocking(UnlockFinishing(UnlockOutcome(s.Owning(), false, false)));
      case _ => assert s'.locks == s.locks;
    }
  }

  /** Transfers hold nothing, and a close gives everything back at its last step. */
  lemma OtherStepDepth(s: State, t: ThreadId, fails: bool)
    requires t in s.threads && (s.threads[t].Transferring? || s.threads[t].Closing?)
    ensures var s' := Step(s, t, fails);
            && t in s'.threads && Held(s'.threads[t]) == Held(s.threads[t])
            && (Depth(s') == Depth(s) || s'.threads[t].ClosedDone())
  {
    match s.threads[t] {
      case Transferring(phase) =>
        var s' := TransferStep(s, t, phase);
        assert s'.locks == s.locks && s'.threads[t].Transferring?;
      case Closing(phase) =>
        var s' := CloseStep(s, t, phase);
        assert s'.threads[t].Closing? && (s'.locks == s.locks || s'.threads[t].ClosedDone());
    }
  }

  /** No step changes the locks while another call holds the manager's mutex. */
  lemma MutexKeepsLocks(s: State, t: ThreadId, fails: bool)
    requires Inv(s) && Enabled(s, Run(t, fails)) && s.holder.Some? && s.holder != Some(t)
    ensures Step(s, t, fails).locks == s.locks
  {
    assert ThreadOk(s, t);
    match s.threads[t] {
      case Locking(kind, key, phase) => assert LockStep(s, t, kind, key, phase, fails).locks == s.locks;
      case Unlocking(phase) => assert UnlockStep(s, t, phase, fails).locks == s.locks;
      case Transferring(phase) => assert TransferStep(s, t, phase).locks == s.locks;
      case Closing(phase) => assert CloseStep(s, t, phase).locks == s.locks;
    }
  }

  lemma StepChecks(s: State, t: ThreadId, fails: bool)
    requires Inv(s) && Enabled(s, Run(t, fails))
    ensures var s' := Step(s, t, fails);
            t in s'.threads && s'.threads[t].Locking? && s'.threads[t].lock.LockChecked? ==>
              CanGrant(Lookup(s'.locks, s'.resource), s'.me, s'.threads[t].kind, s'.threads[t].key)
  {
    if s.threads[t].Locking? {
      assert ThreadOk(s, t);
      LockStepChecks(s, t, s.threads[t].kind, s.threads[t].key, s.threads[t].lock, fails);
    } else {
      KindStays(s, t, fails);
    }
  }

  lemma LockStepChecks(s: State, t: ThreadId, kind: LockType, key: Option<string>, phase: LockPhase, fails: bool)
    requires t in s.threads && s.threads[t] == Locking(kind, key, phase)
    ensures var s' := LockStep(s, t, kind, key, phase, fails);
            t in s'.threads && s'.threads[t].Locking? && s'.threads[t].lock.LockChecked? ==>
              CanGrant(Lookup(s'.locks, s'.resource), s'.me, s'.threads[t].kind, s'.threads[t].key)
  {
    if phase.LockWaiting? {
      var s' := Acquiring(s, t, kind, key, phase.nested, fails);
      assert s'.locks == s.locks;
    }
  }

  lemma ReadyStays(s: State, e: Event)
    requires Inv(s) && Ready(s) && Enabled(s, e)
    ensures Ready(Apply(s, e))
  {
    ApplyKeepsInv(s, e);
    var s' := Apply(s, e);
    forall u | u in s'.threads && s'.threads[u].Locking? && s'.threads[u].lock.LockChecked?
      ensures CanGrant(Lookup(s'.locks, s'.resource), s'.me, s'.threads[u].kind, s'.threads[u].key)
    {
      if e.Run? && e.t == u {
        StepChecks(s, u, e.fails);
      } else {
        assert ThreadOk(s', u);
        if e.Run? {
          StepOk(s, e.t, e.fails);
          assert ThreadOk(s, u);
          MutexKeepsLocks(s, e.t, e.fails);
        } else {
          assert u in s.threads ==> ThreadOk(s, u);
        }
      }
    }
  }

  // Whole runs

  ghost predicate Closed(s: State) {
    exists t :: t in s.threads && s.threads[t].ClosedDone()
  }

  /** Until a close has returned, the depth is the first one and what the calls hold. */
  ghost predicate Accounted(s: State, first: int) {
    Closed(s) || Depth(s) == first + Total(s.threads)
  }

  lemma AccountedRun(s: State, t: ThreadId, fails: bool, first: int)
    requires Inv(s) && Ready(s) && InRange(s) && Accounted(s, first) && !Closed(s)
    requires Enabled(s, Run(t, fails)) && InRange(Step(s, t, fails))
    ensures Accounted(Step(s, t, fails), first)
  {
    var s' := Step(s, t, fails);
    StepOk(s, t, fails);
    assert s'.threads.Keys == s.threads.Keys;
    if s.threads[t].Locking? {
      LockStepDepth(s, t, fails);
    } else if s.threads[t].Unlocking? {
      UnlockStepDepth(s, t, fails);
    } else {
      OtherStepDepth(s, t, fails);
    }
    assert s'.threads == s.threads[t := s'.threads[t]];
    TotalUpdated(s.threads, t, s'.threads[t]);
  }

  lemma AccountedOn(s: State, e: Event, first: int)
    requires Inv(s) && Ready(s) && InRange(s) && Accounted(s, first)
    requires Enabled(s, e) && InRange(Apply(s, e))
    ensures Accounted(Apply(s, e), first)
  {
    if Closed(s) {
      var t :| t in s.threads && s.threads[t].ClosedDone();
      ApplyKeepsClosed(s, e, t);
    } else {
      match e {
        case Spawn(t, start) => TotalUpdated(s.threads, t, start);
        case Interrupt(_) =>
        case Run(t, fails) => AccountedRun(s, t, fails, first);
        case Elsewhere(call) => DepthAfter(s.locks, call, s.me, s.resource);
      }
    }
  }

  lemma {:induction false} AccountedAlong(s: State, run: seq<Event>, s': State, first: int)
    requires Inv(s) && Ready(s) && Accounted(s, first) && Reaches(s, run, s') && AlwaysInRange(s, run)
    ensures Inv(s') && Accounted(s', first)
    decreases |run|
  {
    if run != [] {
      ApplyKeepsInv(s, run[0]);
      ReadyStays(s, run[0]);
      AccountedOn(s, run[0], first);
      AccountedAlong(Apply(s, run[0]), run[1..], s', first);
    }
  }

  /** In every run in which the session's depth counter does not wrap around, the depth is the one it
      started with, and one for each lock granted, less one for each release of a lock call and one for
      each unlock that succeeded; and nothing once a close has returned. */
  lemma DepthAccounts(me: SessionId, resource: string, locks: Locks, run: seq<Event>, s: State)
    requires Tidy(locks) && Reaches(Start(me, resource, locks), run, s) && AlwaysInRange(Start(me, resource, locks), run)
    ensures OwnedDepth(s.locks, me, resource) ==
            if exists closer :: closer in s.threads && s.threads[closer].ClosedDone() then 0
            else OwnedDepth(locks, me, resource) + Total(s.threads)
  {
    var start := Start(me, resource, locks);
    StartInv(me, resource, locks);
    AccountedAlong(start, run, s, OwnedDepth(locks, me, resource));
    RunKeepsInv(start, run, s);
    if closer :| closer in s.threads && s.threads[closer].ClosedDone() {
      assert ThreadOk(s, closer);
    }
  }

  // A call alone in flight

  predicate Returned(thread: Thread) {
    match thread
    case Locking(_, _, phase) => phase.LockDone?
    case Unlocking(phase) => phase.UnlockDone?
    case Transferring(_) => true
    case Closing(phase) => phase.CloseDone?
  }

  /** In every state of the run, every lock, unlock and close but `t` has returned; and the depth counter
      does not wrap around. */
  ghost predicate Alone(s: State, run: seq<Event>, t: ThreadId)
    decreases |run|
  {
    && InRange(s)
    && (forall u :: u in s.threads && u != t ==> Returned(s.threads[u]))
    && (run != [] ==> Enabled(s, run[0]) && Alone(Apply(s, run[0]), run[1..], t))
  }

  /** What is known in each phase of a call that found the depth `base`. */
  ghost predicate AloneAt(thread: Thread, base: int) {
    match thread
    case Locking(_, _, phase) =>
      (match phase
       case LockWaiting(nested) => !nested ==> base == 0
       case LockChecked(nested) => !nested ==> base == 0
       case LockGranted(nested) => !nested ==> base == 0
       case LockRemoteFailed => base == 0
       case LockCompleting(remoteFailed, releases) => releases == Bit(remoteFailed) && (remoteFailed ==> base == 0)
       case LockLost(remoteFailed, releases) => releases == Bit(remoteFailed) && (remoteFailed ==> base == 0)
       case LockFinishing(outcome) =>
         outcome.releases == Bit(outcome.granted && !outcome.ok) && (outcome.remoteFailed ==> base == 0)
       case LockDone(outcome) =>
         outcome.releases == Bit(outcome.granted && !outcome.ok) && (outcome.remoteFailed ==> base == 0)
       case _ => true)
    case Unlocking(phase) =>
      (match phase
       case UnlockStart => true
       case UnlockNested => base > 1
       case UnlockFinishing(result) => UnlockedAt(result, base)
       case UnlockDone(result) => UnlockedAt(result, base)
       case _ => base == 1)
    case _ => true
  }

  /** Only the last of nested locks is unlocked remotely, under an operation. */
  predicate UnlockedAt(result: UnlockOutcome, base: int) {
    && (result.released <==> base > 0 && !result.remoteFailed && !result.lost)
    && (result.remoteFailed || result.lost ==> base == 1)
  }

  ghost predicate AloneOk(s: State, t: ThreadId, base: int) {
    t in s.threads && base >= 0 && Depth(s) == base + Held(s.threads[t]) && AloneAt(s.threads[t], base)
  }

  lemma DepthOwns(s: State)
    requires Tidy(s.locks) && InRange(s)
    ensures s.Owning() <==> Depth(s) > 0
  {
  }

  lemma AloneLockStep(s: State, t: ThreadId, fails: bool, base: int)
    requires Inv(s) && Ready(s) && InRange(s) && AloneOk(s, t, base) && s.threads[t].Locking?
    requires Enabled(s, Run(t, fails)) && InRange(Step(s, t, fails))
    ensures AloneOk(Step(s, t, fails), t, base)
  {
    LockStepDepth(s, t, fails);
    DepthOwns(s);
    assert ThreadOk(s, t);
    LockStepAt(s, t, s.threads[t].kind, s.threads[t].key, s.threads[t].lock, fails, base);
  }

  lemma LockStepAt(s: State, t: ThreadId, kind: LockType, key: Option<string>, phase: LockPhase, fails: bool, base: int)
    requires t in s.threads && s.threads[t] == Locking(kind, key, phase) && LockOk(s, t, kind, phase)
    requires base >= 0 && Depth(s) == base + Held(s.threads[t]) && AloneAt(s.threads[t], base)
    requires s.Owning() <==> Depth(s) > 0
    ensures var s' := LockStep(s, t, kind, key, phase, fails);
            t in s'.threads && AloneAt(s'.threads[t], base)
  {
    if phase.LockWaiting? {
      WaitingAt(s, t, kind, key, phase.nested, fails, base);
    }
  }

  lemma WaitingAt(s: State, t: ThreadId, kind: LockType, key: Option<string>, nested: bool, fails: bool, base: int)
    requires t in s.threads && s.threads[t] == Locking(kind, key, LockWaiting(nested)) && (!nested ==> base == 0)
    ensures var s' := Acquiring(s, t, kind, key, nested, fails);
            t in s'.threads && AloneAt(s'.threads[t], base)
  {
  }

  lemma AloneUnlockStep(s: State, t: ThreadId, fails: bool, base: int)
    requires Inv(s) && InRange(s) && AloneOk(s, t, base) && s.threads[t].Unlocking?
    ensures AloneOk(Step(s, t, fails), t, base)
  {
    UnlockStepDepth(s, t, fails);
    DepthOwns(s);
    UnlockStepAt(s, t, s.threads[t].unlock, fails, base);
  }

  lemma UnlockStepAt(s: State, t: ThreadId, phase: UnlockPhase, fails: bool, base: int)
    requires t in s.threads && s.threads[t] == Unlocking(phase)
    requires base >= 0 && Depth(s) == base + Held(s.threads[t]) && AloneAt(s.threads[t], base)
    requires s.Owning() <==> Depth(s) > 0
    ensures var s' := UnlockStep(s, t, phase, fails);
            t in s'.threads && AloneAt(s'.threads[t], base)
  {
  }

  /** A step of a transfer or of a call that has returned leaves the locks alone. */
  lemma QuietStep(s: State, u: ThreadId, fails: bool)
    requires Inv(s) && u in s.threads && Returned(s.threads[u])
    ensures Step(s, u, fails).locks == s.locks
  {
    match s.threads[u] {
      case Transferring(phase) => assert TransferStep(s, u, phase).locks == s.locks;
      case _ => assert Step(s, u, fails) == s;
    }
  }

  lemma AloneOn(s: State, t: ThreadId, e: Event, base: int)
    requires Inv(s) && Ready(s) && InRange(s) && AloneOk(s, t, base)
    requires s.threads[t].Locking? || s.threads[t].Unlocking?
    requires forall u :: u in s.threads && u != t ==> Returned(s.threads[u])
    requires Enabled(s, e) && InRange(Apply(s, e))
    ensures AloneOk(Apply(s, e), t, base)
    ensures Apply(s, e).threads[t].Locking? <==> s.threads[t].Locking?
    ensures Apply(s, e).threads[t].Unlocking? <==> s.threads[t].Unlocking?
  {
    match e {
      case Spawn(_, _) =>
      case Interrupt(_) =>
      case Run(u, fails) =>
        StepOk(s, u, fails);
        if u != t {
          QuietStep(s, u, fails);
        } else if s.threads[t].Locking? {
          AloneLockStep(s, t, fails, base);
          LockingStays(s, t, s.threads[t].kind, s.threads[t].key, s.threads[t].lock, fails);
        } else {
          AloneUnlockStep(s, t, fails, base);
          UnlockingStays(s, t, s.threads[t].unlock, fails);
        }
      case Elsewhere(call) => DepthAfter(s.locks, call, s.me, s.resource);
    }
  }

  lemma LockingStays(s: State, t: ThreadId, kind: LockType, key: Option<string>, phase: LockPhase, fails: bool)
    requires t in s.threads && s.threads[t] == Locking(kind, key, phase)
    ensures LockStep(s, t, kind, key, phase, fails).threads[t].Locking?
  {
  }

  lemma UnlockingStays(s: State, t: ThreadId, phase: UnlockPhase, fails: bool)
    requires t in s.threads && s.threads[t] == Unlocking(phase)
    ensures UnlockStep(s, t, phase, fails).threads[t].Unlocking?
  {
  }

  lemma {:induction false} AloneAlong(s: State, run: seq<Event>, s': State, t: ThreadId, base: int)
    requires Inv(s) && Ready(s) && AloneOk(s, t, base) && (s.threads[t].Locking? || s.threads[t].Unlocking?)
    requires Reaches(s, run, s') && Alone(s, run, t)
    ensures AloneOk(s', t, base)
    decreases |run|
  {
    if run != [] {
      ApplyKeepsInv(s, run[0]);
      ReadyStays(s, run[0]);
      AloneOn(s, t, run[0], base);
      AloneAlong(Apply(s, run[0]), run[1..], s', t, base);
    }
  }

  lemma {:induction false} ReadyAlong(s: State, run: seq<Event>, s': State)
    requires Inv(s) && Ready(s) && Reaches(s, run, s')
    ensures Inv(s') && Ready(s') && s'.me == s.me && s'.resource == s.resource
    decreases |run|
  {
    if run != [] {
      ApplyKeepsInv(s, run[0]);
      ReadyStays(s, run[0]);
      ReadyAlong(Apply(s, run[0]), run[1..], s');
    }
  }

  /** A lock call alone in flight: success adds exactly one to the depth, and a failure leaves it as it
      was, also if the call was cancelled after its grant or its remote lock failed; and only the first of
      nested locks can fail remotely. */
  lemma LockAlone(me: SessionId, resource: string, locks: Locks, before: seq<Event>, s: State, run: seq<Event>, s': State,
                  t: ThreadId)
    requires Tidy(locks) && Reaches(Start(me, resource, locks), before, s) && Reaches(s, run, s') && Alone(s, run, t)
    requires t in s.threads && s.threads[t].Locking? && s.threads[t].lock.LockStart?
    requires t in s'.threads && s'.threads[t].Locking? && s'.threads[t].lock.LockDone?
    ensures Depth(s') == Depth(s) + Bit(s'.threads[t].lock.outcome.ok)
    ensures s'.threads[t].lock.outcome.remoteFailed ==> Depth(s) == 0
  {
    StartInv(me, resource, locks);
    ReadyAlong(Start(me, resource, locks), before, s);
    AloneAlong(s, run, s', t, Depth(s));
    RunKeepsInv(s, run, s');
    assert ThreadOk(s', t);
  }

  /** An unlock alone in flight: it succeeds exactly if the session owned the resource, the remote unlock
      did not fail and the operation was not lost, which can only happen to the last of nested locks; then
      the depth is one less, and otherwise the same. */
  lemma UnlockAlone(me: SessionId, resource: string, locks: Locks, before: seq<Event>, s: State, run: seq<Event>, s': State,
                    t: ThreadId)
    requires Tidy(locks) && Reaches(Start(me, resource, locks), before, s) && Reaches(s, run, s') && Alone(s, run, t)
    requires t in s.threads && s.threads[t] == Unlocking(UnlockStart)
    requires t in s'.threads && s'.threads[t].Unlocking? && s'.threads[t].unlock.UnlockDone?
    ensures var result := s'.threads[t].unlock.result;
            && (result.released <==> s.Owning() && !result.remoteFailed && !result.lost)
            && (result.remoteFailed || result.lost ==> Depth(s) == 1)
            && Depth(s') == Depth(s) - Bit(result.released)
  {
    StartInv(me, resource, locks);
    ReadyAlong(Start(me, resource, locks), before, s);
    DepthOwns(s);
    AloneAlong(s, run, s', t, Depth(s));
  }
}
