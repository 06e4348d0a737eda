/** One `Operation` shared by any number of threads. Each step below is one atomic action of the
    code: the compare-exchange of the result, a critical section of the cancel mutex, or one call of
    a handler; threads interleave freely between steps. */
module OperationProtocol {
  import opened Visa

  type ThreadId = nat

  /** What a thread does with the operation, and how far it has come. A handler is named by the
      thread that passes it to `set_cancel_handler`. */
  datatype Thread =
    | TryStart(status: Status)
    | NotifyStart(status: Status)
    | NotifyTake
    | WinnerInvoke(handler: ThreadId)
    | Returned(won: bool)
    | SetStart
    | SetterInvoke
    | SetDone
    | ClearStart
    | ClearDone
  {
    predicate Setter() {
      SetStart? || SetterInvoke? || SetDone?
    }

    predicate Starting() {
      TryStart? || NotifyStart? || SetStart? || ClearStart?
    }

    /** The thread's completion attempt has won. */
    predicate Won() {
      NotifyTake? || WinnerInvoke? || this == Returned(true)
    }
  }

  datatype State = State(
    result: Option<Status>,
    handler: Option<ThreadId>,
    threads: map<ThreadId, Thread>,
    winner: Option<ThreadId>,
    notified: bool,
    ran: multiset<ThreadId>,
    dropped: set<ThreadId>)

  datatype Event = Spawn(t: ThreadId, start: Thread) | Run(t: ThreadId)

  const INITIAL := State(None, None, map[], None, false, multiset{}, {})

  function Installed(s: State): set<ThreadId> {
    if s.handler.Some? then {s.handler.value} else {}
  }

  /** `try_complete`: the compare-exchange, as `complete_and_notify` also does it first. */
  function Exchange(s: State, t: ThreadId, status: Status, notify: bool): State {
    if s.result.None? then
      s.(result := Some(status), winner := Some(t), notified := notify,
         threads := s.threads[t := if notify then NotifyTake else Returned(true)])
    else s.(threads := s.threads[t := Returned(false)])
  }

  function Step(s: State, t: ThreadId): State
    requires t in s.threads
  {
    match s.threads[t]
    case TryStart(status) => Exchange(s, t, status, false)
    case NotifyStart(status) => Exchange(s, t, status, true)
    case NotifyTake =>
      if s.handler.Some? then s.(handler := None, threads := s.threads[t := WinnerInvoke(s.handler.value)])
      else s.(threads := s.threads[t := Returned(true)])
    case WinnerInvoke(h) => s.(ran := s.ran + multiset{h}, threads := s.threads[t := Returned(true)])
    case SetStart =>
      if s.result.Some? then s.(threads := s.threads[t := SetterInvoke])
      else s.(handler := Some(t), dropped := s.dropped + Installed(s), threads := s.threads[t := SetDone])
    case SetterInvoke => s.(ran := s.ran + multiset{t}, threads := s.threads[t := SetDone])
    case ClearStart => s.(handler := None, dropped := s.dropped + Installed(s), threads := s.threads[t := ClearDone])
    case Returned(_) => s
    case SetDone => s
    case ClearDone => s
  }

  predicate Enabled(s: State, e: Event) {
    match e
    case Spawn(t, start) => t !in s.threads && start.Starting()
    case Run(t) => t in s.threads
  }

  function Apply(s: State, e: Event): State
    requires Enabled(s, e)
  {
    match e
    case Spawn(t, start) => s.(threads := s.threads[t := start])
    case Run(t) => Step(s, t)
  }

  /** `s'` follows from `s` by the events of `run`. */
  ghost predicate Reaches(s: State, run: seq<Event>, s': State)
    decreases |run|
  {
    if run == [] then s == s' else Enabled(s, run[0]) && Reaches(Apply(s, run[0]), run[1..], s')
  }

  function Bit(b: bool): nat {
    if b then 1 else 0
  }

  /** How many hands the handler of `h` is in: not yet set, installed, about to be called by its
      setter or by the winner, called, or dropped by a clear or a replacement. */
  ghost function Hands(s: State, h: ThreadId): nat {
    Bit(h in s.threads && (s.threads[h].SetStart? || s.threads[h].SetterInvoke?))
    + Bit(s.handler == Some(h))
    + Bit(s.winner.Some? && s.winner.value in s.threads && s.threads[s.winner.value] == WinnerInvoke(h))
    + s.ran[h]
    + Bit(h in s.dropped)
  }

  /** Every handler that was passed in is in exactly one pair of hands. */
  ghost predicate HandlersOk(s: State) {
    forall h :: Hands(s, h) == Bit(h in s.threads && s.threads[h].Setter())
  }

  ghost predicate WinnerOk(s: State) {
    && (s.result.Some? <==> s.winner.Some?)
    && (s.winner.Some? ==> s.winner.value in s.threads)
    && (forall t :: t in s.threads ==> ThreadOk(s, t))
    && (s.notified && s.handler.Some? ==> s.winner.Some? && s.threads[s.winner.value] == NotifyTake)
    && (s.result.None? ==> s.ran == multiset{} && !s.notified)
    && (s.winner.Some? && !s.notified ==> s.threads[s.winner.value] == Returned(true))
  }

  ghost predicate ThreadOk(s: State, t: ThreadId)
    requires t in s.threads
  {
    && (s.threads[t].Won() <==> s.winner == Some(t))
    && (s.threads[t] == Returned(false) || s.threads[t] == SetterInvoke ==> s.result.Some?)
  }

  ghost predicate Inv(s: State) {
    HandlersOk(s) && WinnerOk(s)
  }

  lemma InitialInv()
    ensures Inv(INITIAL)
  {
  }

  lemma SpawnKeepsInv(s: State, t: ThreadId, start: Thread)
    requires Inv(s) && t !in s.threads && start.Starting()
    ensures Inv(s.(threads := s.threads[t := start]))
  {
    var s' := s.(threads := s.threads[t := start]);
    assert Hands(s, t) == 0;
    forall h ensures Hands(s', h) == Bit(h in s'.threads && s'.threads[h].Setter()) {
      assert Hands(s, h) == Bit(h in s.threads && s.threads[h].Setter());
    }
    forall u | u in s'.threads ensures ThreadOk(s', u) {
      assert u != t ==> ThreadOk(s, u);
    }
  }

  lemma StepKeepsHandler(s: State, t: ThreadId, h: ThreadId)
    requires WinnerOk(s) && t in s.threads && ThreadOk(s, t)
    requires Hands(s, h) == Bit(h in s.threads && s.threads[h].Setter())
    ensures var s' := Step(s, t); Hands(s', h) == Bit(h in s'.threads && s'.threads[h].Setter())
  {
  }

  lemma StepKeepsWinner(s: State, t: ThreadId)
    requires WinnerOk(s) && t in s.threads
    ensures WinnerOk(Step(s, t))
  {
    assert ThreadOk(s, t);
    var s' := Step(s, t);
    forall u | u in s'.threads ensures ThreadOk(s', u) {
      assert ThreadOk(s, u);
    }
  }

  lemma ApplyKeepsInv(s: State, e: Event)
    requires Inv(s) && Enabled(s, e)
    ensures Inv(Apply(s, e))
  {
    match e
    case Spawn(t, start) => SpawnKeepsInv(s, t, start);
    case Run(t) =>
      assert ThreadOk(s, t);
      StepKeepsWinner(s, t);
      var s' := Step(s, t);
      forall h ensures Hands(s', h) == Bit(h in s'.threads && s'.threads[h].Setter()) {
        assert Hands(s, h) == Bit(h in s.threads && s.threads[h].Setter());
        StepKeepsHandler(s, t, h);
      }
  }

  lemma ApplySettles(s: State, e: Event)
    requires Inv(s) && Enabled(s, e)
    ensures Settles(s, Apply(s, e))
  {
  }

  /** A completed operation keeps its result and its winner, and a handler call is never undone. */
  ghost predicate Settles(s: State, s': State) {
    && (s.result.Some? ==> s'.result == s.result && s'.winner == s.winner && s'.notified == s.notified)
    && s.ran <= s'.ran && s.dropped <= s'.dropped
  }

  lemma {:induction false} RunKeepsInv(s: State, run: seq<Event>, s': State)
    requires Inv(s) && Reaches(s, run, s')
    ensures Inv(s') && Settles(s, s')
    decreases |run|
  {
    if run != [] {
      ApplyKeepsInv(s, run[0]);
      ApplySettles(s, run[0]);
      RunKeepsInv(Apply(s, run[0]), run[1..], s');
    }
  }

  /** Exactly one completion attempt wins, and it decides the result for good. */
  lemma OneWinner(run: seq<Event>, s: State, later: seq<Event>, s': State, a: ThreadId, b: ThreadId)
    requires Reaches(INITIAL, run, s) && Reaches(s, later, s')
    requires a in s.threads && s.threads[a].Won()
    ensures s.result.Some? && s'.result == s.result
    ensures b in s'.threads && s'.threads[b].Won() ==> a == b
  {
    InitialInv();
    RunKeepsInv(INITIAL, run, s);
    RunKeepsInv(s, later, s');
    assert ThreadOk(s, a);
    assert b in s'.threads ==> ThreadOk(s', b);
  }

  /** How the calls of a run began. */
  function Starts(before: map<ThreadId, Thread>, run: seq<Event>): map<ThreadId, Thread>
    decreases |run|
  {
    if run == [] then before
    else Starts(if run[0].Spawn? then before[run[0].t := run[0].start] else before, run[1..])
  }

  /** Calls that have not begun still are what they were, and the result is what the winner proposed. */
  ghost predicate Proposes(s: State, starts: map<ThreadId, Thread>) {
    && starts.Keys == s.threads.Keys
    && (forall t :: t in s.threads && s.threads[t].Starting() ==> starts[t] == s.threads[t])
    && (s.winner.Some? ==> s.winner.value in starts && ProposedBy(starts[s.winner.value], s))
  }

  predicate ProposedBy(start: Thread, s: State) {
    && (start.TryStart? || start.NotifyStart?)
    && s.result == Some(start.status) && s.notified == start.NotifyStart?
  }

  lemma ProposesOn(s: State, starts: map<ThreadId, Thread>, e: Event)
    requires Inv(s) && Proposes(s, starts) && Enabled(s, e)
    ensures Proposes(Apply(s, e), if e.Spawn? then starts[e.t := e.start] else starts)
  {
    if e.Run? {
      StepDecides(s, e.t);
    } else {
      assert s.winner.Some? ==> s.winner.value != e.t;
    }
  }

  /** A step moves one call on from its beginning, and decides the result only if the call proposes it. */
  lemma StepDecides(s: State, t: ThreadId)
    requires WinnerOk(s) && t in s.threads
    ensures var s' := Step(s, t);
            && s'.threads.Keys == s.threads.Keys && !s'.threads[t].Starting()
            && (forall u :: u in s.threads && u != t ==> s'.threads[u] == s.threads[u])
            && ((s'.winner == s.winner && s'.result == s.result && s'.notified == s.notified)
                || (s.winner.None? && s'.winner == Some(t) && ProposedBy(s.threads[t], s')))
  {
    var s' := Step(s, t);
    assert s'.threads == s.threads[t := s'.threads[t]];
  }

  lemma {:induction false} ProposesAlong(s: State, starts: map<ThreadId, Thread>, run: seq<Event>, s': State)
    requires Inv(s) && Proposes(s, starts) && Reaches(s, run, s')
    ensures Proposes(s', Starts(starts, run))
    decreases |run|
  {
    if run != [] {
      ApplyKeepsInv(s, run[0]);
      ProposesOn(s, starts, run[0]);
      ProposesAlong(Apply(s, run[0]), if run[0].Spawn? then starts[run[0].t := run[0].start] else starts, run[1..], s');
    }
  }

  /** The result is the status that the winner proposed, and the handler is taken exactly if the winner was
      a cancel or a timeout that notifies. */
  lemma WinnerProposed(run: seq<Event>, s: State, a: ThreadId)
    requires Reaches(INITIAL, run, s) && a in s.threads && s.threads[a].Won()
    ensures a in Starts(map[], run) && ProposedBy(Starts(map[], run)[a], s)
  {
    InitialInv();
    RunKeepsInv(INITIAL, run, s);
    assert ThreadOk(s, a);
    ProposesAlong(INITIAL, map[], run, s);
  }

  /** A completion attempt fails only against an operation that is already complete. */
  lemma LosersLostToAWinner(run: seq<Event>, s: State, t: ThreadId)
    requires Reaches(INITIAL, run, s) && t in s.threads && s.threads[t] == Returned(false)
    ensures s.winner.Some? && s.winner.value != t && s.result.Some?
  {
    InitialInv();
    RunKeepsInv(INITIAL, run, s);
    assert ThreadOk(s, t);
  }

  /** No handler runs before the operation completes, twice, or after it was cleared or replaced. */
  lemma HandlersRunAtMostOnce(run: seq<Event>, s: State, h: ThreadId)
    requires Reaches(INITIAL, run, s)
    ensures s.ran[h] <= 1
    ensures s.ran[h] == 1 ==> s.result.Some? && h !in s.dropped && s.handler != Some(h)
  {
    InitialInv();
    RunKeepsInv(INITIAL, run, s);
    assert Hands(s, h) == Bit(h in s.threads && s.threads[h].Setter());
  }

  /** If a cancel or a timeout won and both it and the setter have finished, the handler ran exactly
      once, or it was cleared or replaced and never will. */
  lemma NotifiedHandlerRuns(run: seq<Event>, s: State, h: ThreadId)
    requires Reaches(INITIAL, run, s) && s.notified
    requires s.winner.Some? && s.winner.value in s.threads && s.threads[s.winner.value] == Returned(true)
    requires h in s.threads && s.threads[h] == SetDone
    ensures s.ran[h] == if h in s.dropped then 0 else 1
  {
    InitialInv();
    RunKeepsInv(INITIAL, run, s);
    assert Hands(s, h) == 1;
  }

  /** If the operation was completed without notification, a handler that was set before stays
      silent and one that was set later runs. */
  lemma SilentHandlerStays(run: seq<Event>, s: State, h: ThreadId)
    requires Reaches(INITIAL, run, s) && s.result.Some? && !s.notified
    requires h in s.threads && s.threads[h] == SetDone
    ensures s.ran[h] == if h in s.dropped || s.handler == Some(h) then 0 else 1
  {
    InitialInv();
    RunKeepsInv(INITIAL, run, s);
    assert Hands(s, h) == 1;
  }
}
