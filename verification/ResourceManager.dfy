/** One resource manager whose children are registered, closed by their users and closed with the
    manager on any number of threads. A step is one critical section of the manager's mutex or of the
    handle table's; the table itself is taken at its word: it never issues a handle twice. */
module ResourceManager {
  import opened HandleTable

  type ThreadId = nat

  datatype Thread =
    // register_child
    | RegisterStart
    | Inserted(child: Handle)
    | Refused(child: Handle)
    | Registered(child: Handle)
    | RegisterFailed
    // close of the manager
    | CloseStart
    | Closing(rest: set<Handle>)
    | Closed
    // viClose of some handle
    | UserStart(target: Handle)
    | UserRemoved(target: Handle)
    | UserDone
  {
    predicate Starting() {
      RegisterStart? || CloseStart? || UserStart?
    }
  }

  /** `live` and `issued` are the handle table's; `owner` says which call of `register_child` a child
      came from, `taker` which close took it, and `cut` which children their users removed. */
  datatype State = State(
    closed: bool,
    children: set<Handle>,
    live: set<Handle>,
    issued: set<Handle>,
    owner: map<Handle, ThreadId>,
    taker: map<Handle, ThreadId>,
    cut: set<Handle>,
    threads: map<ThreadId, Thread>)
  {
    function At(t: ThreadId, next: Thread): State {
      this.(threads := threads[t := next])
    }
  }

  datatype Event =
    | Spawn(t: ThreadId, start: Thread)
    | Run(t: ThreadId, choice: Handle)
    | Exhausted(t: ThreadId)
    | Foreign(handle: Handle)

  function Start(live: set<Handle>, issued: set<Handle>): State {
    State(false, {}, live, issued, map[], map[], {}, map[])
  }

  /** `choice` is the handle the table issues, or the child that the loop over the children comes to. */
  function Step(s: State, t: ThreadId, choice: Handle): State
    requires t in s.threads
  {
    match s.threads[t]
    case RegisterStart =>
      s.At(t, Inserted(choice)).(live := s.live + {choice}, issued := s.issued + {choice}, owner := s.owner[choice := t])
    case Inserted(child) =>
      if s.closed then s.At(t, Refused(child)) else s.At(t, Registered(child)).(children := s.children + {child})
    case Refused(child) => s.At(t, RegisterFailed).(live := s.live - {child})
    case CloseStart =>
      s.At(t, Closing(s.children)).(closed := true, children := {},
        taker := map h | h in s.taker.Keys + s.children :: if h in s.children then t else s.taker[h])
    case Closing(rest) =>
      if rest == {} then s.At(t, Closed) else s.At(t, Closing(rest - {choice})).(live := s.live - {choice})
    case UserStart(target) =>
      if target in s.live then s.At(t, UserRemoved(target)).(live := s.live - {target}, cut := s.cut + {target})
      else s.At(t, UserDone)
    case UserRemoved(target) => s.At(t, UserDone).(children := s.children - {target})
    case _ => s
  }

  predicate Enabled(s: State, e: Event) {
    match e
    case Spawn(t, start) => t !in s.threads && start.Starting()
    case Run(t, choice) =>
      && t in s.threads
      && (s.threads[t].RegisterStart? ==> choice !in s.issued)
      && (s.threads[t].Closing? && s.threads[t].rest != {} ==> choice in s.threads[t].rest)
    case Exhausted(t) => t in s.threads && s.threads[t].RegisterStart?
    case Foreign(handle) => handle !in s.owner && (handle in s.issued ==> handle in s.live)
  }

  /** Elsewhere a handle is issued, or one that is not a child of this manager is removed. */
  function Apply(s: State, e: Event): State
    requires Enabled(s, e)
  {
    match e
    case Spawn(t, start) => s.At(t, start)
    case Run(t, choice) => Step(s, t, choice)
    case Exhausted(t) => s.At(t, RegisterFailed)
    case Foreign(handle) =>
      if handle in s.live then s.(live := s.live - {handle})
      else s.(live := s.live + {handle}, issued := s.issued + {handle})
  }

  ghost predicate Reaches(s: State, run: seq<Event>, s': State)
    decreases |run|
  {
    if run == [] then s == s' else Enabled(s, run[0]) && Reaches(Apply(s, run[0]), run[1..], s')
  }

  /** The call that registers `h` still has it in hand. */
  predicate Registering(s: State, h: Handle) {
    h in s.owner && s.owner[h] in s.threads && (s.threads[s.owner[h]] == Inserted(h) || s.threads[s.owner[h]] == Refused(h))
  }

  /** A close has taken `h` and not come to it yet. */
  predicate Doomed(s: State, h: Handle) {
    h in s.taker && s.taker[h] in s.threads && s.threads[s.taker[h]].Closing? && h in s.threads[s.taker[h]].rest
  }

  /** A live child is in somebody's hands. */
  predicate InHands(s: State, h: Handle) {
    h in s.live && h in s.owner ==> h in s.children || Registering(s, h) || Doomed(s, h)
  }

  ghost predicate ChildOk(s: State, h: Handle) {
    && (h in s.children ==> h in s.owner && !Registering(s, h) && (h in s.live || h in s.cut))
    && (h in s.owner ==> s.owner[h] in s.threads && h in s.issued)
    && (Registering(s, h) ==> h !in s.children && (h in s.live || h in s.cut))
    && (h in s.taker ==> s.closed && h in s.owner && !Registering(s, h) && s.taker[h] in s.threads)
  }

  ghost predicate ThreadOk(s: State, t: ThreadId)
    requires t in s.threads
  {
    match s.threads[t]
    case Inserted(child) => child in s.owner && s.owner[child] == t
    case Refused(child) => s.closed && child in s.owner && s.owner[child] == t
    case Registered(child) =>
      child in s.owner && s.owner[child] == t && (s.closed || child in s.children || child in s.cut)
    case Closing(rest) => s.closed && forall h :: h in rest ==> h in s.taker && s.taker[h] == t
    case Closed => s.closed
    case UserRemoved(target) => target in s.issued && target !in s.live && target in s.cut
    case _ => true
  }

  ghost predicate Inv(s: State) {
    && (s.closed ==> s.children == {})
    && s.live <= s.issued
    && (forall h :: InHands(s, h) && ChildOk(s, h))
    && (forall t :: t in s.threads ==> ThreadOk(s, t))
  }

  lemma StartInv(live: set<Handle>, issued: set<Handle>)
    requires live <= issued
    ensures Inv(Start(live, issued))
  {
  }

  lemma StepKeepsHands(s: State, t: ThreadId, choice: Handle, h: Handle)
    requires Enabled(s, Run(t, choice)) && ThreadOk(s, t) && InHands(s, h) && ChildOk(s, h) && (s.closed ==> s.children == {})
    ensures InHands(Step(s, t, choice), h)
  {
    var s' := Step(s, t, choice);
    match s.threads[t] {
      case Closing(rest) => assert h !in rest ==> (Doomed(s', h) <==> Doomed(s, h));
      case CloseStart => assert h in s.children && h in s.live ==> Doomed(s', h);
      case _ =>
    }
  }

  lemma StepKeepsChild(s: State, t: ThreadId, choice: Handle, h: Handle)
    requires Enabled(s, Run(t, choice)) && ThreadOk(s, t) && ChildOk(s, h) && (s.closed ==> s.children == {})
    ensures ChildOk(Step(s, t, choice), h)
  {
    if !s.threads[t].RegisterStart? {
      assert Registering(Step(s, t, choice), h) ==> Registering(s, h);
    }
  }

  lemma StepKeepsThread(s: State, t: ThreadId, choice: Handle, u: ThreadId)
    requires s.live <= s.issued && Enabled(s, Run(t, choice)) && ThreadOk(s, t) && u in s.threads && ThreadOk(s, u)
    requires s.closed ==> s.children == {} && Step(s, t, choice).closed
    requires s.threads[u].Inserted? || s.threads[u].Refused? || s.threads[u].Registered? ==> ChildOk(s, s.threads[u].child)
    ensures ThreadOk(Step(s, t, choice), u)
  {
  }

  lemma ApplyKeepsInv(s: State, e: Event)
    requires Inv(s) && Enabled(s, e)
    ensures Inv(Apply(s, e))
  {
    var s' := Apply(s, e);
    forall h ensures InHands(s', h) && ChildOk(s', h) {
      assert InHands(s, h) && ChildOk(s, h);
      if e.Run? {
        assert ThreadOk(s, e.t);
        StepKeepsHands(s, e.t, e.choice, h);
        StepKeepsChild(s, e.t, e.choice, h);
      }
    }
    forall t | t in s'.threads ensures ThreadOk(s', t) {
      assert t in s.threads ==> ThreadOk(s, t);
      if e.Run? {
        assert ThreadOk(s, e.t);
        StepKeepsThread(s, e.t, e.choice, t);
      }
    }
  }

  /** A child that is gone stays gone, and a manager that is closed stays closed. */
  ghost predicate Lasts(s: State, s': State) {
    && s.issued <= s'.issued && s.owner.Keys <= s'.owner.Keys && s.cut <= s'.cut
    && (s.closed ==> s'.closed)
    && forall h :: h in s.issued && h !in s.live ==> h !in s'.live
  }

  lemma ApplyLasts(s: State, e: Event)
    requires Inv(s) && Enabled(s, e)
    ensures Lasts(s, Apply(s, e))
  {
  }

  lemma {:induction false} RunKeepsInv(s: State, run: seq<Event>, s': State)
    requires Inv(s) && Reaches(s, run, s')
    ensures Inv(s') && Lasts(s, s')
    decreases |run|
  {
    if run != [] {
      ApplyKeepsInv(s, run[0]);
      ApplyLasts(s, run[0]);
      RunKeepsInv(Apply(s, run[0]), run[1..], s');
    }
  }

  /** Once a manager is closed, no close of it is still running and the call that registered a child
      has finished, the child's handle does not resolve, then or ever after. */
  lemma ClosedManagerHasNoChild(live: set<Handle>, issued: set<Handle>, run: seq<Event>, s: State,
                                later: seq<Event>, s': State, child: Handle)
    requires live <= issued && Reaches(Start(live, issued), run, s) && Reaches(s, later, s')
    requires s.closed && child in s.owner && !Registering(s, child)
    requires forall t :: t in s.threads ==> !s.threads[t].Closing?
    ensures child !in s'.live
  {
    StartInv(live, issued);
    RunKeepsInv(Start(live, issued), run, s);
    RunKeepsInv(s, later, s');
    assert InHands(s, child) && ChildOk(s, child);
  }

  /** Until then, a child that was registered with success resolves unless its user removed it. */
  lemma OpenChildResolves(live: set<Handle>, issued: set<Handle>, run: seq<Event>, s: State, t: ThreadId)
    requires live <= issued && Reaches(Start(live, issued), run, s)
    requires t in s.threads && s.threads[t].Registered? && !s.closed
    ensures s.threads[t].child in s.live || s.threads[t].child in s.cut
  {
    StartInv(live, issued);
    RunKeepsInv(Start(live, issued), run, s);
    assert ThreadOk(s, t) && ChildOk(s, s.threads[t].child);
  }

  /** Closing a manager or failing to register with it removes no handle but its own children. */
  lemma OtherHandlesStay(live: set<Handle>, issued: set<Handle>, run: seq<Event>, s: State, t: ThreadId,
                         choice: Handle, other: Handle)
    requires live <= issued && Reaches(Start(live, issued), run, s)
    requires Enabled(s, Run(t, choice)) && !s.threads[t].UserStart?
    requires other in s.live && other !in s.owner
    ensures other in Step(s, t, choice).live
  {
    StartInv(live, issued);
    RunKeepsInv(Start(live, issued), run, s);
    assert ThreadOk(s, t) && ChildOk(s, choice);
  }
}
