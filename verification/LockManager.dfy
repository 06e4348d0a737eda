/** The process-wide lock table. Every method is one critical section of the manager's mutex. */
module LockManager {
  import opened Numerals
  import opened Visa

  type SessionId = nat

  const DEPTH_LIMIT := 0x1_0000_0000

  datatype LockType = NoLock | ExclusiveLock | SharedLock | OtherMode

  datatype LockState = LockState(
    kind: LockType,
    exclusiveOwner: SessionId,
    exclusiveDepth: nat,
    sharedKey: string,
    sharedOwners: map<SessionId, nat>)

  const EMPTY := LockState(NoLock, 0, 0, "", map[])

  type Locks = map<string, LockState>

  function Lookup(locks: Locks, resource: string): LockState {
    if resource in locks then locks[resource] else EMPTY
  }

  /** `++depth` on a 32-bit counter. */
  function Increment(depth: nat): nat {
    (depth + 1) % DEPTH_LIMIT
  }

  predicate CanGrant(state: LockState, owner: SessionId, kind: LockType, requestedKey: Option<string>) {
    if state.kind == NoLock then true
    else if kind == ExclusiveLock then state.kind == ExclusiveLock && state.exclusiveOwner == owner
    else if state.kind != SharedLock then false
    else owner in state.sharedOwners || (requestedKey.Some? && state.sharedKey == requestedKey.value)
  }

  /** The table after a grant; `freshKey` is the key a new shared lock gets. */
  function Granted(locks: Locks, owner: SessionId, resource: string, kind: LockType, freshKey: string): Locks {
    var state := Lookup(locks, resource);
    if kind == ExclusiveLock then
      if state.kind == ExclusiveLock
      then locks[resource := state.(exclusiveDepth := Increment(state.exclusiveDepth))]
      else locks[resource := state.(kind := ExclusiveLock, exclusiveOwner := owner, exclusiveDepth := 1)]
    else if state.kind == SharedLock then
      var depth := if owner in state.sharedOwners then state.sharedOwners[owner] else 0;
      locks[resource := state.(sharedOwners := state.sharedOwners[owner := Increment(depth)])]
    else locks[resource := state.(kind := SharedLock, sharedKey := freshKey, sharedOwners := state.sharedOwners[owner := 1])]
  }

  function Erase(locks: Locks, resource: string): Locks {
    locks - {resource}
  }

  /** Whether `release` finds a lock of `owner` to release. */
  predicate Owns(locks: Locks, owner: SessionId, resource: string) {
    var state := Lookup(locks, resource);
    (state.kind == ExclusiveLock && state.exclusiveOwner == owner)
    || (state.kind == SharedLock && owner in state.sharedOwners)
  }

  /** `--depth` on a 32-bit counter. */
  function Decrement(depth: nat): nat {
    (depth + DEPTH_LIMIT - 1) % DEPTH_LIMIT
  }

  /** The table after a release, and whether the waiters are notified. */
  function Released(locks: Locks, owner: SessionId, resource: string): (Locks, bool) {
    var state := Lookup(locks, resource);
    if state.kind == ExclusiveLock && state.exclusiveOwner == owner then
      var depth := Decrement(state.exclusiveDepth);
      if depth == 0 then (Erase(locks, resource), true)
      else (locks[resource := state.(exclusiveDepth := depth)], false)
    else if state.kind == SharedLock && owner in state.sharedOwners then
      var depth := Decrement(state.sharedOwners[owner]);
      var owners := if depth == 0 then state.sharedOwners - {owner} else state.sharedOwners[owner := depth];
      if owners == map[] then (Erase(locks, resource), true)
      else (locks[resource := state.(sharedOwners := owners)], false)
    else (locks, false)
  }

  function ReleasedAll(locks: Locks, owner: SessionId, resource: string): (Locks, bool) {
    var state := Lookup(locks, resource);
    if state.kind == ExclusiveLock && state.exclusiveOwner == owner then (Erase(locks, resource), true)
    else if state.kind == SharedLock then
      var owners := state.sharedOwners - {owner};
      (if owners == map[] then Erase(locks, resource) else locks[resource := state.(sharedOwners := owners)],
       owner in state.sharedOwners)
    else (locks, false)
  }

  function OwnedDepth(locks: Locks, owner: SessionId, resource: string): nat {
    var state := Lookup(locks, resource);
    if state.kind == ExclusiveLock && state.exclusiveOwner == owner then state.exclusiveDepth
    else if state.kind == SharedLock && owner in state.sharedOwners then state.sharedOwners[owner]
    else 0
  }

  predicate CanAccess(locks: Locks, owner: SessionId, resource: string) {
    resource in locks ==>
      if locks[resource].kind == ExclusiveLock then locks[resource].exclusiveOwner == owner
      else owner in locks[resource].sharedOwners
  }

  function OwnedType(locks: Locks, owner: SessionId, resource: string): LockType {
    var state := Lookup(locks, resource);
    if state.kind == ExclusiveLock && state.exclusiveOwner == owner then ExclusiveLock
    else if state.kind == SharedLock && owner in state.sharedOwners then SharedLock
    else NoLock
  }

  /** A stored lock is exclusive with one owner and nothing shared, or shared by some owners; and
      every depth is positive. */
  ghost predicate StateOk(state: LockState) {
    || (state.kind == ExclusiveLock && 0 < state.exclusiveDepth < DEPTH_LIMIT && state.sharedOwners == map[])
    || (state.kind == SharedLock && state.sharedOwners != map[]
        && forall o :: o in state.sharedOwners ==> 0 < state.sharedOwners[o] < DEPTH_LIMIT)
  }

  ghost predicate LocksOk(locks: Locks) {
    forall r :: r in locks ==> StateOk(locks[r])
  }

  /** Granting keeps the table in order exactly when no depth counter wraps around. */
  lemma GrantKeepsLocks(locks: Locks, owner: SessionId, resource: string, kind: LockType,
                        requestedKey: Option<string>, freshKey: string)
    requires LocksOk(locks) && (kind == ExclusiveLock || kind == SharedLock)
    requires CanGrant(Lookup(locks, resource), owner, kind, requestedKey)
    ensures LocksOk(Granted(locks, owner, resource, kind, freshKey)) <==> OwnedDepth(locks, owner, resource) + 1 < DEPTH_LIMIT
  {
    var after := Granted(locks, owner, resource, kind, freshKey);
    var depth := OwnedDepth(locks, owner, resource);
    assert resource in locks ==> StateOk(locks[resource]);
    assert Increment(depth) == if depth + 1 < DEPTH_LIMIT then depth + 1 else 0;
    assert resource in after;
    if depth + 1 < DEPTH_LIMIT {
      assert StateOk(after[resource]);
    } else {
      assert !StateOk(after[resource]) by {
        assert Lookup(locks, resource).kind == SharedLock ==> after[resource].sharedOwners[owner] == 0;
      }
    }
  }

  lemma DecrementPositive(depth: nat)
    requires 0 < depth < DEPTH_LIMIT
    ensures Decrement(depth) == depth - 1
  {
  }

  lemma ReleaseKeepsLocks(locks: Locks, owner: SessionId, resource: string)
    requires LocksOk(locks)
    ensures LocksOk(Released(locks, owner, resource).0)
    ensures LocksOk(ReleasedAll(locks, owner, resource).0)
  {
    var state := Lookup(locks, resource);
    if resource in locks {
      assert StateOk(state);
      if state.kind == ExclusiveLock && state.exclusiveOwner == owner {
        DecrementPositive(state.exclusiveDepth);
      } else if state.kind == SharedLock && owner in state.sharedOwners {
        DecrementPositive(state.sharedOwners[owner]);
      }
    }
  }

  /** What one call does to the depth of any session on any resource. */
  lemma GrantDepth(locks: Locks, owner: SessionId, resource: string, kind: LockType, requestedKey: Option<string>,
                   freshKey: string, other: SessionId, elsewhere: string)
    requires LocksOk(locks) && (kind == ExclusiveLock || kind == SharedLock)
    requires CanGrant(Lookup(locks, resource), owner, kind, requestedKey)
    requires OwnedDepth(locks, owner, resource) + 1 < DEPTH_LIMIT
    ensures OwnedDepth(Granted(locks, owner, resource, kind, freshKey), other, elsewhere)
            == OwnedDepth(locks, other, elsewhere) + if other == owner && elsewhere == resource then 1 else 0
  {
    assert resource in locks ==> StateOk(locks[resource]);
  }

  lemma ReleaseDepth(locks: Locks, owner: SessionId, resource: string, other: SessionId, elsewhere: string)
    requires LocksOk(locks)
    ensures OwnedDepth(Released(locks, owner, resource).0, other, elsewhere)
            == OwnedDepth(locks, other, elsewhere)
               - if other == owner && elsewhere == resource && Owns(locks, owner, resource) then 1 else 0
  {
    var state := Lookup(locks, resource);
    if resource in locks {
      assert StateOk(state);
      if state.kind == ExclusiveLock && state.exclusiveOwner == owner {
        DecrementPositive(state.exclusiveDepth);
      } else if state.kind == SharedLock && owner in state.sharedOwners {
        DecrementPositive(state.sharedOwners[owner]);
        assert other != owner ==> (other in state.sharedOwners <==> other in state.sharedOwners - {owner});
      }
    }
  }

  lemma ReleaseAllDepth(locks: Locks, owner: SessionId, resource: string, other: SessionId, elsewhere: string)
    requires LocksOk(locks)
    ensures OwnedDepth(ReleasedAll(locks, owner, resource).0, other, elsewhere)
            == if other == owner && elsewhere == resource then 0 else OwnedDepth(locks, other, elsewhere)
  {
    var state := Lookup(locks, resource);
    if resource in locks {
      assert StateOk(state);
      assert other != owner ==> (other in state.sharedOwners <==> other in state.sharedOwners - {owner});
    }
  }

  /** A session owns a lock exactly when its depth is positive. */
  lemma OwnsIffDepth(locks: Locks, owner: SessionId, resource: string)
    requires LocksOk(locks)
    ensures Owns(locks, owner, resource) <==> OwnedDepth(locks, owner, resource) > 0
    ensures OwnedType(locks, owner, resource) == NoLock <==> OwnedDepth(locks, owner, resource) == 0
  {
    if resource in locks {
      assert StateOk(locks[resource]);
    }
  }

  /** An exclusive request is granted exactly when nobody holds the resource but the requester itself,
      exclusively; a shared one exactly when nobody does exclusively and the requester has a share, has
      the key, or finds the resource free. */
  lemma GrantableExactly(locks: Locks, resource: string, owner: SessionId, key: Option<string>)
    requires LocksOk(locks)
    ensures CanGrant(Lookup(locks, resource), owner, ExclusiveLock, key) <==>
            forall o :: OwnedType(locks, o, resource) != NoLock ==> o == owner && OwnedType(locks, o, resource) == ExclusiveLock
    ensures CanGrant(Lookup(locks, resource), owner, SharedLock, key) <==>
            && (forall o :: OwnedType(locks, o, resource) != ExclusiveLock)
            && (|| (forall o :: OwnedType(locks, o, resource) == NoLock)
                || OwnedType(locks, owner, resource) == SharedLock
                || key == Some(Lookup(locks, resource).sharedKey))
  {
    var state := Lookup(locks, resource);
    if resource in locks {
      assert StateOk(state);
      if state.kind == ExclusiveLock {
        assert OwnedType(locks, state.exclusiveOwner, resource) == ExclusiveLock;
      } else {
        var o :| o in state.sharedOwners;
        assert OwnedType(locks, o, resource) == SharedLock;
      }
    }
  }

  /** Whatever any session does next, a lock that stays keeps its type, its one owner if it is
      exclusive, and its access key if it is shared. */
  lemma LockStays(locks: Locks, c: Call, resource: string)
    requires LocksOk(locks) && resource in locks && resource in After(locks, c)
    ensures var before, after := locks[resource], After(locks, c)[resource];
            && after.kind == before.kind
            && (before.kind == ExclusiveLock ==> after.exclusiveOwner == before.exclusiveOwner)
            && (before.kind == SharedLock ==> after.sharedKey == before.sharedKey)
  {
    assert StateOk(locks[resource]);
  }

  /** While one session holds an exclusive lock no other session has any lock on the resource or
      may use it; and only owners may use a shared one. */
  lemma MutualExclusion(locks: Locks, resource: string, a: SessionId, b: SessionId)
    requires LocksOk(locks) && a != b && OwnedType(locks, a, resource) == ExclusiveLock
    ensures OwnedDepth(locks, b, resource) == 0 && !CanAccess(locks, b, resource) && CanAccess(locks, a, resource)
    ensures forall kind, key :: kind == ExclusiveLock || kind == SharedLock ==> !CanGrant(Lookup(locks, resource), b, kind, key)
  {
    assert StateOk(locks[resource]);
  }

  /** A release that lets some request be granted that could not be before notifies the waiters. */
  lemma ReleaseNotifies(locks: Locks, owner: SessionId, resource: string, waiter: SessionId, elsewhere: string,
                        kind: LockType, key: Option<string>)
    requires LocksOk(locks) && (kind == ExclusiveLock || kind == SharedLock)
    requires !CanGrant(Lookup(locks, elsewhere), waiter, kind, key)
    ensures var (after, notified) := Released(locks, owner, resource);
            CanGrant(Lookup(after, elsewhere), waiter, kind, key) ==> notified
    ensures var (after, notified) := ReleasedAll(locks, owner, resource);
            CanGrant(Lookup(after, elsewhere), waiter, kind, key) ==> notified
  {
    assert resource in locks ==> StateOk(locks[resource]);
  }

  function KeyText(id: nat): string {
    "WRVISA-" + Numeral(id, 16)
  }

  /** `next_key_id_++` on a 64-bit counter. */
  function NextId(id: nat): nat {
    (id + 1) % 0x1_0000_0000_0000_0000
  }

  /** The counter behind the `k`th key of a manager. */
  function KeyId(k: nat): nat {
    (1 + k) % 0x1_0000_0000_0000_0000
  }

  lemma NextKeyId(k: nat)
    ensures KeyId(0) == 1 && NextId(KeyId(k)) == KeyId(k + 1)
  {
    var q, r := (1 + k) / 0x1_0000_0000_0000_0000, KeyId(k);
    assert k + 2 == q * 0x1_0000_0000_0000_0000 + (r + 1);
    if r + 1 == 0x1_0000_0000_0000_0000 {
      assert k + 2 == (q + 1) * 0x1_0000_0000_0000_0000;
    }
  }

  /** `keys` are the keys a manager has given out, in order. */
  ghost predicate KeysOk(keys: seq<string>) {
    forall k :: 0 <= k < |keys| ==> keys[k] == KeyText(KeyId(k))
  }

  /** Two keys that a manager gives out are the same exactly when a multiple of 2^64 lies between them. */
  lemma KeysDiffer(keys: seq<string>, j: nat, k: nat)
    requires KeysOk(keys) && j < k < |keys|
    ensures keys[j] == keys[k] <==> (k - j) % 0x1_0000_0000_0000_0000 == 0
  {
    var m, n := KeyId(j), KeyId(k);
    if KeyText(m) == KeyText(n) {
      assert KeyText(m)[7..] == Numeral(m, 16) && KeyText(n)[7..] == Numeral(n, 16);
      NumeralInjective(m, n, 16);
    }
    SameRemainder(1 + j, 1 + k);
  }

  lemma SameRemainder(a: nat, b: nat)
    requires a <= b
    ensures a % 0x1_0000_0000_0000_0000 == b % 0x1_0000_0000_0000_0000 <==> (b - a) % 0x1_0000_0000_0000_0000 == 0
  {
    var w := 0x1_0000_0000_0000_0000;
    var x, y, z := a / w, b / w, (b - a) / w;
    assert a == x * w + a % w && b == y * w + b % w && b - a == z * w + (b - a) % w;
  }

  // Whole runs

  datatype Call =
    | Acquire(owner: SessionId, resource: string, kind: LockType, requestedKey: Option<string>, freshKey: string)
    | Release(owner: SessionId, resource: string)
    | ReleaseAll(owner: SessionId, resource: string)

  predicate Succeeds(locks: Locks, c: Call) {
    match c
    case Acquire(owner, resource, kind, requestedKey, _) =>
      (kind == ExclusiveLock || kind == SharedLock) && CanGrant(Lookup(locks, resource), owner, kind, requestedKey)
    case Release(owner, resource) => Owns(locks, owner, resource)
    case ReleaseAll(_, _) => true
  }

  function After(locks: Locks, c: Call): Locks {
    if !Succeeds(locks, c) then locks
    else
      match c
      case Acquire(owner, resource, kind, _, freshKey) => Granted(locks, owner, resource, kind, freshKey)
      case Release(owner, resource) => Released(locks, owner, resource).0
      case ReleaseAll(owner, resource) => ReleasedAll(locks, owner, resource).0
  }

  function AfterAll(calls: seq<Call>): Locks {
    if calls == [] then map[] else After(AfterAll(calls[..|calls| - 1]), calls[|calls| - 1])
  }

  /** Grants minus releases of `owner` on `resource` since its last `ReleaseAll` there. */
  function Balance(calls: seq<Call>, owner: SessionId, resource: string): int {
    if calls == [] then 0
    else
      var before, c := calls[..|calls| - 1], calls[|calls| - 1];
      var balance := Balance(before, owner, resource);
      if c.owner != owner || c.resource != resource || !Succeeds(AfterAll(before), c) then balance
      else
        match c
        case Acquire(_, _, _, _, _) => balance + 1
        case Release(_, _) => balance - 1
        case ReleaseAll(_, _) => 0
  }

  /** No depth counter wraps around anywhere in the run. */
  ghost predicate NoWrap(calls: seq<Call>) {
    calls != [] ==>
      var before, c := calls[..|calls| - 1], calls[|calls| - 1];
      && NoWrap(before)
      && (c.Acquire? && Succeeds(AfterAll(before), c) ==> OwnedDepth(AfterAll(before), c.owner, c.resource) + 1 < DEPTH_LIMIT)
  }

  /** Over every run: the table stays in order and each depth is the balance of grants and releases. */
  lemma {:induction false} DepthIsBalance(calls: seq<Call>, owner: SessionId, resource: string)
    requires NoWrap(calls)
    ensures LocksOk(AfterAll(calls))
    ensures OwnedDepth(AfterAll(calls), owner, resource) == Balance(calls, owner, resource)
    decreases |calls|
  {
    if calls != [] {
      var before, c := calls[..|calls| - 1], calls[|calls| - 1];
      DepthIsBalance(before, owner, resource);
      var locks := AfterAll(before);
      match c {
        case Acquire(o, r, kind, key, freshKey) =>
          if Succeeds(locks, c) {
            GrantKeepsLocks(locks, o, r, kind, key, freshKey);
            GrantDepth(locks, o, r, kind, key, freshKey, owner, resource);
          }
        case Release(o, r) =>
          ReleaseKeepsLocks(locks, o, r);
          ReleaseDepth(locks, o, r, owner, resource);
        case ReleaseAll(o, r) =>
          ReleaseKeepsLocks(locks, o, r);
          ReleaseAllDepth(locks, o, r, owner, resource);
      }
    }
  }

  /** The table is in order after every part of the run. */
  ghost predicate AlwaysOk(calls: seq<Call>) {
    LocksOk(AfterAll(calls)) && (calls != [] ==> AlwaysOk(calls[..|calls| - 1]))
  }

  /** Every depth is the balance after every part of the run. */
  ghost predicate AlwaysBalanced(calls: seq<Call>) {
    && (forall owner, resource :: OwnedDepth(AfterAll(calls), owner, resource) == Balance(calls, owner, resource))
    && (calls != [] ==> AlwaysBalanced(calls[..|calls| - 1]))
  }

  /** The call that makes a counter wrap around breaks the table and the balance. */
  lemma WrapBreaks(calls: seq<Call>)
    requires calls != [] && NoWrap(calls[..|calls| - 1]) && !NoWrap(calls)
    ensures !LocksOk(AfterAll(calls))
    ensures var c := calls[|calls| - 1];
            OwnedDepth(AfterAll(calls), c.owner, c.resource) == 0 && Balance(calls, c.owner, c.resource) == DEPTH_LIMIT
  {
    var before, c := calls[..|calls| - 1], calls[|calls| - 1];
    var locks := AfterAll(before);
    DepthIsBalance(before, c.owner, c.resource);
    GrantKeepsLocks(locks, c.owner, c.resource, c.kind, c.requestedKey, c.freshKey);
    assert c.resource in locks ==> StateOk(locks[c.resource]);
    assert OwnedDepth(locks, c.owner, c.resource) + 1 == DEPTH_LIMIT;
    assert Increment(DEPTH_LIMIT - 1) == 0;
  }

  /** A run keeps the table in order all along, and equally keeps every depth at its balance all along,
      exactly when no depth counter wraps around in it. */
  lemma {:induction false} WrapExactly(calls: seq<Call>)
    ensures AlwaysOk(calls) <==> NoWrap(calls)
    ensures AlwaysBalanced(calls) <==> NoWrap(calls)
    decreases |calls|
  {
    if calls != [] {
      WrapExactly(calls[..|calls| - 1]);
      if NoWrap(calls[..|calls| - 1]) && !NoWrap(calls) {
        WrapBreaks(calls);
      }
    }
    if NoWrap(calls) {
      DepthIsBalance(calls, 0, "");
      forall owner, resource ensures OwnedDepth(AfterAll(calls), owner, resource) == Balance(calls, owner, resource) {
        DepthIsBalance(calls, owner, resource);
      }
    }
  }

  /** One session locks one resource exclusively, `n` times over. */
  function Nest(n: nat, owner: SessionId, resource: string): seq<Call> {
    seq(n, _ => Acquire(owner, resource, ExclusiveLock, None, ""))
  }

  function Nested(n: nat, owner: SessionId, resource: string): Locks {
    if n == 0 then map[]
    else map[resource := EMPTY.(kind := ExclusiveLock, exclusiveOwner := owner, exclusiveDepth := n % DEPTH_LIMIT)]
  }

  lemma NestStep(n: nat, owner: SessionId, resource: string)
    requires 0 < n <= DEPTH_LIMIT
    ensures var before, c := Nested(n - 1, owner, resource), Acquire(owner, resource, ExclusiveLock, None, "");
            && Succeeds(before, c) && OwnedDepth(before, owner, resource) == n - 1
            && After(before, c) == Nested(n, owner, resource)
  {
  }

  lemma {:induction false} NestAfter(n: nat, owner: SessionId, resource: string)
    requires n <= DEPTH_LIMIT
    ensures AfterAll(Nest(n, owner, resource)) == Nested(n, owner, resource)
    ensures NoWrap(Nest(n, owner, resource)) <==> n < DEPTH_LIMIT
  {
    if n > 0 {
      var calls := Nest(n, owner, resource);
      NestAfter(n - 1, owner, resource);
      assert calls[..n - 1] == Nest(n - 1, owner, resource);
      NestStep(n, owner, resource);
    }
  }

  /** The counter does wrap around: after 2^32 nested locks their session owns the resource with depth
      nothing, and still keeps every other session out. */
  lemma NestWraps(owner: SessionId, resource: string)
    ensures var locks := AfterAll(Nest(DEPTH_LIMIT, owner, resource));
            && !LocksOk(locks) && OwnedDepth(locks, owner, resource) == 0 && Owns(locks, owner, resource)
            && (forall other, kind, key :: other != owner ==> !CanGrant(Lookup(locks, resource), other, kind, key))
    ensures !NoWrap(Nest(DEPTH_LIMIT, owner, resource))
  {
    NestAfter(DEPTH_LIMIT, owner, resource);
    var locks := AfterAll(Nest(DEPTH_LIMIT, owner, resource));
    assert resource in locks && locks[resource].exclusiveDepth == 0;
    assert !StateOk(locks[resource]);
  }

  /** The object itself. */
  class Manager {
    var locks: Locks
    var nextKeyId: nat
    /** The keys given out so far. */
    ghost var keys: seq<string>

    ghost predicate Counted()
      reads this
    {
      KeysOk(keys) && nextKeyId == KeyId(|keys|)
    }

    constructor ()
      ensures locks == map[] && keys == [] && Counted()
    {
      locks, nextKeyId, keys := map[], 1, [];
    }

    /** `next_key`. */
    method NextKey() returns (key: string)
      requires Counted()
      modifies this`nextKeyId, this`keys
      ensures Counted() && keys == old(keys) + [key]
    {
      NextKeyId(|keys|);
      key := KeyText(nextKeyId);
      keys := keys + [key];
      nextKeyId := NextId(nextKeyId);
    }

    /** `acquire`, from the moment it looks at the table: `cancelled` is the result of an operation
        that has ended meanwhile, and `expired` says that the deadline has passed. The result is
        `None` while the caller has to go on waiting. */
    method Acquire(owner: SessionId, resource: string, kind: LockType, requestedKey: Option<string>,
                   cancelled: Option<Status>, expired: bool)
      returns (status: Option<Status>, accessKey: string)
      requires LocksOk(locks) && Counted()
      requires cancelled.Some? ==> cancelled.value.Interrupted()
      modifies this
      ensures Counted()
      ensures status.Some? && !status.value.Failed() <==>
              && (kind == ExclusiveLock || kind == SharedLock)
              && (kind == ExclusiveLock && requestedKey.Some? ==> requestedKey.value == "")
              && cancelled.None? && CanGrant(Lookup(old(locks), resource), owner, kind, requestedKey)
      ensures status.Some? && !status.value.Failed() ==>
              && locks == Granted(old(locks), owner, resource, kind, KeyText(KeyId(|old(keys)|)))
              && (kind == SharedLock ==> accessKey == locks[resource].sharedKey)
              && status.value == if OwnedDepth(old(locks), owner, resource) == 0 then Success
                                 else if kind == ExclusiveLock then SuccessNestedExclusive else SuccessNestedShared
      ensures (status.Some? && status.value.Failed()) || status.None? ==> locks == old(locks)
      ensures var shared := status.Some? && !status.value.Failed() && kind == SharedLock;
              keys == old(keys) + if shared && Lookup(old(locks), resource).kind != SharedLock then [accessKey] else []
      ensures var known := kind == ExclusiveLock || kind == SharedLock;
              var keyed := kind == ExclusiveLock && requestedKey.Some? && requestedKey.value != "";
              var grantable := CanGrant(Lookup(old(locks), resource), owner, kind, requestedKey);
              && (status == Some(ErrorInvLockType) <==> !known)
              && (status == Some(ErrorInvAccessKey) <==> known && keyed)
              && (known && !keyed && cancelled.Some? ==> status == cancelled)
              && (known && !keyed && cancelled.None? && !grantable && expired ==> status == Some(ErrorTmo))
              && (status.None? <==> known && !keyed && cancelled.None? && !grantable && !expired)
    {
      accessKey := "";
      if kind != ExclusiveLock && kind != SharedLock {
        return Some(ErrorInvLockType), "";
      }
      if kind == ExclusiveLock && requestedKey.Some? && requestedKey.value != "" {
        return Some(ErrorInvAccessKey), "";
      }
      assert resource in locks ==> StateOk(locks[resource]);
      if cancelled.Some? {
        return cancelled, "";
      }
      if !CanGrant(Lookup(locks, resource), owner, kind, requestedKey) {
        return if expired then Some(ErrorTmo) else None, "";
      }
      var state := Lookup(locks, resource);
      if kind == ExclusiveLock {
        if state.kind == ExclusiveLock {
          locks := locks[resource := state.(exclusiveDepth := Increment(state.exclusiveDepth))];
          return Some(SuccessNestedExclusive), "";
        }
        locks := locks[resource := state.(kind := ExclusiveLock, exclusiveOwner := owner, exclusiveDepth := 1)];
        return Some(Success), "";
      }
      if state.kind == SharedLock {
        var depth := if owner in state.sharedOwners then state.sharedOwners[owner] else 0;
        locks := locks[resource := state.(sharedOwners := state.sharedOwners[owner := Increment(depth)])];
        return Some(if depth != 0 then SuccessNestedShared else Success), state.sharedKey;
      }
      var key := NextKey();
      locks := locks[resource := state.(kind := SharedLock, sharedKey := key, sharedOwners := state.sharedOwners[owner := 1])];
      return Some(Success), key;
    }

    method Release(owner: SessionId, resource: string) returns (status: Status, notified: bool)
      modifies this`locks
      ensures (locks, notified) == Released(old(locks), owner, resource)
      ensures status == if Owns(old(locks), owner, resource) then Success else ErrorSesnNLocked
    {
      notified := false;
      if resource !in locks {
        return ErrorSesnNLocked, false;
      }
      var state := locks[resource];
      if state.kind == ExclusiveLock && state.exclusiveOwner == owner {
        var depth := Decrement(state.exclusiveDepth);
        if depth == 0 {
          locks := Erase(locks, resource);
          notified := true;
        } else {
          locks := locks[resource := state.(exclusiveDepth := depth)];
        }
        return Success, notified;
      }
      if state.kind == SharedLock && owner in state.sharedOwners {
        var depth := Decrement(state.sharedOwners[owner]);
        var owners := if depth == 0 then state.sharedOwners - {owner} else state.sharedOwners[owner := depth];
        locks := locks[resource := state.(sharedOwners := owners)];
        if owners == map[] {
          locks := Erase(locks, resource);
          assert locks == Erase(old(locks), resource);
          notified := true;
        }
        return Success, notified;
      }
      return ErrorSesnNLocked, false;
    }

    method ReleaseEverything(owner: SessionId, resource: string) returns (notified: bool)
      modifies this`locks
      ensures (locks, notified) == ReleasedAll(old(locks), owner, resource)
    {
      notified := false;
      if resource !in locks {
        return;
      }
      var state := locks[resource];
      if state.kind == ExclusiveLock && state.exclusiveOwner == owner {
        locks := Erase(locks, resource);
        notified := true;
      } else if state.kind == SharedLock {
        notified := owner in state.sharedOwners;
        var owners := state.sharedOwners - {owner};
        locks := locks[resource := state.(sharedOwners := owners)];
        if owners == map[] {
          locks := Erase(locks, resource);
          assert locks == Erase(old(locks), resource);
        }
      }
    }
  }
}
