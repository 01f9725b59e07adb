/** Any number of concurrent stage, unstage, create and delete calls over one set of volume locks:
    NodeStageVolume with its mount goroutine, its capacity-1 result channel and the background
    releaser of mountWithTimeout, NodeUnstageVolume, and the nested uses made by CreateVolume,
    DeleteVolume and copyFromVolume. Every lock operation, channel operation and goroutine start
    is one step; steps of different calls interleave freely. */
module StageProtocol {
  import opened VolumeLock
  import opened Wrappers

  type CallId = nat
  type MountId = nat

  /** Why the wait for the mount ended early. */
  datatype Cause = TimerFired | ContextDeadline | ContextCanceled

  datatype Reply = Ok | Internal | DeadlineExceeded | Canceled

  /** What a call still has to do: stage a volume (and, for the controller's internal mounts, defer the
      matching unstage), or work that touches no lock (mkdir, cp, rename) and may fail. */
  datatype Op = Stage(key: Key, cleanup: bool) | Work

  datatype Pc =
    | Entering                                                    // about to take the call's own key, if any
    | Ready                                                       // between two operations
    | Preparing(key: Key)                                         // stage: holds the key, no mount yet
    | Selecting(key: Key, mid: MountId)                           // blocked in the select
    | Rechecking(key: Key, mid: MountId, cause: Cause)            // timer or context won the select
    | Detaching(key: Key, mid: MountId, cause: Cause)             // re-check took its default case
    | Returning(key: Key, got: Option<MountId>, releaseLock: bool, reply: Reply) // deferred release next
    | Cleaning(key: Key)                                          // unstage: holds the key
    | Done

  /** `todo` are the operations left, `defers` the keys of the deferred unstages, innermost first. */
  datatype Call = Call(top: Option<Key>, todo: seq<Op>, defers: seq<Key>, cleanup: bool, pc: Pc)

  datatype Goroutine = Mounting | Sending(ok: bool) | Exited(ok: bool)

  datatype Releaser = NotSpawned | Blocked | Releasing | Finished

  /** One mount attempt: the goroutine, the channel it sends to, and the releaser if one was spawned. */
  datatype Mount = Mount(key: Key, starter: CallId, gor: Goroutine, chan: seq<bool>, rel: Releaser)

  /** The last four fields record history: every successful acquire, every release, every send and receive. */
  datatype State = State(
    locks: set<Key>,
    calls: map<CallId, Call>,
    mounts: map<MountId, Mount>,
    acquires: multiset<Key>,
    releases: multiset<Key>,
    sends: multiset<MountId>,
    receives: multiset<MountId>)

  const Initial := State({}, map[], map[], multiset{}, multiset{}, multiset{}, multiset{})

  datatype Action =
    | Enter
    | DoWork(ok: bool)
    | BeginStage
    | PrepareFails
    | AlreadyMounted
    | StartMount(newMid: MountId)
    | SelectReceives
    | WaitEnds(cause: Cause)
    | Recheck
    | Detach
    | Return
    | BeginUnstage
    | EndUnstage
    | Finish

  datatype Event = MountReturns(ok: bool) | Send | ReleaserReceives | ReleaserReleases

  /** A new request, a step of a handler, or a step of a mount goroutine or of its releaser. */
  datatype Step =
    | Arrive(pid: CallId, call: Call)
    | ByCall(pid: CallId, action: Action)
    | ByMount(mid: MountId, event: Event)

  // ---------------------------------------------------------------- who holds what

  /** A key can be held as a call's own key, by a stage or unstage running inside a call, or by a releaser. */
  datatype Owner = TopOf(pid: CallId) | NestedOf(pid: CallId) | ReleaserOf(mid: MountId)

  function TopKey(c: Call): Option<Key> {
    if c.pc.Entering? || c.pc.Done? then None else c.top
  }

  function NestedKey(pc: Pc): Option<Key> {
    match pc
    case Preparing(k) => Some(k)
    case Selecting(k, _) => Some(k)
    case Rechecking(k, _, _) => Some(k)
    case Detaching(k, _, _) => Some(k)
    case Returning(k, _, releaseLock, _) => if releaseLock then Some(k) else None
    case Cleaning(k) => Some(k)
    case _ => None
  }

  /** The mount whose result the call is still going to receive or hand over. */
  function AwaitedMount(pc: Pc): Option<MountId> {
    match pc
    case Selecting(_, m) => Some(m)
    case Rechecking(_, m, _) => Some(m)
    case Detaching(_, m, _) => Some(m)
    case _ => None
  }

  predicate Holds(s: State, o: Owner, k: Key) {
    match o
    case TopOf(p) => p in s.calls && TopKey(s.calls[p]) == Some(k)
    case NestedOf(p) => p in s.calls && NestedKey(s.calls[p].pc) == Some(k)
    case ReleaserOf(m) =>
      m in s.mounts && s.mounts[m].key == k && (s.mounts[m].rel.Blocked? || s.mounts[m].rel.Releasing?)
  }

  // ---------------------------------------------------------------- the requests

  /** The call arrives with its program: nothing taken, nothing deferred by a stage yet. */
  predicate Fresh(c: Call) {
    c.pc.Entering? && !c.cleanup
  }

  /** None of the call's stages and unstages uses the key it takes as its own. */
  predicate OwnKeyUnused(c: Call) {
    c.top.Some? ==>
    && (forall i :: 0 <= i < |c.todo| && c.todo[i].Stage? ==> c.todo[i].key != c.top.value)
    && (forall i :: 0 <= i < |c.defers| ==> c.defers[i] != c.top.value)
    && NestedKey(c.pc) != Some(c.top.value)
    && (c.pc.Returning? ==> c.pc.key != c.top.value)
  }

  // ---------------------------------------------------------------- the steps

  /** The three things one handler step can touch besides its own record. */
  datatype LockOp = NoLock | Lock(key: Key) | Unlock(key: Key)

  datatype MountOp = NoMount | Started(mid: MountId) | Took(mid: MountId) | Spawned(mid: MountId)

  datatype Outcome = Outcome(call: Call, lock: LockOp, mount: MountOp)

  function LocksAfter(locks: set<Key>, l: LockOp): set<Key> {
    match l
    case NoLock => locks
    case Lock(k) => locks + {k}
    case Unlock(k) => locks - {k}
  }

  function MountsAfter(mounts: map<MountId, Mount>, p: CallId, pc: Pc, op: MountOp): map<MountId, Mount>
    requires op.Took? ==> op.mid in mounts && mounts[op.mid].chan != []
    requires op.Spawned? ==> op.mid in mounts
    requires op.Started? ==> pc.Selecting?
  {
    match op
    case NoMount => mounts
    case Started(m) => mounts[m := Mount(pc.key, p, Mounting, [], NotSpawned)]
    case Took(m) => mounts[m := mounts[m].(chan := mounts[m].chan[1..])]
    case Spawned(m) => mounts[m := mounts[m].(rel := Blocked)]
  }

  function ReplyTo(cause: Cause): Reply {
    match cause
    case TimerFired => DeadlineExceeded
    case ContextDeadline => DeadlineExceeded
    case ContextCanceled => Canceled
  }

  function Verdict(ok: bool): Reply { if ok then Reply.Ok else Internal }

  predicate CallEnabled(s: State, c: Call, a: Action) {
    match a
    case Enter => c.pc.Entering?
    case DoWork(_) => c.pc.Ready? && c.todo != [] && c.todo[0].Work?
    case BeginStage => c.pc.Ready? && c.todo != [] && c.todo[0].Stage?
    case PrepareFails => c.pc.Preparing?
    case AlreadyMounted => c.pc.Preparing?
    case StartMount(m) => c.pc.Preparing? && m !in s.mounts
    case SelectReceives => c.pc.Selecting? && c.pc.mid in s.mounts && s.mounts[c.pc.mid].chan != []
    case WaitEnds(_) => c.pc.Selecting?
    case Recheck => c.pc.Rechecking? && c.pc.mid in s.mounts
    case Detach => c.pc.Detaching? && c.pc.mid in s.mounts
    case Return => c.pc.Returning?
    case BeginUnstage => c.pc.Ready? && c.todo == [] && c.defers != []
    case EndUnstage => c.pc.Cleaning?
    case Finish => c.pc.Ready? && c.todo == [] && c.defers == []
  }

  predicate MountEnabled(x: Mount, e: Event) {
    match e
    case MountReturns(_) => x.gor.Mounting?
    case Send => x.gor.Sending? && |x.chan| < 1
    case ReleaserReceives => x.rel.Blocked? && x.chan != []
    case ReleaserReleases => x.rel.Releasing?
  }

  predicate Enabled(s: State, step: Step) {
    match step
    case Arrive(p, c) => p !in s.calls && Fresh(c)
    case ByCall(p, a) => p in s.calls && CallEnabled(s, s.calls[p], a)
    case ByMount(m, e) => m in s.mounts && MountEnabled(s.mounts[m], e)
  }

  function CallStep(s: State, c: Call, a: Action): Outcome
    requires CallEnabled(s, c, a)
  {
    match a
    case Enter =>
      if c.top.None? then Outcome(c.(pc := Ready), NoLock, NoMount)
      else if c.top.value in s.locks then Outcome(c.(pc := Done), NoLock, NoMount)
      else Outcome(c.(pc := Ready), Lock(c.top.value), NoMount)
    case DoWork(ok) => Outcome(c.(todo := if ok then c.todo[1..] else []), NoLock, NoMount)
    case BeginStage =>
      var k := c.todo[0].key;
      if k in s.locks then Outcome(c.(todo := []), NoLock, NoMount)
      else Outcome(c.(todo := c.todo[1..], cleanup := c.todo[0].cleanup, pc := Preparing(k)), Lock(k), NoMount)
    case PrepareFails => Outcome(c.(pc := Returning(c.pc.key, None, true, Internal)), NoLock, NoMount)
    case AlreadyMounted => Outcome(c.(pc := Returning(c.pc.key, None, true, Reply.Ok)), NoLock, NoMount)
    case StartMount(m) => Outcome(c.(pc := Selecting(c.pc.key, m)), NoLock, Started(m))
    case SelectReceives =>
      Outcome(c.(pc := Returning(c.pc.key, Some(c.pc.mid), true, Verdict(s.mounts[c.pc.mid].chan[0]))), NoLock,
          Took(c.pc.mid))
    case WaitEnds(cause) => Outcome(c.(pc := Rechecking(c.pc.key, c.pc.mid, cause)), NoLock, NoMount)
    case Recheck =>
      var ch := s.mounts[c.pc.mid].chan;
      if ch != [] then Outcome(c.(pc := Returning(c.pc.key, Some(c.pc.mid), true, Verdict(ch[0]))), NoLock,
          Took(c.pc.mid))
      else Outcome(c.(pc := Detaching(c.pc.key, c.pc.mid, c.pc.cause)), NoLock, NoMount)
    case Detach => Outcome(c.(pc := Returning(c.pc.key, None, false, ReplyTo(c.pc.cause))), NoLock, Spawned(c.pc.mid))
    case Return =>
      var c' := if !c.pc.reply.Ok? then c.(todo := [], pc := Ready)
                else if c.cleanup then c.(defers := [c.pc.key] + c.defers, pc := Ready)
                else c.(pc := Ready);
      Outcome(c', if c.pc.releaseLock then Unlock(c.pc.key) else NoLock, NoMount)
    case BeginUnstage =>
      var k := c.defers[0];
      if k in s.locks then Outcome(c.(defers := c.defers[1..]), NoLock, NoMount)
      else Outcome(c.(defers := c.defers[1..], pc := Cleaning(k)), Lock(k), NoMount)
    case EndUnstage => Outcome(c.(pc := Ready), Unlock(c.pc.key), NoMount)
    case Finish => Outcome(c.(pc := Done), if c.top.Some? then Unlock(c.top.value) else NoLock, NoMount)
  }

  function At(s: State, p: CallId, c: Call): State {
    s.(calls := s.calls[p := c])
  }

  /** The state after call `p` made the step with outcome `o`. */
  function Commit(s: State, p: CallId, o: Outcome): State
    requires o.mount.Took? ==> o.mount.mid in s.mounts && s.mounts[o.mount.mid].chan != []
    requires o.mount.Spawned? ==> o.mount.mid in s.mounts
    requires o.mount.Started? ==> o.call.pc.Selecting?
  {
    State(
      LocksAfter(s.locks, o.lock),
      s.calls[p := o.call],
      MountsAfter(s.mounts, p, o.call.pc, o.mount),
      if o.lock.Lock? then s.acquires + multiset{o.lock.key} else s.acquires,
      if o.lock.Unlock? then s.releases + multiset{o.lock.key} else s.releases,
      s.sends,
      if o.mount.Took? then s.receives + multiset{o.mount.mid} else s.receives)
  }

  function ApplyCall(s: State, p: CallId, a: Action): State
    requires p in s.calls && CallEnabled(s, s.calls[p], a)
  {
    Commit(s, p, CallStep(s, s.calls[p], a))
  }

  function ApplyMount(s: State, m: MountId, e: Event): State
    requires m in s.mounts && MountEnabled(s.mounts[m], e)
  {
    var x := s.mounts[m];
    match e
    case MountReturns(ok) => s.(mounts := s.mounts[m := x.(gor := Sending(ok))])
    case Send =>
      s.(mounts := s.mounts[m := x.(gor := Exited(x.gor.ok), chan := x.chan + [x.gor.ok])],
          sends := s.sends + multiset{m})
    case ReleaserReceives =>
      s.(mounts := s.mounts[m := x.(chan := x.chan[1..], rel := Releasing)], receives := s.receives + multiset{m})
    case ReleaserReleases =>
      s.(mounts := s.mounts[m := x.(rel := Finished)], locks := s.locks - {x.key},
          releases := s.releases + multiset{x.key})
  }

  function Apply(s: State, step: Step): State
    requires Enabled(s, step)
  {
    match step
    case Arrive(p, c) => At(s, p, c)
    case ByCall(p, a) => ApplyCall(s, p, a)
    case ByMount(m, e) => ApplyMount(s, m, e)
  }

  // ---------------------------------------------------------------- what a step does to ownership

  datatype Effect = Same | Take(o: Owner, k: Key) | Drop(o: Owner, k: Key) | Move(o: Owner, o': Owner, k: Key)

  function CallEffect(s: State, p: CallId, a: Action): Effect
    requires p in s.calls && CallEnabled(s, s.calls[p], a)
  {
    var c := s.calls[p];
    match a
    case Enter => if c.top.Some? && c.top.value !in s.locks then Take(TopOf(p), c.top.value) else Same
    case BeginStage => if c.todo[0].key in s.locks then Same else Take(NestedOf(p), c.todo[0].key)
    case BeginUnstage => if c.defers[0] in s.locks then Same else Take(NestedOf(p), c.defers[0])
    case Detach => Move(NestedOf(p), ReleaserOf(c.pc.mid), c.pc.key)
    case Return => if c.pc.releaseLock then Drop(NestedOf(p), c.pc.key) else Same
    case EndUnstage => Drop(NestedOf(p), c.pc.key)
    case Finish => if c.top.Some? then Drop(TopOf(p), c.top.value) else Same
    case _ => Same
  }

  function EffectOf(s: State, step: Step): Effect
    requires Enabled(s, step)
  {
    match step
    case Arrive(_, _) => Same
    case ByCall(p, a) => CallEffect(s, p, a)
    case ByMount(m, e) => if e.ReleaserReleases? then Drop(ReleaserOf(m), s.mounts[m].key) else Same
  }

  /** The effect `e` accounts for every change of ownership, of the lock set and of the two lock histories. */
  ghost predicate Effected(s: State, s': State, e: Effect) {
    && match e {
         case Same =>
           && s'.locks == s.locks && s'.acquires == s.acquires && s'.releases == s.releases
           && (forall o, k :: Holds(s', o, k) <==> Holds(s, o, k))
         case Take(o1, k1) =>
           && k1 !in s.locks && s'.locks == s.locks + {k1}
           && s'.acquires == s.acquires + multiset{k1} && s'.releases == s.releases
           && (forall o, k :: Holds(s', o, k) <==> Holds(s, o, k) || (o == o1 && k == k1))
         case Drop(o1, k1) =>
           && Holds(s, o1, k1) && s'.locks == s.locks - {k1}
           && s'.acquires == s.acquires && s'.releases == s.releases + multiset{k1}
           && (forall o, k :: Holds(s', o, k) <==> Holds(s, o, k) && !(o == o1 && k == k1))
         case Move(o1, o2, k1) =>
           && Holds(s, o1, k1) && s'.locks == s.locks && s'.acquires == s.acquires && s'.releases == s.releases
           && (forall o, k :: Holds(s', o, k) <==> (Holds(s, o, k) && !(o == o1 && k == k1)) || (o == o2 && k == k1))
       }
  }

  // ---------------------------------------------------------------- the invariant

  /** A key is in the lock set exactly when it has one owner. */
  ghost predicate OneOwner(s: State) {
    && (forall o, k :: Holds(s, o, k) ==> k in s.locks)
    && (forall k :: k in s.locks ==> exists o :: Holds(s, o, k))
    && (forall o1, o2, k :: Holds(s, o1, k) && Holds(s, o2, k) ==> o1 == o2)
  }

  /** Every acquire not yet matched by a release is a key in the set, and the other way round. */
  predicate Conserved(s: State) {
    s.acquires == s.releases + multiset(s.locks)
  }

  /** A mount's result is sent once, buffered at most once, and received once, by one receiver. */
  predicate MountOk(s: State, m: MountId)
    requires m in s.mounts
  {
    var x := s.mounts[m];
    && (x.gor.Exited? ==> s.sends[m] == 1 && |x.chan| + s.receives[m] == 1 && (x.chan != [] ==> x.chan[0] == x.gor.ok))
    && (!x.gor.Exited? ==> s.sends[m] == 0 && x.chan == [] && s.receives[m] == 0)
    && (x.rel.Blocked? ==> s.receives[m] == 0)
    && (x.rel.Releasing? || x.rel.Finished? ==> s.receives[m] == 1)
    && (x.rel.NotSpawned? && s.receives[m] == 0 ==>
          x.starter in s.calls && AwaitedMount(s.calls[x.starter].pc) == Some(m))
  }

  /** The handler keeps the lock held exactly when it returns a timeout or a cancellation. */
  predicate CallOk(c: Call) {
    c.pc.Returning? ==> (c.pc.releaseLock <==> c.pc.reply.Ok? || c.pc.reply.Internal?)
  }

  /** A call waiting for a mount started it, with the key it holds, and nobody else received its result. */
  predicate WaiterOk(s: State, p: CallId)
    requires p in s.calls
  {
    var pc := s.calls[p].pc;
    && (AwaitedMount(pc).Some? ==>
          && pc.mid in s.mounts
          && s.mounts[pc.mid].starter == p
          && s.mounts[pc.mid].key == pc.key
          && s.mounts[pc.mid].rel.NotSpawned?
          && s.receives[pc.mid] == 0)
    && (pc.Returning? && pc.got.Some? ==>
          && pc.got.value in s.mounts
          && s.mounts[pc.got.value].starter == p
          && s.mounts[pc.got.value].key == pc.key
          && s.mounts[pc.got.value].rel.NotSpawned?
          && s.receives[pc.got.value] == 1
          && pc.releaseLock
          && s.mounts[pc.got.value].gor.Exited?
          && pc.reply == Verdict(s.mounts[pc.got.value].gor.ok))
  }

  predicate Unused(s: State, m: MountId) {
    m !in s.mounts ==> s.sends[m] == 0 && s.receives[m] == 0
  }

  ghost predicate Linked(s: State) {
    && (forall m :: m in s.mounts ==> MountOk(s, m))
    && (forall p :: p in s.calls ==> WaiterOk(s, p) && CallOk(s.calls[p]))
    && (forall m :: Unused(s, m))
  }

  ghost predicate Inv(s: State) {
    OneOwner(s) && Conserved(s) && Linked(s)
  }

  // ---------------------------------------------------------------- every step keeps the invariant

  /** The effect of a step that changes only the record of call `p`, from `c` to `c'`. */
  predicate LocalEffect(p: CallId, c: Call, c': Call, e: Effect) {
    match e
    case Same => TopKey(c') == TopKey(c) && NestedKey(c'.pc) == NestedKey(c.pc)
    case Take(TopOf(q), k) =>
      q == p && TopKey(c) == None && TopKey(c') == Some(k) && NestedKey(c'.pc) == NestedKey(c.pc)
    case Take(NestedOf(q), k) =>
      q == p && NestedKey(c.pc) == None && NestedKey(c'.pc) == Some(k) && TopKey(c') == TopKey(c)
    case Drop(TopOf(q), k) =>
      q == p && TopKey(c) == Some(k) && TopKey(c') == None && NestedKey(c'.pc) == NestedKey(c.pc)
    case Drop(NestedOf(q), k) =>
      q == p && NestedKey(c.pc) == Some(k) && NestedKey(c'.pc) == None && TopKey(c') == TopKey(c)
    case _ => false
  }

  predicate LocksEffected(s: State, s': State, e: Effect) {
    match e
    case Take(_, k) =>
      k !in s.locks && s'.locks == s.locks + {k} && s'.acquires == s.acquires + multiset{k} && s'.releases == s.releases
    case Drop(_, k) =>
      s'.locks == s.locks - {k} && s'.acquires == s.acquires && s'.releases == s.releases + multiset{k}
    case _ => s'.locks == s.locks && s'.acquires == s.acquires && s'.releases == s.releases
  }

  predicate SameReleasers(s: State, s': State) {
    && (forall m :: m in s'.mounts && m !in s.mounts ==> s'.mounts[m].rel.NotSpawned?)
    && (forall m :: m in s.mounts ==>
          m in s'.mounts && s'.mounts[m].rel == s.mounts[m].rel && s'.mounts[m].key == s.mounts[m].key)
  }

  lemma LocalEffected(s: State, s': State, p: CallId, e: Effect)
    requires p in s.calls && p in s'.calls && s'.calls == s.calls[p := s'.calls[p]]
    requires SameReleasers(s, s')
    requires LocalEffect(p, s.calls[p], s'.calls[p], e) && LocksEffected(s, s', e)
    ensures Effected(s, s', e)
  {
    forall o, k
      ensures o != TopOf(p) && o != NestedOf(p) ==> (Holds(s', o, k) <==> Holds(s, o, k))
    {
      HoldsElsewhere(s, s', p, o, k);
    }
  }

  lemma HoldsElsewhere(s: State, s': State, p: CallId, o: Owner, k: Key)
    requires p in s.calls && p in s'.calls && s'.calls == s.calls[p := s'.calls[p]] && SameReleasers(s, s')
    ensures o != TopOf(p) && o != NestedOf(p) ==> (Holds(s', o, k) <==> Holds(s, o, k))
  {
  }

  lemma DetachEffected(s: State, p: CallId)
    requires Linked(s) && p in s.calls && CallEnabled(s, s.calls[p], Detach)
    ensures Effected(s, ApplyCall(s, p, Detach), CallEffect(s, p, Detach))
  {
    assert WaiterOk(s, p);
  }

  lemma CallEffected(s: State, p: CallId, a: Action)
    requires Linked(s) && p in s.calls && CallEnabled(s, s.calls[p], a)
    ensures Effected(s, ApplyCall(s, p, a), CallEffect(s, p, a))
  {
    if a.Detach? {
      DetachEffected(s, p);
    } else {
      CallIsLocal(s, p, a);
      LocalEffected(s, ApplyCall(s, p, a), p, CallEffect(s, p, a));
    }
  }

  lemma CallIsLocal(s: State, p: CallId, a: Action)
    requires p in s.calls && CallEnabled(s, s.calls[p], a) && !a.Detach?
    ensures var s' := ApplyCall(s, p, a);
            && p in s'.calls && s'.calls == s.calls[p := s'.calls[p]] && SameReleasers(s, s')
            && LocalEffect(p, s.calls[p], s'.calls[p], CallEffect(s, p, a)) && LocksEffected(s, s', CallEffect(s, p, a))
  {
    var o := CallStep(s, s.calls[p], a);
    OutcomeEffect(s, p, a);
  }

  lemma OutcomeEffect(s: State, p: CallId, a: Action)
    requires p in s.calls && CallEnabled(s, s.calls[p], a) && !a.Detach?
    ensures var o := CallStep(s, s.calls[p], a);
            var e := CallEffect(s, p, a);
            && LocalEffect(p, s.calls[p], o.call, e) && !o.mount.Spawned?
            && (o.mount.Started? ==> o.mount.mid !in s.mounts)
            && (o.lock.NoLock? <==> e.Same?)
            && (o.lock.Lock? ==> e.Take? && e.k == o.lock.key && e.k !in s.locks)
            && (o.lock.Unlock? ==> e.Drop? && e.k == o.lock.key)
  {
  }

  lemma MountEffected(s: State, m: MountId, e: Event)
    requires Linked(s) && m in s.mounts && MountEnabled(s.mounts[m], e)
    ensures Effected(s, ApplyMount(s, m, e), EffectOf(s, ByMount(m, e)))
  {
  }

  lemma OwnershipKept(s: State, s': State, e: Effect)
    requires OneOwner(s) && Conserved(s) && Effected(s, s', e)
    ensures OneOwner(s') && Conserved(s')
  {
    forall k | k in s'.locks
      ensures exists o :: Holds(s', o, k)
    {
      StillOwned(s, s', e, k);
    }
    forall o1, o2, k | Holds(s', o1, k) && Holds(s', o2, k)
      ensures o1 == o2 && k in s'.locks
    {
      OneOwnerKept(s, s', e, o1, o2, k);
    }
    BalanceKept(s, s', e);
  }

  lemma StillOwned(s: State, s': State, e: Effect, k: Key)
    requires OneOwner(s) && Effected(s, s', e) && k in s'.locks
    ensures exists o :: Holds(s', o, k)
  {
    if e.Take? && k == e.k {
      assert Holds(s', e.o, k);
    } else if e.Move? && k == e.k {
      assert Holds(s', e.o', k);
    } else {
      var o :| Holds(s, o, k);
      assert Holds(s', o, k);
    }
  }

  lemma OneOwnerKept(s: State, s': State, e: Effect, o1: Owner, o2: Owner, k: Key)
    requires OneOwner(s) && Effected(s, s', e) && Holds(s', o1, k) && Holds(s', o2, k)
    ensures o1 == o2 && k in s'.locks
  {
  }

  lemma BalanceKept(s: State, s': State, e: Effect)
    requires OneOwner(s) && Conserved(s) && Effected(s, s', e)
    ensures Conserved(s')
  {
  }

  /** What an outcome does to the mount its call waits for. */
  predicate AwaitsOk(s: State, c: Call, o: Outcome) {
    match o.mount
    case NoMount =>
      && AwaitedMount(o.call.pc) == AwaitedMount(c.pc)
      && (AwaitedMount(c.pc).Some? ==> o.call.pc.key == c.pc.key)
      && (o.call.pc.Returning? ==> o.call.pc.got.None? || o.call.pc == c.pc)
    case Started(m) => c.pc.Preparing? && o.call.pc == Selecting(c.pc.key, m) && m !in s.mounts
    case Took(m) =>
      && AwaitedMount(c.pc) == Some(m) && m in s.mounts && s.mounts[m].chan != []
      && o.call.pc.Returning? && o.call.pc.got == Some(m) && o.call.pc.releaseLock && o.call.pc.key == c.pc.key
      && o.call.pc.reply == Verdict(s.mounts[m].chan[0])
    case Spawned(m) => AwaitedMount(c.pc) == Some(m) && m in s.mounts && o.call.pc.Returning? && o.call.pc.got.None?
  }

  lemma OutcomeAwaits(s: State, c: Call, a: Action)
    requires CallEnabled(s, c, a)
    ensures AwaitsOk(s, c, CallStep(s, c, a))
  {
  }

  lemma CallStaysOk(s: State, c: Call, a: Action)
    requires CallEnabled(s, c, a) && CallOk(c)
    ensures CallOk(CallStep(s, c, a).call)
  {
  }

  lemma MountStaysOk(s: State, p: CallId, o: Outcome, m: MountId)
    requires p in s.calls && AwaitsOk(s, s.calls[p], o) && m in Commit(s, p, o).mounts
    requires WaiterOk(s, p) && (m in s.mounts ==> MountOk(s, m)) && Unused(s, m)
    ensures MountOk(Commit(s, p, o), m)
  {
    match o.mount
    case NoMount =>
    case Started(_) =>
    case Took(_) =>
    case Spawned(_) =>
  }

  lemma WaiterStaysOk(s: State, p: CallId, o: Outcome, q: CallId)
    requires p in s.calls && AwaitsOk(s, s.calls[p], o) && q in s.calls
    requires WaiterOk(s, p) && WaiterOk(s, q) && (o.mount.Started? ==> Unused(s, o.mount.mid))
    requires o.mount.Took? ==> MountOk(s, o.mount.mid)
    ensures WaiterOk(Commit(s, p, o), q)
  {
    match o.mount
    case NoMount =>
    case Started(_) =>
    case Took(_) =>
    case Spawned(_) =>
  }

  lemma UnusedStaysUnused(s: State, p: CallId, o: Outcome, m: MountId)
    requires p in s.calls && AwaitsOk(s, s.calls[p], o) && Unused(s, m)
    ensures Unused(Commit(s, p, o), m)
  {
  }

  lemma CallLinked(s: State, p: CallId, o: Outcome)
    requires Linked(s) && p in s.calls && AwaitsOk(s, s.calls[p], o) && CallOk(o.call)
    ensures Linked(Commit(s, p, o))
  {
    var s' := Commit(s, p, o);
    forall m | m in s'.mounts
      ensures MountOk(s', m)
    {
      MountStaysOk(s, p, o, m);
    }
    forall q | q in s'.calls
      ensures WaiterOk(s', q) && CallOk(s'.calls[q])
    {
      WaiterStaysOk(s, p, o, q);
    }
    forall m
      ensures Unused(s', m)
    {
      UnusedStaysUnused(s, p, o, m);
    }
  }

  lemma ArriveKeepsInv(s: State, p: CallId, c: Call)
    requires Inv(s) && p !in s.calls && Fresh(c)
    ensures Inv(At(s, p, c)) && Effected(s, At(s, p, c), Same)
  {
    var s' := At(s, p, c);
    forall q | q in s'.calls
      ensures WaiterOk(s', q) && CallOk(s'.calls[q])
    {
      assert q in s.calls ==> WaiterOk(s, q);
    }
    forall m
      ensures Unused(s', m)
    {
      assert Unused(s, m);
    }
    forall m | m in s'.mounts
      ensures MountOk(s', m)
    {
      assert MountOk(s, m);
    }
    OwnershipKept(s, s', Same);
  }

  lemma EventKeepsMountOk(s: State, m: MountId, e: Event, n: MountId)
    requires m in s.mounts && MountEnabled(s.mounts[m], e) && MountOk(s, m) && n in s.mounts && MountOk(s, n)
    ensures MountOk(ApplyMount(s, m, e), n)
  {
  }

  lemma EventKeepsWaiter(s: State, m: MountId, e: Event, q: CallId)
    requires m in s.mounts && MountEnabled(s.mounts[m], e) && MountOk(s, m) && q in s.calls && WaiterOk(s, q)
    ensures WaiterOk(ApplyMount(s, m, e), q)
  {
  }

  lemma MountLinked(s: State, m: MountId, e: Event)
    requires Linked(s) && m in s.mounts && MountEnabled(s.mounts[m], e)
    ensures Linked(ApplyMount(s, m, e))
  {
    var s' := ApplyMount(s, m, e);
    forall n | n in s'.mounts
      ensures MountOk(s', n)
    {
      EventKeepsMountOk(s, m, e, n);
    }
    forall q | q in s'.calls
      ensures WaiterOk(s', q) && CallOk(s'.calls[q])
    {
      EventKeepsWaiter(s, m, e, q);
    }
    forall n
      ensures Unused(s', n)
    {
      assert Unused(s, n);
    }
  }

  /** Any step of any process keeps: one owner per held key, conservation of acquires and releases,
      and one receiver per mount result. */
  lemma StepKeepsInv(s: State, step: Step)
    requires Inv(s) && Enabled(s, step)
    ensures Inv(Apply(s, step))
    ensures Effected(s, Apply(s, step), EffectOf(s, step))
  {
    match step
    case Arrive(p, c) =>
      ArriveKeepsInv(s, p, c);
    case ByCall(p, a) =>
      CallEffected(s, p, a);
      OutcomeAwaits(s, s.calls[p], a);
      CallStaysOk(s, s.calls[p], a);
      CallLinked(s, p, CallStep(s, s.calls[p], a));
      OwnershipKept(s, Apply(s, step), EffectOf(s, step));
    case ByMount(m, e) =>
      MountEffected(s, m, e);
      MountLinked(s, m, e);
      OwnershipKept(s, Apply(s, step), EffectOf(s, step));
  }

  // ---------------------------------------------------------------- whole runs

  predicate Runs(s: State, steps: seq<Step>)
    decreases steps
  {
    steps == [] || (Enabled(s, steps[0]) && Runs(Apply(s, steps[0]), steps[1..]))
  }

  function After(s: State, steps: seq<Step>): State
    requires Runs(s, steps)
    decreases steps
  {
    if steps == [] then s else After(Apply(s, steps[0]), steps[1..])
  }

  lemma {:induction false} RunKeepsInv(s: State, steps: seq<Step>)
    requires Inv(s) && Runs(s, steps)
    ensures Inv(After(s, steps))
    decreases steps
  {
    if steps != [] {
      StepKeepsInv(s, steps[0]);
      RunKeepsInv(Apply(s, steps[0]), steps[1..]);
    }
  }

  /** In every reachable state a key is in the lock set exactly when it has one owner, acquires and releases
      balance up to the held keys, and every mount result has one receiver. */
  lemma ReachableInv(steps: seq<Step>)
    requires Runs(Initial, steps)
    ensures Inv(After(Initial, steps))
  {
    RunKeepsInv(Initial, steps);
  }

  /** The mount call, or the hand-over of its result, is not over. */
  predicate InFlight(s: State, m: MountId, k: Key) {
    m in s.mounts && s.mounts[m].key == k && s.receives[m] == 0
  }

  function KeeperOf(s: State, m: MountId): Owner
    requires m in s.mounts
  {
    if s.mounts[m].rel.NotSpawned? then NestedOf(s.mounts[m].starter) else ReleaserOf(m)
  }

  /** Whoever waits for the mount, the handler that started it or the releaser, holds its key. */
  lemma KeeperHolds(s: State, m: MountId, k: Key)
    requires Inv(s) && InFlight(s, m, k)
    ensures Holds(s, KeeperOf(s, m), k)
    ensures s.mounts[m].rel.NotSpawned? ==> AwaitedMount(s.calls[s.mounts[m].starter].pc) == Some(m)
  {
    assert MountOk(s, m);
    if s.mounts[m].rel.NotSpawned? {
      assert WaiterOk(s, s.mounts[m].starter);
    }
  }

  /** While a mount for `k` is in flight, even after its request returned a timeout: its key is taken, so every
      attempt to stage or unstage it aborts; no other mount for `k` is in flight; no call is preparing
      a second one; and no unstage cleanup for `k` runs. */
  lemma MountExcludesOthers(steps: seq<Step>, m: MountId, k: Key)
    requires Runs(Initial, steps) && InFlight(After(Initial, steps), m, k)
    ensures var s := After(Initial, steps);
            && k in s.locks
            && (forall m' :: InFlight(s, m', k) ==> m' == m)
            && (forall p :: p in s.calls ==> s.calls[p].pc != Cleaning(k) && s.calls[p].pc != Preparing(k))
  {
    ReachableInv(steps);
    var s := After(Initial, steps);
    KeeperHolds(s, m, k);
    forall m' | InFlight(s, m', k)
      ensures m' == m
    {
      KeeperHolds(s, m', k);
      assert KeeperOf(s, m') == KeeperOf(s, m);
    }
    forall p | p in s.calls && NestedKey(s.calls[p].pc) == Some(k)
      ensures AwaitedMount(s.calls[p].pc) == Some(m)
    {
      assert Holds(s, NestedOf(p), k);
    }
  }

  /** A release always gives back a key its owner holds, so no release is lost or doubled. */
  lemma ReleaseIsOfHeldKey(steps: seq<Step>, step: Step)
    requires Runs(Initial, steps) && Enabled(After(Initial, steps), step)
    requires EffectOf(After(Initial, steps), step).Drop?
    ensures var s := After(Initial, steps);
            var e := EffectOf(s, step);
            Holds(s, e.o, e.k) && e.k in s.locks && Apply(s, step).locks == s.locks - {e.k}
  {
    ReachableInv(steps);
    StepKeepsInv(After(Initial, steps), step);
  }

  /** A stage answers with the result of the mount it started itself, and gives its key up to a releaser exactly
      when it answers a timeout or a cancellation. */
  lemma ReplyIsTheMountsResult(steps: seq<Step>, p: CallId)
    requires Runs(Initial, steps) && p in After(Initial, steps).calls && After(Initial, steps).calls[p].pc.Returning?
    ensures var s := After(Initial, steps);
            var pc := s.calls[p].pc;
            && (pc.releaseLock <==> !pc.reply.DeadlineExceeded? && !pc.reply.Canceled?)
            && (pc.got.Some? ==>
                  && pc.got.value in s.mounts && s.mounts[pc.got.value].starter == p
                  && s.mounts[pc.got.value].key == pc.key
                  && s.mounts[pc.got.value].gor.Exited? && (pc.reply.Ok? <==> s.mounts[pc.got.value].gor.ok))
  {
    ReachableInv(steps);
    assert WaiterOk(After(Initial, steps), p);
  }

  /** The key the call's next step tries to take for a nested stage or unstage. */
  function NextNestedKey(c: Call): Option<Key> {
    if !c.pc.Ready? then None
    else if c.todo != [] then (if c.todo[0].Stage? then Some(c.todo[0].key) else None)
    else if c.defers != [] then Some(c.defers[0])
    else None
  }

  predicate IsOf(o: Owner, p: CallId) {
    !o.ReleaserOf? && o.pid == p
  }

  /** A nested stage or unstage finds its key taken by its own call exactly when it is the call's own key. */
  lemma NestedBlocksOnItselfIff(s: State, p: CallId, k: Key)
    requires p in s.calls && NextNestedKey(s.calls[p]) == Some(k)
    ensures (exists o :: Holds(s, o, k) && IsOf(o, p)) <==> s.calls[p].top == Some(k)
  {
    if s.calls[p].top == Some(k) {
      assert Holds(s, TopOf(p), k) && IsOf(TopOf(p), p);
    }
  }

  /** A stage of the call's own key always fails: no lock is taken, no mount started, and what is left to do is
      dropped. */
  lemma OwnStageAborts(s: State, p: CallId)
    requires Inv(s) && p in s.calls && s.calls[p].pc.Ready? && s.calls[p].todo != [] && s.calls[p].todo[0].Stage?
    requires s.calls[p].top == Some(s.calls[p].todo[0].key)
    ensures var s' := Apply(s, ByCall(p, BeginStage));
            && Holds(s, TopOf(p), s.calls[p].todo[0].key)
            && s'.locks == s.locks && s'.mounts == s.mounts && s'.calls == s.calls[p := s.calls[p].(todo := [])]
  {
    assert Holds(s, TopOf(p), s.calls[p].todo[0].key);
  }

  /** A call that does not stage or unstage its own key never comes to do so. */
  lemma OwnKeyStaysUnused(s: State, c: Call, a: Action)
    requires CallEnabled(s, c, a) && OwnKeyUnused(c)
    ensures CallStep(s, c, a).call.top == c.top && OwnKeyUnused(CallStep(s, c, a).call)
  {
    var c' := CallStep(s, c, a).call;
    assert forall i :: 0 <= i < |c'.todo| ==> c'.todo[i] in c.todo;
    assert a.Return? && c.pc.reply.Ok? && c.cleanup ==> c'.defers[1..] == c.defers;
  }

  lemma StepKeepsOwnKeyUnused(s: State, step: Step, p: CallId)
    requires Enabled(s, step) && p in s.calls && OwnKeyUnused(s.calls[p])
    ensures p in Apply(s, step).calls && OwnKeyUnused(Apply(s, step).calls[p])
  {
    match step
    case Arrive(_, _) =>
    case ByMount(_, _) =>
    case ByCall(q, a) =>
      if q == p {
        OwnKeyStaysUnused(s, s.calls[p], a);
      }
  }

  lemma {:induction false} RunKeepsOwnKeyUnused(s: State, steps: seq<Step>, p: CallId)
    requires Runs(s, steps) && p in s.calls && OwnKeyUnused(s.calls[p])
    ensures p in After(s, steps).calls && OwnKeyUnused(After(s, steps).calls[p])
    decreases steps
  {
    if steps != [] {
      StepKeepsOwnKeyUnused(s, steps[0], p);
      RunKeepsOwnKeyUnused(Apply(s, steps[0]), steps[1..], p);
    }
  }

  /** A call that arrives with a program that does not use its own key never finds the key of a nested stage or
      unstage taken by itself, however the run goes on: another call has it, or the releaser of a mount that
      was still running when its wait ended. */
  lemma NestedNeverBlocksOnItself(s: State, p: CallId, c: Call, steps: seq<Step>, o: Owner, k: Key)
    requires Enabled(s, Arrive(p, c)) && OwnKeyUnused(c) && Runs(Apply(s, Arrive(p, c)), steps)
    requires var s' := After(Apply(s, Arrive(p, c)), steps);
             Holds(s', o, k) && p in s'.calls && NextNestedKey(s'.calls[p]) == Some(k)
    ensures !IsOf(o, p)
  {
    var s' := After(Apply(s, Arrive(p, c)), steps);
    RunKeepsOwnKeyUnused(Apply(s, Arrive(p, c)), steps, p);
    NestedBlocksOnItselfIff(s', p, k);
  }

  lemma {:induction false} RunsSnoc(s: State, steps: seq<Step>, step: Step)
    requires Runs(s, steps) && Enabled(After(s, steps), step)
    ensures Runs(s, steps + [step]) && After(s, steps + [step]) == Apply(After(s, steps), step)
    decreases steps
  {
    var longer := steps + [step];
    if steps == [] {
      assert longer[0] == step && longer[1..] == [];
      assert After(Apply(s, step), []) == Apply(s, step);
    } else {
      assert longer[0] == steps[0] && longer[1..] == steps[1..] + [step];
      RunsSnoc(Apply(s, steps[0]), steps[1..], step);
    }
  }

  /** The run goes on with a step of call `p`. */
  lemma Extend(s: State, steps: seq<Step>, now: State, p: CallId, a: Action) returns (longer: seq<Step>, next: State)
    requires Runs(s, steps) && After(s, steps) == now && p in now.calls && CallEnabled(now, now.calls[p], a)
    ensures Runs(s, longer) && After(s, longer) == next && steps <= longer
    ensures next == ApplyCall(now, p, a)
  {
    longer, next := steps + [ByCall(p, a)], ApplyCall(now, p, a);
    RunsSnoc(s, steps, ByCall(p, a));
  }

  // ---------------------------------------------------------------- what is left when calls have returned

  /** Once every call has returned, the only keys still held are those of mounts left to their releasers. */
  lemma OnlyReleasersRemain(steps: seq<Step>, k: Key)
    requires Runs(Initial, steps)
    requires var s := After(Initial, steps); (forall p :: p in s.calls ==> s.calls[p].pc.Done?) && k in s.locks
    ensures var s := After(Initial, steps);
            exists m :: m in s.mounts && s.mounts[m].key == k
                && (s.mounts[m].rel.Blocked? || s.mounts[m].rel.Releasing?)
  {
    ReachableInv(steps);
    var s := After(Initial, steps);
    var o :| Holds(s, o, k);
    assert o.ReleaserOf?;
  }

  predicate Quiescent(s: State) {
    && (forall p :: p in s.calls ==> s.calls[p].pc.Done?)
    && (forall m :: m in s.mounts ==>
          s.mounts[m].gor.Exited? && (s.mounts[m].rel.NotSpawned? || s.mounts[m].rel.Finished?))
  }

  /** When everything has come to rest every acquire was matched by exactly one release, no key is held, and
      every mount result was sent once and received once. */
  lemma QuiescentBalance(steps: seq<Step>)
    requires Runs(Initial, steps) && Quiescent(After(Initial, steps))
    ensures var s := After(Initial, steps);
            && s.locks == {} && s.acquires == s.releases
            && (forall m :: m in s.mounts ==> s.sends[m] == 1 && s.receives[m] == 1)
  {
    ReachableInv(steps);
    var s := After(Initial, steps);
    if k :| k in s.locks {
      OnlyReleasersRemain(steps, k);
    }
    forall m | m in s.mounts
      ensures s.sends[m] == 1 && s.receives[m] == 1
    {
      assert MountOk(s, m);
    }
  }

  // ---------------------------------------------------------------- progress once a mount has returned

  function GoroutineRank(g: Goroutine): nat {
    match g
    case Mounting => 2
    case Sending(_) => 1
    case Exited(_) => 0
  }

  function WaitRank(pc: Pc, m: MountId): nat {
    match pc
    case Selecting(_, m') => if m' == m then 5 else 0
    case Rechecking(_, m', _) => if m' == m then 4 else 0
    case Detaching(_, m', _) => if m' == m then 3 else 0
    case Returning(_, got, _, _) => if got == Some(m) then 1 else 0
    case _ => 0
  }

  /** How many steps of the mount's goroutine, its handler and its releaser are left before its key is free. */
  function Rank(s: State, m: MountId): nat {
    if m !in s.mounts then 0
    else
      var x := s.mounts[m];
      GoroutineRank(x.gor) +
      match x.rel
      case NotSpawned => if x.starter in s.calls then WaitRank(s.calls[x.starter].pc, m) else 0
      case Blocked => 2
      case Releasing => 1
      case Finished => 0
  }

  /** The step is one of the mount's goroutine, of the handler waiting for it, or of its releaser. */
  predicate Serves(s: State, step: Step, m: MountId)
    requires Enabled(s, step)
  {
    match step
    case Arrive(_, _) => false
    case ByCall(p, _) => WaitRank(s.calls[p].pc, m) > 0
    case ByMount(m', _) => m' == m
  }

  lemma MountRank(s: State, m': MountId, e: Event, m: MountId)
    requires Linked(s) && m' in s.mounts && MountEnabled(s.mounts[m'], e) && m in s.mounts
    ensures var s' := ApplyMount(s, m', e);
            m in s'.mounts && Rank(s', m) <= Rank(s, m) && (m' == m ==> Rank(s', m) < Rank(s, m))
  {
  }

  lemma OutcomeRank(s: State, c: Call, a: Action, m: MountId)
    requires CallEnabled(s, c, a) && m in s.mounts
    ensures var o := CallStep(s, c, a);
            if o.mount == Spawned(m) then WaitRank(c.pc, m) == 3
            else if WaitRank(c.pc, m) > 0 then WaitRank(o.call.pc, m) < WaitRank(c.pc, m)
            else WaitRank(o.call.pc, m) == 0
  {
  }

  lemma CallRank(s: State, p: CallId, a: Action, m: MountId)
    requires Linked(s) && p in s.calls && CallEnabled(s, s.calls[p], a) && m in s.mounts
    ensures var s' := ApplyCall(s, p, a);
            && m in s'.mounts && Rank(s', m) <= Rank(s, m)
            && (WaitRank(s.calls[p].pc, m) > 0 ==> Rank(s', m) < Rank(s, m))
  {
    OutcomeRank(s, s.calls[p], a, m);
    OutcomeAwaits(s, s.calls[p], a);
    assert WaiterOk(s, p);
  }

  /** No step makes a mount's remaining work grow, and every step of its own three processes makes it shrink. */
  lemma RankDecreases(s: State, step: Step, m: MountId)
    requires Inv(s) && Enabled(s, step) && m in s.mounts
    ensures var s' := Apply(s, step);
            && m in s'.mounts && Rank(s', m) <= Rank(s, m)
            && (Serves(s, step, m) ==> Rank(s', m) < Rank(s, m))
  {
    match step
    case Arrive(_, _) =>
    case ByCall(p, a) => CallRank(s, p, a, m);
    case ByMount(m', e) => MountRank(s, m', e, m);
  }

  /** The step that serves the mount next, once its Mount call has returned. */
  function NextFor(s: State, m: MountId): Step
    requires m in s.mounts
  {
    var x := s.mounts[m];
    if x.gor.Sending? then ByMount(m, Send)
    else if x.rel.Blocked? then ByMount(m, ReleaserReceives)
    else if x.rel.Releasing? then ByMount(m, ReleaserReleases)
    else if x.starter in s.calls && s.calls[x.starter].pc.Selecting? then ByCall(x.starter, SelectReceives)
    else if x.starter in s.calls && s.calls[x.starter].pc.Rechecking? then ByCall(x.starter, Recheck)
    else if x.starter in s.calls && s.calls[x.starter].pc.Detaching? then ByCall(x.starter, Detach)
    else ByCall(x.starter, Return)
  }

  /** After the Mount call has returned nothing blocks: as long as work is left, a step that shrinks it is enabled. */
  lemma ReturnedMountIsNeverStuck(s: State, m: MountId)
    requires Inv(s) && m in s.mounts && !s.mounts[m].gor.Mounting? && Rank(s, m) > 0
    ensures Enabled(s, NextFor(s, m)) && Serves(s, NextFor(s, m), m)
  {
    assert MountOk(s, m);
    var x := s.mounts[m];
    if x.rel.NotSpawned? && x.starter in s.calls {
      assert WaiterOk(s, x.starter);
    }
  }

  lemma LastMountStepFreesKey(s: State, m: MountId, e: Event)
    requires Inv(s) && m in s.mounts && MountEnabled(s.mounts[m], e) && Rank(ApplyMount(s, m, e), m) == 0
    ensures s.mounts[m].key in s.locks && s.mounts[m].key !in ApplyMount(s, m, e).locks
  {
    assert MountOk(s, m);
    assert e.ReleaserReleases?;
    assert Holds(s, ReleaserOf(m), s.mounts[m].key);
  }

  lemma LastCallStepFreesKey(s: State, p: CallId, a: Action, m: MountId)
    requires Inv(s) && p in s.calls && CallEnabled(s, s.calls[p], a) && m in s.mounts
    requires WaitRank(s.calls[p].pc, m) > 0 && Rank(ApplyCall(s, p, a), m) == 0
    ensures s.mounts[m].key in s.locks && s.mounts[m].key !in ApplyCall(s, p, a).locks
  {
    assert WaiterOk(s, p);
    OutcomeAwaits(s, s.calls[p], a);
    assert a.Return?;
    assert Holds(s, NestedOf(p), s.mounts[m].key);
  }

  /** The step that finishes a mount's work takes its key out of the lock set. */
  lemma LastServiceFreesKey(s: State, step: Step, m: MountId)
    requires Inv(s) && Enabled(s, step) && m in s.mounts
    requires Serves(s, step, m) && Rank(Apply(s, step), m) == 0
    ensures s.mounts[m].key in s.locks && s.mounts[m].key !in Apply(s, step).locks
  {
    match step
    case ByMount(_, e) => LastMountStepFreesKey(s, m, e);
    case ByCall(p, a) => LastCallStepFreesKey(s, p, a, m);
  }

  function Served(s: State, steps: seq<Step>, m: MountId): nat
    requires Runs(s, steps)
    decreases steps
  {
    if steps == [] then 0
    else (if Serves(s, steps[0], m) then 1 else 0) + Served(Apply(s, steps[0]), steps[1..], m)
  }

  /** On any run, however other calls interleave, the goroutine, the handler and the releaser of one mount take
      at most as many steps as the measure says. */
  lemma {:induction false} ServiceIsBounded(s: State, steps: seq<Step>, m: MountId)
    requires Inv(s) && Runs(s, steps) && m in s.mounts
    ensures m in After(s, steps).mounts && Served(s, steps, m) + Rank(After(s, steps), m) <= Rank(s, m)
    decreases steps
  {
    if steps != [] {
      StepKeepsInv(s, steps[0]);
      RankDecreases(s, steps[0], m);
      ServiceIsBounded(Apply(s, steps[0]), steps[1..], m);
    }
  }

  /** The mount keeps its key, and a Mount call that returned stays so. */
  predicate SameMount(x: Mount, x': Mount) {
    x'.key == x.key && (!x.gor.Mounting? ==> !x'.gor.Mounting?)
  }

  lemma CallKeepsMount(s: State, p: CallId, o: Outcome, m: MountId)
    requires o.mount.Took? ==> o.mount.mid in s.mounts && s.mounts[o.mount.mid].chan != []
    requires o.mount.Spawned? ==> o.mount.mid in s.mounts
    requires o.mount.Started? ==> o.call.pc.Selecting? && o.mount.mid !in s.mounts
    requires m in s.mounts
    ensures m in Commit(s, p, o).mounts && SameMount(s.mounts[m], Commit(s, p, o).mounts[m])
  {
  }

  lemma OutcomeIsNew(s: State, c: Call, a: Action)
    requires CallEnabled(s, c, a)
    ensures CallStep(s, c, a).mount.Started? ==> CallStep(s, c, a).mount.mid !in s.mounts
  {
  }

  lemma StepKeepsMount(s: State, step: Step, m: MountId)
    requires Enabled(s, step) && m in s.mounts
    ensures m in Apply(s, step).mounts && SameMount(s.mounts[m], Apply(s, step).mounts[m])
  {
    match step
    case Arrive(_, _) =>
    case ByMount(_, _) =>
    case ByCall(p, a) =>
      OutcomeIsNew(s, s.calls[p], a);
      CallKeepsMount(s, p, CallStep(s, s.calls[p], a), m);
  }

  lemma ServeNext(s: State, m: MountId)
    requires Inv(s) && m in s.mounts && !s.mounts[m].gor.Mounting? && Rank(s, m) > 0
    ensures var step := NextFor(s, m);
            && Enabled(s, step) && Serves(s, step, m) && Inv(Apply(s, step)) && m in Apply(s, step).mounts
            && SameMount(s.mounts[m], Apply(s, step).mounts[m]) && Rank(Apply(s, step), m) < Rank(s, m)
            && (Rank(Apply(s, step), m) == 0 ==> s.mounts[m].key !in Apply(s, step).locks)
  {
    var step := NextFor(s, m);
    ReturnedMountIsNeverStuck(s, m);
    RankDecreases(s, step, m);
    StepKeepsInv(s, step);
    StepKeepsMount(s, step, m);
    if Rank(Apply(s, step), m) == 0 {
      LastServiceFreesKey(s, step, m);
    }
  }

  lemma OthersKeepRank(s: State, step: Step, m: MountId)
    requires Inv(s) && Enabled(s, step) && m in s.mounts && !Serves(s, step, m)
    ensures m in Apply(s, step).mounts && Rank(Apply(s, step), m) == Rank(s, m)
  {
    match step
    case Arrive(_, _) =>
    case ByMount(_, _) =>
    case ByCall(p, a) => OtherCallKeepsRank(s, p, a, m);
  }

  lemma OtherCallKeepsRank(s: State, p: CallId, a: Action, m: MountId)
    requires Linked(s) && p in s.calls && CallEnabled(s, s.calls[p], a) && m in s.mounts
    requires WaitRank(s.calls[p].pc, m) == 0
    ensures m in ApplyCall(s, p, a).mounts && Rank(ApplyCall(s, p, a), m) == Rank(s, m)
  {
    OutcomeRank(s, s.calls[p], a, m);
    OutcomeAwaits(s, s.calls[p], a);
    assert WaiterOk(s, p);
  }

  /** The key is free in some state of the run. */
  predicate FreedAlong(s: State, steps: seq<Step>, k: Key)
    requires Runs(s, steps)
    decreases steps
  {
    k !in s.locks || (steps != [] && FreedAlong(Apply(s, steps[0]), steps[1..], k))
  }

  /** No step of the mount's own goroutine, handler or releaser can be taken. */
  ghost predicate AtRest(s: State, m: MountId) {
    forall step :: Enabled(s, step) ==> !Serves(s, step, m)
  }

  /** Once its Mount call has returned, a mount's key is freed on every run, whatever the other calls do in between,
      that goes on until the mount's own processes have nothing left to do. */
  lemma {:induction false} EveryRunFreesKey(s: State, steps: seq<Step>, m: MountId)
    requires Inv(s) && m in s.mounts && !s.mounts[m].gor.Mounting? && Rank(s, m) > 0 && Runs(s, steps)
    requires AtRest(After(s, steps), m)
    ensures FreedAlong(s, steps, s.mounts[m].key)
    decreases steps
  {
    if steps == [] {
      ReturnedMountIsNeverStuck(s, m);
    } else {
      var s' := Apply(s, steps[0]);
      StepKeepsInv(s, steps[0]);
      StepKeepsMount(s, steps[0], m);
      if Serves(s, steps[0], m) && Rank(s', m) == 0 {
        LastServiceFreesKey(s, steps[0], m);
      } else {
        if !Serves(s, steps[0], m) {
          OthersKeepRank(s, steps[0], m);
        }
        EveryRunFreesKey(s', steps[1..], m);
      }
    }
  }

  lemma RunsOneMore(s: State, step: Step, rest: seq<Step>, m: MountId)
    requires Enabled(s, step) && Runs(Apply(s, step), rest) && Serves(s, step, m)
    ensures Runs(s, [step] + rest) && After(s, [step] + rest) == After(Apply(s, step), rest)
    ensures Served(s, [step] + rest, m) == 1 + Served(Apply(s, step), rest, m)
  {
    assert ([step] + rest)[0] == step && ([step] + rest)[1..] == rest;
  }

  /** Once its Mount call has returned, a mount's key can be freed from any state by at most as many steps as the
      measure says, all of them steps of the mount's own goroutine, handler and releaser. */
  lemma {:induction false} FreeingRun(s: State, m: MountId) returns (steps: seq<Step>)
    requires Inv(s) && m in s.mounts && !s.mounts[m].gor.Mounting? && Rank(s, m) > 0
    ensures Runs(s, steps) && |steps| <= Rank(s, m) && Served(s, steps, m) == |steps|
    ensures s.mounts[m].key !in After(s, steps).locks
    decreases Rank(s, m)
  {
    ServeNext(s, m);
    var s', rest := Apply(s, NextFor(s, m)), [];
    if Rank(s', m) > 0 {
      rest := FreeingRun(s', m);
    }
    steps := [NextFor(s, m)] + rest;
    RunsOneMore(s, NextFor(s, m), rest, m);
  }
}
