/** Reference-counted SMB global mappings (pkg/mounter/refcounter_windows.go, csiProxyMounter.SMBMount and SMBUnmount in
    pkg/mounter/safe_mounter_windows.go) with mapping removal enabled: any number of concurrent calls, one mutex per
    share, every operating system call one step. A reference file is named by the MD5 of the lower-case volume ID;
    here it is the lower-case ID itself. */
module SmbMappings {
  import opened GoStrings

  type Share = string
  type Vol = string
  type CallId = nat

  datatype Pc =
    | MountWaits        // SMBMount: waiting for the share's mutex
    | Mapping           // NewSmbGlobalMapping
    | Incrementing      // create the reference file
    | UnmountWaits      // SMBUnmount: link read, waiting for the share's mutex
    | Decrementing      // remove the reference file
    | Counting          // list the references
    | Removing          // RemoveSmbGlobalMapping
    | Unlinking         // Rmdir of the target

  datatype Call = Call(vol: Vol, share: Share, pc: Pc)

  /** `users` records the volumes with a successful SMBMount on a share, and no SMBUnmount on it begun since or still
      running at the time. */
  datatype State = State(
    calls: map<CallId, Call>,
    mutex: map<Share, CallId>,
    mappings: set<Share>,
    refs: map<Share, set<string>>,
    users: set<(Share, Vol)>)

  datatype Step =
    | BeginMount(pid: CallId, vol: Vol, share: Share)
    | BeginUnmount(pid: CallId, vol: Vol, share: Share)
    | Acquire(pid: CallId)
    | Map(pid: CallId, ok: bool)
    | Increment(pid: CallId, made: bool, ok: bool)   // the file can be there although writing it failed
    | Decrement(pid: CallId, ok: bool)
    | Count(pid: CallId, ok: bool)
    | RemoveMapping(pid: CallId, ok: bool)
    | Unlink(pid: CallId)

  function Refs(s: State, share: Share): set<string> {
    if share in s.refs then s.refs[share] else {}
  }

  predicate IsUnmount(pc: Pc) {
    pc.UnmountWaits? || pc.Decrementing? || pc.Counting? || pc.Removing? || pc.Unlinking?
  }

  predicate HasMutex(pc: Pc) {
    !pc.MountWaits? && !pc.UnmountWaits?
  }

  /** Some SMBUnmount of the volume has begun on the share and not ended. */
  predicate BeingUnmounted(s: State, share: Share, vol: Vol) {
    exists p :: p in s.calls && s.calls[p].vol == vol && s.calls[p].share == share && IsUnmount(s.calls[p].pc)
  }

  // ---------------------------------------------------------------- the steps

  /** `vols` are the volumes in play. */
  predicate Enabled(vols: set<Vol>, s: State, step: Step) {
    match step
    case BeginMount(p, vol, _) => p !in s.calls && vol in vols
    case BeginUnmount(p, vol, _) => p !in s.calls && vol in vols
    case Acquire(p) => p in s.calls && !HasMutex(s.calls[p].pc) && s.calls[p].share !in s.mutex
    case Map(p, _) => p in s.calls && s.calls[p].pc.Mapping?
    case Increment(p, made, ok) => (ok ==> made) && p in s.calls && s.calls[p].pc.Incrementing?
    case Decrement(p, _) => p in s.calls && s.calls[p].pc.Decrementing?
    case Count(p, _) => p in s.calls && s.calls[p].pc.Counting?
    case RemoveMapping(p, _) => p in s.calls && s.calls[p].pc.Removing?
    case Unlink(p) => p in s.calls && s.calls[p].pc.Unlinking?
  }

  function At(s: State, p: CallId, pc: Pc): map<CallId, Call>
    requires p in s.calls
  {
    s.calls[p := s.calls[p].(pc := pc)]
  }

  /** The call returns; its deferred unlock runs. */
  function Returned(s: State, p: CallId): State
    requires p in s.calls
  {
    State(s.calls - {p}, s.mutex - {s.calls[p].share}, s.mappings, s.refs, s.users)
  }

  function Apply(vols: set<Vol>, s: State, step: Step): State
    requires Enabled(vols, s, step)
  {
    match step
    case BeginMount(p, vol, share) => s.(calls := s.calls[p := Call(vol, share, MountWaits)])
    case BeginUnmount(p, vol, share) =>
      s.(calls := s.calls[p := Call(vol, share, UnmountWaits)], users := s.users - {(share, vol)})
    case Acquire(p) =>
      s.(calls := At(s, p, if s.calls[p].pc.MountWaits? then Mapping else Decrementing),
          mutex := s.mutex[s.calls[p].share := p])
    case Map(p, ok) =>
      if ok then s.(calls := At(s, p, Incrementing), mappings := s.mappings + {s.calls[p].share}) else Returned(s, p)
    case Increment(p, made, ok) =>
      var c := s.calls[p];
      if !made then Returned(s, p)
      else
        var r := Returned(s, p).(refs := s.refs[c.share := Refs(s, c.share) + {ToLower(c.vol)}]);
        if !ok || BeingUnmounted(s, c.share, c.vol) then r else r.(users := s.users + {(c.share, c.vol)})
    case Decrement(p, ok) =>
      var c := s.calls[p];
      if !ok || ToLower(c.vol) !in Refs(s, c.share) then Returned(s, p)
      else s.(calls := At(s, p, Counting), refs := s.refs[c.share := Refs(s, c.share) - {ToLower(c.vol)}])
    case Count(p, ok) =>
      s.(calls := At(s, p, if ok && Refs(s, s.calls[p].share) == {} then Removing else Unlinking))
    case RemoveMapping(p, ok) =>
      if ok then s.(calls := At(s, p, Unlinking), mappings := s.mappings - {s.calls[p].share}) else Returned(s, p)
    case Unlink(p) => Returned(s, p)
  }

  // ---------------------------------------------------------------- the invariant

  ghost predicate DistinctUpToCase(vols: set<Vol>) {
    forall v, w :: v in vols && w in vols && EqualFold(v, w) ==> v == w
  }

  predicate CallOk(vols: set<Vol>, s: State, p: CallId, c: Call) {
    && c.vol in vols
    && (HasMutex(c.pc) ==> c.share in s.mutex && s.mutex[c.share] == p)
    && (c.pc.Incrementing? ==> c.share in s.mappings)
    && (c.pc.Removing? ==> Refs(s, c.share) == {})
  }

  /** A user of a share has a mapping, a reference file, and no unmount under way. */
  predicate UserOk(vols: set<Vol>, s: State, share: Share, vol: Vol) {
    && vol in vols && share in s.mappings && ToLower(vol) in Refs(s, share)
    && (forall p :: p in s.calls && s.calls[p].vol == vol && s.calls[p].share == share ==> !IsUnmount(s.calls[p].pc))
  }

  ghost predicate Inv(vols: set<Vol>, s: State) {
    && (forall p :: p in s.calls ==> CallOk(vols, s, p, s.calls[p]))
    && (forall share, vol :: (share, vol) in s.users ==> UserOk(vols, s, share, vol))
  }

  /** Two calls inside the critical section are on different shares. */
  lemma MutexExcludes(vols: set<Vol>, s: State, p: CallId, q: CallId)
    requires Inv(vols, s) && p in s.calls && q in s.calls && HasMutex(s.calls[p].pc) && HasMutex(s.calls[q].pc)
    requires s.calls[p].share == s.calls[q].share
    ensures p == q
  {
    assert CallOk(vols, s, p, s.calls[p]) && CallOk(vols, s, q, s.calls[q]);
  }

  lemma CallStaysOk(vols: set<Vol>, s: State, step: Step, q: CallId)
    requires Inv(vols, s) && Enabled(vols, s, step) && q in Apply(vols, s, step).calls
    ensures CallOk(vols, Apply(vols, s, step), q, Apply(vols, s, step).calls[q])
  {
    assert q in s.calls ==> CallOk(vols, s, q, s.calls[q]);
    assert step.pid in s.calls ==> CallOk(vols, s, step.pid, s.calls[step.pid]);
  }

  lemma UserStaysOk(vols: set<Vol>, s: State, step: Step, share: Share, vol: Vol)
    requires DistinctUpToCase(vols) && Enabled(vols, s, step) && (share, vol) in Apply(vols, s, step).users
    requires (share, vol) in s.users ==> UserOk(vols, s, share, vol)
    requires step.pid in s.calls ==> CallOk(vols, s, step.pid, s.calls[step.pid])
    ensures UserOk(vols, Apply(vols, s, step), share, vol)
  {
    if step.Decrement? && s.calls[step.pid].share == share {
      assert vol != s.calls[step.pid].vol;
      assert !EqualFold(vol, s.calls[step.pid].vol);
    }
  }

  lemma StepKeepsInv(vols: set<Vol>, s: State, step: Step)
    requires DistinctUpToCase(vols) && Inv(vols, s) && Enabled(vols, s, step)
    ensures Inv(vols, Apply(vols, s, step))
  {
    var s' := Apply(vols, s, step);
    forall q | q in s'.calls
      ensures CallOk(vols, s', q, s'.calls[q])
    {
      CallStaysOk(vols, s, step, q);
    }
    assert step.pid in s.calls ==> CallOk(vols, s, step.pid, s.calls[step.pid]);
    forall share, vol | (share, vol) in s'.users
      ensures UserOk(vols, s', share, vol)
    {
      UserStaysOk(vols, s, step, share, vol);
    }
  }

  /** An unmount comes to remove the mapping exactly when it removed its reference file, could count, and counted
      none. */
  lemma RemovesIff(vols: set<Vol>, s: State, p: CallId, decremented: bool, counted: bool)
    requires Enabled(vols, s, Decrement(p, decremented))
    ensures var c := s.calls[p];
            var found := decremented && ToLower(c.vol) in Refs(s, c.share);
            var s1 := Apply(vols, s, Decrement(p, decremented));
            && (found <==> Enabled(vols, s1, Count(p, counted)))
            && (found ==>
                  var s2 := Apply(vols, s1, Count(p, counted));
                  && Refs(s2, c.share) == Refs(s, c.share) - {ToLower(c.vol)} && s2.mappings == s.mappings
                  && (s2.calls[p].pc.Removing? <==> counted && Refs(s2, c.share) == {}))
  {
  }

  // ---------------------------------------------------------------- whole runs

  predicate Runs(vols: set<Vol>, s: State, steps: seq<Step>)
    decreases steps
  {
    steps == [] || (Enabled(vols, s, steps[0]) && Runs(vols, Apply(vols, s, steps[0]), steps[1..]))
  }

  function After(vols: set<Vol>, s: State, steps: seq<Step>): State
    requires Runs(vols, s, steps)
    decreases steps
  {
    if steps == [] then s else After(vols, Apply(vols, s, steps[0]), steps[1..])
  }

  lemma {:induction false} RunKeepsInv(vols: set<Vol>, s: State, steps: seq<Step>)
    requires DistinctUpToCase(vols) && Inv(vols, s) && Runs(vols, s, steps)
    ensures Inv(vols, After(vols, s, steps))
    decreases steps
  {
    if steps != [] {
      StepKeepsInv(vols, s, steps[0]);
      RunKeepsInv(vols, Apply(vols, s, steps[0]), steps[1..]);
    }
  }

  /** Whatever mappings and reference files are there when the driver starts. */
  function Start(mappings: set<Share>, refs: map<Share, set<string>>): State {
    State(map[], map[], mappings, refs, {})
  }

  /** In every interleaving of SMBMount and SMBUnmount calls, with any of their system calls failing, with counts that
      cannot be taken and with repeated mounts, a share keeps its mapping as long as some volume has a successful
      SMBMount on it and no SMBUnmount begun. */
  lemma MappingOutlivesItsUsers(vols: set<Vol>, mappings: set<Share>, refs: map<Share, set<string>>, steps: seq<Step>,
      share: Share, vol: Vol)
    requires DistinctUpToCase(vols) && Runs(vols, Start(mappings, refs), steps)
    requires (share, vol) in After(vols, Start(mappings, refs), steps).users
    ensures share in After(vols, Start(mappings, refs), steps).mappings
  {
    RunKeepsInv(vols, Start(mappings, refs), steps);
    assert UserOk(vols, After(vols, Start(mappings, refs), steps), share, vol);
  }

  // ---------------------------------------------------------------- the conditions are needed

  lemma {:induction false} RunsAppend(vols: set<Vol>, s: State, a: seq<Step>, b: seq<Step>)
    requires Runs(vols, s, a) && Runs(vols, After(vols, s, a), b)
    ensures Runs(vols, s, a + b) && After(vols, s, a + b) == After(vols, After(vols, s, a), b)
    decreases a
  {
    if a == [] {
      assert a + b == b;
    } else {
      assert (a + b)[0] == a[0] && (a + b)[1..] == a[1..] + b;
      RunsAppend(vols, Apply(vols, s, a[0]), a[1..], b);
    }
  }

  lemma OneStep(vols: set<Vol>, s: State, step: Step)
    requires Enabled(vols, s, step)
    ensures Runs(vols, s, [step]) && After(vols, s, [step]) == Apply(vols, s, step)
  {
    assert [step][1..] == [];
  }

  /** The run goes on with one more step. */
  lemma Extend(vols: set<Vol>, s: State, steps: seq<Step>, now: State, step: Step)
      returns (longer: seq<Step>, next: State)
    requires Runs(vols, s, steps) && After(vols, s, steps) == now && Enabled(vols, now, step)
    ensures longer == steps + [step] && next == Apply(vols, now, step)
    ensures Runs(vols, s, longer) && After(vols, s, longer) == next
  {
    longer, next := steps + [step], Apply(vols, now, step);
    OneStep(vols, now, step);
    RunsAppend(vols, s, steps, [step]);
  }

  /** A driver that starts with nothing: one volume is mounted alone. */
  lemma MountAlone(vols: set<Vol>, v: Vol, share: Share) returns (steps: seq<Step>, s: State)
    requires v in vols
    ensures Runs(vols, Start({}, map[]), steps) && After(vols, Start({}, map[]), steps) == s
    ensures s.calls == map[] && s.mutex == map[] && Refs(s, share) == {ToLower(v)}
    ensures s.mappings == {share} && s.users == {(share, v)}
  {
    steps, s := [], Start({}, map[]);
    steps, s := Extend(vols, Start({}, map[]), steps, s, BeginMount(0, v, share));
    steps, s := Extend(vols, Start({}, map[]), steps, s, Acquire(0));
    steps, s := Extend(vols, Start({}, map[]), steps, s, Map(0, true));
    assert !BeingUnmounted(s, share, v);
    steps, s := Extend(vols, Start({}, map[]), steps, s, Increment(0, true, true));
    assert s.calls == map[] && s.mutex == map[];
  }

  function RestOfUnmount(p: CallId): seq<Step> {
    [Acquire(p), Decrement(p, true), Count(p, true), RemoveMapping(p, true)]
  }

  /** An unmount, once it has begun, under which the one reference file of the share is found. */
  lemma UnmountRemoves(vols: set<Vol>, start: State, before: seq<Step>, s: State, p: CallId, w: Vol, share: Share)
      returns (steps: seq<Step>, s': State)
    requires Runs(vols, start, before) && After(vols, start, before) == s
    requires p in s.calls && s.calls[p] == Call(w, share, UnmountWaits) && share !in s.mutex
             && Refs(s, share) == {ToLower(w)}
    ensures Runs(vols, start, steps) && After(vols, start, steps) == s'
    ensures s'.users == s.users && s'.mappings == s.mappings - {share}
    ensures steps == before + RestOfUnmount(p)
  {
    steps, s' := Extend(vols, start, before, s, Acquire(p));
    steps, s' := Extend(vols, start, steps, s', Decrement(p, true));
    assert Refs(s', share) == {};
    steps, s' := Extend(vols, start, steps, s', Count(p, true));
    steps, s' := Extend(vols, start, steps, s', RemoveMapping(p, true));
  }

  /** Of two volumes whose IDs differ only in case, mount one and unmount the other: the mapping the first one still
      uses is gone. */
  lemma CaseTwinsLoseTheMapping(vols: set<Vol>, v: Vol, w: Vol, share: Share) returns (steps: seq<Step>)
    requires v in vols && w in vols && EqualFold(v, w) && v != w
    ensures Runs(vols, Start({}, map[]), steps)
    ensures var s := After(vols, Start({}, map[]), steps); (share, v) in s.users && share !in s.mappings
  {
    var s;
    steps, s := MountAlone(vols, v, share);
    steps, s := Extend(vols, Start({}, map[]), steps, s, BeginUnmount(0, w, share));
    assert (share, v) in s.users;
    steps, s := UnmountRemoves(vols, Start({}, map[]), steps, s, 0, w, share);
  }

  /** Along every run of a driver that starts with nothing, whoever uses a share finds it mapped. */
  ghost predicate MappingsLast(vols: set<Vol>) {
    forall steps, share, vol :: Runs(vols, Start({}, map[]), steps) ==>
      var s := After(vols, Start({}, map[]), steps); (share, vol) in s.users ==> share in s.mappings
  }

  /** The condition on the IDs is exact. */
  lemma MappingsLastIff(vols: set<Vol>)
    ensures MappingsLast(vols) <==> DistinctUpToCase(vols)
  {
    if DistinctUpToCase(vols) {
      forall steps, share, vol | Runs(vols, Start({}, map[]), steps)
        ensures (share, vol) in After(vols, Start({}, map[]), steps).users ==>
                share in After(vols, Start({}, map[]), steps).mappings
      {
        if (share, vol) in After(vols, Start({}, map[]), steps).users {
          MappingOutlivesItsUsers(vols, {}, map[], steps, share, vol);
        }
      }
    } else {
      var v, w :| v in vols && w in vols && EqualFold(v, w) && v != w;
      var share := "";
      var steps := CaseTwinsLoseTheMapping(vols, v, w, share);
    }
  }

  /** A mount succeeds while an unmount of the same volume waits for the share. */
  lemma MountMeetsUnmount(v: Vol, share: Share) returns (steps: seq<Step>, s: State)
    ensures Runs({v}, Start({}, map[]), steps) && After({v}, Start({}, map[]), steps) == s
    ensures |steps| > 0 && steps[|steps| - 1] == Increment(0, true, true)
    ensures s.calls == map[1 := Call(v, share, UnmountWaits)] && share !in s.mutex && Refs(s, share) == {ToLower(v)}
  {
    var start := Start({}, map[]);
    steps, s := [], start;
    steps, s := Extend({v}, start, steps, s, BeginMount(0, v, share));
    steps, s := Extend({v}, start, steps, s, BeginUnmount(1, v, share));
    steps, s := Extend({v}, start, steps, s, Acquire(0));
    steps, s := Extend({v}, start, steps, s, Map(0, true));
    steps, s := Extend({v}, start, steps, s, Increment(0, true, true));
    assert s.calls == map[1 := Call(v, share, UnmountWaits)];
  }

  /** So is the condition on unmounts still running: an SMBUnmount of the volume that waits for the share while an
      SMBMount of it succeeds takes the mapping away afterwards, though no SMBUnmount begins any more. */
  lemma WaitingUnmountTakesMapping(v: Vol, share: Share) returns (before: seq<Step>, later: seq<Step>)
    ensures Runs({v}, Start({}, map[]), before + later)
    ensures |before| > 0 && before[|before| - 1] == Increment(0, true, true)
    ensures forall i :: 0 <= i < |later| ==> !later[i].BeginUnmount?
    ensures share !in After({v}, Start({}, map[]), before + later).mappings
  {
    var s, all;
    before, s := MountMeetsUnmount(v, share);
    all, s := UnmountRemoves({v}, Start({}, map[]), before, s, 1, v, share);
    later := RestOfUnmount(1);
  }
}
