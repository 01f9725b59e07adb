/** Runs of the driver's own calls: NodeStageVolume and NodeUnstageVolume of one volume and path exclude each other
    while a mount is in flight, and CreateVolume and DeleteVolume work only under the mount they made. */
module CallHistories {
  import opened GoStrings
  import opened Wrappers
  import opened VolumeLock
  import S = StageProtocol
  import H = StageHistory
  import C = ControllerCalls
  import V = VolumeId

  // ---------------------------------------------------------------- stage and unstage

  lemma StageProgram(id: string, path: string, k: Key)
    ensures H.Stages(C.NodeStage(id, path), k) <==> k == id + "-" + path
    ensures C.NodeStage(id, path).defers == []
  {
    var c := C.NodeStage(id, path);
    if k == id + "-" + path {
      assert c.todo[0].Stage? && c.todo[0].key == k;
    }
  }

  lemma UnstageProgram(id: string, path: string, k: Key)
    ensures !H.Stages(C.NodeUnstage(id, path), k) && C.NodeUnstage(id, path).defers == [id + "-" + path]
  {
  }

  /** A call that arrived as a stage or unstage of `id` on `path` takes no lock but theirs. */
  lemma OnlyItsKey(steps: seq<S.Step>, q: S.CallId, id: string, path: string, c0: S.Call)
    requires S.Runs(S.Initial, steps) && S.Arrive(q, c0) in steps
    requires c0 == C.NodeStage(id, path) || c0 == C.NodeUnstage(id, path)
    ensures q in S.After(S.Initial, steps).calls
    ensures var c, k := S.After(S.Initial, steps).calls[q], id + "-" + path;
            && (c.pc.Preparing? ==> c.pc.key == k)
            && (c.pc.Cleaning? ==> c.pc.key == k)
            && (c.pc.Ready? && c.todo != [] && c.todo[0].Stage? ==> c.todo[0].key == k)
            && (c.defers != [] ==> c.defers[0] == k)
  {
    H.EveryCallProgresses(steps, q, c0);
    var c := S.After(S.Initial, steps).calls[q];
    if c.pc.Preparing? || c.pc.Cleaning? {
      TakenKey(steps, q, id, path, c0, c.pc.key);
    }
    if c.pc.Ready? && c.todo != [] && c.todo[0].Stage? {
      TakenKey(steps, q, id, path, c0, c.todo[0].key);
    }
    if c.defers != [] {
      TakenKey(steps, q, id, path, c0, c.defers[0]);
    }
  }

  /** The call has, or may come to take, the key. */
  predicate Takes(c: S.Call, k: Key) {
    || ((H.InStage(c.pc) || c.pc.Cleaning?) && c.pc.key == k)
    || k in c.defers
    || (c.pc.Ready? && c.todo != [] && c.todo[0].Stage? && c.todo[0].key == k)
  }

  lemma TakenKey(steps: seq<S.Step>, q: S.CallId, id: string, path: string, c0: S.Call, k: Key)
    requires S.Runs(S.Initial, steps) && S.Arrive(q, c0) in steps
    requires c0 == C.NodeStage(id, path) || c0 == C.NodeUnstage(id, path)
    ensures q in S.After(S.Initial, steps).calls
    ensures Takes(S.After(S.Initial, steps).calls[q], k) ==> k == id + "-" + path
  {
    H.KeysAreTheProgram(steps, q, c0, k);
    StageProgram(id, path, k);
    UnstageProgram(id, path, k);
  }

  /** The mount that a stage of `id` on `path` started, and whose result nobody has received yet. */
  ghost predicate MountInFlight(steps: seq<S.Step>, p: S.CallId, id: string, path: string, m: S.MountId) {
    && S.Runs(S.Initial, steps) && S.Arrive(p, C.NodeStage(id, path)) in steps
    && var s := S.After(S.Initial, steps); m in s.mounts && s.mounts[m].starter == p && s.receives[m] == 0
  }

  /** It holds the lock of the volume and path. */
  lemma InFlightHolds(steps: seq<S.Step>, p: S.CallId, id: string, path: string, m: S.MountId)
    requires MountInFlight(steps, p, id, path, m)
    ensures S.InFlight(S.After(S.Initial, steps), m, id + "-" + path)
  {
    var c0 := C.NodeStage(id, path);
    H.MountKeyIsStaged(steps, m, c0);
    StageProgram(id, path, S.After(S.Initial, steps).mounts[m].key);
  }

  /** While it is in flight, even after its request returned a timeout, an unstage of the same volume and path is never
      cleaning up, and if it tries to begin it takes no lock and does not come to clean up. */
  lemma StagingExcludesUnstaging(
    steps: seq<S.Step>, p: S.CallId, id: string, path: string, m: S.MountId, q: S.CallId)
    requires MountInFlight(steps, p, id, path, m) && S.Arrive(q, C.NodeUnstage(id, path)) in steps
    ensures var s := S.After(S.Initial, steps);
            && q in s.calls && !s.calls[q].pc.Cleaning?
            && (S.Enabled(s, S.ByCall(q, S.BeginUnstage)) ==>
                  var s' := S.Apply(s, S.ByCall(q, S.BeginUnstage)); s'.locks == s.locks && !s'.calls[q].pc.Cleaning?)
  {
    var s, k := S.After(S.Initial, steps), id + "-" + path;
    var c0 := C.NodeUnstage(id, path);
    InFlightHolds(steps, p, id, path, m);
    S.MountExcludesOthers(steps, m, k);
    OnlyItsKey(steps, q, id, path, c0);
  }

  /** While it is in flight, a second stage of the same volume and path is not preparing a mount, has none in flight,
      and if it tries to begin it takes no lock and comes to nothing. */
  lemma StagingExcludesStaging(
    steps: seq<S.Step>, p: S.CallId, id: string, path: string, m: S.MountId, q: S.CallId, n: S.MountId)
    requires MountInFlight(steps, p, id, path, m) && q != p && S.Arrive(q, C.NodeStage(id, path)) in steps
    ensures var s := S.After(S.Initial, steps);
            && q in s.calls && !s.calls[q].pc.Preparing? && !MountInFlight(steps, q, id, path, n)
            && (S.Enabled(s, S.ByCall(q, S.BeginStage)) ==>
                  var s' := S.Apply(s, S.ByCall(q, S.BeginStage)); s'.locks == s.locks && s'.calls[q].todo == [])
  {
    var s, k := S.After(S.Initial, steps), id + "-" + path;
    var c0 := C.NodeStage(id, path);
    InFlightHolds(steps, p, id, path, m);
    S.MountExcludesOthers(steps, m, k);
    OnlyItsKey(steps, q, id, path, c0);
    if MountInFlight(steps, q, id, path, n) {
      InFlightHolds(steps, q, id, path, n);
    }
  }

  /** A stage never takes its own mount down again. */
  lemma StageKeepsItsMount(steps: seq<S.Step>, p: S.CallId, id: string, path: string)
    requires S.Runs(S.Initial, steps) && S.Arrive(p, C.NodeStage(id, path)) in steps
    ensures H.Unstages(steps, p) == [] && H.Deeds(steps, p) <= [H.Mounted(id + "-" + path, false)]
  {
    var c0 := C.NodeStage(id, path);
    H.EveryCallProgresses(steps, p, c0);
    var deeds := H.Deeds(steps, p);
    if |deeds| == 1 {
      assert c0.todo[..1] == c0.todo && deeds == [H.DeedOf(c0.todo[0])];
      assert deeds[..0] == [];
    }
    assert H.Owed(deeds) == [];
  }

  /** A finished unstage has set out to unstage its volume on its path, once. */
  lemma UnstageUnstages(steps: seq<S.Step>, p: S.CallId, id: string, path: string)
    requires S.Runs(S.Initial, steps) && S.Arrive(p, C.NodeUnstage(id, path)) in steps
    requires p in S.After(S.Initial, steps).calls && S.After(S.Initial, steps).calls[p].pc.Done?
    ensures H.Unstages(steps, p) == [id + "-" + path]
  {
    var c0 := C.NodeUnstage(id, path);
    H.FinishedCall(steps, p, c0);
    assert H.Deeds(steps, p) == [];
    assert [] + c0.defers == c0.defers;
  }

  // ---------------------------------------------------------------- one call at a time

  predicate Inside(s: S.State, p: S.CallId) {
    p in s.calls && !s.calls[p].pc.Entering? && !s.calls[p].pc.Done?
  }

  /** Two calls that take the same key as their own are never inside together. */
  lemma SameOwnKeyExcludes(steps: seq<S.Step>, p: S.CallId, c: S.Call, q: S.CallId, d: S.Call)
    requires S.Runs(S.Initial, steps) && S.Arrive(p, c) in steps && S.Arrive(q, d) in steps && p != q
    requires c.top.Some? && c.top == d.top
    ensures !(Inside(S.After(S.Initial, steps), p) && Inside(S.After(S.Initial, steps), q))
  {
    var s := S.After(S.Initial, steps);
    H.EveryCallProgresses(steps, p, c);
    H.EveryCallProgresses(steps, q, d);
    S.ReachableInv(steps);
    if Inside(s, p) && Inside(s, q) {
      assert S.Holds(s, S.TopOf(p), c.top.value) && S.Holds(s, S.TopOf(q), c.top.value);
    }
  }

  /** So no two CreateVolume calls for one name, and no two DeleteVolume calls for one ID, whatever their other
      arguments. */
  lemma ControllerCallsExclude(
    steps: seq<S.Step>, p: S.CallId, q: S.CallId, key: string, w1: string, v1: V.Volume, b1: bool, o1: Option<V.Volume>,
    w2: string, v2: V.Volume, b2: bool, o2: Option<V.Volume>)
    requires S.Runs(S.Initial, steps) && p != q
    ensures S.Arrive(p, C.CreateVolume(key, w1, v1, b1, o1)) in steps
            && S.Arrive(q, C.CreateVolume(key, w2, v2, b2, o2)) in steps
            ==> !(Inside(S.After(S.Initial, steps), p) && Inside(S.After(S.Initial, steps), q))
    ensures S.Arrive(p, C.DeleteVolume(key, w1, v1, b1)) in steps
            && S.Arrive(q, C.DeleteVolume(key, w2, v2, b2)) in steps
            ==> !(Inside(S.After(S.Initial, steps), p) && Inside(S.After(S.Initial, steps), q))
  {
    var c1, c2 := C.CreateVolume(key, w1, v1, b1, o1), C.CreateVolume(key, w2, v2, b2, o2);
    var d1, d2 := C.DeleteVolume(key, w1, v1, b1), C.DeleteVolume(key, w2, v2, b2);
    if S.Arrive(p, c1) in steps && S.Arrive(q, c2) in steps {
      SameOwnKeyExcludes(steps, p, c1, q, c2);
    }
    if S.Arrive(p, d1) in steps && S.Arrive(q, d2) in steps {
      SameOwnKeyExcludes(steps, p, d1, q, d2);
    }
  }

  // ---------------------------------------------------------------- create and delete

  /** The last thing the call did before was a stage of the key that answered success. */
  ghost predicate JustMounted(steps: seq<S.Step>, p: S.CallId, k: Key)
    requires S.Runs(S.Initial, steps)
  {
    var deeds := H.Deeds(steps, p);
    deeds != [] && deeds[|deeds| - 1] == H.Mounted(k, true)
  }

  /** The staging key of a volume's internal mount. */
  function MountKey(workDir: string, v: V.Volume): Key {
    v.id + "-" + V.InternalMountPath(workDir, v)
  }

  /** The deeds before a piece of work are the program before it. */
  lemma DeedsBeforeWork(steps: seq<S.Step>, p: S.CallId, c0: S.Call, ok: bool) returns (n: nat)
    requires S.Runs(S.Initial, steps) && S.Arrive(p, c0) in steps
    requires S.Enabled(S.After(S.Initial, steps), S.ByCall(p, S.DoWork(ok)))
    ensures n == |H.Deeds(steps, p)| && n < |c0.todo| && c0.todo[n].Work?
    ensures forall i :: 0 <= i < n ==> H.Deeds(steps, p)[i] == H.DeedOf(c0.todo[i])
  {
    H.WorkFollowsSuccess(steps, p, c0, ok);
    n := |H.Deeds(steps, p)|;
    assert forall i :: 0 <= i < n ==> c0.todo[..n][i] == c0.todo[i];
  }

  /** CreateVolume makes the directory, and copies, only right after a stage of the new volume's own mount answered
      success; it copies only after the source was mounted too. */
  lemma CreateWorksUnderItsMount(
    steps: seq<S.Step>, p: S.CallId, name: string, workDir: string, v: V.Volume, createSubDir: bool,
    source: Option<V.Volume>, ok: bool)
    requires S.Runs(S.Initial, steps) && S.Arrive(p, C.CreateVolume(name, workDir, v, createSubDir, source)) in steps
    requires S.Enabled(S.After(S.Initial, steps), S.ByCall(p, S.DoWork(ok)))
    ensures JustMounted(steps, p, MountKey(workDir, v))
    ensures var deeds := H.Deeds(steps, p);
            || (createSubDir && |deeds| == 1)
            || (source.Some? && |deeds| >= 2 && deeds[|deeds| - 2] == H.Mounted(MountKey(workDir, source.value), true))
  {
    var n := DeedsBeforeWork(steps, p, C.CreateVolume(name, workDir, v, createSubDir, source), ok);
    WorkInCreate(name, workDir, v, createSubDir, source, n);
  }

  lemma WorkInCreate(
    name: string, workDir: string, v: V.Volume, createSubDir: bool, source: Option<V.Volume>, n: nat)
    requires var todo := C.CreateVolume(name, workDir, v, createSubDir, source).todo; n < |todo| && todo[n].Work?
    ensures var todo := C.CreateVolume(name, workDir, v, createSubDir, source).todo;
            && n > 0 && todo[n - 1] == S.Stage(MountKey(workDir, v), true)
            && ((createSubDir && n == 1) ||
                (source.Some? && n >= 2 && todo[n - 2] == S.Stage(MountKey(workDir, source.value), true)))
  {
  }

  /** What a CreateVolume run consists of when nothing fails. */
  lemma CreateProgram(name: string, workDir: string, v: V.Volume, createSubDir: bool, source: Option<V.Volume>)
    ensures var todo := C.CreateVolume(name, workDir, v, createSubDir, source).todo;
            var mkdir := [S.Stage(MountKey(workDir, v), true), S.Work];
            if source.None? then todo == if createSubDir then mkdir else []
            else
              var copy := [S.Stage(MountKey(workDir, source.value), true), S.Stage(MountKey(workDir, v), true), S.Work];
              todo == if createSubDir then mkdir + copy else copy
  {
  }

  /** DeleteVolume removes only right after a stage of the volume's own mount answered success. */
  lemma DeleteWorksUnderItsMount(
    steps: seq<S.Step>, p: S.CallId, id: string, workDir: string, v: V.Volume, removes: bool, ok: bool)
    requires S.Runs(S.Initial, steps) && S.Arrive(p, C.DeleteVolume(id, workDir, v, removes)) in steps
    requires S.Enabled(S.After(S.Initial, steps), S.ByCall(p, S.DoWork(ok)))
    ensures removes && H.Deeds(steps, p) == [H.Mounted(MountKey(workDir, v), true)]
  {
    var n := DeedsBeforeWork(steps, p, C.DeleteVolume(id, workDir, v, removes), ok);
    assert n == 1;
  }

  /** A finished CreateVolume or DeleteVolume that did all of its program has taken down what it mounted, the latest
      mount first; without a mount it has taken down nothing. */
  lemma FinishedCallUnmounts(steps: seq<S.Step>, p: S.CallId, c0: S.Call)
    requires S.Runs(S.Initial, steps) && S.Arrive(p, c0) in steps && c0.defers == []
    requires p in S.After(S.Initial, steps).calls && S.After(S.Initial, steps).calls[p].pc.Done?
    ensures H.Unstages(steps, p) == H.Owed(H.Deeds(steps, p))
  {
    H.FinishedCall(steps, p, c0);
    assert H.Owed(H.Deeds(steps, p)) + [] == H.Owed(H.Deeds(steps, p));
  }
}
