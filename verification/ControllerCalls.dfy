/** The lock programs of the driver's calls: which keys NodeStageVolume, NodeUnstageVolume, CreateVolume (with
    copyFromVolume) and DeleteVolume take, in which order. They are what arrives in `StageProtocol`. */
module ControllerCalls {
  import opened GoStrings
  import opened Wrappers
  import opened Paths
  import S = StageProtocol
  import opened VolumeLock
  import V = VolumeId

  /** fmt.Sprintf("%s-%s", volumeID, targetPath) */
  function StageKey(volumeId: string, targetPath: string): Key {
    volumeId + "-" + targetPath
  }

  function VolumeKey(workDir: string, v: V.Volume): Key {
    StageKey(v.id, V.InternalMountPath(workDir, v))
  }

  function NodeStage(volumeId: string, targetPath: string): S.Call {
    S.Call(None, [S.Stage(StageKey(volumeId, targetPath), false)], [], false, S.Entering)
  }

  function NodeUnstage(volumeId: string, targetPath: string): S.Call {
    S.Call(None, [], [StageKey(volumeId, targetPath)], false, S.Entering)
  }

  /** CreateVolume: with `createSubDir` mount the share and make the directory; with a source volume mount both
      volumes and copy. Each internal mount defers the matching unmount. */
  function CreateVolume(
    name: string, workDir: string, v: V.Volume, createSubDir: bool, source: Option<V.Volume>): S.Call
  {
    var mkdir := if createSubDir then [S.Stage(VolumeKey(workDir, v), true), S.Work] else [];
    var copy := if source.Some?
                then [S.Stage(VolumeKey(workDir, source.value), true), S.Stage(VolumeKey(workDir, v), true), S.Work]
                else [];
    S.Call(Some(name), mkdir + copy, [], false, S.Entering)
  }

  /** DeleteVolume: takes the volume ID itself, and mounts the share only when there is something to remove. */
  function DeleteVolume(volumeId: string, workDir: string, v: V.Volume, removes: bool): S.Call {
    var remove := if removes then [S.Stage(VolumeKey(workDir, v), true), S.Work] else [];
    S.Call(Some(volumeId), remove, [], false, S.Entering)
  }

  /** Every one of the driver's calls may arrive at any time. */
  lemma CallsAreFresh(id: string, path: string, workDir: string, v: V.Volume, flag: bool, source: Option<V.Volume>)
    ensures S.Fresh(NodeStage(id, path)) && S.Fresh(NodeUnstage(id, path))
    ensures S.Fresh(CreateVolume(id, workDir, v, flag, source)) && S.Fresh(DeleteVolume(id, workDir, v, flag))
  {
  }

  // ---------------------------------------------------------------- a call's own key

  lemma TrimShortensByOne(s: string, c: char)
    requires |s| >= 2 && s[0] != c && s[|s| - 2] != c
    ensures |Trim(s, c)| >= |s| - 1
  {
    assert TrimLeft(s, c) == s;
    var t := s[..|s| - 1];
    assert t != "" && t[|t| - 1] != c;
    assert TrimRight(t, c) == t;
  }

  lemma MountPathEnd(workDir: string, v: V.Volume)
    ensures var path := V.InternalMountPath(workDir, v); path == "" || path == "/" || path[|path| - 1] != '/'
  {
    var dir := V.MountDir(v);
    CleanEnd(if workDir == "" then dir else if dir == "" then workDir else workDir + "/" + dir);
  }

  /** The key a new volume is staged under is never the name it was requested with, whatever the name. */
  lemma KeyIsNotTheName(name: string, p: V.Params, defaultPolicy: string, workDir: string)
    requires V.NewVolume(name, p, defaultPolicy).Ok?
    ensures VolumeKey(workDir, V.NewVolume(name, p, defaultPolicy).value) != name
  {
    var v := V.NewVolume(name, p, defaultPolicy).value;
    V.CreatedFields(name, p, defaultPolicy);
    V.IdShape(v);
    if p.subDir == "" && VolumeKey(workDir, v) == name {
      TrimIsTrimmed(v.source, '/');
      MountPathEnd(workDir, v);
      NameIsTrimmed(name, v.id, V.InternalMountPath(workDir, v));
    }
  }

  lemma NameIsTrimmed(name: string, id: string, path: string)
    requires name == StageKey(id, path) && id != "" && id[0] != '/'
    requires path == "" || path == "/" || path[|path| - 1] != '/'
    ensures |Trim(name, '/')| >= |name| - 1
  {
    if path == "/" {
      assert name[|name| - 2] == '-';
      TrimShortensByOne(name, '/');
    } else {
      assert name[|name| - 1] != '/';
      TrimFixed(name, '/');
    }
  }

  /** CreateVolume stages or unstages its own key exactly when it clones a volume whose staging key is the very name
      of the new one. */
  lemma CreateUsesItsOwnKeyIff(
    name: string, p: V.Params, defaultPolicy: string, workDir: string, createSubDir: bool, source: Option<V.Volume>)
    requires V.NewVolume(name, p, defaultPolicy).Ok?
    ensures var c := CreateVolume(name, workDir, V.NewVolume(name, p, defaultPolicy).value, createSubDir, source);
            !S.OwnKeyUnused(c) <==> source.Some? && name == VolumeKey(workDir, source.value)
  {
    KeyIsNotTheName(name, p, defaultPolicy, workDir);
    ProgramKeys(name, workDir, V.NewVolume(name, p, defaultPolicy).value, createSubDir, source);
  }

  lemma ProgramKeys(name: string, workDir: string, v: V.Volume, createSubDir: bool, source: Option<V.Volume>)
    requires VolumeKey(workDir, v) != name
    ensures !S.OwnKeyUnused(CreateVolume(name, workDir, v, createSubDir, source)) <==>
            source.Some? && name == VolumeKey(workDir, source.value)
  {
    var c := CreateVolume(name, workDir, v, createSubDir, source);
    if source.Some? {
      var i := if createSubDir then 2 else 0;
      assert c.todo[i] == S.Stage(VolumeKey(workDir, source.value), true);
    }
  }

  /** DeleteVolume's own key is shorter than the one it stages under, for every ID. */
  lemma DeleteNeverUsesItsOwnKey(volumeId: string, workDir: string, removes: bool)
    requires V.DecodeId(volumeId).Ok?
    ensures S.OwnKeyUnused(DeleteVolume(volumeId, workDir, V.DecodeId(volumeId).value, removes))
  {
    var v := V.DecodeId(volumeId).value;
    assert |VolumeKey(workDir, v)| > |volumeId|;
  }

  /** A run of a call alone on an idle driver that has come between two of its operations. */
  ghost predicate Alone(c: S.Call, steps: seq<S.Step>, s: S.State) {
    && S.Runs(S.Initial, steps) && S.After(S.Initial, steps) == s
    && steps != [] && steps[0] == S.Arrive(0, c)
    && s.calls.Keys == {0} && s.calls[0].pc.Ready? && s.calls[0].top == c.top && s.mounts == map[]
  }

  lemma Entered(c: S.Call) returns (steps: seq<S.Step>, s: S.State)
    requires S.Fresh(c) && c.top.Some?
    ensures Alone(c, steps, s) && s.calls[0] == c.(pc := S.Ready) && s.locks == {c.top.value}
  {
    steps, s := [S.Arrive(0, c)], S.Apply(S.Initial, S.Arrive(0, c));
    S.RunsSnoc(S.Initial, [], S.Arrive(0, c));
    assert [] + [S.Arrive(0, c)] == steps;
    steps, s := S.Extend(S.Initial, steps, s, 0, S.Enter);
  }

  /** The states of a call alone that stages a volume already mounted and then does its work. */
  lemma StagedStates(s: S.State, c: S.Call, k: Key, rest: seq<S.Op>)
      returns (s1: S.State, s2: S.State, s3: S.State, s4: S.State)
    requires s.calls.Keys == {0} && s.calls[0] == c && c.pc.Ready? && k !in s.locks && s.mounts == map[]
    requires c.todo == [S.Stage(k, true), S.Work] + rest
    ensures S.CallEnabled(s, c, S.BeginStage) && s1 == S.ApplyCall(s, 0, S.BeginStage) && s1.calls.Keys == {0}
    ensures S.CallEnabled(s1, s1.calls[0], S.AlreadyMounted) && s2 == S.ApplyCall(s1, 0, S.AlreadyMounted)
    ensures s2.calls.Keys == {0}
    ensures S.CallEnabled(s2, s2.calls[0], S.Return) && s3 == S.ApplyCall(s2, 0, S.Return) && s3.calls.Keys == {0}
    ensures S.CallEnabled(s3, s3.calls[0], S.DoWork(true)) && s4 == S.ApplyCall(s3, 0, S.DoWork(true))
    ensures s4.calls.Keys == {0} && s4.calls[0].todo == rest && s4.calls[0].pc.Ready? && s4.calls[0].top == c.top
    ensures s4.mounts == map[]
  {
    assert c.todo[0] == S.Stage(k, true) && c.todo[1..] == [S.Work] + rest && ([S.Work] + rest)[1..] == rest;
    s1 := S.ApplyCall(s, 0, S.BeginStage);
    assert s1.calls[0] == c.(todo := [S.Work] + rest, cleanup := true, pc := S.Preparing(k));
    s2 := S.ApplyCall(s1, 0, S.AlreadyMounted);
    s3 := S.ApplyCall(s2, 0, S.Return);
    assert s3.calls[0].todo == [S.Work] + rest && s3.calls[0].pc.Ready?;
    s4 := S.ApplyCall(s3, 0, S.DoWork(true));
  }

  lemma StagedAndWorked(c: S.Call, before: seq<S.Step>, s: S.State, k: Key, rest: seq<S.Op>)
      returns (steps: seq<S.Step>, s': S.State)
    requires Alone(c, before, s) && k !in s.locks && s.calls[0].todo == [S.Stage(k, true), S.Work] + rest
    ensures Alone(c, steps, s') && s'.calls[0].todo == rest
  {
    var s1, s2, s3, s4 := StagedStates(s, s.calls[0], k, rest);
    steps, s' := S.Extend(S.Initial, before, s, 0, S.BeginStage);
    steps, s' := S.Extend(S.Initial, steps, s1, 0, S.AlreadyMounted);
    steps, s' := S.Extend(S.Initial, steps, s2, 0, S.Return);
    steps, s' := S.Extend(S.Initial, steps, s3, 0, S.DoWork(true));
  }

  function CopySteps(workDir: string, v: V.Volume, source: V.Volume): seq<S.Op> {
    [S.Stage(VolumeKey(workDir, source), true), S.Stage(VolumeKey(workDir, v), true), S.Work]
  }

  lemma CloneReachesCopy(name: string, workDir: string, v: V.Volume, createSubDir: bool, source: V.Volume)
      returns (steps: seq<S.Step>, s: S.State)
    requires VolumeKey(workDir, v) != name
    ensures Alone(CreateVolume(name, workDir, v, createSubDir, Some(source)), steps, s)
    ensures s.calls[0].todo == CopySteps(workDir, v, source)
  {
    var c := CreateVolume(name, workDir, v, createSubDir, Some(source));
    steps, s := Entered(c);
    if createSubDir {
      assert c.todo == [S.Stage(VolumeKey(workDir, v), true), S.Work] + CopySteps(workDir, v, source);
      steps, s := StagedAndWorked(c, steps, s, VolumeKey(workDir, v), CopySteps(workDir, v, source));
    } else {
      assert c.todo == CopySteps(workDir, v, source);
    }
  }

  /** A clone whose name is the staging key of its source, alone on an idle driver, with or without a subdirectory to
      make first: it takes the key as its own, comes to stage the source, finds the key taken by itself, and gives up
      the copy without starting a mount. */
  lemma CloneAbortsOnItsOwnKey(
    name: string, p: V.Params, defaultPolicy: string, workDir: string, createSubDir: bool, source: V.Volume)
      returns (steps: seq<S.Step>, s: S.State)
    requires V.NewVolume(name, p, defaultPolicy).Ok? && name == VolumeKey(workDir, source)
    ensures var v := V.NewVolume(name, p, defaultPolicy).value;
            Alone(CreateVolume(name, workDir, v, createSubDir, Some(source)), steps, s)
    ensures S.NextNestedKey(s.calls[0]) == Some(name) && S.Holds(s, S.TopOf(0), name)
    ensures S.Enabled(s, S.ByCall(0, S.BeginStage))
    ensures var aborted := S.Apply(s, S.ByCall(0, S.BeginStage)); aborted.calls[0].todo == [] && aborted.mounts == map[]
  {
    KeyIsNotTheName(name, p, defaultPolicy, workDir);
    steps, s := CloneReachesCopy(name, workDir, V.NewVolume(name, p, defaultPolicy).value, createSubDir, source);
    S.ReachableInv(steps);
    S.OwnStageAborts(s, 0);
  }

  // ---------------------------------------------------------------- such a name is accepted

  function Slashed(a: string, b: string): string {
    a + ['/'] + b
  }

  lemma PlainMountPath(t: string, v: V.Volume)
    requires V.ProperName(t) && V.ProperName(v.subDir) && v.uuid == ""
    ensures V.InternalMountPath(Slashed("", t), v) == Slashed("", Slashed(t, v.subDir))
  {
    var a, workDir := v.subDir, Slashed("", t);
    V.ProperNamesAreValid(a);
    V.ProperNamesAreValid(t);
    NothingIsValid();
    V.InternalSegs(workDir, v);
    SplitAppend("", '/', t, {'/'});
    WalkPlain(true, [], Split(workDir, {'/'}));
    PlainAppend(Split("", {'/'}), Split(t, {'/'}));
    assert Plain([""]) == [] + Plain([""][1..]);
    assert Segs(workDir) == [] + ([] + [t]);
    TwoSegments(t, a);
  }

  lemma TwoSegments(t: string, a: string)
    ensures Render(true, [t] + [a]) == Slashed("", Slashed(t, a))
  {
    assert ([t] + [a])[1..] == [a];
    assert Join([t] + [a], '/') == t + ['/'] + Join([a], '/');
  }

  lemma NothingIsValid()
    ensures ValidPath("")
  {
    SplitFree("", PathSeparators);
  }

  lemma SlashedIsValid(a: string, b: string)
    ensures ValidPath(Slashed(a, b)) <==> ValidPath(a) && ValidPath(b)
  {
    FieldsAppend(a, '/', b, PathSeparators);
  }

  lemma PieceIsValid(s: string)
    requires Free(s, PathSeparators) && s != ".."
    ensures ValidPath(s)
  {
    SplitFree(s, PathSeparators);
    NonEmptyIn([s], "..");
  }

  lemma KeyIs(h: string, s: string, a: string, t: string)
    ensures StageKey(Slashed(h, s) + ['#'] + a, Slashed("", Slashed(t, a))) ==
            Slashed(h, Slashed(s + ['#'] + a + ['-'], Slashed(t, a)))
  {
    var x := StageKey(Slashed(h, s) + ['#'] + a, Slashed("", Slashed(t, a)));
    var y := Slashed(h, Slashed(s + ['#'] + a + ['-'], Slashed(t, a)));
    assert |x| == |y|;
    forall i | 0 <= i < |x|
      ensures x[i] == y[i]
    {
    }
  }

  lemma KeyIsValid(h: string, s: string, a: string, t: string)
    requires V.ProperName(h) && V.ProperName(s) && V.ProperName(a) && V.ProperName(t)
    ensures ValidPath(Slashed(h, Slashed(s + ['#'] + a + ['-'], Slashed(t, a))))
  {
    V.ProperNamesAreValid(h);
    V.ProperNamesAreValid(a);
    V.ProperNamesAreValid(t);
    var middle := s + ['#'] + a + ['-'];
    assert middle[|middle| - 1] == '-';
    PieceIsValid(middle);
    SlashedIsValid(t, a);
    SlashedIsValid(middle, Slashed(t, a));
    SlashedIsValid(h, Slashed(middle, Slashed(t, a)));
  }

  lemma DecodedExample(h: string, s: string, a: string)
    requires V.ProperName(h) && V.ProperName(s) && V.ProperName(a)
    ensures var id := Slashed(h, s) + ['#'] + a;
            && V.DecodeId(id).Ok?
            && var v := V.DecodeId(id).value; v.id == id && v.subDir == a && v.uuid == ""
  {
    SplitAppend(Slashed(h, s), '#', a, {'#'});
    SplitFree(Slashed(h, s), {'#'});
    SplitFree(a, {'#'});
    V.ProperNamesAreValid(a);
    NothingIsValid();
  }

  /** Requests that collide are accepted: a volume `a` on the share `h/s`, staged below the working directory `/t`,
      has a key that CreateVolume takes as the name of a clone. */
  lemma CollidingNameIsAccepted(h: string, s: string, a: string, t: string, defaultPolicy: string)
    requires V.ProperName(h) && V.ProperName(s) && V.ProperName(a) && V.ProperName(t)
    ensures var source := V.DecodeId(Slashed(h, s) + ['#'] + a);
            && source.Ok?
            && var name, p := VolumeKey(Slashed("", t), source.value), V.Params(Slashed(h, s), "", "", "");
            V.NewVolume(name, p, defaultPolicy).Ok?
  {
    DecodedExample(h, s, a);
    PlainMountPath(t, V.DecodeId(Slashed(h, s) + ['#'] + a).value);
    KeyIs(h, s, a, t);
    KeyIsValid(h, s, a, t);
    V.ProperNamesAreValid(h);
    V.ProperNamesAreValid(s);
    SlashedIsValid(h, s);
    assert V.SupportedOnDelete("");
  }

  // ---------------------------------------------------------------- keys of different volumes and paths

  /** `id2` and `p2` are cut from the same key one dash later than `id1` and `p1`. */
  ghost predicate CutLater(id1: string, p1: string, id2: string, p2: string) {
    exists x: string :: id2 == StageKey(id1, x) && p1 == StageKey(x, p2)
  }

  lemma LaterCut(id1: string, p1: string, id2: string, p2: string)
    requires StageKey(id1, p1) == StageKey(id2, p2) && |id1| < |id2|
    ensures CutLater(id1, p1, id2, p2)
  {
    var key := StageKey(id1, p1);
    var x := key[|id1| + 1..|id2|];
    assert id2 == key[..|id2|] && p2 == key[|id2| + 1..] && p1 == key[|id1| + 1..];
    assert id2 == StageKey(id1, x) && p1 == StageKey(x, p2);
  }

  lemma CutsShareTheKey(id1: string, p1: string, id2: string, p2: string)
    requires CutLater(id1, p1, id2, p2)
    ensures StageKey(id1, p1) == StageKey(id2, p2)
  {
    var x: string :| id2 == StageKey(id1, x) && p1 == StageKey(x, p2);
    assert (id1 + "-") + (x + "-" + p2) == id1 + "-" + x + "-" + p2;
  }

  /** Two pairs of a volume and a staging path share a lock exactly when they are equal or are two cuts of one
      string at different dashes. */
  lemma SameKeyIff(id1: string, p1: string, id2: string, p2: string)
    ensures StageKey(id1, p1) == StageKey(id2, p2) <==>
            (id1 == id2 && p1 == p2) || CutLater(id1, p1, id2, p2) || CutLater(id2, p2, id1, p1)
  {
    if CutLater(id1, p1, id2, p2) {
      CutsShareTheKey(id1, p1, id2, p2);
    }
    if CutLater(id2, p2, id1, p1) {
      CutsShareTheKey(id2, p2, id1, p1);
    }
    if StageKey(id1, p1) == StageKey(id2, p2) {
      if |id1| < |id2| {
        LaterCut(id1, p1, id2, p2);
      } else if |id2| < |id1| {
        LaterCut(id2, p2, id1, p1);
      } else {
        var key := StageKey(id1, p1);
        assert id1 == key[..|id1|] && id2 == key[..|id2|] && p1 == key[|id1| + 1..] && p2 == key[|id2| + 1..];
      }
    }
  }

  /** Different volumes on different paths that do share a lock. */
  lemma DifferentPairsOneKey()
    ensures StageKey("a-/x", "/y") == StageKey("a", "/x-/y")
  {
  }
}
