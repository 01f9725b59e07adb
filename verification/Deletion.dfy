/** DeleteVolume (pkg/smb/controllerserver.go:150-262) on a file tree with the timed deletion cache, once the share
    is mounted at the internal mount path: retain, archive or delete. */
module Deletion {
  import opened GoStrings
  import opened Wrappers
  import opened Paths
  import V = VolumeId
  import F = FileTree
  import opened VolumeLock

  /** driver.volDeletionCache lives one minute; times are in seconds. */
  const CacheLifetime := 60

  datatype Config = Config(workDir: string, defaultPolicy: string, removeArchived: bool)

  /** What the operating system answers during one call: whether the share mounts, and whether each operation
      meets an error of its own. `removed` is what a failing RemoveAll had already taken away. */
  datatype Env = Env(mounts: bool, mkdirFails: bool, removeFails: bool, removed: set<F.Path>, renameFails: bool)

  datatype Reply = Deleted | Failed | Aborted

  datatype State = State(tree: F.Tree, cache: map<string, int>)

  // ---------------------------------------------------------------- paths

  function Live(workDir: string, v: V.Volume): F.Path {
    Segs(V.InternalVolumePath(workDir, v))
  }

  function Archived(workDir: string, v: V.Volume): F.Path {
    Segs(JoinPath(V.InternalMountPath(workDir, v), "archived-" + v.subDir))
  }

  predicate Nested(workDir: string, v: V.Volume) {
    Live(workDir, v) <= Archived(workDir, v) || Archived(workDir, v) <= Live(workDir, v)
  }

  // ---------------------------------------------------------------- the call

  /** The archive branch: make the parent, drop a stale archive if configured, rename. The tree after a failure is
      what the steps before it left. */
  function ArchiveVolume(c: Config, t: F.Tree, v: V.Volume, env: Env): (F.Tree, Reply) {
    var live, archived := Live(c.workDir, v), Archived(c.workDir, v);
    if '/' in v.subDir && archived != [] && (env.mkdirFails || F.MkdirAll(t, F.Parent(archived)).Failure?)
    then (t, Failed)
    else
      var t1 := if '/' in v.subDir && archived != [] then F.MkdirAll(t, F.Parent(archived)).tree else t;
      if c.removeArchived && env.removeFails then (F.RemoveSome(t1, archived, env.removed), Failed)
      else
        var t2 := if c.removeArchived then F.RemoveAll(t1, archived) else t1;
        if env.renameFails || F.Rename(t2, live, archived).Failure? then (t2, Failed)
        else (F.Rename(t2, live, archived).tree, Deleted)
  }

  function RemoveVolume(c: Config, t: F.Tree, v: V.Volume, env: Env): (F.Tree, Reply) {
    if env.removeFails then (F.RemoveSome(t, Live(c.workDir, v), env.removed), Failed)
    else (F.RemoveAll(t, Live(c.workDir, v)), Deleted)
  }

  /** The volume an ID stands for and the policy in force for it. */
  datatype Target = Target(id: string, volume: V.Volume, policy: V.Policy)

  function Resolve(c: Config, id: string): Result<Target> {
    match V.DecodeId(id)
    case Err => Err
    case Ok(v) => Ok(Target(id, v, V.EffectivePolicy(v, c.defaultPolicy)))
  }

  function Remove(c: Config, t: F.Tree, x: Target, env: Env): (F.Tree, Reply) {
    if !env.mounts then (t, Failed)
    else if x.policy.Archive? then ArchiveVolume(c, t, x.volume, env)
    else RemoveVolume(c, t, x.volume, env)
  }

  /** The entry is there and has not expired. */
  predicate Hit(cache: map<string, int>, id: string, now: int) {
    id in cache && now - cache[id] < CacheLifetime
  }

  function DeleteTarget(c: Config, s: State, x: Target, secrets: bool, now: int, env: Env): (State, Reply) {
    if !secrets || x.policy.Retain? then (s.(cache := s.cache[x.id := now]), Deleted)
    else if Hit(s.cache, x.id, now) then (s, Deleted)
    else
      var (t, reply) := Remove(c, s.tree, x, env);
      (State(t, if reply.Deleted? then s.cache[x.id := now] else s.cache - {x.id}), reply)
  }

  /** The whole call for the holder of the volume's lock; an ID that does not decode counts as deleted. */
  function Delete(c: Config, s: State, id: string, secrets: bool, now: int, env: Env): (State, Reply) {
    match Resolve(c, id)
    case Err => (s, Deleted)
    case Ok(x) => DeleteTarget(c, s, x, secrets, now, env)
  }

  // ---------------------------------------------------------------- live and archived paths

  lemma {:induction false} SplitPrefixed(a: string, s: string)
    requires Free(a, {'/'})
    ensures Split(a + s, {'/'}) == [a + Split(s, {'/'})[0]] + Split(s, {'/'})[1..]
    decreases |a|
  {
    if a == "" {
      assert a + s == s && "" + Split(s, {'/'})[0] == Split(s, {'/'})[0];
    } else {
      SplitPrefixed(a[1..], s);
      assert (a + s)[0] == a[0] && (a + s)[1..] == a[1..] + s;
      assert [a[0]] + (a[1..] + Split(s, {'/'})[0]) == a + Split(s, {'/'})[0];
    }
  }

  /** The first element of the subdirectory as written, and the cleaned rest. */
  function First(v: V.Volume): string { Split(v.subDir, {'/'})[0] }

  function Rest(v: V.Volume): seq<string> { Plain(Split(v.subDir, {'/'})[1..]) }

  predicate Vanishes(s: string) { s == "" || s == "." }

  lemma LiveIs(workDir: string, v: V.Volume)
    requires workDir != "" && V.ValidVolume(v)
    ensures Live(workDir, v) ==
            Segs(V.InternalMountPath(workDir, v)) + ((if Vanishes(First(v)) then [] else [First(v)]) + Rest(v))
  {
    V.InternalSegs(workDir, v);
  }

  lemma ArchiveElements(subDir: string)
    requires ".." !in Split(subDir, {'/'})
    ensures Elements("archived-" + subDir) == ["archived-" + Split(subDir, {'/'})[0]] + Plain(Split(subDir, {'/'})[1..])
    ensures ".." !in Split("archived-" + subDir, {'/'})
  {
    var parts := Split(subDir, {'/'});
    SplitPrefixed("archived-", subDir);
    var parts' := ["archived-" + parts[0]] + parts[1..];
    assert parts'[1..] == parts[1..];
    assert |parts'[0]| > 2;
  }

  lemma ArchivedIs(workDir: string, v: V.Volume)
    requires workDir != "" && V.ValidVolume(v)
    ensures Archived(workDir, v) == Segs(V.InternalMountPath(workDir, v)) + (["archived-" + First(v)] + Rest(v))
  {
    ValidHasNoDotDot(V.MountDir(v));
    ValidHasNoDotDot(v.subDir);
    JoinAppends(workDir, V.MountDir(v));
    ArchiveElements(v.subDir);
    JoinAppends(V.InternalMountPath(workDir, v), "archived-" + v.subDir);
  }

  lemma {:induction false} PrefixOfShifted(x: string, r: seq<string>)
    ensures r <= [x] + r <==> forall i :: 0 <= i < |r| ==> r[i] == x
  {
    if r <= [x] + r && r != [] {
      assert r[0] == ([x] + r)[0];
      var i := 1;
      while i < |r|
        invariant 1 <= i <= |r| && forall j :: 0 <= j < i ==> r[j] == x
      {
        assert r[i] == ([x] + r)[i] == r[i - 1];
        i := i + 1;
      }
    }
    if forall i :: 0 <= i < |r| ==> r[i] == x {
      assert forall i :: 0 <= i < |r| ==> ([x] + r)[i] == x;
    }
  }

  /** The live and the archived path are nested exactly when the subdirectory starts with an element that cleaning
      drops and every other element repeats the archive's first name; never for an ordinary first element. */
  lemma NestedIff(workDir: string, v: V.Volume)
    requires workDir != "" && V.ValidVolume(v)
    ensures Nested(workDir, v) <==>
            Vanishes(First(v)) && forall i :: 0 <= i < |Rest(v)| ==> Rest(v)[i] == "archived-" + First(v)
  {
    LiveIs(workDir, v);
    ArchivedIs(workDir, v);
    var mount, first, rest := Segs(V.InternalMountPath(workDir, v)), First(v), Rest(v);
    if Vanishes(first) {
      var x := "archived-" + first;
      assert [] + rest == rest;
      PrefixOfShifted(x, rest);
      PrefixCancels(mount, rest, [x] + rest);
      PrefixCancels(mount, [x] + rest, rest);
    } else {
      DifferentHeads(mount, first, "archived-" + first, rest);
    }
  }

  lemma DifferentHeads(m: seq<string>, x: string, y: string, r: seq<string>)
    requires x != y
    ensures !(m + ([x] + r) <= m + ([y] + r)) && !(m + ([y] + r) <= m + ([x] + r))
  {
    assert (m + ([x] + r))[|m|] == x && (m + ([y] + r))[|m|] == y;
  }

  lemma LiveIsShorter(workDir: string, v: V.Volume)
    requires workDir != "" && V.ValidVolume(v)
    ensures |Live(workDir, v)| <= |Archived(workDir, v)|
  {
    LiveIs(workDir, v);
    ArchivedIs(workDir, v);
  }

  /** Removing a stale archive leaves the live tree alone, in every tree that has one, exactly when the two
      paths are not nested. */
  lemma StaleRemovalSparesLive(workDir: string, v: V.Volume, t: F.Tree)
    requires Archived(workDir, v) in t && workDir != "" && V.ValidVolume(v)
    ensures F.SameUnder(t, F.RemoveAll(t, Archived(workDir, v)), Live(workDir, v)) <==> !Nested(workDir, v)
  {
    var live, archived := Live(workDir, v), Archived(workDir, v);
    LiveIsShorter(workDir, v);
    if Nested(workDir, v) {
      assert F.Under(live, archived);
    } else {
      forall q | F.Under(live, q) && F.Under(archived, q)
        ensures false
      {
        F.Comparable(live, archived, q);
      }
    }
  }

  // ---------------------------------------------------------------- archiving conserves data

  /** Directories that did not exist and were made on the way to `p`. */
  ghost predicate OnlyParentsAdded(t: F.Tree, t': F.Tree, p: F.Path, except1: F.Path, except2: F.Path) {
    forall q :: !F.Under(except1, q) && !F.Under(except2, q) ==>
      && (q in t ==> q in t' && t'[q] == t[q])
      && (q in t' && q !in t ==> F.Under(q, p) && t'[q].Dir?)
  }

  /** The tree at the archived path is the old live tree, the live path is gone, and nothing else changed except parents
      made for the archive. */
  ghost predicate MovedAway(t: F.Tree, t': F.Tree, live: F.Path, archived: F.Path) {
    && live in t && archived != []
    && (forall r :: archived + r in t' <==> live + r in t)
    && (forall r :: live + r in t ==> t'[archived + r] == t[live + r])
    && (forall q :: F.Under(live, q) ==> q !in t')
    && OnlyParentsAdded(t, t', F.Parent(archived), live, archived)
  }

  /** A call that performs the archive and succeeds moves the whole live tree to the archived path. */
  lemma ArchiveConserves(c: Config, t: F.Tree, v: V.Volume, env: Env)
    requires c.workDir != "" && V.ValidVolume(v) && F.WellFormed(t) && ArchiveVolume(c, t, v, env).1.Deleted?
    ensures var live, archived, t' := Live(c.workDir, v), Archived(c.workDir, v), ArchiveVolume(c, t, v, env).0;
            !Nested(c.workDir, v) && MovedAway(t, t', live, archived) && F.WellFormed(t')
  {
    var live, archived := Live(c.workDir, v), Archived(c.workDir, v);
    LiveIs(c.workDir, v);
    ArchivedIs(c.workDir, v);
    assert |archived| > 0;
    LiveIsNotArchived(c.workDir, v);
    var t1 := if '/' in v.subDir then F.MkdirAll(t, F.Parent(archived)).tree else t;
    if '/' in v.subDir {
      F.MkdirAllIs(t, F.Parent(archived));
      F.MkdirAllWellFormed(t, F.Parent(archived));
    }
    var t2 := if c.removeArchived then F.RemoveAll(t1, archived) else t1;
    F.RemoveAllWellFormed(t1, archived);
    var t' := ArchiveVolume(c, t, v, env).0;
    F.RenameMoves(t2, live, archived);
    F.RenameWellFormed(t2, live, archived);
    LiveUntouched(t, t1, t2, live, archived);
    assert !Nested(c.workDir, v);
  }

  lemma LiveIsNotArchived(workDir: string, v: V.Volume)
    requires workDir != "" && V.ValidVolume(v)
    ensures Live(workDir, v) != Archived(workDir, v)
  {
    LiveIs(workDir, v);
    ArchivedIs(workDir, v);
    if !Vanishes(First(v)) {
      DifferentHeads(Segs(V.InternalMountPath(workDir, v)), First(v), "archived-" + First(v), Rest(v));
    }
  }

  /** Neither making the archive's parents nor removing a stale archive touches a tree beside it. */
  lemma LiveUntouched(t: F.Tree, t1: F.Tree, t2: F.Tree, live: F.Path, archived: F.Path)
    requires archived != [] && !(live <= archived) && !(archived <= live)
    requires forall q :: q in t ==> q in t1 && t1[q] == t[q]
    requires forall q :: q in t1 && q !in t ==> F.Under(q, F.Parent(archived))
    requires t2 == t1 || t2 == F.RemoveAll(t1, archived)
    ensures F.SameUnder(t, t2, live)
  {
    forall q | F.Under(live, q)
      ensures (q in t2 <==> q in t) && (q in t ==> t2[q] == t[q])
    {
      if F.Under(archived, q) {
        F.Comparable(live, archived, q);
      }
      assert F.Under(q, F.Parent(archived)) ==> live <= archived;
    }
  }

  /** A call that fails, at whatever point, leaves the live tree as it was when the paths are not nested. */
  lemma FailedArchiveSparesLive(c: Config, t: F.Tree, v: V.Volume, env: Env)
    requires c.workDir != "" && V.ValidVolume(v) && !Nested(c.workDir, v) && !ArchiveVolume(c, t, v, env).1.Deleted?
    ensures F.SameUnder(t, ArchiveVolume(c, t, v, env).0, Live(c.workDir, v))
  {
    var live, archived := Live(c.workDir, v), Archived(c.workDir, v);
    ArchivedIs(c.workDir, v);
    if '/' in v.subDir && F.MkdirAll(t, F.Parent(archived)).Success? {
      F.MkdirAllIs(t, F.Parent(archived));
    }
    var made := F.MkdirAll(t, F.Parent(archived));
    var t1 := if '/' in v.subDir && made.Success? then made.tree else t;
    LiveUntouched(t, t1, t1, live, archived);
    LiveUntouched(t, t1, F.RemoveAll(t1, archived), live, archived);
    forall q | F.Under(live, q) && F.Under(archived, q)
      ensures false
    {
      F.Comparable(live, archived, q);
    }
  }

  /** Something at or below `p` is gone or changed. */
  ghost predicate Lost(t: F.Tree, t': F.Tree, p: F.Path) {
    exists q :: F.Under(p, q) && q in t && !(q in t' && t'[q] == t[q])
  }

  /** The stale removal is reached and takes something away. */
  predicate RemovesStale(c: Config, t: F.Tree, v: V.Volume, env: Env) {
    && c.removeArchived && !('/' in v.subDir && env.mkdirFails)
    && exists q :: q in t && F.Under(Archived(c.workDir, v), q) && (env.removeFails ==> q in env.removed)
  }

  lemma {:induction false} AncestorThere(t: F.Tree, p: F.Path, q: F.Path)
    requires F.WellFormed(t) && F.Under(p, q) && q in t
    ensures p in t
    decreases |q|
  {
    if p != q {
      assert q[..|p|] == p;
      F.AncestorsAreDirs(t, q);
    }
  }

  /** A failed archive of a nested volume: the rename is never possible, so the call always fails, and it loses data of
      the live tree exactly when it removes something stale. */
  lemma NestedArchiveLosesIff(c: Config, t: F.Tree, v: V.Volume, env: Env)
    requires c.workDir != "" && V.ValidVolume(v) && F.WellFormed(t) && Nested(c.workDir, v)
    ensures ArchiveVolume(c, t, v, env).1.Failed?
    ensures Lost(t, ArchiveVolume(c, t, v, env).0, Live(c.workDir, v)) <==> RemovesStale(c, t, v, env)
  {
    var live, archived, t' := Live(c.workDir, v), Archived(c.workDir, v), ArchiveVolume(c, t, v, env).0;
    LiveIsNotArchived(c.workDir, v);
    LiveIsShorter(c.workDir, v);
    ArchivedIs(c.workDir, v);
    assert live < archived;
    if RemovesStale(c, t, v, env) {
      var q :| q in t && F.Under(archived, q) && (env.removeFails ==> q in env.removed);
      AncestorThere(t, archived, q);
      F.MkdirAllNoop(t, F.Parent(archived));
      assert q !in t' && F.Under(live, q);
    } else {
      KeepsEverything(c, t, v, env);
    }
  }

  lemma KeepsEverything(c: Config, t: F.Tree, v: V.Volume, env: Env)
    requires c.workDir != "" && V.ValidVolume(v) && Nested(c.workDir, v) && !RemovesStale(c, t, v, env)
    requires Live(c.workDir, v) < Archived(c.workDir, v)
    ensures forall q :: q in t ==> q in ArchiveVolume(c, t, v, env).0 && ArchiveVolume(c, t, v, env).0[q] == t[q]
  {
    var parent := F.Parent(Archived(c.workDir, v));
    if F.MkdirAll(t, parent).Success? {
      F.MkdirAllIs(t, parent);
    }
  }

  /** A call that does not succeed, at whatever point it fails, loses data of the live tree exactly when the paths are
      nested and it removes something stale. */
  lemma FailedArchiveLosesIff(c: Config, t: F.Tree, v: V.Volume, env: Env)
    requires c.workDir != "" && V.ValidVolume(v) && F.WellFormed(t) && !ArchiveVolume(c, t, v, env).1.Deleted?
    ensures Lost(t, ArchiveVolume(c, t, v, env).0, Live(c.workDir, v)) <==>
            Nested(c.workDir, v) && RemovesStale(c, t, v, env)
  {
    if Nested(c.workDir, v) {
      NestedArchiveLosesIff(c, t, v, env);
    } else {
      FailedArchiveSparesLive(c, t, v, env);
    }
  }

  // ---------------------------------------------------------------- volumes that cannot be deleted

  /** A volume created under a name with a ".." element and a subdirectory is never deleted: its ID does not decode,
      and every DeleteVolume call answers success and changes nothing. */
  lemma UndecodableIsNeverDeleted(
    c: Config, s: State, name: string, p: V.Params, defaultPolicy: string, secrets: bool, now: int, env: Env)
    requires V.NewVolume(name, p, defaultPolicy).Ok? && V.HashFree(V.NewVolume(name, p, defaultPolicy).value)
    requires p.subDir != "" && !ValidPath(name)
    ensures Delete(c, s, V.NewVolume(name, p, defaultPolicy).value.id, secrets, now, env) == (s, Deleted)
  {
    V.UndecodableIff(name, p, defaultPolicy);
  }

  /** Such requests are accepted: the name ".." with any plain source and subdirectory. */
  lemma DotDotNameIsAccepted(source: string, subDir: string, defaultPolicy: string)
    requires V.ProperName(source) && V.ProperName(subDir)
    ensures var created := V.NewVolume("..", V.Params(source, subDir, subDir, ""), defaultPolicy);
            created.Ok? && V.HashFree(created.value)
    ensures !ValidPath("..")
  {
    DotDotIsInvalid("..");
    V.ProperNamesAreValid(source);
    V.ProperNamesAreValid(subDir);
    assert V.SupportedOnDelete("");
  }

  lemma DotDotIsInvalid(name: string)
    requires name == ".."
    ensures !ValidPath(name) && Free(name, {'#'})
  {
    SplitFree(name, PathSeparators);
    NonEmptyIn([name], name);
  }

  // ---------------------------------------------------------------- when an archive succeeds

  /** An existing archive can be replaced by the rename. */
  predicate Replaceable(t: F.Tree, live: F.Path, archived: F.Path) {
    archived !in t || (live in t && ((t[live].Dir? && t[archived].Dir? && F.Childless(t, archived)) ||
                                     (t[live].File? && t[archived].File?)))
  }

  predicate NoFaults(env: Env) {
    env.mounts && !env.mkdirFails && !env.removeFails && !env.renameFails
  }

  lemma ParentReady(c: Config, t: F.Tree, v: V.Volume)
    requires c.workDir != "" && V.ValidVolume(v) && F.WellFormed(t) && Live(c.workDir, v) in t && !Nested(c.workDir, v)
    requires '/' !in v.subDir
    ensures var parent := F.Parent(Archived(c.workDir, v)); parent in t && t[parent].Dir?
  {
    LiveIs(c.workDir, v);
    ArchivedIs(c.workDir, v);
    NestedIff(c.workDir, v);
    SplitFree(v.subDir, {'/'});
    assert Rest(v) == [];
    var mount, live, archived := Segs(V.InternalMountPath(c.workDir, v)), Live(c.workDir, v), Archived(c.workDir, v);
    assert live == mount + [First(v)] && archived == mount + ["archived-" + First(v)];
    assert F.Parent(live) == mount && F.Parent(archived) == mount;
  }

  /** Without faults an archive succeeds exactly when there is a live tree, the paths are not nested, no file is in
      the way of the archive's parents, and an archive that is already there is removed or can be replaced. */
  lemma ArchiveSucceedsIff(c: Config, t: F.Tree, v: V.Volume, env: Env)
    requires c.workDir != "" && V.ValidVolume(v) && F.WellFormed(t) && NoFaults(env)
    ensures var live, archived := Live(c.workDir, v), Archived(c.workDir, v);
            && archived != []
            && (ArchiveVolume(c, t, v, env).1.Deleted? <==>
                  && live in t && !Nested(c.workDir, v)
                  && ('/' in v.subDir ==> F.PathIsDirs(t, F.Parent(archived)))
                  && (c.removeArchived || Replaceable(t, live, archived)))
  {
    var live, archived := Live(c.workDir, v), Archived(c.workDir, v);
    ArchivedIs(c.workDir, v);
    if ArchiveVolume(c, t, v, env).1.Deleted? {
      ArchiveConserves(c, t, v, env);
    }
    if live in t && !Nested(c.workDir, v) && ('/' in v.subDir ==> F.PathIsDirs(t, F.Parent(archived))) {
      if '/' in v.subDir {
        F.MkdirAllIs(t, F.Parent(archived));
        RenameReady(c, t, F.MkdirAll(t, F.Parent(archived)).tree, live, archived);
      } else {
        ParentReady(c, t, v);
        RenameReady(c, t, t, live, archived);
      }
    }
  }

  lemma RenameReady(c: Config, t: F.Tree, t1: F.Tree, live: F.Path, archived: F.Path)
    requires archived != [] && live in t && !(live <= archived) && !(archived <= live)
    requires F.Parent(archived) in t1 && t1[F.Parent(archived)].Dir?
    requires forall q :: q in t ==> q in t1 && t1[q] == t[q]
    requires forall q :: q in t1 && q !in t ==> F.Under(q, F.Parent(archived))
    ensures var t2 := if c.removeArchived then F.RemoveAll(t1, archived) else t1;
            F.Rename(t2, live, archived).Success? <==> c.removeArchived || Replaceable(t, live, archived)
  {
    assert live != [];
    assert forall q :: q in t1 && F.Under(archived, q) ==> q in t;
  }

  // ---------------------------------------------------------------- what the request's word means for the tree

  /** A volume created with "retain", or with nothing or "delete" against a default of "retain", in any case of the
      letters: every DeleteVolume call answers success and leaves the tree as it was. */
  lemma RetainKeepsTheTree(c: Config, s: State, name: string, p: V.Params, secrets: bool, now: int, env: Env)
    requires V.NewVolume(name, p, c.defaultPolicy).Ok? && V.Recoverable(V.NewVolume(name, p, c.defaultPolicy).value)
    requires EqualFold(V.DecidingWord(p.onDelete, c.defaultPolicy), "retain")
    ensures var (s', reply) := Delete(c, s, V.NewVolume(name, p, c.defaultPolicy).value.id, secrets, now, env);
            s'.tree == s.tree && reply.Deleted?
  {
    V.PolicyIsTheWord(name, p, c.defaultPolicy);
  }

  /** With "archive" in the same way: a successful call with secrets that is not answered from the cache moves the
      directory CreateVolume made, whole, to the archive. */
  lemma ArchiveMovesTheTree(c: Config, s: State, name: string, p: V.Params, now: int, env: Env)
    requires c.workDir != "" && F.WellFormed(s.tree)
    requires V.NewVolume(name, p, c.defaultPolicy).Ok? && V.Recoverable(V.NewVolume(name, p, c.defaultPolicy).value)
    requires EqualFold(V.DecidingWord(p.onDelete, c.defaultPolicy), "archive")
    requires var id := V.NewVolume(name, p, c.defaultPolicy).value.id;
             !Hit(s.cache, id, now) && Delete(c, s, id, true, now, env).1.Deleted?
    ensures var v := V.NewVolume(name, p, c.defaultPolicy).value;
            var t' := Delete(c, s, v.id, true, now, env).0.tree;
            MovedAway(s.tree, t', Live(c.workDir, v), Archived(c.workDir, V.Canonical(v)))
  {
    var v := V.NewVolume(name, p, c.defaultPolicy).value;
    V.CreatedFields(name, p, c.defaultPolicy);
    V.PolicyIsTheWord(name, p, c.defaultPolicy);
    V.WordsApart(V.DecidingWord(p.onDelete, c.defaultPolicy));
    V.CanonicalPaths(c.workDir, v);
    TrimKeepsValid(v.subDir);
    ArchiveConserves(c, s.tree, V.Canonical(v), env);
  }

  /** With any other word: a successful call with secrets that is not answered from the cache leaves nothing of the
      directory CreateVolume made, and changes nothing else. */
  lemma OtherwiseTheTreeIsRemoved(c: Config, s: State, name: string, p: V.Params, now: int, env: Env)
    requires c.workDir != ""
    requires V.NewVolume(name, p, c.defaultPolicy).Ok? && V.Recoverable(V.NewVolume(name, p, c.defaultPolicy).value)
    requires !EqualFold(V.DecidingWord(p.onDelete, c.defaultPolicy), "retain")
    requires !EqualFold(V.DecidingWord(p.onDelete, c.defaultPolicy), "archive")
    requires var id := V.NewVolume(name, p, c.defaultPolicy).value.id;
             !Hit(s.cache, id, now) && Delete(c, s, id, true, now, env).1.Deleted?
    ensures var v := V.NewVolume(name, p, c.defaultPolicy).value;
            var t' := Delete(c, s, v.id, true, now, env).0.tree;
            Gone(t', Live(c.workDir, v)) && SameOutside(s.tree, t', Live(c.workDir, v))
  {
    var v := V.NewVolume(name, p, c.defaultPolicy).value;
    V.CreatedFields(name, p, c.defaultPolicy);
    V.PolicyIsTheWord(name, p, c.defaultPolicy);
    V.CanonicalPaths(c.workDir, v);
    RemovalStaysInside(c, s.tree, V.Canonical(v), env);
    RemoveIs(c, s.tree, Target(v.id, V.Canonical(v), V.EffectivePolicy(V.Canonical(v), c.defaultPolicy)), env);
  }

  // ---------------------------------------------------------------- repeated calls

  datatype Attempt = Attempt(now: int, env: Env)

  /** Any number of further DeleteVolume calls on one volume, with secrets, one after the other. */
  function DeleteAll(c: Config, s: State, x: Target, attempts: seq<Attempt>): State
    decreases attempts
  {
    if attempts == [] then s
    else DeleteAll(c, DeleteTarget(c, s, x, true, attempts[0].now, attempts[0].env).0, x, attempts[1..])
  }

  /** The call did the work itself and succeeded: the policy is not retain, the answer is not from the cache. */
  predicate Performed(c: Config, s: State, x: Target, first: Attempt) {
    && !x.policy.Retain? && !Hit(s.cache, x.id, first.now)
    && DeleteTarget(c, s, x, true, first.now, first.env).1.Deleted?
  }

  lemma {:induction false} RememberedCallsChangeNothing(c: Config, s: State, x: Target, done: int, later: seq<Attempt>)
    requires !x.policy.Retain? && x.id in s.cache && s.cache[x.id] == done
    requires forall i :: 0 <= i < |later| ==> done <= later[i].now < done + CacheLifetime
    ensures DeleteAll(c, s, x, later) == s
    decreases later
  {
    if later != [] {
      assert Hit(s.cache, x.id, later[0].now);
      RememberedCallsChangeNothing(c, s, x, done, later[1..]);
    }
  }

  /** Within the cache lifetime after a call that did the work and succeeded, any number of further calls changes
      nothing at all, neither the tree nor the cache. */
  lemma RepeatsWithinLifetime(c: Config, s: State, x: Target, first: Attempt, later: seq<Attempt>)
    requires Performed(c, s, x, first)
    requires forall i :: 0 <= i < |later| ==> first.now <= later[i].now < first.now + CacheLifetime
    ensures var s1 := DeleteTarget(c, s, x, true, first.now, first.env).0; DeleteAll(c, s1, x, later) == s1
  {
    RememberedCallsChangeNothing(c, DeleteTarget(c, s, x, true, first.now, first.env).0, x, first.now, later);
  }

  ghost predicate Gone(t: F.Tree, p: F.Path) {
    forall q :: F.Under(p, q) ==> q !in t
  }

  lemma {:induction false} CallsOnGoneTreeChangeNothing(c: Config, s: State, x: Target, later: seq<Attempt>)
    requires x.policy.Delete? && Gone(s.tree, Live(c.workDir, x.volume))
    ensures DeleteAll(c, s, x, later).tree == s.tree
    decreases later
  {
    if later != [] {
      var live := Live(c.workDir, x.volume);
      assert F.RemoveAll(s.tree, live) == s.tree;
      assert F.RemoveSome(s.tree, live, later[0].env.removed) == s.tree;
      CallsOnGoneTreeChangeNothing(c, DeleteTarget(c, s, x, true, later[0].now, later[0].env).0, x, later[1..]);
    }
  }

  /** Under the delete policy, success means that the directory is gone exactly when it was gone before or the call was
      made with secrets and not answered from the cache. */
  lemma SuccessMeansGoneIff(c: Config, s: State, x: Target, secrets: bool, now: int, env: Env)
    requires x.policy.Delete? && DeleteTarget(c, s, x, secrets, now, env).1.Deleted?
    ensures var live := Live(c.workDir, x.volume);
            Gone(DeleteTarget(c, s, x, secrets, now, env).0.tree, live) <==>
            Gone(s.tree, live) || (secrets && !Hit(s.cache, x.id, now))
  {
    RemovalStaysInside(c, s.tree, x.volume, env);
    RemoveIs(c, s.tree, x, env);
    assert F.Under(Live(c.workDir, x.volume), Live(c.workDir, x.volume));
  }

  /** A call without secrets is remembered like one that did the work: a call with secrets that follows within the
      lifetime of the entry answers success and deletes nothing. */
  lemma SecretlessCallHidesTheVolume(c: Config, s: State, x: Target, first: Attempt, later: seq<Attempt>)
    requires !x.policy.Retain?
    requires forall i :: 0 <= i < |later| ==> first.now <= later[i].now < first.now + CacheLifetime
    ensures var (s1, reply) := DeleteTarget(c, s, x, false, first.now, first.env);
            reply.Deleted? && s1.tree == s.tree && DeleteAll(c, s1, x, later) == s1
  {
    RememberedCallsChangeNothing(c, DeleteTarget(c, s, x, false, first.now, first.env).0, x, first.now, later);
  }

  ghost predicate SameOutside(t: F.Tree, t': F.Tree, p: F.Path) {
    forall q :: !F.Under(p, q) ==> (q in t' <==> q in t) && (q in t ==> t'[q] == t[q])
  }

  lemma RemovalStaysInside(c: Config, t: F.Tree, v: V.Volume, env: Env)
    ensures SameOutside(t, RemoveVolume(c, t, v, env).0, Live(c.workDir, v))
    ensures RemoveVolume(c, t, v, env).1.Deleted? ==> Gone(RemoveVolume(c, t, v, env).0, Live(c.workDir, v))
  {
  }

  /** What one call may do to the tree: without secrets, under retain, on a cached ID or without a mount nothing;
      under the delete policy nothing outside the volume's directory, whether it fails or not, and success leaves
      nothing of it. */
  lemma DeleteTouchesOnlyItsVolume(c: Config, s: State, x: Target, secrets: bool, now: int, env: Env)
    ensures var (s', reply) := DeleteTarget(c, s, x, secrets, now, env);
            && (!secrets || x.policy.Retain? || Hit(s.cache, x.id, now) || !env.mounts ==> s'.tree == s.tree)
            && (x.policy.Delete? ==> SameOutside(s.tree, s'.tree, Live(c.workDir, x.volume)))
            && (x.policy.Delete? && secrets && !Hit(s.cache, x.id, now) && reply.Deleted? ==>
               Gone(s'.tree, Live(c.workDir, x.volume)))
            && (reply.Deleted? ==> Hit(s'.cache, x.id, now))
  {
    RemovalStaysInside(c, s.tree, x.volume, env);
    RemoveIs(c, s.tree, x, env);
  }

  lemma RemoveIs(c: Config, t: F.Tree, x: Target, env: Env)
    ensures !env.mounts ==> Remove(c, t, x, env) == (t, Failed)
    ensures env.mounts && x.policy.Delete? ==> Remove(c, t, x, env) == RemoveVolume(c, t, x.volume, env)
  {
  }

  /** For the delete policy the same holds with no time limit: once a call removed the directory, and nothing
      else, no later call changes the tree, whatever fails in it and however late it comes. */
  lemma DeleteStaysDeleted(c: Config, s: State, x: Target, first: Attempt, later: seq<Attempt>)
    requires x.policy.Delete? && Performed(c, s, x, first)
    ensures var s1 := DeleteTarget(c, s, x, true, first.now, first.env).0;
            && Gone(s1.tree, Live(c.workDir, x.volume)) && SameOutside(s.tree, s1.tree, Live(c.workDir, x.volume))
            && DeleteAll(c, s1, x, later).tree == s1.tree
  {
    DeleteTouchesOnlyItsVolume(c, s, x, true, first.now, first.env);
    CallsOnGoneTreeChangeNothing(c, DeleteTarget(c, s, x, true, first.now, first.env).0, x, later);
  }

  /** A call that fails is not remembered at any time, and no call touches the entries of other volumes. */
  lemma FailureIsNotRemembered(c: Config, s: State, x: Target, secrets: bool, now: int, env: Env)
    ensures var (s', reply) := DeleteTarget(c, s, x, secrets, now, env);
            && (reply.Deleted? <==> Hit(s'.cache, x.id, now))
            && (!reply.Deleted? ==> forall later :: !Hit(s'.cache, x.id, later))
            && (forall id :: id != x.id ==>
                  (id in s'.cache <==> id in s.cache) && (id in s.cache ==> s'.cache[id] == s.cache[id]))
  {
    RemoveReplies(c, s.tree, x, env);
  }

  lemma RemoveReplies(c: Config, t: F.Tree, x: Target, env: Env)
    ensures !Remove(c, t, x, env).1.Aborted?
  {
  }

  /** Every one of the calls, with secrets and one after the other, fails. */
  predicate AllFail(c: Config, s: State, x: Target, attempts: seq<Attempt>)
    decreases attempts
  {
    attempts == [] ||
    var (s', reply) := DeleteTarget(c, s, x, true, attempts[0].now, attempts[0].env);
    !reply.Deleted? && AllFail(c, s', x, attempts[1..])
  }

  lemma {:induction false} FailuresForget(c: Config, s: State, x: Target, attempts: seq<Attempt>)
    requires AllFail(c, s, x, attempts) && attempts != []
    ensures !x.policy.Retain? && forall now :: !Hit(DeleteAll(c, s, x, attempts).cache, x.id, now)
    ensures x.policy.Delete? ==> SameOutside(s.tree, DeleteAll(c, s, x, attempts).tree, Live(c.workDir, x.volume))
    decreases attempts
  {
    var a := attempts[0];
    FailureIsNotRemembered(c, s, x, true, a.now, a.env);
    DeleteTouchesOnlyItsVolume(c, s, x, true, a.now, a.env);
    var s' := DeleteTarget(c, s, x, true, a.now, a.env).0;
    if attempts[1..] != [] {
      FailuresForget(c, s', x, attempts[1..]);
    } else {
      assert DeleteAll(c, s', x, attempts[1..]) == s';
    }
  }

  /** After any number of failed calls, whenever they came, a call with secrets and without faults does the work:
      under the delete policy it succeeds and leaves nothing of the volume's directory, and all calls together changed
      nothing else; under the archive policy it performs the archive on the tree as the failures left it. */
  lemma RetryDoesTheWork(c: Config, s: State, x: Target, failed: seq<Attempt>, last: Attempt)
    requires failed != [] && AllFail(c, s, x, failed) && NoFaults(last.env)
    ensures var s1 := DeleteAll(c, s, x, failed);
            var (s2, reply) := DeleteTarget(c, s1, x, true, last.now, last.env);
            var live := Live(c.workDir, x.volume);
            && (x.policy.Delete? ==> reply.Deleted? && Gone(s2.tree, live) && SameOutside(s.tree, s2.tree, live))
            && (x.policy.Archive? ==> (s2.tree, reply) == ArchiveVolume(c, s1.tree, x.volume, last.env))
  {
    FailuresForget(c, s, x, failed);
    var s1 := DeleteAll(c, s, x, failed);
    RetryStep(c, s1, x, last);
  }

  lemma RetryStep(c: Config, s: State, x: Target, last: Attempt)
    requires !x.policy.Retain? && !Hit(s.cache, x.id, last.now) && NoFaults(last.env)
    ensures var (s', reply) := DeleteTarget(c, s, x, true, last.now, last.env);
            var live := Live(c.workDir, x.volume);
            && (x.policy.Delete? ==> reply.Deleted? && Gone(s'.tree, live) && SameOutside(s.tree, s'.tree, live))
            && (x.policy.Archive? ==> (s'.tree, reply) == ArchiveVolume(c, s.tree, x.volume, last.env))
  {
    RemovalStaysInside(c, s.tree, x.volume, last.env);
    RemoveIs(c, s.tree, x, last.env);
    assert RemoveVolume(c, s.tree, x.volume, last.env).1.Deleted?;
  }

  /** For the archive policy the lifetime matters: a call that comes after the entry expired, and meets no error
      of its own, fails, and leaves the tree alone exactly when stale archives are not removed; otherwise the archived
      data is removed. */
  lemma LateArchiveCall(c: Config, s: State, x: Target, first: Attempt, late: Attempt)
    requires c.workDir != "" && F.WellFormed(s.tree) && V.ValidVolume(x.volume)
    requires x.policy.Archive? && Performed(c, s, x, first) && late.now >= first.now + CacheLifetime
    requires late.env.mounts && !late.env.mkdirFails && !late.env.removeFails && !late.env.renameFails
    ensures var s1 := DeleteTarget(c, s, x, true, first.now, first.env).0;
            var (s2, reply) := DeleteTarget(c, s1, x, true, late.now, late.env);
            reply.Failed? && (s2.tree == s1.tree <==> !c.removeArchived)
  {
    var s1 := DeleteTarget(c, s, x, true, first.now, first.env).0;
    ArchiveConserves(c, s.tree, x.volume, first.env);
    assert Archived(c.workDir, x.volume) + [] == Archived(c.workDir, x.volume);
    assert Live(c.workDir, x.volume) + [] == Live(c.workDir, x.volume);
    LateArchive(c, s1.tree, x.volume, late.env);
  }

  lemma LateArchive(c: Config, t: F.Tree, v: V.Volume, env: Env)
    requires c.workDir != "" && V.ValidVolume(v) && F.WellFormed(t) && Archived(c.workDir, v) in t
             && Archived(c.workDir, v) != []
    requires Gone(t, Live(c.workDir, v)) && !env.mkdirFails && !env.removeFails && !env.renameFails
    ensures var (t', reply) := ArchiveVolume(c, t, v, env); reply.Failed? && (t' == t <==> !c.removeArchived)
  {
    var live, archived := Live(c.workDir, v), Archived(c.workDir, v);
    F.MkdirAllNoop(t, F.Parent(archived));
    assert F.Under(live, live) && F.Under(archived, archived);
  }

  // ---------------------------------------------------------------- the controller

  class Controller {
    const config: Config
    const volumeLocks: VolumeLocks
    var tree: F.Tree
    var cache: map<string, int>

    constructor (config: Config, tree: F.Tree)
      ensures this.config == config && this.tree == tree && cache == map[]
      ensures fresh(volumeLocks) && volumeLocks.locks == {}
    {
      this.config := config;
      this.tree := tree;
      volumeLocks := new VolumeLocks();
      cache := map[];
    }

    /** azcache Get with a getter that finds nothing: an expired entry is replaced by an empty one. */
    method CacheGet(id: string, now: int) returns (found: bool)
      modifies this`cache
      ensures found <==> Hit(old(cache), id, now)
      ensures found <==> id in old(cache) && now < old(cache)[id] + 60
      ensures cache == if found then old(cache) else old(cache) - {id}
    {
      found := id in cache && now - cache[id] < CacheLifetime;
      if !found {
        cache := cache - {id};
      }
    }

    /** The steps of the archive branch, each on the tree the one before it left. */
    method Archive(v: V.Volume, env: Env) returns (reply: Reply)
      modifies this`tree
      ensures (tree, reply) == ArchiveVolume(config, old(tree), v, env)
    {
      var live, archived := Live(config.workDir, v), Archived(config.workDir, v);
      if '/' in v.subDir && archived != [] {
        var made := F.MkdirAll(tree, F.Parent(archived));
        if env.mkdirFails || made.Failure? {
          return Failed;
        }
        tree := made.tree;
      }
      if config.removeArchived {
        if env.removeFails {
          tree := F.RemoveSome(tree, archived, env.removed);
          return Failed;
        }
        tree := F.RemoveAll(tree, archived);
      }
      var renamed := F.Rename(tree, live, archived);
      if env.renameFails || renamed.Failure? {
        return Failed;
      }
      tree := renamed.tree;
      return Deleted;
    }

    /** What DeleteVolume does between taking and releasing the volume's lock. */
    method DeleteLocked(x: Target, secrets: bool, now: int, env: Env) returns (reply: Reply)
      modifies this`tree, this`cache
      ensures (State(tree, cache), reply) == DeleteTarget(config, old(State(tree, cache)), x, secrets, now, env)
    {
      if secrets && !x.policy.Retain? {
        var found := CacheGet(x.id, now);
        if found {
          return Deleted;
        }
        if !env.mounts {
          return Failed;
        }
        if x.policy.Archive? {
          reply := Archive(x.volume, env);
          if reply.Failed? {
            return;
          }
        } else {
          if env.removeFails {
            tree := F.RemoveSome(tree, Live(config.workDir, x.volume), env.removed);
            return Failed;
          }
          tree := F.RemoveAll(tree, Live(config.workDir, x.volume));
        }
      }
      assert (old(cache) - {x.id})[x.id := now] == old(cache)[x.id := now];
      cache := cache[x.id := now];
      return Deleted;
    }

    /** DeleteVolume: a busy volume is refused without effect; otherwise the tree and the cache change as `Delete` says,
        and the volume's lock is free again afterwards. */
    method DeleteVolume(id: string, secrets: bool, now: int, env: Env) returns (reply: Reply)
      modifies this, volumeLocks
      ensures volumeLocks.locks == old(volumeLocks.locks)
      ensures if Resolve(config, id).Ok? && id in old(volumeLocks.locks)
              then reply.Aborted? && tree == old(tree) && cache == old(cache)
              else (State(tree, cache), reply) == Delete(config, old(State(tree, cache)), id, secrets, now, env)
    {
      var resolved := Resolve(config, id);
      if resolved.Err? {
        return Deleted;
      }
      var acquired := volumeLocks.TryAcquire(id);
      if !acquired {
        return Aborted;
      }
      reply := DeleteLocked(resolved.value, secrets, now, env);
      volumeLocks.Release(id);
    }
  }
}
