/** One ensureKerberosCache or deleteKerberosCache call at a time, on a directory updated in place. */
module KerberosDirectory {
  import opened KerberosNames
  import opened KerberosCache

  /** How the write of one creation ends, and which of its other file system calls meet an error. */
  datatype Faults = Faults(write: WriteResult, chown: bool, clear: bool, symlink: bool, rename: bool, discard: bool)

  /** What a write that reached the file left in it. */
  function Left(content: Content, faults: Faults): Content {
    if faults.write.Torn? then faults.write.content else content
  }

  /** What is left once the names in `rest` have been dealt with and the file removed. */
  function Swept(dir: map<Name, Entry>, v: Vol, rest: set<Name>, stuck: set<Name>): map<Name, Entry> {
    map n | n in dir && !(n !in stuck && (n == CacheFile(v) || (n in rest && PointsAt(dir, n, v)))) :: dir[n]
  }

  /** What a deletion leaves when it sees the names `listed` and cannot remove the names in `stuck`. */
  function Deleted(dir: map<Name, Entry>, v: Vol, listed: set<Name>, stuck: set<Name>): map<Name, Entry> {
    if CacheFile(v) !in dir then dir else Swept(dir, v, listed, stuck)
  }

  /** A deletion leaves no dangling link exactly when the file itself could not be removed, or every link to it
      was listed and removed. */
  lemma DeletionDanglesIff(dir: map<Name, Entry>, v: Vol, listed: set<Name>, stuck: set<Name>)
    requires NoDangling(dir) && CacheFilesOnly(dir) && CacheFile(v) in dir
    ensures NoDangling(Deleted(dir, v, listed, stuck)) <==>
            CacheFile(v) in stuck || forall n :: PointsAt(dir, n, v) ==> n in listed && n !in stuck
  {
    var dir' := Deleted(dir, v, listed, stuck);
    if n :| PointsAt(dir, n, v) && !(n in listed && n !in stuck) {
      assert n in dir' && dir'[n] == Link(CacheFile(v));
      assert CacheFile(v) in dir' <==> CacheFile(v) in stuck;
    }
    if !NoDangling(dir') {
      var n :| n in dir' && dir'[n].Link? && dir'[n].target.CacheFile? && !IsFile(dir', dir'[n].target);
      assert IsFile(dir, dir[n].target);
      assert PointsAt(dir, n, v);
    }
  }

  // ---------------------------------------------------------------- the steps of one deletion

  /** Steps of the deletion for `v` alone, of which the removals of the names in `stuck` fail and all others succeed. */
  predicate Solo(s: State, steps: seq<Step>, v: Vol, stuck: set<Name>)
    requires Runs(s, steps)
    decreases steps
  {
    steps == [] || (SoloStep(s, steps[0], v, stuck) && Solo(Apply(s, steps[0]), steps[1..], v, stuck))
  }

  predicate SoloStep(s: State, step: Step, v: Vol, stuck: set<Name>)
    requires Enabled(s, step)
  {
    match step
    case Look(w, _) => w == v
    case Unlink(w, ok) => w == v && (ok <==> s.ops[v].name !in stuck)
    case Erase(w, ok) => w == v && (ok <==> CacheFile(v) !in stuck)
    case _ => false
  }

  /** The names a running deletion has still to deal with. */
  function Ahead(op: Op): set<Name> {
    match op
    case Sweeping(rest) => rest
    case Unlinking(name, rest) => rest + {name}
    case _ => {}
  }

  predicate Deleting(s: State, v: Vol) {
    v in s.ops && (s.ops[v].Sweeping? || (s.ops[v].Unlinking? && PointsAt(s.dir, s.ops[v].name, v)))
  }

  lemma SoloStepKeepsSwept(s: State, step: Step, v: Vol, stuck: set<Name>)
    requires Deleting(s, v) && Enabled(s, step) && SoloStep(s, step, v, stuck)
    ensures var s' := Apply(s, step);
            if v in s'.ops
            then Deleting(s', v) && Swept(s'.dir, v, Ahead(s'.ops[v]), stuck) == Swept(s.dir, v, Ahead(s.ops[v]), stuck)
            else s'.dir == Swept(s.dir, v, Ahead(s.ops[v]), stuck)
  {
  }

  lemma {:induction false} SoloRunSweeps(s: State, steps: seq<Step>, v: Vol, stuck: set<Name>)
    requires Deleting(s, v) && Runs(s, steps) && Solo(s, steps, v, stuck) && v !in After(s, steps).ops
    ensures After(s, steps).dir == Swept(s.dir, v, Ahead(s.ops[v]), stuck)
    decreases steps
  {
    if steps != [] {
      SoloStepKeepsSwept(s, steps[0], v, stuck);
      if v in Apply(s, steps[0]).ops {
        SoloRunSweeps(Apply(s, steps[0]), steps[1..], v, stuck);
      }
    }
  }

  /** Without the file a deletion ends where it begins. */
  lemma NothingToDelete(s: State, v: Vol, listed: set<Name>, stuck: set<Name>)
    requires v !in s.ops && Utf8(v) && CacheFile(v) !in s.dir
    ensures Enabled(s, BeginDelete(v)) && Apply(s, BeginDelete(v)) == s && Deleted(s.dir, v, listed, stuck) == s.dir
  {
  }

  /** Every run of one deletion's steps to its end, in whatever order the names are looked at, leaves what the loop
      leaves: the step system and the method below are the same deletion. */
  lemma SoloRunDeletes(s: State, v: Vol, listed: set<Name>, steps: seq<Step>, stuck: set<Name>)
    requires v !in s.ops && Utf8(v) && CacheFile(v) in s.dir && listed <= s.dir.Keys
    requires var s' := Apply(Apply(s, BeginDelete(v)), Scan(v, listed));
             Runs(s', steps) && Solo(s', steps, v, stuck) && v !in After(s', steps).ops
    ensures After(Apply(Apply(s, BeginDelete(v)), Scan(v, listed)), steps).dir == Deleted(s.dir, v, listed, stuck)
  {
    SoloRunSweeps(Apply(Apply(s, BeginDelete(v)), Scan(v, listed)), steps, v, stuck);
  }

  // ---------------------------------------------------------------- the steps of one creation

  /** What a creation leaves, and whether it succeeds, from the point where the temporary link is there. */
  function Renamed(dir: map<Name, Entry>, uid: int, temp: Name, faults: Faults): (map<Name, Entry>, bool) {
    if faults.rename || temp !in dir || IsDir(dir, UidLink(uid))
        then (if faults.discard then dir else dir - {temp}, false)
    else ((dir - {temp})[UidLink(uid) := dir[temp]], true)
  }

  /** From the point where nothing that is a directory is in the link's place any more. */
  function Swung(dir: map<Name, Entry>, v: Vol, uid: int, suffix: string, faults: Faults): (map<Name, Entry>, bool) {
    var temp := TempLink(uid, suffix);
    if faults.symlink || temp in dir then (dir, false) else Renamed(dir[temp := Link(CacheFile(v))], uid, temp, faults)
  }

  /** From the point where the file is the uid's. */
  function Placed(dir: map<Name, Entry>, v: Vol, uid: int, suffix: string, faults: Faults): (map<Name, Entry>, bool) {
    if !IsDir(dir, UidLink(uid)) then Swung(dir, v, uid, suffix, faults)
    else if faults.clear then (dir, false)
    else Swung(dir - {UidLink(uid)}, v, uid, suffix, faults)
  }

  /** From the point where the file is written. */
  function Chowned(dir: map<Name, Entry>, v: Vol, uid: int, suffix: string, faults: Faults): (map<Name, Entry>, bool) {
    var file := CacheFile(v);
    if faults.chown || !IsFile(dir, file) then (dir, false)
    else Placed(dir[file := File(uid, dir[file].content)], v, uid, suffix, faults)
  }

  /** The whole creation. */
  function Created(dir: map<Name, Entry>, v: Vol, uid: int, content: Content, suffix: string, faults: Faults)
    : (map<Name, Entry>, bool)
  {
    var file := CacheFile(v);
    if faults.write.NotWritten? || (file in dir && !dir[file].File?) then (dir, false)
    else
      var written := dir[file := File(Owner(dir, file), Left(content, faults))];
      if faults.write.Torn? then (written, false) else Chowned(written, v, uid, suffix, faults)
  }

  /** What the running creation will leave, and whether it will succeed. */
  function Outcome(dir: map<Name, Entry>, v: Vol, op: Op, suffix: string, faults: Faults): (map<Name, Entry>, bool) {
    match op
    case Writing(u, c) => Created(dir, v, u, c, suffix, faults)
    case Chowning(u) => Chowned(dir, v, u, suffix, faults)
    case Checking(u) => Placed(dir, v, u, suffix, faults)
    case Clearing(u) => if faults.clear then (dir, false) else Swung(dir - {UidLink(u)}, v, u, suffix, faults)
    case Linking(u) => Swung(dir, v, u, suffix, faults)
    case Renaming(u, temp) => Renamed(dir, u, temp, faults)
    case Discarding(_, temp) => (if faults.discard then dir else dir - {temp}, false)
    case _ => (dir, false)
  }

  /** A step of the creation for `v` alone, which meets the errors that `faults` say. */
  predicate CreationStep(step: Step, v: Vol, suffix: string, faults: Faults) {
    match step
    case Write(w, result) => w == v && result == faults.write
    case Chown(w, ok) => w == v && ok == !faults.chown
    case Check(w) => w == v
    case Clear(w, ok) => w == v && ok == !faults.clear
    case MakeTemp(w, x, ok) => w == v && x == suffix && ok == !faults.symlink
    case Rename(w, ok) => w == v && ok == !faults.rename
    case Discard(w, ok) => w == v && ok == !faults.discard
    case _ => false
  }

  predicate Creation(steps: seq<Step>, v: Vol, suffix: string, faults: Faults) {
    forall i :: 0 <= i < |steps| ==> CreationStep(steps[i], v, suffix, faults)
  }

  lemma CreationStepKeepsOutcome(s: State, step: Step, v: Vol, suffix: string, faults: Faults)
    requires v in s.ops && Enabled(s, step) && CreationStep(step, v, suffix, faults)
    ensures var s' := Apply(s, step);
            var (dir, ok) := Outcome(s.dir, v, s.ops[v], suffix, faults);
            if v in s'.ops then Outcome(s'.dir, v, s'.ops[v], suffix, faults) == (dir, ok)
            else s'.dir == dir && (ok <==> step.Rename?)
  {
  }

  /** Every run of one creation's steps to its end leaves what the method below leaves, and ends with the rename exactly
      when that succeeds. */
  lemma {:induction false} SoloRunCreates(s: State, steps: seq<Step>, v: Vol, suffix: string, faults: Faults)
    requires v in s.ops && Runs(s, steps) && Creation(steps, v, suffix, faults) && v !in After(s, steps).ops
    ensures var (dir, ok) := Outcome(s.dir, v, s.ops[v], suffix, faults);
            After(s, steps).dir == dir && steps != [] && (ok <==> steps[|steps| - 1].Rename?)
    decreases steps
  {
    if steps != [] {
      CreationStepKeepsOutcome(s, steps[0], v, suffix, faults);
      var s' := Apply(s, steps[0]);
      if v in s'.ops {
        SoloRunCreates(s', steps[1..], v, suffix, faults);
      } else {
        NoStepsLeft(s', steps[1..], v, suffix, faults);
      }
    }
  }

  lemma NoStepsLeft(s: State, steps: seq<Step>, v: Vol, suffix: string, faults: Faults)
    requires v !in s.ops && Runs(s, steps) && Creation(steps, v, suffix, faults)
    ensures steps == []
  {
    if steps != [] {
      NotRunning(s, steps[0], v, suffix, faults);
    }
  }

  lemma NotRunning(s: State, step: Step, v: Vol, suffix: string, faults: Faults)
    requires v !in s.ops
    ensures !(CreationStep(step, v, suffix, faults) && Enabled(s, step))
  {
  }

  class Directory {
    var dir: map<Name, Entry>

    constructor (dir: map<Name, Entry>)
      ensures this.dir == dir
    {
      this.dir := dir;
    }

    /** What a write leaves that is not followed by a successful chown. */
    static function Unchowned(dir: map<Name, Entry>, v: Vol, content: Content, faults: Faults): map<Name, Entry> {
      if faults.write.NotWritten? || (CacheFile(v) in dir && !dir[CacheFile(v)].File?) then dir
      else dir[CacheFile(v) := File(Owner(dir, CacheFile(v)), Left(content, faults))]
    }

    /** The file's name is free or a file's, and nothing fails. */
    static predicate CanWrite(dir: map<Name, Entry>, v: Vol, faults: Faults) {
      faults.write.Written? && !faults.chown && (CacheFile(v) in dir ==> dir[CacheFile(v)].File?)
    }

    /** Writes the volume's file and gives it to the uid. */
    method WriteCacheFile(v: Vol, uid: int, content: Content, faults: Faults) returns (ok: bool)
      modifies this
      ensures ok <==> CanWrite(old(dir), v, faults)
      ensures ok ==> dir == old(dir)[CacheFile(v) := File(uid, content)]
      ensures !ok ==> dir == Unchowned(old(dir), v, content, faults)
      ensures old(NoDangling(dir) && CacheFilesOnly(dir)) ==> NoDangling(dir) && CacheFilesOnly(dir)
    {
      var file := CacheFile(v);
      if faults.write.NotWritten? || (file in dir && !dir[file].File?) {
        return false;
      }
      dir := dir[file := File(Owner(dir, file), Left(content, faults))];
      if faults.write.Torn? || faults.chown {
        return false;
      }
      dir := dir[file := File(uid, content)];
      return true;
    }

    /** The temporary name is free, and nothing fails; a directory in the link's place only needs to be cleared. */
    static predicate CanSwing(dir: map<Name, Entry>, uid: int, suffix: string, faults: Faults) {
      && TempLink(uid, suffix) !in dir && !faults.symlink && !faults.rename
      && (IsDir(dir, UidLink(uid)) ==> !faults.clear)
    }

    /** Makes a temporary link to the volume's file and renames it over the uid's link. */
    method SwingLink(v: Vol, uid: int, suffix: string, faults: Faults) returns (ok: bool)
      requires IsFile(dir, CacheFile(v))
      modifies this
      ensures ok <==> CanSwing(old(dir), uid, suffix, faults)
      ensures ok ==> dir == old(dir)[UidLink(uid) := Link(CacheFile(v))]
      ensures (dir, ok) == Placed(old(dir), v, uid, suffix, faults)
      ensures forall n :: n != UidLink(uid) && n != TempLink(uid, suffix) ==>
                (n in dir <==> n in old(dir)) && (n in dir ==> dir[n] == old(dir)[n])
      ensures old(NoDangling(dir) && CacheFilesOnly(dir)) ==> NoDangling(dir) && CacheFilesOnly(dir)
    {
      var file, link, temp := CacheFile(v), UidLink(uid), TempLink(uid, suffix);
      if IsDir(dir, link) {
        if faults.clear {
          return false;
        }
        dir := dir - {link};
      }
      if faults.symlink || temp in dir {
        return false;
      }
      dir := dir[temp := Link(file)];
      if faults.rename {
        if !faults.discard {
          dir := dir - {temp};
        }
        return false;
      }
      dir := (dir - {temp})[link := dir[temp]];
      return true;
    }

    /** ensureKerberosCache: on success the uid's link points at the volume's file, which has the given content and
        owner; in any case no other entry changes, except that a temporary link may stay, and no link dangles. */
    method EnsureKerberosCache(v: Vol, uid: int, content: Content, suffix: string, faults: Faults) returns (ok: bool)
      modifies this
      ensures ok <==> CanWrite(old(dir), v, faults) && CanSwing(old(dir), uid, suffix, faults)
      ensures ok ==> dir == old(dir)[CacheFile(v) := File(uid, content)][UidLink(uid) := Link(CacheFile(v))]
      ensures (dir, ok) == Created(old(dir), v, uid, content, suffix, faults)
      ensures forall n :: n !in {CacheFile(v), UidLink(uid), TempLink(uid, suffix)} ==>
                (n in dir <==> n in old(dir)) && (n in dir ==> dir[n] == old(dir)[n])
      ensures old(NoDangling(dir) && CacheFilesOnly(dir)) ==> NoDangling(dir) && CacheFilesOnly(dir)
    {
      ok := WriteCacheFile(v, uid, content, faults);
      ghost var written := old(dir)[CacheFile(v) := File(Owner(old(dir), CacheFile(v)), content)];
      assert ok ==> dir == written[CacheFile(v) := File(uid, content)];
      if ok {
        ok := SwingLink(v, uid, suffix, faults);
      }
    }

    /** deleteKerberosCache: looks at every listed name in turn, removes the links that point at the volume's file, then
        the file; a removal that fails is logged and passed over. */
    method DeleteKerberosCache(v: Vol, listing: seq<Name>, stuck: set<Name>)
      modifies this
      ensures dir == Deleted(old(dir), v, (set n | n in listing), stuck)
    {
      if CacheFile(v) !in dir {
        return;
      }
      for i := 0 to |listing|
        invariant dir ==
                  map n | n in old(dir) && (n in listing[..i] && PointsAt(old(dir), n, v) ==> n in stuck) :: old(dir)[n]
      {
        var name := listing[i];
        assert listing[..i + 1] == listing[..i] + [name];
        if name in dir && dir[name] == Link(CacheFile(v)) && name !in stuck {
          dir := dir - {name};
        }
      }
      assert listing[..|listing|] == listing;
      assert forall n :: n in listing <==> n in (set m | m in listing);
      if CacheFile(v) !in stuck {
        dir := dir - {CacheFile(v)};
      }
    }
  }
}
