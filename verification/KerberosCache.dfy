/** The Kerberos cache directory (pkg/smb/nodeserver.go:690-784): any number of ensureKerberosCache and
    deleteKerberosCache calls for different volumes, every file system call one step, all interleavings.
    Calls for one volume exclude each other, which is what the volume lock gives. Names are relative to the
    directory and written by what they stand for; `KerberosNames.RenderInjective` says that this loses nothing. The
    names of temporary links, built from a clock and a random number, are never reused. */
module KerberosCache {
  import opened KerberosNames

  type Vol = seq<Byte>
  type Content = seq<Byte>

  datatype Entry = File(owner: int, content: Content) | Link(target: Name) | Dir

  /** What a running call does next: the first seven create a cache, the others delete one. */
  datatype Op =
    | Writing(uid: int, content: Content)          // os.WriteFile of the cache file
    | Chowning(uid: int)
    | Checking(uid: int)                           // os.Lstat of the per-uid path
    | Clearing(uid: int)                           // os.RemoveAll of a directory found there
    | Linking(uid: int)                            // os.Symlink under a temporary name
    | Renaming(uid: int, temp: Name)             // os.Rename over the per-uid link
    | Discarding(uid: int, temp: Name)           // os.Remove of the temporary link
    | Scanning                                     // os.ReadDir
    | Sweeping(rest: set<Name>)                  // names still to be looked at
    | Unlinking(name: Name, rest: set<Name>)   // os.Remove of a link that was seen to point at the file

  /** `temps` are the names no new temporary link may have. The last three fields record history: which contents were
      issued for which volume, the volumes whose file was given to its uid, and the uids for which a creation
      returned. */
  datatype State = State(
    dir: map<Name, Entry>,
    ops: map<Vol, Op>,
    temps: set<Name>,
    uids: map<Vol, int>,
    issued: set<(Vol, Content)>,
    settled: set<Vol>,
    returned: set<int>)

  datatype WriteResult = Written | NotWritten | Torn(content: Content)

  datatype Step =
    | BeginCreate(v: Vol, uid: int, content: Content)
    | Write(v: Vol, result: WriteResult)
    | Chown(v: Vol, ok: bool)
    | Check(v: Vol)
    | Clear(v: Vol, ok: bool)
    | MakeTemp(v: Vol, suffix: string, ok: bool)
    | Rename(v: Vol, ok: bool)
    | Discard(v: Vol, ok: bool)
    | BeginDelete(v: Vol)
    | Scan(v: Vol, listed: set<Name>)
    | Look(v: Vol, name: Name)
    | Unlink(v: Vol, ok: bool)
    | Erase(v: Vol, ok: bool)

  // ---------------------------------------------------------------- the steps

  predicate IsDir(dir: map<Name, Entry>, name: Name) {
    name in dir && dir[name].Dir?
  }

  predicate IsFile(dir: map<Name, Entry>, name: Name) {
    name in dir && dir[name].File?
  }

  function Put(s: State, v: Vol, name: Name, e: Entry, op: Op): State {
    s.(dir := s.dir[name := e], ops := s.ops[v := op])
  }

  function Finish(s: State, v: Vol): State {
    s.(ops := s.ops - {v})
  }

  predicate Enabled(s: State, step: Step) {
    match step
    case BeginCreate(v, _, _) => v !in s.ops && Utf8(v)
    case Write(v, _) => v in s.ops && s.ops[v].Writing?
    case Chown(v, _) => v in s.ops && s.ops[v].Chowning?
    case Check(v) => v in s.ops && s.ops[v].Checking?
    case Clear(v, _) => v in s.ops && s.ops[v].Clearing?
    case MakeTemp(v, suffix, _) => v in s.ops && s.ops[v].Linking? && TempLink(s.ops[v].uid, suffix) !in s.temps
    case Rename(v, _) => v in s.ops && s.ops[v].Renaming?
    case Discard(v, _) => v in s.ops && s.ops[v].Discarding?
    case BeginDelete(v) => v !in s.ops && Utf8(v)
    case Scan(v, listed) => v in s.ops && s.ops[v].Scanning? && listed <= s.dir.Keys
    case Look(v, name) => v in s.ops && s.ops[v].Sweeping? && name in s.ops[v].rest
    case Unlink(v, _) => v in s.ops && s.ops[v].Unlinking?
    case Erase(v, _) => v in s.ops && s.ops[v] == Sweeping({})
  }

  function Owner(dir: map<Name, Entry>, name: Name): int {
    if IsFile(dir, name) then dir[name].owner else 0
  }

  function ApplyCreate(s: State, step: Step): State
    requires Enabled(s, step) && !Deletes(step)
  {
    match step
    case BeginCreate(v, u, c) =>
      s.(ops := s.ops[v := Writing(u, c)], uids := s.uids[v := u], issued := s.issued + {(v, c)})
    case Write(v, result) =>
      var name, op := CacheFile(v), s.ops[v];
      if result.NotWritten? || (name in s.dir && !s.dir[name].File?) then Finish(s, v)
      else if result.Torn? then Finish(s.(dir := s.dir[name := File(Owner(s.dir, name), result.content)]), v)
      else Put(s, v, name, File(Owner(s.dir, name), op.content), Chowning(op.uid))
    case Chown(v, ok) =>
      var name, op := CacheFile(v), s.ops[v];
      if !ok || !IsFile(s.dir, name) then Finish(s, v)
      else Put(s, v, name, File(op.uid, s.dir[name].content), Checking(op.uid)).(settled := s.settled + {v})
    case Check(v) =>
      var u := s.ops[v].uid;
      s.(ops := s.ops[v := if IsDir(s.dir, UidLink(u)) then Clearing(u) else Linking(u)])
    case Clear(v, ok) =>
      var u := s.ops[v].uid;
      if ok then s.(dir := s.dir - {UidLink(u)}, ops := s.ops[v := Linking(u)]) else Finish(s, v)
    case MakeTemp(v, suffix, ok) =>
      var u := s.ops[v].uid;
      var temp := TempLink(u, suffix);
      if !ok || temp in s.dir then Finish(s, v)
      else Put(s, v, temp, Link(CacheFile(v)), Renaming(u, temp)).(temps := s.temps + {temp})
    case Rename(v, ok) =>
      var op := s.ops[v];
      var link := UidLink(op.uid);
      if !ok || op.temp !in s.dir || IsDir(s.dir, link) then s.(ops := s.ops[v := Discarding(op.uid, op.temp)])
      else Finish(s, v).(dir := (s.dir - {op.temp})[link := s.dir[op.temp]], returned := s.returned + {op.uid})
    case Discard(v, ok) =>
      if ok then Finish(s, v).(dir := s.dir - {s.ops[v].temp}) else Finish(s, v)
  }

  predicate Deletes(step: Step) {
    step.BeginDelete? || step.Scan? || step.Look? || step.Unlink? || step.Erase?
  }

  function ApplyDelete(s: State, step: Step): State
    requires Enabled(s, step) && Deletes(step)
  {
    match step
    case BeginDelete(v) => if CacheFile(v) in s.dir then s.(ops := s.ops[v := Scanning]) else s
    case Scan(v, listed) => s.(ops := s.ops[v := Sweeping(listed)])
    case Look(v, name) =>
      var rest := s.ops[v].rest - {name};
      var points := name in s.dir && s.dir[name] == Link(CacheFile(v));
      s.(ops := s.ops[v := if points then Unlinking(name, rest) else Sweeping(rest)])
    case Unlink(v, ok) =>
      var op := s.ops[v];
      s.(dir := if ok then s.dir - {op.name} else s.dir, ops := s.ops[v := Sweeping(op.rest)])
    case Erase(v, ok) =>
      Finish(s, v).(dir := if ok then s.dir - {CacheFile(v)} else s.dir)
  }

  function Apply(s: State, step: Step): State
    requires Enabled(s, step)
  {
    if Deletes(step) then ApplyDelete(s, step) else ApplyCreate(s, step)
  }

  predicate Runs(s: State, steps: seq<Step>)
    decreases steps
  {
    steps == [] || (Enabled(s, steps[0]) && Runs(Apply(s, steps[0]), steps[1..]))
  }

  function After(s: State, steps: seq<Step>): State
    requires Runs(s, steps)
    decreases steps
  {
    if steps == [] then s else After(Apply(s, steps[0]), steps[1..])
  }

  // ---------------------------------------------------------------- no link ever dangles

  /** Every link to a cache file, final or temporary, points at one that is there. */
  predicate NoDangling(dir: map<Name, Entry>) {
    forall n :: n in dir && dir[n].Link? && dir[n].target.CacheFile? ==> IsFile(dir, dir[n].target)
  }

  /** Nothing but files has the name of a cache file. */
  predicate CacheFilesOnly(dir: map<Name, Entry>) {
    forall n :: n in dir && n.CacheFile? ==> dir[n].File?
  }

  predicate PointsAt(dir: map<Name, Entry>, n: Name, v: Vol) {
    n in dir && dir[n] == Link(CacheFile(v))
  }

  /** What holds between the steps of the call for `v`. */
  ghost predicate OpOk(s: State, v: Vol, op: Op) {
    match op
    case Writing(_, _) => true
    case Chowning(_) => IsFile(s.dir, CacheFile(v))
    case Checking(_) => IsFile(s.dir, CacheFile(v))
    case Clearing(_) => IsFile(s.dir, CacheFile(v))
    case Linking(_) => IsFile(s.dir, CacheFile(v))
    case Renaming(u, temp) => IsFile(s.dir, CacheFile(v)) && TempOk(s, v, temp)
    case Discarding(u, temp) => TempOk(s, v, temp)
    case Scanning => true
    case Sweeping(rest) => forall n :: PointsAt(s.dir, n, v) ==> n in rest
    case Unlinking(name, rest) => !name.CacheFile? && forall n :: PointsAt(s.dir, n, v) ==> n in rest || n == name
  }

  ghost predicate TempOk(s: State, v: Vol, temp: Name) {
    && temp in s.temps && temp.TempLink?
    && (temp in s.dir ==> s.dir[temp] == Link(CacheFile(v)))
  }

  predicate UsesTemp(op: Op, temp: Name) {
    (op.Renaming? || op.Discarding?) && op.temp == temp
  }

  ghost predicate TempsUnshared(ops: map<Vol, Op>) {
    forall v, w, t :: v in ops && w in ops && UsesTemp(ops[v], t) && UsesTemp(ops[w], t) ==> v == w
  }

  ghost predicate Inv(s: State) {
    && NoDangling(s.dir)
    && CacheFilesOnly(s.dir)
    && (forall v :: v in s.ops ==> Utf8(v) && OpOk(s, v, s.ops[v]))
    && TempsUnshared(s.ops)
  }

  /** A listing that misses nothing, and a removal that succeeds or finds nothing to remove. */
  predicate Faultless(s: State, step: Step) {
    match step
    case Scan(_, listed) => listed == s.dir.Keys
    case Unlink(_, ok) => ok
    case _ => true
  }

  lemma OtherOpStaysOk(s: State, s': State, w: Vol, op: Op)
    requires OpOk(s, w, op) && s.temps <= s'.temps
    requires IsFile(s.dir, CacheFile(w)) ==> IsFile(s'.dir, CacheFile(w))
    requires forall n :: PointsAt(s'.dir, n, w) ==> PointsAt(s.dir, n, w)
    requires (op.Renaming? || op.Discarding?) && op.temp in s'.dir ==>
             op.temp in s.dir && s'.dir[op.temp] == s.dir[op.temp]
    ensures OpOk(s', w, op)
  {
  }

  lemma CreateKeepsDir(s: State, step: Step)
    requires Inv(s) && Enabled(s, step) && !Deletes(step)
    ensures NoDangling(ApplyCreate(s, step).dir) && CacheFilesOnly(ApplyCreate(s, step).dir)
  {
    match step
    case BeginCreate(v, u, c) =>
    case Write(v, result) =>
    case Chown(v, ok) =>
    case Check(v) =>
    case Clear(v, ok) =>
    case MakeTemp(v, suffix, ok) =>
      assert OpOk(s, v, s.ops[v]);
    case Rename(v, ok) =>
      assert OpOk(s, v, s.ops[v]);
    case Discard(v, ok) =>
      assert OpOk(s, v, s.ops[v]);
  }

  /** A creation for `v` touches no other volume's file, makes no new link to one, and no known temporary name. */
  lemma CreateIsLocal(s: State, step: Step)
    requires Inv(s) && Enabled(s, step) && !Deletes(step)
    ensures var s' := ApplyCreate(s, step);
            && s.temps <= s'.temps
            && (forall w :: w != step.v && IsFile(s.dir, CacheFile(w)) ==> IsFile(s'.dir, CacheFile(w)))
            && (forall n, w :: w != step.v && PointsAt(s'.dir, n, w) ==> PointsAt(s.dir, n, w))
            && (forall t :: t in s.temps && t.TempLink? && t in s'.dir ==> t in s.dir && s'.dir[t] == s.dir[t])
  {
    assert step.v in s.ops ==> OpOk(s, step.v, s.ops[step.v]);
  }

  lemma CreateKeepsOthers(s: State, step: Step, w: Vol)
    requires Inv(s) && Enabled(s, step) && !Deletes(step) && w in s.ops && w != step.v
    ensures var s' := ApplyCreate(s, step); w in s'.ops && s'.ops[w] == s.ops[w] && OpOk(s', w, s.ops[w])
  {
    assert OpOk(s, w, s.ops[w]);
    CreateIsLocal(s, step);
    OtherOpStaysOk(s, ApplyCreate(s, step), w, s.ops[w]);
  }

  lemma CreateKeepsOwn(s: State, step: Step)
    requires Inv(s) && Enabled(s, step) && !Deletes(step)
    ensures var s' := ApplyCreate(s, step); step.v in s'.ops ==> Utf8(step.v) && OpOk(s', step.v, s'.ops[step.v])
  {
    assert step.v in s.ops ==> OpOk(s, step.v, s.ops[step.v]);
  }

  lemma UsedTempsKnown(s: State, w: Vol, t: Name)
    requires Inv(s) && w in s.ops && UsesTemp(s.ops[w], t)
    ensures t in s.temps
  {
    assert OpOk(s, w, s.ops[w]);
  }

  lemma NewTempsAreNew(s: State, step: Step, w: Vol, t: Name)
    requires Enabled(s, step) && !Deletes(step) && w in ApplyCreate(s, step).ops
             && UsesTemp(ApplyCreate(s, step).ops[w], t)
    ensures (w in s.ops && UsesTemp(s.ops[w], t)) || (w == step.v && t !in s.temps)
  {
  }

  lemma CreateKeepsTemps(s: State, step: Step)
    requires Inv(s) && Enabled(s, step) && !Deletes(step)
    ensures TempsUnshared(ApplyCreate(s, step).ops)
  {
    var ops' := ApplyCreate(s, step).ops;
    forall v, w, t | v in ops' && w in ops' && UsesTemp(ops'[v], t) && UsesTemp(ops'[w], t)
      ensures v == w
    {
      NewTempsAreNew(s, step, v, t);
      NewTempsAreNew(s, step, w, t);
      if v in s.ops && UsesTemp(s.ops[v], t) {
        UsedTempsKnown(s, v, t);
      }
      if w in s.ops && UsesTemp(s.ops[w], t) {
        UsedTempsKnown(s, w, t);
      }
    }
  }

  lemma CreateKeepsInv(s: State, step: Step)
    requires Inv(s) && Enabled(s, step) && !Deletes(step)
    ensures Inv(ApplyCreate(s, step))
  {
    var s' := ApplyCreate(s, step);
    CreateKeepsDir(s, step);
    CreateKeepsTemps(s, step);
    CreateKeepsOwn(s, step);
    forall w | w in s'.ops
      ensures Utf8(w) && OpOk(s', w, s'.ops[w])
    {
      if w != step.v {
        assert w in s.ops;
        CreateKeepsOthers(s, step, w);
      }
    }
  }

  lemma DeleteKeepsDir(s: State, step: Step)
    requires Inv(s) && Enabled(s, step) && Deletes(step) && Faultless(s, step)
    ensures NoDangling(ApplyDelete(s, step).dir) && CacheFilesOnly(ApplyDelete(s, step).dir)
  {
    assert step.v in s.ops ==> OpOk(s, step.v, s.ops[step.v]);
    if step.Erase? {
      assert forall n :: n in s.dir ==> !PointsAt(s.dir, n, step.v);
    }
  }

  lemma DeleteKeepsOthers(s: State, step: Step, w: Vol)
    requires Inv(s) && Enabled(s, step) && Deletes(step) && w in s.ops && w != step.v
    ensures var s' := ApplyDelete(s, step); w in s'.ops && s'.ops[w] == s.ops[w] && OpOk(s', w, s.ops[w])
  {
    var s' := ApplyDelete(s, step);
    assert OpOk(s, w, s.ops[w]);
    assert step.v in s.ops ==> OpOk(s, step.v, s.ops[step.v]);
    OtherOpStaysOk(s, s', w, s.ops[w]);
  }

  lemma DeleteKeepsOwn(s: State, step: Step)
    requires Inv(s) && Enabled(s, step) && Deletes(step) && Faultless(s, step)
    ensures var s' := ApplyDelete(s, step); step.v in s'.ops ==> Utf8(step.v) && OpOk(s', step.v, s'.ops[step.v])
  {
    assert step.v in s.ops ==> OpOk(s, step.v, s.ops[step.v]);
  }

  lemma DeleteKeepsInv(s: State, step: Step)
    requires Inv(s) && Enabled(s, step) && Deletes(step) && Faultless(s, step)
    ensures Inv(ApplyDelete(s, step))
  {
    var s' := ApplyDelete(s, step);
    DeleteKeepsDir(s, step);
    DeleteKeepsOwn(s, step);
    forall w | w in s'.ops
      ensures Utf8(w) && OpOk(s', w, s'.ops[w])
    {
      if w != step.v {
        assert w in s.ops;
        DeleteKeepsOthers(s, step, w);
      }
    }
    DeleteKeepsTemps(s, step);
  }

  lemma DeleteKeepsTemps(s: State, step: Step)
    requires Enabled(s, step) && Deletes(step) && TempsUnshared(s.ops)
    ensures TempsUnshared(ApplyDelete(s, step).ops)
  {
    var ops' := ApplyDelete(s, step).ops;
    forall w, t | w in ops' && UsesTemp(ops'[w], t)
      ensures w in s.ops && UsesTemp(s.ops[w], t)
    {
    }
  }

  /** Every step of the run lists the whole directory or removes what it set out to remove. */
  predicate FaultlessRun(s: State, steps: seq<Step>)
    requires Runs(s, steps)
    decreases steps
  {
    steps == [] || (Faultless(s, steps[0]) && FaultlessRun(Apply(s, steps[0]), steps[1..]))
  }

  lemma {:induction false} RunKeepsInv(s: State, steps: seq<Step>)
    requires Inv(s) && Runs(s, steps) && FaultlessRun(s, steps)
    ensures Inv(After(s, steps))
    decreases steps
  {
    if steps != [] {
      if Deletes(steps[0]) {
        DeleteKeepsInv(s, steps[0]);
      } else {
        CreateKeepsInv(s, steps[0]);
      }
      RunKeepsInv(Apply(s, steps[0]), steps[1..]);
    }
  }

  function Start(dir: map<Name, Entry>): State {
    State(dir, map[], dir.Keys, map[], {}, {}, {})
  }

  /** In every state of every interleaving of creations and deletions for different volumes, whatever else fails,
      no link targets a missing cache file: not while files are being scanned and removed, and not afterwards. */
  lemma NoLinkEverDangles(dir: map<Name, Entry>, steps: seq<Step>)
    requires NoDangling(dir) && CacheFilesOnly(dir)
    requires Runs(Start(dir), steps) && FaultlessRun(Start(dir), steps)
    ensures NoDangling(After(Start(dir), steps).dir)
  {
    RunKeepsInv(Start(dir), steps);
  }

  // ---------------------------------------------------------------- building runs

  lemma {:induction false} RunsAppend(s: State, a: seq<Step>, b: seq<Step>)
    requires Runs(s, a) && Runs(After(s, a), b)
    ensures Runs(s, a + b) && After(s, a + b) == After(After(s, a), b)
    decreases a
  {
    if a == [] {
      assert a + b == b;
    } else {
      assert (a + b)[0] == a[0] && (a + b)[1..] == a[1..] + b;
      RunsAppend(Apply(s, a[0]), a[1..], b);
    }
  }

  lemma OneStep(s: State, step: Step)
    requires Enabled(s, step)
    ensures Runs(s, [step]) && After(s, [step]) == Apply(s, step)
  {
    assert [step][1..] == [];
    assert After(Apply(s, step), []) == Apply(s, step);
  }

  /** The run goes on with one more step. */
  lemma Extend(s: State, steps: seq<Step>, now: State, step: Step) returns (longer: seq<Step>, next: State)
    requires Runs(s, steps) && After(s, steps) == now && Enabled(now, step)
    ensures longer == steps + [step] && next == Apply(now, step)
    ensures Runs(s, longer) && After(s, longer) == next
  {
    longer, next := steps + [step], Apply(now, step);
    OneStep(now, step);
    RunsAppend(s, steps, [step]);
  }

  /** The condition is needed: when the removal of the one link fails, the file is removed all the same. */
  lemma FailedUnlinkDangles(v: Vol, u: int, c: Content) returns (steps: seq<Step>)
    requires Utf8(v)
    ensures steps == [BeginDelete(v), Scan(v, {UidLink(u)}), Look(v, UidLink(u)), Unlink(v, false), Erase(v, true)]
    ensures var s := Start(map[CacheFile(v) := File(u, c), UidLink(u) := Link(CacheFile(v))]);
            NoDangling(s.dir) && Runs(s, steps) && !NoDangling(After(s, steps).dir)
  {
    var start := Start(map[CacheFile(v) := File(u, c), UidLink(u) := Link(CacheFile(v))]);
    var s;
    steps, s := [], start;
    steps, s := Extend(start, steps, s, BeginDelete(v));
    steps, s := Extend(start, steps, s, Scan(v, {UidLink(u)}));
    steps, s := Extend(start, steps, s, Look(v, UidLink(u)));
    assert s.ops[v] == Unlinking(UidLink(u), {});
    steps, s := Extend(start, steps, s, Unlink(v, false));
    steps, s := Extend(start, steps, s, Erase(v, true));
    assert UidLink(u) in s.dir && s.dir[UidLink(u)] == Link(CacheFile(v)) && CacheFile(v) !in s.dir;
  }
}
