/** Cache creations only (pkg/smb/nodeserver.go:686-738): once a creation for a uid has returned, the uid's link works
    in every later state, however other creations interleave, exactly when the uid's path was no directory. */
module KerberosLinks {
  import opened KerberosNames
  import opened KerberosCache

  // ---------------------------------------------------------------- what a link leads to

  /** The volume's file is there and belongs to the volume's uid. */
  predicate Held(s: State, v: Vol) {
    v in s.uids && IsFile(s.dir, CacheFile(v)) && s.dir[CacheFile(v)].owner == s.uids[v]
  }

  /** The volume's file holds a content issued for the volume. */
  predicate Genuine(s: State, v: Vol) {
    IsFile(s.dir, CacheFile(v)) && (v, s.dir[CacheFile(v)].content) in s.issued
  }

  /** The uid's path is a link to the cache file of some volume. */
  predicate Linked(s: State, u: int) {
    UidLink(u) in s.dir && s.dir[UidLink(u)].Link? && s.dir[UidLink(u)].target.CacheFile?
  }

  function Target(s: State, u: int): Vol
    requires Linked(s, u)
  {
    s.dir[UidLink(u)].target.volume
  }

  /** The uid's link leads to an existing file of that uid, made for a volume of that uid. */
  predicate Leads(s: State, u: int) {
    Linked(s, u) && Target(s, u) in s.settled && Held(s, Target(s, u)) && s.uids[Target(s, u)] == u
  }

  /** And that file holds a content issued for that volume. */
  predicate Resolves(s: State, u: int) {
    Leads(s, u) && Genuine(s, Target(s, u))
  }

  // ---------------------------------------------------------------- the invariants

  /** A step of a creation, with always the same uid for one volume. */
  predicate Steady(s: State, step: Step) {
    !Deletes(step) && (step.BeginCreate? && step.v in s.uids ==> s.uids[step.v] == step.uid)
  }

  predicate Torn(step: Step) {
    step.Write? && step.result.Torn?
  }

  predicate Settled(s: State, v: Vol, u: int) {
    v in s.uids && s.uids[v] == u && v in s.settled
  }

  /** What holds between the steps of the creation for `v`, when the path of `x` is no directory. */
  predicate OpHeld(s: State, x: int, v: Vol, op: Op) {
    match op
    case Writing(u, _) => v in s.uids && s.uids[v] == u
    case Chowning(u) => v in s.uids && s.uids[v] == u && IsFile(s.dir, CacheFile(v))
    case Checking(u) => Settled(s, v, u)
    case Clearing(u) => Settled(s, v, u) && u != x
    case Linking(u) => Settled(s, v, u)
    case Renaming(u, temp) =>
      Settled(s, v, u) && temp in s.temps && temp.TempLink? && temp in s.dir && s.dir[temp] == Link(CacheFile(v))
    case Discarding(_, temp) => temp in s.temps && temp.TempLink?
    case _ => false
  }

  /** The link of `x` exists and leads to a file of `x`; also with writes torn half-way. */
  ghost predicate LeadInv(s: State, x: int) {
    && !IsDir(s.dir, UidLink(x))
    && (forall v :: v in s.settled ==> Held(s, v))
    && (x in s.returned ==> Leads(s, x))
    && (forall v :: v in s.ops ==> OpHeld(s, x, v, s.ops[v]))
    && TempsUnshared(s.ops)
  }

  predicate OpGenuine(s: State, v: Vol, op: Op) {
    match op
    case Writing(_, c) => (v, c) in s.issued
    case Chowning(_) => Genuine(s, v)
    case _ => true
  }

  /** The files hold what was issued for them; as long as no write is torn. */
  ghost predicate GenuineInv(s: State) {
    && (forall v :: v in s.settled ==> Genuine(s, v))
    && (forall v :: v in s.ops ==> OpGenuine(s, v, s.ops[v]))
  }

  // ---------------------------------------------------------------- every step keeps them

  /** What the step's own operation guarantees. */
  predicate OwnHeld(s: State, step: Step, x: int) {
    step.v in s.ops ==> OpHeld(s, x, step.v, s.ops[step.v])
  }

  lemma HeldStays(s: State, step: Step, x: int, w: Vol)
    requires Enabled(s, step) && Steady(s, step) && OwnHeld(s, step, x) && w in ApplyCreate(s, step).settled
    requires w in s.settled ==> Held(s, w)
    ensures Held(ApplyCreate(s, step), w)
  {
  }

  lemma GenuineStays(s: State, step: Step, x: int, w: Vol)
    requires Enabled(s, step) && Steady(s, step) && !Torn(step) && OwnHeld(s, step, x)
    requires step.v in s.ops ==> OpGenuine(s, step.v, s.ops[step.v])
    requires Genuine(s, w) || (step.Chown? && step.v == w && w in ApplyCreate(s, step).settled && w !in s.settled)
    ensures Genuine(ApplyCreate(s, step), w)
  {
  }

  lemma OtherTempStays(s: State, step: Step, x: int, temp: Name)
    requires Enabled(s, step) && Steady(s, step) && OwnHeld(s, step, x)
    requires temp in s.dir && temp.TempLink? && temp in s.temps
    requires step.v in s.ops ==> !UsesTemp(s.ops[step.v], temp)
    ensures temp in ApplyCreate(s, step).dir && ApplyCreate(s, step).dir[temp] == s.dir[temp]
  {
  }

  lemma OtherOpStays(s: State, step: Step, x: int, w: Vol)
    requires Enabled(s, step) && Steady(s, step) && OwnHeld(s, step, x) && w in s.ops && w != step.v
    requires OpHeld(s, x, w, s.ops[w]) && TempsUnshared(s.ops)
    ensures var s' := ApplyCreate(s, step); w in s'.ops && s'.ops[w] == s.ops[w] && OpHeld(s', x, w, s.ops[w])
  {
    if s.ops[w].Renaming? {
      assert UsesTemp(s.ops[w], s.ops[w].temp);
      OtherTempStays(s, step, x, s.ops[w].temp);
    }
  }

  lemma OwnOpStays(s: State, step: Step, x: int)
    requires Enabled(s, step) && Steady(s, step) && OwnHeld(s, step, x) && !IsDir(s.dir, UidLink(x))
    ensures var s' := ApplyCreate(s, step); step.v in s'.ops ==> OpHeld(s', x, step.v, s'.ops[step.v])
  {
  }

  lemma LinkStays(s: State, step: Step, x: int)
    requires Enabled(s, step) && Steady(s, step) && OwnHeld(s, step, x) && x in ApplyCreate(s, step).returned
    requires x in s.returned ==> Leads(s, x)
    requires forall w :: w in ApplyCreate(s, step).settled ==> Held(ApplyCreate(s, step), w)
    ensures Leads(ApplyCreate(s, step), x)
  {
    var s' := ApplyCreate(s, step);
    if x in s.returned && !(step.Rename? && s.ops[step.v].uid == x) {
      assert s'.dir[UidLink(x)] == s.dir[UidLink(x)];
    }
  }

  lemma NoDirAppears(s: State, step: Step, x: int)
    requires Enabled(s, step) && Steady(s, step) && OwnHeld(s, step, x) && !IsDir(s.dir, UidLink(x))
    ensures !IsDir(ApplyCreate(s, step).dir, UidLink(x))
  {
  }

  lemma UsedTempKnown(s: State, x: int, w: Vol, t: Name)
    requires w in s.ops && OpHeld(s, x, w, s.ops[w]) && UsesTemp(s.ops[w], t)
    ensures t in s.temps
  {
  }

  lemma TempsStayUnshared(s: State, step: Step, x: int)
    requires LeadInv(s, x) && Enabled(s, step) && Steady(s, step)
    ensures TempsUnshared(ApplyCreate(s, step).ops)
  {
    var ops' := ApplyCreate(s, step).ops;
    forall v, w, t | v in ops' && w in ops' && UsesTemp(ops'[v], t) && UsesTemp(ops'[w], t)
      ensures v == w
    {
      NewTempsAreNew(s, step, v, t);
      NewTempsAreNew(s, step, w, t);
      if v in s.ops && UsesTemp(s.ops[v], t) {
        UsedTempKnown(s, x, v, t);
      }
      if w in s.ops && UsesTemp(s.ops[w], t) {
        UsedTempKnown(s, x, w, t);
      }
    }
  }

  lemma StepKeepsLeadInv(s: State, step: Step, x: int)
    requires LeadInv(s, x) && Enabled(s, step) && Steady(s, step)
    ensures LeadInv(Apply(s, step), x)
  {
    var s' := Apply(s, step);
    forall w | w in s'.settled
      ensures Held(s', w)
    {
      HeldStays(s, step, x, w);
    }
    forall w | w in s'.ops
      ensures OpHeld(s', x, w, s'.ops[w])
    {
      if w == step.v {
        OwnOpStays(s, step, x);
      } else {
        OtherOpStays(s, step, x, w);
      }
    }
    if x in s'.returned {
      LinkStays(s, step, x);
    }
    NoDirAppears(s, step, x);
    TempsStayUnshared(s, step, x);
  }

  lemma OpsStayGenuine(s: State, step: Step, x: int, w: Vol)
    requires LeadInv(s, x) && GenuineInv(s) && Enabled(s, step) && Steady(s, step) && !Torn(step)
    requires w in ApplyCreate(s, step).ops
    ensures OpGenuine(ApplyCreate(s, step), w, ApplyCreate(s, step).ops[w])
  {
    var s' := ApplyCreate(s, step);
    if w != step.v {
      OtherOpStays(s, step, x, w);
      if s.ops[w].Chowning? {
        GenuineStays(s, step, x, w);
      }
    }
  }

  lemma StepKeepsGenuineInv(s: State, step: Step, x: int)
    requires LeadInv(s, x) && GenuineInv(s) && Enabled(s, step) && Steady(s, step) && !Torn(step)
    ensures GenuineInv(Apply(s, step))
  {
    var s' := Apply(s, step);
    forall w | w in s'.settled
      ensures Genuine(s', w)
    {
      GenuineStays(s, step, x, w);
    }
    forall w | w in s'.ops
      ensures OpGenuine(s', w, s'.ops[w])
    {
      OpsStayGenuine(s, step, x, w);
    }
  }

  // ---------------------------------------------------------------- whole runs

  predicate SteadyRun(s: State, steps: seq<Step>)
    requires Runs(s, steps)
    decreases steps
  {
    steps == [] || (Steady(s, steps[0]) && SteadyRun(Apply(s, steps[0]), steps[1..]))
  }

  predicate Untorn(steps: seq<Step>) {
    forall i :: 0 <= i < |steps| ==> !Torn(steps[i])
  }

  lemma {:induction false} RunKeepsLeadInv(s: State, steps: seq<Step>, x: int)
    requires LeadInv(s, x) && Runs(s, steps) && SteadyRun(s, steps)
    ensures LeadInv(After(s, steps), x)
    decreases steps
  {
    if steps != [] {
      StepKeepsLeadInv(s, steps[0], x);
      RunKeepsLeadInv(Apply(s, steps[0]), steps[1..], x);
    }
  }

  lemma {:induction false} RunKeepsGenuineInv(s: State, steps: seq<Step>, x: int)
    requires LeadInv(s, x) && GenuineInv(s) && Runs(s, steps) && SteadyRun(s, steps) && Untorn(steps)
    ensures GenuineInv(After(s, steps))
    decreases steps
  {
    if steps != [] {
      StepKeepsLeadInv(s, steps[0], x);
      StepKeepsGenuineInv(s, steps[0], x);
      RunKeepsGenuineInv(Apply(s, steps[0]), steps[1..], x);
    }
  }

  /** In every state after a creation for `u` has returned, `u`'s link leads to an existing file owned by `u`, made
      for a volume with that uid; and unless some write was torn half-way, its content was decoded from a secret of
      that volume. */
  lemma ReturnedLinksResolve(dir: map<Name, Entry>, steps: seq<Step>, u: int)
    requires CacheFilesOnly(dir) && !IsDir(dir, UidLink(u))
    requires Runs(Start(dir), steps) && SteadyRun(Start(dir), steps) && u in After(Start(dir), steps).returned
    ensures Leads(After(Start(dir), steps), u)
    ensures Untorn(steps) ==> Resolves(After(Start(dir), steps), u)
  {
    RunKeepsLeadInv(Start(dir), steps, u);
    if Untorn(steps) {
      RunKeepsGenuineInv(Start(dir), steps, u);
    }
  }

  /** A creation that returned is never forgotten, so the link works from then on. */
  lemma {:induction false} ReturnedIsForever(s: State, steps: seq<Step>, u: int)
    requires Runs(s, steps) && u in s.returned
    ensures u in After(s, steps).returned
    decreases steps
  {
    if steps != [] {
      assert s.returned <= Apply(s, steps[0]).returned;
      ReturnedIsForever(Apply(s, steps[0]), steps[1..], u);
    }
  }

  /** Of a write torn half-way: the link of a uid still resolves exactly when it leads elsewhere or what was left in the
      file happens to be a content issued for the volume. */
  lemma TornWriteIff(s: State, u: int, v: Vol, torn: Content)
    requires LeadInv(s, u) && GenuineInv(s) && u in s.returned && Enabled(s, Write(v, WriteResult.Torn(torn)))
    ensures Leads(Apply(s, Write(v, WriteResult.Torn(torn))), u)
    ensures Resolves(Apply(s, Write(v, WriteResult.Torn(torn))), u) <==> Target(s, u) != v || (v, torn) in s.issued
  {
    var s' := Apply(s, Write(v, WriteResult.Torn(torn)));
    StepKeepsLeadInv(s, Write(v, WriteResult.Torn(torn)), u);
    assert Held(s, Target(s, u)) && Genuine(s, Target(s, u));
    assert s'.dir[UidLink(u)] == s.dir[UidLink(u)];
  }

  // ---------------------------------------------------------------- a directory in the link's place

  /** A suffix longer than any in use. */
  lemma {:induction false} FreshSuffix(names: set<Name>) returns (suffix: string)
    ensures |suffix| > 0 && forall n :: n in names && n.TempLink? ==> |n.suffix| < |suffix|
    decreases |names|
  {
    suffix := "t";
    if names != {} {
      var n :| n in names;
      suffix := FreshSuffix(names - {n});
      if n.TempLink? {
        suffix := suffix + n.suffix;
      }
    }
  }

  /** The run so far, all of it steady and untorn. */
  ghost predicate Reached(start: State, steps: seq<Step>, s: State) {
    Runs(start, steps) && After(start, steps) == s && SteadyRun(start, steps) && Untorn(steps)
  }

  lemma {:induction false} SteadyAppend(s: State, steps: seq<Step>, step: Step)
    requires Runs(s, steps) && SteadyRun(s, steps) && Enabled(After(s, steps), step) && Steady(After(s, steps), step)
    requires Runs(s, steps + [step])
    ensures SteadyRun(s, steps + [step])
    decreases steps
  {
    var longer := steps + [step];
    if steps == [] {
      assert longer[0] == step && longer[1..] == [];
    } else {
      assert longer[0] == steps[0] && longer[1..] == steps[1..] + [step];
      SteadyAppend(Apply(s, steps[0]), steps[1..], step);
    }
  }

  lemma Go(start: State, steps: seq<Step>, s: State, step: Step) returns (longer: seq<Step>, next: State)
    requires Reached(start, steps, s) && Enabled(s, step) && Steady(s, step) && !Torn(step)
    ensures Reached(start, longer, next) && next == Apply(s, step)
  {
    longer, next := Extend(start, steps, s, step);
    SteadyAppend(start, steps, step);
  }

  /** The steps of a creation for `v` up to the look at the uid's path, and the states they lead to. */
  lemma CreationSteps(s: State, v: Vol, x: int) returns (s1: State, s2: State, s3: State, s4: State)
    requires v !in s.ops && v !in s.uids && Utf8(v) && CacheFilesOnly(s.dir) && IsDir(s.dir, UidLink(x))
    ensures Enabled(s, BeginCreate(v, x, [])) && Steady(s, BeginCreate(v, x, []))
            && s1 == Apply(s, BeginCreate(v, x, []))
    ensures Enabled(s1, Write(v, Written)) && s2 == Apply(s1, Write(v, Written))
    ensures Enabled(s2, Chown(v, true)) && s3 == Apply(s2, Chown(v, true))
    ensures Enabled(s3, Check(v)) && s4 == Apply(s3, Check(v))
    ensures CacheFilesOnly(s4.dir) && IsDir(s4.dir, UidLink(x)) && s4.temps == s.temps
    ensures s4.ops == s.ops[v := Clearing(x)] && s4.uids == s.uids[v := x]
    ensures forall n :: n in s4.dir && n.TempLink? ==> n in s.dir
  {
    s1 := Apply(s, BeginCreate(v, x, []));
    s2 := Apply(s1, Write(v, Written));
    assert s2.dir == s.dir[CacheFile(v) := File(Owner(s.dir, CacheFile(v)), [])];
    s3 := Apply(s2, Chown(v, true));
    assert s3.dir == s.dir[CacheFile(v) := File(x, [])];
    s4 := Apply(s3, Check(v));
  }

  lemma UpToCheck(start: State, steps: seq<Step>, s: State, v: Vol, x: int) returns (longer: seq<Step>, next: State)
    requires Reached(start, steps, s) && v !in s.ops && v !in s.uids && Utf8(v) && CacheFilesOnly(s.dir)
    requires IsDir(s.dir, UidLink(x))
    ensures Reached(start, longer, next) && CacheFilesOnly(next.dir) && IsDir(next.dir, UidLink(x))
    ensures next.ops == s.ops[v := Clearing(x)] && next.uids == s.uids[v := x] && next.temps == s.temps
    ensures forall n :: n in next.dir && n.TempLink? ==> n in s.dir
  {
    var s1, s2, s3, s4 := CreationSteps(s, v, x);
    longer, next := Go(start, steps, s, BeginCreate(v, x, []));
    longer, next := Go(start, longer, s1, Write(v, Written));
    longer, next := Go(start, longer, s2, Chown(v, true));
    longer, next := Go(start, longer, s3, Check(v));
  }

  /** Two creations have both seen the directory: one clears it, links and returns; the other then clears the link. */
  lemma RacingSteps(s: State, v: Vol, w: Vol, x: int, suffix: string)
      returns (s1: State, s2: State, s3: State, s4: State)
    requires v != w && v in s.ops && w in s.ops && s.ops[v] == Clearing(x) && s.ops[w] == Clearing(x)
    requires TempLink(x, suffix) !in s.temps && TempLink(x, suffix) !in s.dir
    ensures Enabled(s, Clear(v, true)) && s1 == Apply(s, Clear(v, true))
    ensures Enabled(s1, MakeTemp(v, suffix, true)) && s2 == Apply(s1, MakeTemp(v, suffix, true))
    ensures Enabled(s2, Rename(v, true)) && s3 == Apply(s2, Rename(v, true))
    ensures Enabled(s3, Clear(w, true)) && s4 == Apply(s3, Clear(w, true))
    ensures x in s4.returned && UidLink(x) !in s4.dir
  {
    s1 := Apply(s, Clear(v, true));
    s2 := Apply(s1, MakeTemp(v, suffix, true));
    assert s2.ops[v] == Renaming(x, TempLink(x, suffix)) && s2.ops[w] == Clearing(x) && UidLink(x) !in s2.dir;
    s3 := Apply(s2, Rename(v, true));
    assert x in s3.returned && s3.ops[w] == Clearing(x);
    s4 := Apply(s3, Clear(w, true));
  }

  lemma SecondClears(start: State, steps: seq<Step>, s: State, v: Vol, w: Vol, x: int, suffix: string)
      returns (longer: seq<Step>, next: State)
    requires Reached(start, steps, s) && v != w && v in s.ops && w in s.ops
    requires s.ops[v] == Clearing(x) && s.ops[w] == Clearing(x)
    requires TempLink(x, suffix) !in s.temps && TempLink(x, suffix) !in s.dir
    ensures Reached(start, longer, next) && x in next.returned && UidLink(x) !in next.dir
  {
    var s1, s2, s3, s4 := RacingSteps(s, v, w, x, suffix);
    longer, next := Go(start, steps, s, Clear(v, true));
    longer, next := Go(start, longer, s1, MakeTemp(v, suffix, true));
    longer, next := Go(start, longer, s2, Rename(v, true));
    longer, next := Go(start, longer, s3, Clear(w, true));
  }

  /** Where a directory is in the place of the link, two creations that race lose the link after one of them returned.
      */
  lemma RaceLosesLink(dir: map<Name, Entry>, v: Vol, w: Vol, x: int) returns (steps: seq<Step>, s: State)
    requires CacheFilesOnly(dir) && IsDir(dir, UidLink(x)) && Utf8(v) && Utf8(w) && v != w
    ensures Reached(Start(dir), steps, s) && x in s.returned && UidLink(x) !in s.dir
  {
    var suffix := FreshSuffix(dir.Keys);
    steps, s := [], Start(dir);
    steps, s := UpToCheck(Start(dir), steps, s, v, x);
    steps, s := UpToCheck(Start(dir), steps, s, w, x);
    steps, s := SecondClears(Start(dir), steps, s, v, w, x, suffix);
  }

  /** On every creation-only run from `dir`, once a creation for `x` has returned its link leads to a file of `x`. */
  ghost predicate KeepsLink(dir: map<Name, Entry>, x: int) {
    forall steps :: Runs(Start(dir), steps) && SteadyRun(Start(dir), steps) ==>
      x in After(Start(dir), steps).returned ==> Leads(After(Start(dir), steps), x)
  }

  /** And, on runs without torn writes, to a content issued for its volume. */
  ghost predicate KeepsContent(dir: map<Name, Entry>, x: int) {
    forall steps :: Runs(Start(dir), steps) && SteadyRun(Start(dir), steps) && Untorn(steps) ==>
      x in After(Start(dir), steps).returned ==> Resolves(After(Start(dir), steps), x)
  }

  /** Both hold exactly when the uid's own path is no directory at the start. */
  lemma KeepsLinkIff(dir: map<Name, Entry>, x: int)
    requires CacheFilesOnly(dir)
    ensures KeepsLink(dir, x) <==> !IsDir(dir, UidLink(x))
    ensures KeepsContent(dir, x) <==> !IsDir(dir, UidLink(x))
  {
    if IsDir(dir, UidLink(x)) {
      OneCharacterIds();
      var steps, s := RaceLosesLink(dir, [0x61], [0x62], x);
      assert !Leads(s, x);
    } else {
      forall steps | Runs(Start(dir), steps) && SteadyRun(Start(dir), steps) && x in After(Start(dir), steps).returned
        ensures Leads(After(Start(dir), steps), x)
        ensures Untorn(steps) ==> Resolves(After(Start(dir), steps), x)
      {
        ReturnedLinksResolve(dir, steps, x);
      }
    }
  }

  lemma OneCharacterIds()
    ensures Utf8([0x61]) && Utf8([0x62])
  {
    var a: Vol, b: Vol := [0x61], [0x62];
    assert CharLength(a) == 1 && a[1..] == [] && CharLength(b) == 1 && b[1..] == [];
  }
}
