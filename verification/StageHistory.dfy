/** What the calls of `StageProtocol` did, read off the run: why a stage answered what it answered, which operations
    of a call's program had succeeded before the next one began, and which mounts the call took down again. */
module StageHistory {
  import opened VolumeLock
  import opened Wrappers
  import opened StageProtocol

  function Front(steps: seq<Step>): seq<Step>
    requires steps != []
  {
    steps[..|steps| - 1]
  }

  function Last(steps: seq<Step>): Step
    requires steps != []
  {
    steps[|steps| - 1]
  }

  /** A run is a shorter run and one more step. */
  lemma {:induction false} RunsFront(s: State, steps: seq<Step>)
    requires Runs(s, steps) && steps != []
    ensures Runs(s, Front(steps)) && Enabled(After(s, Front(steps)), Last(steps))
    ensures After(s, steps) == Apply(After(s, Front(steps)), Last(steps))
    decreases steps
  {
    if |steps| == 1 {
      assert steps[1..] == [] && Front(steps) == [];
    } else {
      var rest := steps[1..];
      RunsFront(Apply(s, steps[0]), rest);
      assert Front(steps)[0] == steps[0] && Front(steps)[1..] == Front(rest);
    }
  }

  // ---------------------------------------------------------------- why a stage answers what it answers

  /** The call's last action, the mount it started last, and how its last wait ended. */
  datatype Trace = Trace(last: Option<Action>, mid: Option<MountId>, cause: Option<Cause>)

  function Traced(t: Trace, a: Action): Trace {
    Trace(Some(a), if a.StartMount? then Some(a.newMid) else t.mid, if a.WaitEnds? then Some(a.cause) else t.cause)
  }

  function TraceOf(steps: seq<Step>, p: CallId): Trace
    decreases |steps|
  {
    if steps == [] then Trace(None, None, None)
    else
      var t := TraceOf(Front(steps), p);
      if Last(steps).ByCall? && Last(steps).pid == p then Traced(t, Last(steps).action) else t
  }

  predicate Received(t: Trace) {
    t.mid.Some? && (t.last == Some(SelectReceives) || t.last == Some(Recheck))
  }

  /** What the call is at agrees with what it did. */
  predicate PcTraced(pc: Pc, t: Trace) {
    match pc
    case Selecting(_, m) => t.mid == Some(m)
    case Rechecking(_, m, cause) => t.mid == Some(m) && t.cause == Some(cause)
    case Detaching(_, m, cause) => t.mid == Some(m) && t.cause == Some(cause)
    case Returning(_, got, _, reply) =>
      if t.last == Some(AlreadyMounted) then got.None? && reply.Ok?
      else if t.last == Some(PrepareFails) then got.None? && reply.Internal?
      else if t.last == Some(Detach) then
        got.None? && t.cause.Some?
            && (if t.cause.value.ContextCanceled? then reply.Canceled? else reply.DeadlineExceeded?)
      else Received(t) && got == t.mid
    case _ => true
  }

  lemma CallTraced(s: State, c: Call, a: Action, t: Trace)
    requires CallEnabled(s, c, a) && PcTraced(c.pc, t)
    ensures PcTraced(CallStep(s, c, a).call.pc, Traced(t, a))
  {
  }

  predicate Returned(steps: seq<Step>, m: MountId, ok: bool) {
    ByMount(m, MountReturns(ok)) in steps
  }

  /** A mount's recorded result is the one its Mount call returned. */
  predicate MountTraced(s: State, steps: seq<Step>, m: MountId) {
    if m !in s.mounts || s.mounts[m].gor.Mounting? then !Returned(steps, m, true) && !Returned(steps, m, false)
    else Returned(steps, m, s.mounts[m].gor.ok) && !Returned(steps, m, !s.mounts[m].gor.ok)
  }

  lemma EventStaysTraced(s: State, steps: seq<Step>, n: MountId, e: Event, m: MountId)
    requires n in s.mounts && MountEnabled(s.mounts[n], e) && MountTraced(s, steps, m)
    ensures MountTraced(ApplyMount(s, n, e), steps + [ByMount(n, e)], m)
  {
  }

  lemma CallStaysTraced(s: State, steps: seq<Step>, p: CallId, a: Action, m: MountId)
    requires p in s.calls && CallEnabled(s, s.calls[p], a) && MountTraced(s, steps, m)
    ensures MountTraced(ApplyCall(s, p, a), steps + [ByCall(p, a)], m)
  {
    OutcomeIsNew(s, s.calls[p], a);
    CallKeepsResults(s, p, CallStep(s, s.calls[p], a), m);
  }

  lemma MountStaysTraced(s: State, steps: seq<Step>, step: Step, m: MountId)
    requires Enabled(s, step) && MountTraced(s, steps, m)
    ensures MountTraced(Apply(s, step), steps + [step], m)
  {
    match step
    case Arrive(_, _) =>
    case ByMount(n, e) => EventStaysTraced(s, steps, n, e, m);
    case ByCall(p, a) => CallStaysTraced(s, steps, p, a, m);
  }

  lemma CallKeepsResults(s: State, p: CallId, o: Outcome, m: MountId)
    requires o.mount.Took? ==> o.mount.mid in s.mounts && s.mounts[o.mount.mid].chan != []
    requires o.mount.Spawned? ==> o.mount.mid in s.mounts
    requires o.mount.Started? ==> o.call.pc.Selecting? && o.mount.mid !in s.mounts
    ensures var s' := Commit(s, p, o);
            if m in s.mounts then m in s'.mounts && s'.mounts[m].gor == s.mounts[m].gor
            else m in s'.mounts ==> s'.mounts[m].gor.Mounting?
  {
  }

  lemma {:induction false} EveryMountTraced(steps: seq<Step>, m: MountId)
    requires Runs(Initial, steps)
    ensures MountTraced(After(Initial, steps), steps, m)
    decreases |steps|
  {
    if steps != [] {
      RunsFront(Initial, steps);
      EveryMountTraced(Front(steps), m);
      MountStaysTraced(After(Initial, Front(steps)), Front(steps), Last(steps), m);
      assert steps == Front(steps) + [Last(steps)];
    }
  }

  lemma {:induction false} EveryCallTraced(steps: seq<Step>, p: CallId)
    requires Runs(Initial, steps)
    ensures p in After(Initial, steps).calls ==> PcTraced(After(Initial, steps).calls[p].pc, TraceOf(steps, p))
    decreases |steps|
  {
    if steps != [] {
      RunsFront(Initial, steps);
      EveryCallTraced(Front(steps), p);
      var s := After(Initial, Front(steps));
      match Last(steps)
      case Arrive(_, _) =>
      case ByMount(_, _) =>
      case ByCall(q, a) =>
        if q == p {
          CallTraced(s, s.calls[p], a, TraceOf(Front(steps), p));
        }
    }
  }

  /** On every run, a stage answers success exactly when it found the target mounted or the Mount call it started last
      returned success and was waited for; an internal error exactly when it failed before mounting or that Mount call
      failed; and each other reply exactly when it gave up waiting for that reason. */
  lemma StageAnswers(steps: seq<Step>, p: CallId)
    requires Runs(Initial, steps) && p in After(Initial, steps).calls && After(Initial, steps).calls[p].pc.Returning?
    ensures var reply := After(Initial, steps).calls[p].pc.reply;
            var t := TraceOf(steps, p);
            && (reply.Ok? <==> t.last == Some(AlreadyMounted) || (Received(t) && Returned(steps, t.mid.value, true)))
            && (reply.Internal? <==>
               t.last == Some(PrepareFails) || (Received(t) && Returned(steps, t.mid.value, false)))
            && (reply.Canceled? <==> t.last == Some(Detach) && t.cause == Some(ContextCanceled))
            && (reply.DeadlineExceeded? <==>
                  t.last == Some(Detach) && (t.cause == Some(TimerFired) || t.cause == Some(ContextDeadline)))
  {
    var t := TraceOf(steps, p);
    EveryCallTraced(steps, p);
    ReplyIsTheMountsResult(steps, p);
    if Received(t) {
      EveryMountTraced(steps, t.mid.value);
      ReachableInv(steps);
      assert WaiterOk(After(Initial, steps), p);
    }
  }

  /** A call, a stage and an unstage begin exactly when their key is free. */
  lemma BeginsIfFree(s: State, p: CallId, a: Action)
    requires p in s.calls && CallEnabled(s, s.calls[p], a) && (a.Enter? || a.BeginStage? || a.BeginUnstage?)
    ensures var c, s' := s.calls[p], Apply(s, ByCall(p, a));
            match a
            case Enter => s'.calls[p].pc.Ready? <==> c.top.None? || c.top.value !in s.locks
            case BeginStage =>
              if c.todo[0].key !in s.locks then s'.calls[p].pc == Preparing(c.todo[0].key) && c.todo[0].key in s'.locks
              else s'.calls[p].pc.Ready? && s'.calls[p].todo == [] && s'.locks == s.locks
            case BeginUnstage =>
              if c.defers[0] !in s.locks then s'.calls[p].pc == Cleaning(c.defers[0]) && c.defers[0] in s'.locks
              else s'.calls[p].pc.Ready? && s'.locks == s.locks
            case _ => true
  {
  }

  /** The wait and its re-check take a result exactly when the mount goroutine has sent one. */
  lemma ResultIsTakenIfSent(steps: seq<Step>, p: CallId)
    requires Runs(Initial, steps) && p in After(Initial, steps).calls
    ensures var s := After(Initial, steps);
            var pc := s.calls[p].pc;
            && (pc.Selecting? ==> pc.mid in s.mounts)
            && (pc.Selecting? ==> (Enabled(s, ByCall(p, SelectReceives)) <==> s.mounts[pc.mid].gor.Exited?))
            && (pc.Rechecking? ==> pc.mid in s.mounts && Enabled(s, ByCall(p, Recheck)))
            && (pc.Rechecking? ==>
                  (Apply(s, ByCall(p, Recheck)).calls[p].pc.Returning? <==> s.mounts[pc.mid].gor.Exited?))
  {
    ReachableInv(steps);
    var s := After(Initial, steps);
    assert WaiterOk(s, p);
    if s.calls[p].pc.Selecting? || s.calls[p].pc.Rechecking? {
      assert MountOk(s, s.calls[p].pc.mid);
    }
  }

  /** A stage that answers success leaves the rest of the call's work, and the unmount it owes, to be done; any other
      answer drops the work and owes nothing. */
  lemma OnlySuccessGoesOn(s: State, p: CallId)
    requires p in s.calls && s.calls[p].pc.Returning?
    ensures var c, c' := s.calls[p], Apply(s, ByCall(p, Return)).calls[p];
            && c'.pc.Ready?
            && c'.todo == (if c.pc.reply.Ok? then c.todo else [])
            && c'.defers == (if c.pc.reply.Ok? && c.cleanup then [c.pc.key] else []) + c.defers
  {
    assert [] + s.calls[p].defers == s.calls[p].defers;
  }

  // ---------------------------------------------------------------- what a call has done

  datatype Deed = Mounted(key: Key, cleanup: bool) | Worked

  function DeedOf(op: Op): Deed {
    match op
    case Stage(k, cleanup) => Mounted(k, cleanup)
    case Work => Worked
  }

  function DeedsOf(ops: seq<Op>): (d: seq<Deed>)
    ensures |d| == |ops| && forall i :: 0 <= i < |d| ==> d[i] == DeedOf(ops[i])
  {
    if ops == [] then [] else [DeedOf(ops[0])] + DeedsOf(ops[1..])
  }

  /** The stages of the call that answered success and the work that succeeded, in the order of the run. */
  function Deeds(steps: seq<Step>, p: CallId): seq<Deed>
    requires Runs(Initial, steps)
    decreases |steps|
  {
    if steps == [] then []
    else
      RunsFront(Initial, steps);
      Deeds(Front(steps), p) + DeedsIn(After(Initial, Front(steps)), Last(steps), p)
  }

  function DeedsIn(s: State, step: Step, p: CallId): seq<Deed>
    requires Enabled(s, step)
  {
    if step.ByCall? && step.pid == p then DeedsBy(s.calls[p], step.action) else []
  }

  function DeedsBy(c: Call, a: Action): seq<Deed> {
    if a == DoWork(true) then [Worked]
    else if a.Return? && c.pc.Returning? && c.pc.reply.Ok? then [Mounted(c.pc.key, c.cleanup)]
    else []
  }

  /** The keys the call set out to unstage, in the order of the run. */
  function Unstages(steps: seq<Step>, p: CallId): seq<Key>
    requires Runs(Initial, steps)
    decreases |steps|
  {
    if steps == [] then []
    else
      RunsFront(Initial, steps);
      Unstages(Front(steps), p) + UnstagesIn(After(Initial, Front(steps)), Last(steps), p)
  }

  function UnstagesIn(s: State, step: Step, p: CallId): seq<Key>
    requires Enabled(s, step)
  {
    if step.ByCall? && step.pid == p && step.action.BeginUnstage? then [s.calls[p].defers[0]] else []
  }

  /** The unmounts owed for what was done, the latest first. */
  function Owed(deeds: seq<Deed>): seq<Key>
    decreases |deeds|
  {
    if deeds == [] then []
    else
      var d := deeds[|deeds| - 1];
      (if d.Mounted? && d.cleanup then [d.key] else []) + Owed(deeds[..|deeds| - 1])
  }

  lemma OwedSnoc(deeds: seq<Deed>, d: Deed)
    ensures Owed(deeds + [d]) == (if d.Mounted? && d.cleanup then [d.key] else []) + Owed(deeds)
  {
    assert (deeds + [d])[..|deeds|] == deeds;
  }

  predicate InStage(pc: Pc) {
    pc.Preparing? || pc.Selecting? || pc.Rechecking? || pc.Detaching? || pc.Returning?
  }

  /** How far the call has come in the program it arrived with. */
  predicate Progress(c0: Call, c: Call, deeds: seq<Deed>, unstages: seq<Key>) {
    var n := |deeds|;
    && c.top == c0.top && n <= |c0.todo| && deeds == DeedsOf(c0.todo[..n])
    && unstages + c.defers == Owed(deeds) + c0.defers
    && (c.pc.Entering? ==> c == c0 && n == 0 && unstages == [])
    && (c.pc.Ready? ==> c.todo == [] || (c.todo == c0.todo[n..] && unstages == []))
    && (InStage(c.pc) ==>
          && unstages == [] && n < |c0.todo|
          && c0.todo[n] == Stage(c.pc.key, c.cleanup) && c.todo == c0.todo[n + 1..])
    && (c.pc.Cleaning? ==> c.todo == [] && unstages != [] && unstages[|unstages| - 1] == c.pc.key)
    && (c.pc.Done? ==> c.defers == [] || (c0.top.Some? && n == 0 && unstages == []))
  }

  lemma DeedsOfSnoc(ops: seq<Op>, n: nat)
    requires n < |ops|
    ensures DeedsOf(ops[..n + 1]) == DeedsOf(ops[..n]) + [DeedOf(ops[n])]
  {
  }

  /** Until it returns, a stage changes only where it is. */
  lemma StageKeepsRecord(s: State, c: Call, a: Action)
    requires CallEnabled(s, c, a) && InStage(c.pc) && !a.Return?
    ensures var c' := CallStep(s, c, a).call;
            c' == c.(pc := c'.pc) && InStage(c'.pc) && c'.pc.key == c.pc.key && DeedsBy(c, a) == [] && !a.BeginUnstage?
  {
  }

  lemma ReturnedCall(s: State, c: Call)
    requires CallEnabled(s, c, Return)
    ensures CallStep(s, c, Return).call ==
            if !c.pc.reply.Ok? then c.(todo := [], pc := Ready)
            else c.(defers := (if c.cleanup then [c.pc.key] else []) + c.defers, pc := Ready)
  {
    assert [] + c.defers == c.defers;
  }

  lemma SuccessOwes(c: Call, deeds: seq<Deed>, defers0: seq<Key>)
    requires InStage(c.pc) && [] + c.defers == Owed(deeds) + defers0
    ensures var mine := if c.cleanup then [c.pc.key] else [];
            [] + (mine + c.defers) == Owed(deeds + [Mounted(c.pc.key, c.cleanup)]) + defers0
  {
    var mine := if c.cleanup then [c.pc.key] else [];
    OwedSnoc(deeds, Mounted(c.pc.key, c.cleanup));
    assert mine + (Owed(deeds) + defers0) == (mine + Owed(deeds)) + defers0;
    assert [] + c.defers == c.defers && [] + (mine + c.defers) == mine + c.defers;
  }

  lemma SuccessProgress(c0: Call, c: Call, deeds: seq<Deed>)
    requires Progress(c0, c, deeds, []) && InStage(c.pc)
    ensures Progress(c0, c.(defers := (if c.cleanup then [c.pc.key] else []) + c.defers, pc := Ready),
                     deeds + [Mounted(c.pc.key, c.cleanup)], [])
  {
    var n, more := |deeds|, deeds + [Mounted(c.pc.key, c.cleanup)];
    DeedsOfSnoc(c0.todo, n);
    SuccessOwes(c, deeds, c0.defers);
    assert |more| == n + 1 && more == DeedsOf(c0.todo[..|more|]) && c.todo == c0.todo[|more|..];
  }

  lemma FailureProgress(c0: Call, c: Call, deeds: seq<Deed>)
    requires Progress(c0, c, deeds, []) && InStage(c.pc)
    ensures Progress(c0, c.(todo := [], pc := Ready), deeds, [])
  {
  }

  lemma InStageProgress(s: State, c0: Call, c: Call, a: Action, deeds: seq<Deed>)
    requires CallEnabled(s, c, a) && InStage(c.pc) && Progress(c0, c, deeds, [])
    ensures Progress(c0, CallStep(s, c, a).call, deeds + DeedsBy(c, a), []) && !a.BeginUnstage?
  {
    assert deeds + [] == deeds;
    if !a.Return? {
      StageKeepsRecord(s, c, a);
    } else {
      ReturnedCall(s, c);
      if c.pc.reply.Ok? {
        SuccessProgress(c0, c, deeds);
      } else {
        FailureProgress(c0, c, deeds);
      }
    }
  }

  lemma WorkProgress(s: State, c0: Call, c: Call, ok: bool, deeds: seq<Deed>)
    requires CallEnabled(s, c, DoWork(ok)) && Progress(c0, c, deeds, [])
    ensures Progress(c0, CallStep(s, c, DoWork(ok)).call, deeds + DeedsBy(c, DoWork(ok)), [])
  {
    assert c.todo[0] == c0.todo[|deeds|] && c.todo[1..] == c0.todo[|deeds| + 1..];
    if ok {
      DeedsOfSnoc(c0.todo, |deeds|);
      OwedSnoc(deeds, Worked);
      assert [] + Owed(deeds) == Owed(deeds);
    } else {
      assert deeds + [] == deeds;
    }
  }

  lemma Shift(u: seq<Key>, d: seq<Key>)
    requires d != []
    ensures (u + [d[0]]) + d[1..] == u + d && (u + [d[0]])[|u + [d[0]]| - 1] == d[0]
  {
  }

  lemma UnstageProgress(s: State, c0: Call, c: Call, deeds: seq<Deed>, unstages: seq<Key>)
    requires CallEnabled(s, c, BeginUnstage) && Progress(c0, c, deeds, unstages)
    ensures Progress(c0, CallStep(s, c, BeginUnstage).call, deeds, unstages + [c.defers[0]])
  {
    Shift(unstages, c.defers);
  }

  lemma EnterProgress(s: State, c0: Call, c: Call, deeds: seq<Deed>)
    requires CallEnabled(s, c, Enter) && Progress(c0, c, deeds, [])
    ensures Progress(c0, CallStep(s, c, Enter).call, deeds, [])
  {
    assert c0.todo[0..] == c0.todo && c0.todo[..0] == [];
  }

  lemma BeginStageProgress(s: State, c0: Call, c: Call, deeds: seq<Deed>)
    requires CallEnabled(s, c, BeginStage) && Progress(c0, c, deeds, [])
    ensures Progress(c0, CallStep(s, c, BeginStage).call, deeds, [])
  {
    assert c.todo[0] == c0.todo[|deeds|] && c.todo[1..] == c0.todo[|deeds| + 1..];
  }

  lemma EndProgress(s: State, c0: Call, c: Call, a: Action, deeds: seq<Deed>, unstages: seq<Key>)
    requires CallEnabled(s, c, a) && Progress(c0, c, deeds, unstages) && (a.EndUnstage? || a.Finish?)
    ensures Progress(c0, CallStep(s, c, a).call, deeds, unstages)
  {
  }

  lemma CallProgress(s: State, c0: Call, c: Call, a: Action, deeds: seq<Deed>, unstages: seq<Key>)
    requires CallEnabled(s, c, a) && Progress(c0, c, deeds, unstages)
    ensures Progress(c0, CallStep(s, c, a).call, deeds + DeedsBy(c, a),
                     unstages + if a.BeginUnstage? then [c.defers[0]] else [])
  {
    assert deeds + [] == deeds && unstages + [] == unstages;
    if InStage(c.pc) {
      InStageProgress(s, c0, c, a, deeds);
    } else if a.DoWork? {
      WorkProgress(s, c0, c, a.ok, deeds);
    } else if a.BeginUnstage? {
      UnstageProgress(s, c0, c, deeds, unstages);
    } else {
      QuietProgress(s, c0, c, a, deeds, unstages);
    }
  }

  lemma QuietProgress(s: State, c0: Call, c: Call, a: Action, deeds: seq<Deed>, unstages: seq<Key>)
    requires CallEnabled(s, c, a) && Progress(c0, c, deeds, unstages)
    requires !InStage(c.pc) && !a.DoWork? && !a.BeginUnstage?
    ensures Progress(c0, CallStep(s, c, a).call, deeds, unstages) && DeedsBy(c, a) == []
  {
    if a.Enter? {
      EnterProgress(s, c0, c, deeds);
    } else if a.BeginStage? {
      BeginStageProgress(s, c0, c, deeds);
    } else {
      EndProgress(s, c0, c, a, deeds, unstages);
    }
  }

  lemma OtherStepKeepsCall(s: State, step: Step, p: CallId)
    requires Enabled(s, step) && p in s.calls && !(step.ByCall? && step.pid == p)
    ensures p in Apply(s, step).calls && Apply(s, step).calls[p] == s.calls[p]
    ensures DeedsIn(s, step, p) == [] && UnstagesIn(s, step, p) == []
  {
  }

  lemma StepProgress(s: State, step: Step, p: CallId, c0: Call, deeds: seq<Deed>, unstages: seq<Key>)
    requires Enabled(s, step) && p in s.calls && Progress(c0, s.calls[p], deeds, unstages)
    ensures p in Apply(s, step).calls
    ensures Progress(c0, Apply(s, step).calls[p], deeds + DeedsIn(s, step, p), unstages + UnstagesIn(s, step, p))
  {
    if step.ByCall? && step.pid == p {
      CallProgress(s, c0, s.calls[p], step.action, deeds, unstages);
    } else {
      OtherStepKeepsCall(s, step, p);
      assert deeds + [] == deeds && unstages + [] == unstages;
    }
  }

  lemma StillNotArrived(s: State, step: Step, p: CallId)
    requires Enabled(s, step) && p !in Apply(s, step).calls
    ensures p !in s.calls && DeedsIn(s, step, p) == [] && UnstagesIn(s, step, p) == []
    ensures step.Arrive? ==> step.pid != p
  {
  }

  lemma {:induction false} NothingBeforeArrival(steps: seq<Step>, p: CallId)
    requires Runs(Initial, steps) && p !in After(Initial, steps).calls
    ensures Deeds(steps, p) == [] && Unstages(steps, p) == [] && forall c :: Arrive(p, c) !in steps
    decreases |steps|
  {
    if steps != [] {
      RunsFront(Initial, steps);
      StillNotArrived(After(Initial, Front(steps)), Last(steps), p);
      NothingBeforeArrival(Front(steps), p);
      assert steps == Front(steps) + [Last(steps)];
    }
  }

  /** On every run, every call is where its program and its successes so far have brought it. */
  lemma {:induction false} EveryCallProgresses(steps: seq<Step>, p: CallId, c0: Call)
    requires Runs(Initial, steps) && Arrive(p, c0) in steps
    ensures p in After(Initial, steps).calls && Fresh(c0)
    ensures Progress(c0, After(Initial, steps).calls[p], Deeds(steps, p), Unstages(steps, p))
    decreases |steps|
  {
    RunsFront(Initial, steps);
    var front, s := Front(steps), After(Initial, Front(steps));
    assert steps == front + [Last(steps)];
    if Arrive(p, c0) in front {
      EveryCallProgresses(front, p, c0);
      StepProgress(s, Last(steps), p, c0, Deeds(front, p), Unstages(front, p));
    } else {
      NothingBeforeArrival(front, p);
      assert c0.todo[..0] == [] && c0.todo[0..] == c0.todo;
    }
  }

  // ---------------------------------------------------------------- what follows for whole runs

  /** When a call does work, it is the next operation of its program, and every operation before it succeeded: its
      stages answered success, its work did not fail. */
  lemma WorkFollowsSuccess(steps: seq<Step>, p: CallId, c0: Call, ok: bool)
    requires Runs(Initial, steps) && Arrive(p, c0) in steps && Enabled(After(Initial, steps), ByCall(p, DoWork(ok)))
    ensures var n := |Deeds(steps, p)|;
            n < |c0.todo| && c0.todo[n].Work? && Deeds(steps, p) == DeedsOf(c0.todo[..n])
  {
    EveryCallProgresses(steps, p, c0);
    var n, c := |Deeds(steps, p)|, After(Initial, steps).calls[p];
    assert c.todo[0] == c0.todo[n..][0];
  }

  /** What a call has done is the beginning of its program; and when it is over, unless it was refused at the start, it
      has set out to take down every mount it made for itself, the latest first, and nothing else. */
  lemma FinishedCall(steps: seq<Step>, p: CallId, c0: Call)
    requires Runs(Initial, steps) && Arrive(p, c0) in steps
    requires p in After(Initial, steps).calls && After(Initial, steps).calls[p].pc.Done?
    ensures Deeds(steps, p) <= DeedsOf(c0.todo)
    ensures || Unstages(steps, p) == Owed(Deeds(steps, p)) + c0.defers
            || (c0.top.Some? && Deeds(steps, p) == [] && Unstages(steps, p) == [])
  {
    EveryCallProgresses(steps, p, c0);
    assert Unstages(steps, p) + [] == Unstages(steps, p);
  }

  /** The key is one the program stages. */
  predicate Stages(c0: Call, k: Key) {
    exists i :: 0 <= i < |c0.todo| && c0.todo[i].Stage? && c0.todo[i].key == k
  }

  lemma {:induction false} OwedAreStaged(c0: Call, n: nat, k: Key)
    requires n <= |c0.todo| && k in Owed(DeedsOf(c0.todo[..n]))
    ensures Stages(c0, k)
    decreases n
  {
    if n > 0 {
      DeedsOfSnoc(c0.todo, n - 1);
      OwedSnoc(DeedsOf(c0.todo[..n - 1]), DeedOf(c0.todo[n - 1]));
      if k in Owed(DeedsOf(c0.todo[..n - 1])) {
        OwedAreStaged(c0, n - 1, k);
      }
    }
  }

  /** A call only takes keys that its program stages or unstages. */
  lemma KeysAreTheProgram(steps: seq<Step>, p: CallId, c0: Call, k: Key)
    requires Runs(Initial, steps) && Arrive(p, c0) in steps
    ensures p in After(Initial, steps).calls
    ensures var c := After(Initial, steps).calls[p];
            && (InStage(c.pc) && c.pc.key == k ==> Stages(c0, k))
            && (c.pc.Cleaning? && c.pc.key == k ==> Stages(c0, k) || k in c0.defers)
            && (k in c.defers ==> Stages(c0, k) || k in c0.defers)
            && (c.pc.Ready? && c.todo != [] && c.todo[0].Stage? && c.todo[0].key == k ==> Stages(c0, k))
  {
    EveryCallProgresses(steps, p, c0);
    var c, n, u := After(Initial, steps).calls[p], |Deeds(steps, p)|, Unstages(steps, p);
    var owed := Owed(Deeds(steps, p));
    if (c.pc.Cleaning? && c.pc.key == k) || k in c.defers {
      assert k in u + c.defers;
      assert k in owed || k in c0.defers;
      if k in owed {
        OwedAreStaged(c0, n, k);
      }
    }
    if c.pc.Ready? && c.todo != [] {
      assert c.todo[0] == c0.todo[n..][0];
    }
  }

  lemma {:induction false} ArrivedOnce(steps: seq<Step>, p: CallId, c: Call, d: Call)
    requires Runs(Initial, steps) && Arrive(p, c) in steps && Arrive(p, d) in steps
    ensures c == d
    decreases |steps|
  {
    RunsFront(Initial, steps);
    var front := Front(steps);
    assert steps == front + [Last(steps)];
    if p in After(Initial, front).calls {
      if Arrive(p, c) in front && Arrive(p, d) in front {
        ArrivedOnce(front, p, c, d);
      }
    } else {
      NothingBeforeArrival(front, p);
    }
  }

  lemma {:induction false} EveryCallArrived(steps: seq<Step>, p: CallId) returns (c0: Call)
    requires Runs(Initial, steps) && p in After(Initial, steps).calls
    ensures Arrive(p, c0) in steps
    decreases |steps|
  {
    RunsFront(Initial, steps);
    var front := Front(steps);
    assert steps == front + [Last(steps)];
    if p in After(Initial, front).calls {
      c0 := EveryCallArrived(front, p);
    } else {
      c0 := Last(steps).call;
    }
  }

  /** A mount's key is one that the program of the call that started it stages. */
  lemma {:induction false} MountKeyIsStaged(steps: seq<Step>, m: MountId, c0: Call)
    requires Runs(Initial, steps) && m in After(Initial, steps).mounts
    requires Arrive(After(Initial, steps).mounts[m].starter, c0) in steps
    ensures Stages(c0, After(Initial, steps).mounts[m].key)
    decreases |steps|
  {
    RunsFront(Initial, steps);
    var front, s := Front(steps), After(Initial, Front(steps));
    assert steps == front + [Last(steps)];
    if m in s.mounts {
      MountKeeps(s, Last(steps), m);
      var p := s.mounts[m].starter;
      StarterIsCall(front, m);
      var c := EveryCallArrived(front, p);
      ArrivedOnce(steps, p, c, c0);
      MountKeyIsStaged(front, m, c0);
    } else {
      var p := After(Initial, steps).mounts[m].starter;
      MountIsNew(s, Last(steps), m);
      var c := EveryCallArrived(front, p);
      ArrivedOnce(steps, p, c, c0);
      KeysAreTheProgram(front, p, c0, s.calls[p].pc.key);
    }
  }

  lemma MountKeeps(s: State, step: Step, m: MountId)
    requires Enabled(s, step) && m in s.mounts
    ensures var s' := Apply(s, step);
            m in s'.mounts && s'.mounts[m].key == s.mounts[m].key && s'.mounts[m].starter == s.mounts[m].starter
  {
    match step
    case Arrive(_, _) =>
    case ByMount(_, _) =>
    case ByCall(p, a) =>
      OutcomeIsNew(s, s.calls[p], a);
  }

  lemma MountIsNew(s: State, step: Step, m: MountId)
    requires Enabled(s, step) && m !in s.mounts && m in Apply(s, step).mounts
    ensures var p := Apply(s, step).mounts[m].starter;
            p in s.calls && s.calls[p].pc.Preparing? && s.calls[p].pc.key == Apply(s, step).mounts[m].key
  {
    match step
    case Arrive(_, _) =>
    case ByMount(_, _) =>
    case ByCall(p, a) =>
      OutcomeAwaits(s, s.calls[p], a);
      NewMountOf(s, p, CallStep(s, s.calls[p], a), m);
  }

  lemma NewMountOf(s: State, p: CallId, o: Outcome, m: MountId)
    requires p in s.calls && AwaitsOk(s, s.calls[p], o) && m !in s.mounts && m in Commit(s, p, o).mounts
    ensures var x := Commit(s, p, o).mounts[m];
            x.starter == p && s.calls[p].pc.Preparing? && s.calls[p].pc.key == x.key
  {
  }

  lemma {:induction false} StarterIsCall(steps: seq<Step>, m: MountId)
    requires Runs(Initial, steps) && m in After(Initial, steps).mounts
    ensures After(Initial, steps).mounts[m].starter in After(Initial, steps).calls
    decreases |steps|
  {
    RunsFront(Initial, steps);
    var s := After(Initial, Front(steps));
    if m in s.mounts {
      MountKeeps(s, Last(steps), m);
      StarterIsCall(Front(steps), m);
    } else {
      MountIsNew(s, Last(steps), m);
    }
  }
}
