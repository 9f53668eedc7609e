/** What every run of the job protocol keeps. */
module JobRuns {
  import opened Wrappers
  import opened Utf8
  import opened JobTable
  import opened JobProtocol

  // ---- The invariant --------------------------------------------------------

  /** Not long finished when the sweep that kept it began. */
  ghost predicate YoungAt(job: Job, began: nat, retention: nat) {
    job.state.finishedAt.Some? ==>
      job.state.finishedAt.value >= began || job.state.finishedAt.value + retention > began
  }

  ghost predicate LivesOk(cfg: Config, w: World) {
    forall j :: 0 <= j < |w.jobs| ==> Lifecycle(cfg, w.jobs[j], w.now)
  }

  /** The table holds what was inserted and not swept, one id per job. */
  ghost predicate TableOk(w: World) {
    && (forall id :: id in w.issued ==> w.issued[id] < |w.jobs| && (id in w.table || id in w.forgotten))
    && (forall id :: id in w.table ==> id in w.issued && id !in w.forgotten && w.table[id] == w.issued[id])
    && (forall id :: id in w.forgotten ==> id in w.issued)
    && (forall a, b :: a in w.issued && b in w.issued && w.issued[a] == w.issued[b] ==> a == b)
  }

  /** Swept ids had been finished for the whole retention time. */
  ghost predicate ForgottenOk(cfg: Config, w: World) {
    forall id :: id in w.forgotten && id in w.issued && w.issued[id] < |w.jobs| ==>
      && w.jobs[w.issued[id]].state.finishedAt.Some?
      && w.jobs[w.issued[id]].state.finishedAt.value + cfg.retention <= w.forgotten[id] <= w.now
  }

  ghost predicate LockOk(w: World) {
    && (w.locked.Some? ==> w.locked.value in w.calls && w.calls[w.locked.value].Reaping?)
    && (forall t :: t in w.calls && w.calls[t].Reaping? ==> w.locked == Some(t))
  }

  predicate Owns(c: Call) {
    c.SpawnedJob?
  }

  /** A job not inserted yet belongs to the one call that spawned it. */
  ghost predicate SpawnOk(w: World) {
    && (forall t :: t in w.calls && Owns(w.calls[t]) ==>
          w.calls[t].job < |w.jobs| && forall id :: id in w.issued ==> w.issued[id] != w.calls[t].job)
    && (forall t, t' :: t in w.calls && t' in w.calls && t != t' && Owns(w.calls[t]) && Owns(w.calls[t']) ==>
          w.calls[t].job != w.calls[t'].job)
  }

  /** The receivers of a job are exactly the waits listening to it. */
  ghost predicate ReceiversOk(w: World) {
    forall j, t :: 0 <= j < |w.jobs| ==>
      (t in w.jobs[j].state.receivers <==> t in w.calls && Listens(w.calls[t], j))
  }

  /** What each call may rely on where it stands. */
  ghost predicate CallOk(cfg: Config, w: World, c: Call) {
    match c
    case Reaping(began, pending) =>
      && began <= w.now && pending <= w.table.Keys
      && (forall id :: id in w.table && id !in pending && w.table[id] < |w.jobs| ==>
            YoungAt(w.jobs[w.table[id]], began, cfg.retention))
    case Started(id) => id in w.issued
    case WaitGot(j) => j < |w.jobs|
    case WaitListening(j) => j < |w.jobs|
    case WaitLooked(j) => j < |w.jobs|
    case WaitParked(j) => j < |w.jobs|
    case WaitDraining(j) => j < |w.jobs| && w.jobs[j].state.done
    case WaitCopied(j, output) => j < |w.jobs| && w.jobs[j].state.done && output <= w.jobs[j].state.output
    case WaitDone(j, answer) =>
      && j < |w.jobs|
      && (answer.Some? ==> w.jobs[j].state.done && TrueAnswer(w.jobs[j], answer.value))
    case PollGot(j) => j < |w.jobs|
    case PollCopied(j, output) => j < |w.jobs| && output <= w.jobs[j].state.output
    case PollDone(j, shown) =>
      j < |w.jobs| && shown.output <= w.jobs[j].state.output
      && (shown.status == Running || TrueAnswer(w.jobs[j], shown))
    case StopGot(j) => j < |w.jobs|
    case StopDone(j, _) => j < |w.jobs|
    case NoSuchId(id) => true
    case _ => true
  }

  /** The status the process really ended with, and output the job really has. */
  ghost predicate TrueAnswer(job: Job, f: Finished) {
    && job.waiter > 0 && job.exit.Some? && f.status == job.state.status && Reports(f.status, job.exit.value)
    && f.output <= job.state.output
  }

  ghost predicate CallsOk(cfg: Config, w: World) {
    forall t :: t in w.calls ==> CallOk(cfg, w, w.calls[t])
  }

  ghost predicate Inv(cfg: Config, w: World) {
    && LivesOk(cfg, w) && TableOk(w) && ForgottenOk(cfg, w) && LockOk(w)
    && SpawnOk(w) && ReceiversOk(w) && CallsOk(cfg, w)
  }

  /** History only grows. */
  ghost predicate Later(w: World, w': World) {
    && |w.jobs| <= |w'.jobs| && w.now <= w'.now
    && (forall j :: 0 <= j < |w.jobs| ==> Evolves(w.jobs[j], w'.jobs[j], w.now))
    && (forall id :: id in w.issued ==> id in w'.issued && w'.issued[id] == w.issued[id])
    && (forall id :: id in w.forgotten ==> id in w'.forgotten)
    && (forall t :: t in w.calls ==> t in w'.calls)
  }

  lemma LaterTransitive(a: World, b: World, c: World)
    requires Later(a, b) && Later(b, c)
    ensures Later(a, c)
  {
    forall j | 0 <= j < |a.jobs| ensures Evolves(a.jobs[j], c.jobs[j], a.now) {
      assert Evolves(a.jobs[j], b.jobs[j], a.now) && Evolves(b.jobs[j], c.jobs[j], b.now);
    }
  }

  lemma CallStable(cfg: Config, w: World, w': World, c: Call)
    requires CallOk(cfg, w, c) && Later(w, w')
    requires c.Reaping? ==> w'.table == w.table && TableOk(w)
    ensures CallOk(cfg, w', c)
  {
    match c
    case Reaping(began, pending) =>
      forall id | id in w'.table && id !in pending && w'.table[id] < |w'.jobs|
        ensures YoungAt(w'.jobs[w'.table[id]], began, cfg.retention)
      {
        var j := w.table[id];
        assert Evolves(w.jobs[j], w'.jobs[j], w.now);
        assert YoungAt(w.jobs[j], began, cfg.retention);
      }
    case _ =>
  }

  // ---- One step -------------------------------------------------------------

  lemma ForgottenStable(cfg: Config, w: World, w': World)
    requires TableOk(w) && ForgottenOk(cfg, w) && Later(w, w')
    requires w'.forgotten == w.forgotten
    ensures ForgottenOk(cfg, w')
  {
    forall id | id in w'.forgotten ensures
        && w'.issued[id] == w.issued[id] < |w.jobs|
        && Evolves(w.jobs[w.issued[id]], w'.jobs[w.issued[id]], w.now)
    {
      assert id in w.issued;
    }
  }

  lemma CallsStable(cfg: Config, w: World, w': World, t: Caller)
    requires TableOk(w) && LockOk(w) && CallsOk(cfg, w) && Later(w, w')
    requires w'.table == w.table || w.locked.None?
    requires forall t' :: t' in w'.calls && t' != t ==> t' in w.calls && w'.calls[t'] == w.calls[t']
    requires t in w'.calls ==> CallOk(cfg, w', w'.calls[t])
    ensures CallsOk(cfg, w')
  {
    forall t' | t' in w'.calls ensures CallOk(cfg, w', w'.calls[t']) {
      if t' != t {
        CallStable(cfg, w, w', w.calls[t']);
      }
    }
  }

  lemma AllCallsStable(cfg: Config, w: World, w': World)
    requires TableOk(w) && CallsOk(cfg, w) && Later(w, w')
    requires w'.table == w.table && w'.calls == w.calls
    ensures CallsOk(cfg, w')
  {
    forall t | t in w'.calls ensures CallOk(cfg, w', w'.calls[t]) {
      CallStable(cfg, w, w', w.calls[t]);
    }
  }

  /** Time passes, or a job's own task takes a step: no call moves. */
  lemma SameCallsKeep(cfg: Config, w: World, w': World)
    requires Inv(cfg, w) && Later(w, w') && LivesOk(cfg, w')
    requires w'.table == w.table && w'.issued == w.issued && w'.forgotten == w.forgotten
    requires w'.locked == w.locked && w'.calls == w.calls && |w'.jobs| == |w.jobs|
    requires forall i :: 0 <= i < |w.jobs| ==> w'.jobs[i].state.receivers == w.jobs[i].state.receivers
    ensures Inv(cfg, w')
  {
    SameLocks(w, w');
    ForgottenStable(cfg, w, w');
    AllCallsStable(cfg, w, w');
  }

  lemma SameLocks(w: World, w': World)
    requires TableOk(w) && LockOk(w) && SpawnOk(w) && ReceiversOk(w)
    requires w'.table == w.table && w'.issued == w.issued && w'.forgotten == w.forgotten
    requires w'.locked == w.locked && w'.calls == w.calls && |w'.jobs| == |w.jobs|
    requires forall i :: 0 <= i < |w.jobs| ==> w'.jobs[i].state.receivers == w.jobs[i].state.receivers
    ensures TableOk(w') && LockOk(w') && SpawnOk(w') && ReceiversOk(w')
  {
  }

  lemma TickLater(cfg: Config, w: World, elapsed: nat)
    requires LivesOk(cfg, w)
    ensures var w' := Step(cfg, w, Tick(elapsed)); LivesOk(cfg, w') && Later(w, w')
  {
  }

  lemma OnJobLater(cfg: Config, w: World, j: nat, a: JobAction)
    requires LivesOk(cfg, w) && j < |w.jobs|
    ensures var w' := Step(cfg, w, OnJob(j, a));
            && LivesOk(cfg, w') && Later(w, w')
            && (forall i :: 0 <= i < |w.jobs| ==> w'.jobs[i].state.receivers == w.jobs[i].state.receivers)
  {
    JobStepEvolves(cfg, w.jobs[j], w.now, a);
  }

  /** A call moves on without touching the table lock or the job it spawned. */
  lemma LocksStable(w: World, w': World, t: Caller, c: Call)
    requires LockOk(w) && SpawnOk(w) && |w.jobs| <= |w'.jobs|
    requires w'.calls == w.calls[t := c] && w'.locked == w.locked && w'.issued == w.issued
    requires !c.Reaping? && !c.SpawnedJob?
    requires t in w.calls ==> !w.calls[t].Reaping?
    ensures LockOk(w') && SpawnOk(w')
  {
  }

  lemma ReceiversEvolve(cfg: Config, job: Job, job': Job, now: nat)
    requires Lifecycle(cfg, job, now) && job' == job.(state := job.state.(receivers := job'.state.receivers))
    ensures Lifecycle(cfg, job', now) && Evolves(job, job', now)
  {
  }

  lemma MoveLater(cfg: Config, w: World, w': World, t: Caller, c: Call)
    requires LivesOk(cfg, w) && w' == MoveStep(w, t, c)
    ensures LivesOk(cfg, w') && Later(w, w')
  {
    forall j | 0 <= j < |w.jobs| ensures Lifecycle(cfg, w'.jobs[j], w.now) && Evolves(w.jobs[j], w'.jobs[j], w.now) {
      ReceiversEvolve(cfg, w.jobs[j], w'.jobs[j], w.now);
    }
  }

  lemma MoveReceivers(w: World, t: Caller, c: Call)
    requires ReceiversOk(w)
    ensures ReceiversOk(MoveStep(w, t, c))
  {
  }

  /** A call moves on; only its own receiver may come or go with it. */
  lemma MoveKeeps(cfg: Config, w: World, w': World, t: Caller, c: Call)
    requires Inv(cfg, w) && w' == MoveStep(w, t, c)
    requires CallOk(cfg, w, c) && !c.Reaping? && !c.SpawnedJob?
    requires t in w.calls ==> !w.calls[t].Reaping?
    ensures Inv(cfg, w') && Later(w, w')
  {
    MoveLater(cfg, w, w', t, c);
    LocksStable(w, w', t, c);
    ForgottenStable(cfg, w, w');
    MoveReceivers(w, t, c);
    MoveTable(w, w', t, c);
    MoveCalls(cfg, w, w', t, c);
  }

  lemma MoveTable(w: World, w': World, t: Caller, c: Call)
    requires TableOk(w) && w' == MoveStep(w, t, c)
    ensures TableOk(w')
  {
  }

  lemma MoveCalls(cfg: Config, w: World, w': World, t: Caller, c: Call)
    requires TableOk(w) && LockOk(w) && CallsOk(cfg, w) && Later(w, w') && w'.table == w.table
    requires w'.calls == w.calls[t := c] && CallOk(cfg, w, c) && !c.Reaping?
    ensures CallsOk(cfg, w')
  {
    CallStable(cfg, w, w', c);
    CallsStable(cfg, w, w', t);
  }

  /** A step that leaves its call where it is changes nothing at all. */
  lemma MoveToSelf(w: World, t: Caller)
    requires ReceiversOk(w) && t in w.calls
    ensures MoveStep(w, t, w.calls[t]) == w
  {
    var w' := MoveStep(w, t, w.calls[t]);
    assert w'.calls == w.calls;
    forall j | 0 <= j < |w.jobs| ensures w'.jobs[j] == w.jobs[j] {
      assert w'.jobs[j].state.receivers == w.jobs[j].state.receivers;
    }
  }

  lemma NextCallOk(cfg: Config, w: World, c: Call, a: CallAction)
    requires LivesOk(cfg, w) && TableOk(w) && CallOk(cfg, w, c)
    ensures CallOk(cfg, w, NextCall(w, c, a))
  {
    if c.WaitCalled? || c.PollCalled? || c.StopCalled? {
      LookupOk(cfg, w, c, a);
    } else if c.WaitGot? || c.WaitListening? || c.WaitLooked? || c.WaitParked? || c.WaitDraining? || c.WaitCopied? {
      WaitNextOk(cfg, w, c, a);
    } else {
      PollNextOk(cfg, w, c, a);
    }
  }

  lemma LookupOk(cfg: Config, w: World, c: Call, a: CallAction)
    requires TableOk(w) && (c.WaitCalled? || c.PollCalled? || c.StopCalled?)
    ensures CallOk(cfg, w, NextCall(w, c, a))
  {
  }

  lemma WaitNextOk(cfg: Config, w: World, c: Call, a: CallAction)
    requires LivesOk(cfg, w) && CallOk(cfg, w, c)
    requires c.WaitGot? || c.WaitListening? || c.WaitLooked? || c.WaitParked? || c.WaitDraining? || c.WaitCopied?
    ensures CallOk(cfg, w, NextCall(w, c, a))
  {
    assert c.job < |w.jobs|;
    assert Lifecycle(cfg, w.jobs[c.job], w.now);
    if w.jobs[c.job].exit.Some? {
      StatusReports(w.jobs[c.job].exit.value);
    }
  }

  lemma PollNextOk(cfg: Config, w: World, c: Call, a: CallAction)
    requires LivesOk(cfg, w) && CallOk(cfg, w, c) && !c.WaitCalled? && !c.PollCalled? && !c.StopCalled?
    requires !c.WaitGot? && !c.WaitListening? && !c.WaitLooked? && !c.WaitParked? && !c.WaitDraining? && !c.WaitCopied?
    ensures CallOk(cfg, w, NextCall(w, c, a))
  {
    if c.PollCopied? {
      assert c.job < |w.jobs|;
      assert Lifecycle(cfg, w.jobs[c.job], w.now);
      if w.jobs[c.job].exit.Some? {
        StatusReports(w.jobs[c.job].exit.value);
      }
    }
  }

  /** Only `start` sweeps and spawns. */
  lemma NextCallKind(w: World, c: Call, a: CallAction)
    ensures (c.Reaping? || c.SpawnedJob?) ==> NextCall(w, c, a) == c
    ensures !c.Reaping? && !c.SpawnedJob? ==> !NextCall(w, c, a).Reaping? && !NextCall(w, c, a).SpawnedJob?
  {
  }

  /** A call of `start` never holds a receiver. */
  lemma SilentReceivers(w: World, w': World, t: Caller)
    requires ReceiversOk(w) && t in w.calls && w'.jobs == w.jobs
    requires forall t' :: t' in w'.calls <==> t' in w.calls
    requires forall t' :: t' in w.calls && t' != t ==> w'.calls[t'] == w.calls[t']
    requires forall j :: 0 <= j < |w.jobs| ==> !Listens(w.calls[t], j) && !Listens(w'.calls[t], j)
    ensures ReceiversOk(w')
  {
  }

  lemma LaterSelf(w: World)
    ensures Later(w, w)
  {
  }

  /** A step of `start` that touches no job and no row. */
  lemma SameJobsLater(cfg: Config, w: World, w': World)
    requires LivesOk(cfg, w) && TableOk(w)
    requires w' == w.(calls := w'.calls, locked := w'.locked) && w.calls.Keys <= w'.calls.Keys
    ensures LivesOk(cfg, w') && TableOk(w') && Later(w, w')
  {
  }

  lemma ReapBeginKeeps(cfg: Config, w: World, w': World, t: Caller)
    requires Inv(cfg, w) && t in w.calls && w.calls[t] == Starting && w.locked.None?
    requires w' == At(w, t, Reaping(w.now, w.table.Keys)).(locked := Some(t))
    ensures Inv(cfg, w') && Later(w, w')
  {
    SameJobsLater(cfg, w, w');
    TakesLock(w, w', t);
    SilentReceivers(w, w', t);
    ForgottenStable(cfg, w, w');
    FreshSweepOk(cfg, w', w'.calls[t]);
    CallsStable(cfg, w, w', t);
  }

  /** A sweep has looked at nothing yet. */
  lemma FreshSweepOk(cfg: Config, w: World, c: Call)
    requires c == Reaping(w.now, w.table.Keys)
    ensures CallOk(cfg, w, c)
  {
  }

  lemma TakesLock(w: World, w': World, t: Caller)
    requires LockOk(w) && SpawnOk(w) && w.locked.None? && w'.jobs == w.jobs && w'.issued == w.issued
    requires t in w'.calls && w'.calls[t].Reaping? && w'.calls == w.calls[t := w'.calls[t]] && w'.locked == Some(t)
    ensures LockOk(w') && SpawnOk(w')
  {
  }

  lemma ReapEndKeeps(cfg: Config, w: World, w': World, t: Caller)
    requires Inv(cfg, w) && t in w.calls && w.calls[t].Reaping?
    requires w' == At(w, t, Reaped).(locked := None)
    ensures Inv(cfg, w') && Later(w, w')
  {
    SameJobsLater(cfg, w, w');
    DropsLock(w, w', t);
    SilentReceivers(w, w', t);
    ForgottenStable(cfg, w, w');
    CallsStable(cfg, w, w', t);
  }

  lemma DropsLock(w: World, w': World, t: Caller)
    requires LockOk(w) && SpawnOk(w) && t in w.calls && w.calls[t].Reaping?
    requires w'.calls == w.calls[t := Reaped] && w'.locked.None? && w'.jobs == w.jobs && w'.issued == w.issued
    ensures LockOk(w') && SpawnOk(w')
  {
  }

  /** One check of the sweep: what it drops has been finished long enough, what it
      keeps was unfinished or young. */
  lemma ReapCheckKeeps(cfg: Config, w: World, w': World, t: Caller, victim: Id)
    requires Inv(cfg, w) && t in w.calls && w.calls[t].Reaping? && victim in w.calls[t].pending
    requires w' == ReapCheckStep(cfg, w, t, victim)
    ensures Inv(cfg, w') && Later(w, w')
  {
    PendingKnown(cfg, w, t, victim);
    ReapCheckLater(cfg, w, t, victim);
    ReapCheckLocks(cfg, w, t, victim);
    ReapCheckTable(cfg, w, t, victim);
    ReapCheckCalls(cfg, w, w', t, victim);
  }

  lemma PendingKnown(cfg: Config, w: World, t: Caller, id: Id)
    requires CallsOk(cfg, w) && TableOk(w) && t in w.calls && w.calls[t].Reaping? && id in w.calls[t].pending
    ensures id in w.table && w.table[id] < |w.jobs|
  {
    assert CallOk(cfg, w, w.calls[t]);
  }

  lemma ReapCheckLater(cfg: Config, w: World, t: Caller, victim: Id)
    requires LivesOk(cfg, w)
    ensures var w' := ReapCheckStep(cfg, w, t, victim); LivesOk(cfg, w') && Later(w, w')
  {
  }

  lemma ReapCheckLocks(cfg: Config, w: World, t: Caller, victim: Id)
    requires LockOk(w) && SpawnOk(w) && ReceiversOk(w) && t in w.calls && w.calls[t].Reaping?
    ensures var w' := ReapCheckStep(cfg, w, t, victim); LockOk(w') && SpawnOk(w') && ReceiversOk(w')
  {
    var w' := ReapCheckStep(cfg, w, t, victim);
    ReapCheckShape(cfg, w, t, victim);
    KeepsLock(w, w', t);
    SilentReceivers(w, w', t);
  }

  lemma ReapCheckShape(cfg: Config, w: World, t: Caller, victim: Id)
    requires t in w.calls && w.calls[t].Reaping?
    ensures var w' := ReapCheckStep(cfg, w, t, victim);
            && w'.jobs == w.jobs && w'.issued == w.issued && w'.locked == w.locked
            && t in w'.calls && w'.calls[t].Reaping? && w'.calls == w.calls[t := w'.calls[t]]
  {
  }

  lemma KeepsLock(w: World, w': World, t: Caller)
    requires LockOk(w) && SpawnOk(w) && t in w.calls && w.calls[t].Reaping?
    requires w'.jobs == w.jobs && w'.issued == w.issued && w'.locked == w.locked
    requires t in w'.calls && w'.calls[t].Reaping? && w'.calls == w.calls[t := w'.calls[t]]
    ensures LockOk(w') && SpawnOk(w')
  {
  }

  lemma ReapCheckCalls(cfg: Config, w: World, w': World, t: Caller, victim: Id)
    requires TableOk(w) && LockOk(w) && CallsOk(cfg, w) && Later(w, w')
    requires t in w.calls && w.calls[t].Reaping? && victim in w.calls[t].pending
    requires w' == ReapCheckStep(cfg, w, t, victim)
    requires LivesOk(cfg, w)
    ensures CallsOk(cfg, w')
  {
    SweeperOk(cfg, w, w', t, victim);
    ReapCheckShape(cfg, w, t, victim);
    forall t' | t' in w'.calls ensures CallOk(cfg, w', w'.calls[t']) {
      if t' != t {
        assert !w.calls[t'].Reaping?;
        CallStable(cfg, w, w', w.calls[t']);
      }
    }
  }

  /** The sweep that made the check goes on knowing that what it kept is young. */
  lemma SweeperOk(cfg: Config, w: World, w': World, t: Caller, victim: Id)
    requires TableOk(w) && CallsOk(cfg, w) && LivesOk(cfg, w)
    requires t in w.calls && w.calls[t].Reaping? && victim in w.calls[t].pending
    requires w' == ReapCheckStep(cfg, w, t, victim)
    ensures t in w'.calls && CallOk(cfg, w', w'.calls[t])
  {
    var began, pending := w.calls[t].began, w.calls[t].pending;
    assert CallOk(cfg, w, w.calls[t]);
    assert Lifecycle(cfg, w.jobs[w.table[victim]], w.now);
    forall id | id in w'.table && id !in pending - {victim} && w'.table[id] < |w'.jobs|
      ensures YoungAt(w'.jobs[w'.table[id]], began, cfg.retention)
    {
      assert id != victim ==> id !in pending;
    }
  }

  lemma ReapCheckTable(cfg: Config, w: World, t: Caller, victim: Id)
    requires TableOk(w) && ForgottenOk(cfg, w)
    ensures var w' := ReapCheckStep(cfg, w, t, victim); TableOk(w') && ForgottenOk(cfg, w')
  {
    var w' := ReapCheckStep(cfg, w, t, victim);
    if w'.table != w.table {
      SweptTable(w, w', victim);
      SweptForgotten(cfg, w, w', victim);
    }
  }

  lemma SweptTable(w: World, w': World, victim: Id)
    requires TableOk(w) && victim in w.table && w'.jobs == w.jobs && w'.issued == w.issued
    requires w'.table == w.table - {victim} && w'.forgotten == w.forgotten[victim := w.now]
    ensures TableOk(w')
  {
  }

  lemma SweptForgotten(cfg: Config, w: World, w': World, victim: Id)
    requires TableOk(w) && ForgottenOk(cfg, w) && victim in w.table && w.table[victim] < |w.jobs|
    requires !Kept(w.jobs[w.table[victim]].state, w.now, cfg.retention)
    requires w'.jobs == w.jobs && w'.issued == w.issued && w'.now == w.now
    requires w'.forgotten == w.forgotten[victim := w.now]
    ensures ForgottenOk(cfg, w')
  {
  }

  lemma SpawnKeeps(cfg: Config, w: World, w': World, t: Caller, job: Job)
    requires Inv(cfg, w) && t in w.calls && w.calls[t] == Reaped
    requires Lifecycle(cfg, job, w.now) && job.state.receivers == {}
    requires w' == At(w, t, SpawnedJob(|w.jobs|)).(jobs := w.jobs + [job])
    ensures Inv(cfg, w') && Later(w, w')
  {
    SpawnLater(cfg, w, t, job);
    SpawnedOwner(w, w', t);
    SpawnReceivers(cfg, w, t, job);
    ForgottenStable(cfg, w, w');
    CallsStable(cfg, w, w', t);
  }

  lemma SpawnedOwner(w: World, w': World, t: Caller)
    requires TableOk(w) && LockOk(w) && SpawnOk(w) && t in w.calls && w.calls[t] == Reaped
    requires |w'.jobs| == |w.jobs| + 1 && w'.calls == w.calls[t := SpawnedJob(|w.jobs|)]
    requires w'.table == w.table && w'.issued == w.issued && w'.forgotten == w.forgotten && w'.locked == w.locked
    ensures TableOk(w') && LockOk(w') && SpawnOk(w')
  {
  }

  lemma SpawnLater(cfg: Config, w: World, t: Caller, job: Job)
    requires LivesOk(cfg, w) && Lifecycle(cfg, job, w.now)
    ensures var w' := At(w, t, SpawnedJob(|w.jobs|)).(jobs := w.jobs + [job]); LivesOk(cfg, w') && Later(w, w')
  {
  }

  lemma SpawnReceivers(cfg: Config, w: World, t: Caller, job: Job)
    requires ReceiversOk(w) && CallsOk(cfg, w) && t in w.calls && w.calls[t] == Reaped
    requires job.state.receivers == {}
    ensures ReceiversOk(At(w, t, SpawnedJob(|w.jobs|)).(jobs := w.jobs + [job]))
  {
    forall t' | t' in w.calls ensures !Listens(w.calls[t'], |w.jobs|) {
      assert CallOk(cfg, w, w.calls[t']);
    }
  }

  lemma InsertKeeps(cfg: Config, w: World, w': World, t: Caller, id: Id)
    requires Inv(cfg, w) && t in w.calls && w.calls[t].SpawnedJob? && w.locked.None? && id !in w.issued
    requires w' == InsertStep(w, t, id)
    ensures Inv(cfg, w') && Later(w, w')
  {
    assert Owns(w.calls[t]);
    InsertTable(w, t, id);
    InsertLater(cfg, w, t, id);
    SilentReceivers(w, w', t);
    ForgottenStable(cfg, w, w');
    InsertCalls(cfg, w, w', t, id);
  }

  lemma InsertCalls(cfg: Config, w: World, w': World, t: Caller, id: Id)
    requires TableOk(w) && LockOk(w) && CallsOk(cfg, w) && Later(w, w') && w.locked.None? && id in w'.issued
    requires w'.calls == w.calls[t := Started(id)]
    ensures CallsOk(cfg, w')
  {
    assert CallOk(cfg, w', Started(id));
    CallsStable(cfg, w, w', t);
  }

  lemma InsertLater(cfg: Config, w: World, t: Caller, id: Id)
    requires LivesOk(cfg, w)
    ensures var w' := InsertStep(w, t, id); LivesOk(cfg, w') && Later(w, w')
  {
  }

  lemma InsertTable(w: World, t: Caller, id: Id)
    requires TableOk(w) && SpawnOk(w) && LockOk(w)
    requires t in w.calls && Owns(w.calls[t]) && w.locked.None? && id !in w.issued
    ensures var w' := InsertStep(w, t, id); TableOk(w') && LockOk(w') && SpawnOk(w')
  {
    var w' := InsertStep(w, t, id);
    InsertedRow(w, w', id, w.calls[t].job);
    InsertedOwner(w, w', t, id);
  }

  lemma InsertedRow(w: World, w': World, id: Id, j: nat)
    requires TableOk(w) && id !in w.issued && j < |w.jobs| && w'.jobs == w.jobs && w'.forgotten == w.forgotten
    requires forall other :: other in w.issued ==> w.issued[other] != j
    requires w'.table == w.table[id := j] && w'.issued == w.issued[id := j]
    ensures TableOk(w')
  {
  }

  lemma InsertedOwner(w: World, w': World, t: Caller, id: Id)
    requires SpawnOk(w) && LockOk(w) && t in w.calls && Owns(w.calls[t]) && w.locked.None? && id !in w.issued
    requires w'.jobs == w.jobs && w'.locked == w.locked
    requires w'.calls == w.calls[t := Started(id)] && w'.issued == w.issued[id := w.calls[t].job]
    ensures SpawnOk(w') && LockOk(w')
  {
  }

  lemma StepKeeps(cfg: Config, w: World, a: Action)
    requires Inv(cfg, w)
    ensures Inv(cfg, Step(cfg, w, a)) && Later(w, Step(cfg, w, a))
  {
    match a
    case Tick(elapsed) =>
      TickLater(cfg, w, elapsed);
      SameCallsKeep(cfg, w, Step(cfg, w, a));
    case OnJob(j, step) =>
      if j < |w.jobs| {
        OnJobLater(cfg, w, j, step);
        SameCallsKeep(cfg, w, Step(cfg, w, a));
      }
    case OnCall(t, call) => CallerKeeps(cfg, w, t, call);
  }

  lemma CallerKeeps(cfg: Config, w: World, t: Caller, call: CallAction)
    requires Inv(cfg, w)
    ensures var w' := CallerStep(cfg, w, t, call); Inv(cfg, w') && Later(w, w')
  {
    if call.ReapBegin? || call.ReapCheck? || call.ReapEnd? {
      SweepKeeps(cfg, w, t, call);
    } else if call.Spawn? || call.Insert? {
      AdmitKeeps(cfg, w, t, call);
    } else {
      TalkKeeps(cfg, w, TalkStep(w, t, call), t, call);
    }
  }

  lemma MoveOnKeeps(cfg: Config, w: World, w': World, t: Caller, c: Call)
    requires Inv(cfg, w) && t in w.calls && w' == MoveStep(w, t, c) && CallOk(cfg, w, c)
    requires c == w.calls[t] || !(c.Reaping? || c.SpawnedJob? || w.calls[t].Reaping?)
    ensures Inv(cfg, w') && Later(w, w')
  {
    if c == w.calls[t] {
      MoveToSelf(w, t);
    } else {
      MoveKeeps(cfg, w, w', t, c);
    }
  }

  lemma TalkOnKeeps(cfg: Config, w: World, w': World, t: Caller, call: CallAction, c: Call)
    requires Inv(cfg, w) && t in w.calls && c == NextCall(w, w.calls[t], call) && w' == MoveStep(w, t, c)
    ensures Inv(cfg, w') && Later(w, w')
  {
    assert CallOk(cfg, w, w.calls[t]);
    NextCallOk(cfg, w, w.calls[t], call);
    NextCallKind(w, w.calls[t], call);
    MoveOnKeeps(cfg, w, w', t, c);
  }

  lemma TalkKeeps(cfg: Config, w: World, w': World, t: Caller, call: CallAction)
    requires Inv(cfg, w) && w' == TalkStep(w, t, call)
    ensures Inv(cfg, w') && Later(w, w')
  {
    if t in w.calls {
      TalkOnKeeps(cfg, w, w', t, call, NextCall(w, w.calls[t], call));
    } else if BeginCall(call).Some? {
      BeginKeeps(cfg, w, w', t, call, BeginCall(call).value);
    } else {
      LaterSelf(w);
    }
  }

  lemma BeginKeeps(cfg: Config, w: World, w': World, t: Caller, call: CallAction, c: Call)
    requires Inv(cfg, w) && t !in w.calls && BeginCall(call) == Some(c) && w' == MoveStep(w, t, c)
    ensures Inv(cfg, w') && Later(w, w')
  {
    assert CallOk(cfg, w, c);
    MoveKeeps(cfg, w, w', t, c);
  }

  lemma SweepKeeps(cfg: Config, w: World, t: Caller, call: CallAction)
    requires Inv(cfg, w) && (call.ReapBegin? || call.ReapCheck? || call.ReapEnd?)
    ensures var w' := CallerStep(cfg, w, t, call); Inv(cfg, w') && Later(w, w')
  {
    LaterSelf(w);
    match call
    case ReapBegin =>
      if t in w.calls && w.calls[t].Starting? && w.locked.None? {
        ReapBeginKeeps(cfg, w, ReapBeginStep(w, t), t);
      }
    case ReapCheck(victim) =>
      if t in w.calls && w.calls[t].Reaping? && victim in w.calls[t].pending {
        ReapCheckKeeps(cfg, w, ReapCheckStep(cfg, w, t, victim), t, victim);
      }
    case ReapEnd =>
      if t in w.calls && w.calls[t].Reaping? && w.calls[t].pending == {} {
        ReapEndKeeps(cfg, w, ReapEndStep(w, t), t);
      }
  }

  lemma AdmitKeeps(cfg: Config, w: World, t: Caller, call: CallAction)
    requires Inv(cfg, w) && (call.Spawn? || call.Insert?)
    ensures var w' := CallerStep(cfg, w, t, call); Inv(cfg, w') && Later(w, w')
  {
    LaterSelf(w);
    match call
    case Spawn(command, maxOutput, pid, stdout, stderr) =>
      if t in w.calls && w.calls[t].Reaped? {
        var job := Spawned(command, maxOutput, pid, stdout, stderr);
        SpawnKeeps(cfg, w, SpawnStep(w, t, job), t, job);
      }
    case Insert(id) =>
      if t in w.calls && w.calls[t].SpawnedJob? && w.locked.None? && id !in w.issued {
        InsertKeeps(cfg, w, InsertStep(w, t, id), t, id);
      }
  }

  /** Every run, whatever the interleaving, keeps the invariant and only adds to
      history. */
  lemma {:induction false} RunKeeps(cfg: Config, w: World, actions: seq<Action>)
    requires Inv(cfg, w)
    ensures Inv(cfg, Run(cfg, w, actions)) && Later(w, Run(cfg, w, actions))
    decreases |actions|
  {
    if actions != [] {
      var next := Step(cfg, w, actions[0]);
      StepKeeps(cfg, w, actions[0]);
      RunKeeps(cfg, next, actions[1..]);
      LaterTransitive(w, next, Run(cfg, w, actions));
    }
  }

  // ---- Runs put together and taken apart -------------------------------------

  lemma EmptyInv(cfg: Config)
    ensures Inv(cfg, EMPTY)
  {
  }

  /** `trace` lists the worlds that `actions` lead through. */
  ghost predicate Leads(cfg: Config, trace: seq<World>, actions: seq<Action>) {
    && |trace| == |actions| + 1
    && (forall i :: 0 <= i < |actions| ==> trace[i + 1] == Step(cfg, trace[i], actions[i]))
  }

  lemma {:induction false} RunOfTrace(cfg: Config, trace: seq<World>, actions: seq<Action>)
    requires Leads(cfg, trace, actions)
    ensures Run(cfg, trace[0], actions) == trace[|actions|]
    decreases |actions|
  {
    if actions != [] {
      RunOfTrace(cfg, trace[1..], actions[1..]);
    }
  }

  lemma {:induction false} RunConcat(cfg: Config, w: World, a: seq<Action>, b: seq<Action>)
    ensures Run(cfg, w, a + b) == Run(cfg, Run(cfg, w, a), b)
    decreases |a|
  {
    if a == [] {
      assert a + b == b;
    } else {
      assert (a + b)[1..] == a[1..] + b;
      RunConcat(cfg, Step(cfg, w, a[0]), a[1..], b);
    }
  }

  // ---- One step, seen from one call, one job, one id ------------------------

  /** A call of `start`, not finished yet. */
  predicate Starts(c: Call) {
    c.Starting? || c.Reaping? || c.Reaped? || c.SpawnedJob?
  }

  /** How a call may move in one step. */
  ghost predicate Moves(w: World, a: Action, t: Caller, c': Call) {
    if t !in w.calls then c'.Starting? || c'.WaitCalled? || c'.PollCalled? || c'.StopCalled?
    else
      || c' == w.calls[t]
      || (a.OnCall? && a.caller == t && c' == NextCall(w, w.calls[t], a.call))
      || (Starts(w.calls[t]) && (c'.Reaping? || c'.Reaped? || c'.SpawnedJob? || c'.Started?))
  }

  lemma TalkMoves(w: World, call: CallAction, u: Caller, t: Caller)
    ensures var w' := TalkStep(w, u, call);
            && (u != t ==> (t in w'.calls <==> t in w.calls) && (t in w.calls ==> w'.calls[t] == w.calls[t]))
            && (u == t && t in w'.calls ==> Moves(w, OnCall(t, call), t, w'.calls[t]))
            && w'.table == w.table
  {
  }

  lemma CallerMoves(cfg: Config, w: World, call: CallAction, u: Caller, t: Caller)
    ensures var w' := CallerStep(cfg, w, u, call);
            && (u != t ==> (t in w'.calls <==> t in w.calls) && (t in w.calls ==> w'.calls[t] == w.calls[t]))
            && (u == t && t in w'.calls ==> Moves(w, OnCall(t, call), t, w'.calls[t]))
            && (!call.ReapCheck? && !call.Insert? ==> w'.table == w.table)
  {
    match call
    case ReapBegin =>
    case ReapCheck(_) =>
    case ReapEnd =>
    case Spawn(_, _, _, _, _) =>
    case Insert(_) =>
    case _ => TalkMoves(w, call, u, t);
  }

  lemma CallAfterStep(cfg: Config, w: World, a: Action, t: Caller)
    ensures t in Step(cfg, w, a).calls ==> Moves(w, a, t, Step(cfg, w, a).calls[t])
  {
    if a.OnCall? {
      CallerMoves(cfg, w, a.call, a.caller, t);
    }
  }

  lemma JobAfterRun(cfg: Config, w: World, actions: seq<Action>, j: nat)
    requires Inv(cfg, w) && j < |w.jobs|
    ensures var w' := Run(cfg, w, actions);
            && j < |w'.jobs| && Evolves(w.jobs[j], w'.jobs[j], w.now)
            && Lifecycle(cfg, w'.jobs[j], w'.now)
  {
    RunKeeps(cfg, w, actions);
  }

  lemma IdAfterStep(cfg: Config, w: World, a: Action, id: Id)
    requires TableOk(w) && id in w.table
    ensures id in Step(cfg, w, a).table ==> Step(cfg, w, a).table[id] == w.table[id]
    ensures id !in Step(cfg, w, a).table ==>
              && a.OnCall? && a.call == ReapCheck(id) && w.table[id] < |w.jobs|
              && !Kept(w.jobs[w.table[id]].state, w.now, cfg.retention)
  {
    if a.OnCall? {
      CallerMoves(cfg, w, a.call, a.caller, a.caller);
    }
  }
}
