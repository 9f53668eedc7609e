/** Retention, the order of a job's life and its snapshots, over every run of the
    protocol. */
module JobTheorems {
  import opened Wrappers
  import opened Utf8
  import opened JobTable
  import opened JobProtocol
  import opened JobRuns

  // ---- Retention ------------------------------------------------------------

  /** In every reachable world an id that `start` returned resolves unless a sweep
      dropped it, and a sweep only drops a job whose finish lies at least the
      retention time back. */
  lemma Retention(cfg: Config, actions: seq<Action>, t: Caller, id: Id)
    requires var w := Run(cfg, EMPTY, actions); t in w.calls && w.calls[t] == Started(id)
    ensures var w := Run(cfg, EMPTY, actions);
            && id in w.issued && w.issued[id] < |w.jobs|
            && (id in w.table <==> id !in w.forgotten)
            && (id in w.table ==> w.table[id] == w.issued[id])
            && (var at := w.jobs[w.issued[id]].state.finishedAt;
                id in w.forgotten ==> at.Some? && at.value + cfg.retention <= w.forgotten[id] <= w.now)
  {
    EmptyInv(cfg);
    RunKeeps(cfg, EMPTY, actions);
    var w := Run(cfg, EMPTY, actions);
    assert CallOk(cfg, w, w.calls[t]);
  }

  /** The k-th step is a check by some `start` of an entry that has been finished
      for the retention time. */
  ghost predicate SweptAt(cfg: Config, w: World, actions: seq<Action>, k: nat, id: Id, j: nat) {
    && k < |actions|
    && actions[k].OnCall? && actions[k].call == ReapCheck(id)
    && (var before := Run(cfg, w, actions[..k]);
        && j < |before.jobs| && before.jobs[j].state.finishedAt.Some?
        && before.jobs[j].state.finishedAt.value + cfg.retention <= before.now)
  }

  /** Nothing but such a check ever makes a known id unknown: not time, not the
      job's own tasks, not other calls. */
  lemma {:induction false} LostOnlyBySweep(cfg: Config, w: World, actions: seq<Action>, id: Id)
    requires Inv(cfg, w) && id in w.table
    requires id !in Run(cfg, w, actions).table
    ensures exists k: nat :: SweptAt(cfg, w, actions, k, id, w.table[id])
    decreases |actions|
  {
    assert actions != [];
    var next, tail := Step(cfg, w, actions[0]), actions[1..];
    StepKeeps(cfg, w, actions[0]);
    IdAfterStep(cfg, w, actions[0], id);
    if id in next.table {
      LostOnlyBySweep(cfg, next, tail, id);
      var k: nat :| SweptAt(cfg, next, tail, k, id, next.table[id]);
      SweptLater(cfg, w, actions, k, id, w.table[id]);
    } else {
      assert Run(cfg, w, actions[..0]) == w;
      assert SweptAt(cfg, w, actions, 0, id, w.table[id]);
    }
  }

  lemma SweptLater(cfg: Config, w: World, actions: seq<Action>, k: nat, id: Id, j: nat)
    requires actions != [] && SweptAt(cfg, Step(cfg, w, actions[0]), actions[1..], k, id, j)
    ensures SweptAt(cfg, w, actions, k + 1, id, j)
  {
    var tail := actions[1..];
    assert actions[..k + 1][1..] == tail[..k];
    assert Run(cfg, w, actions[..k + 1]) == Run(cfg, Step(cfg, w, actions[0]), tail[..k]);
  }

  /** When a sweep has made its last check, no job is left in the table that had
      been finished for the retention time when the sweep began. */
  lemma SweepIsThorough(cfg: Config, actions: seq<Action>, t: Caller)
    requires var w := Run(cfg, EMPTY, actions); t in w.calls && w.calls[t].Reaping? && w.calls[t].pending == {}
    ensures var w := Run(cfg, EMPTY, actions);
            forall id :: id in w.table ==>
              w.table[id] < |w.jobs| && YoungAt(w.jobs[w.table[id]], w.calls[t].began, cfg.retention)
  {
    EmptyInv(cfg);
    RunKeeps(cfg, EMPTY, actions);
    var w := Run(cfg, EMPTY, actions);
    assert CallOk(cfg, w, w.calls[t]);
  }

  // ---- A job's life -----------------------------------------------------------

  /** Every answer of a `wait` or a `poll` that reports an end reports the real
      one, in every reachable world. */
  lemma AnswersAreTrue(cfg: Config, actions: seq<Action>, t: Caller)
    requires t in Run(cfg, EMPTY, actions).calls
    ensures var w := Run(cfg, EMPTY, actions);
            match w.calls[t]
            case WaitDone(j, answer) =>
              j < |w.jobs| && (answer.Some? ==> w.jobs[j].state.done && TrueAnswer(w.jobs[j], answer.value))
            case PollDone(j, shown) =>
              j < |w.jobs| && (shown.status != Running ==> TrueAnswer(w.jobs[j], shown))
            case _ => true
  {
    EmptyInv(cfg);
    RunKeeps(cfg, EMPTY, actions);
    var w := Run(cfg, EMPTY, actions);
    assert CallOk(cfg, w, w.calls[t]);
  }

  /** The order of a job's life in every reachable world, and what the rest of any
      run does to it: done comes after a finish time, a finish time after a terminal
      status, and a terminal status is how the process ended and stays. */
  lemma LifeOfJob(cfg: Config, before: seq<Action>, after: seq<Action>, j: nat)
    requires j < |Run(cfg, EMPTY, before).jobs|
    ensures var w := Run(cfg, EMPTY, before);
            var w' := Run(cfg, w, after);
            var early := w.jobs[j];
            && (early.state.done ==> early.state.finishedAt.Some?)
            && (early.state.finishedAt.Some? ==> early.state.status != Running && early.state.finishedAt.value <= w.now)
            && (early.state.status != Running ==> early.exit.Some? && Reports(early.state.status, early.exit.value))
            && j < |w'.jobs|
            && (early.state.status != Running ==> w'.jobs[j].state.status == early.state.status)
            && (early.state.finishedAt.Some? ==> w'.jobs[j].state.finishedAt == early.state.finishedAt)
            && (early.state.done ==> w'.jobs[j].state.done)
            && early.state.output <= w'.jobs[j].state.output
  {
    EmptyInv(cfg);
    RunKeeps(cfg, EMPTY, before);
    var w := Run(cfg, EMPTY, before);
    assert Lifecycle(cfg, w.jobs[j], w.now);
    if w.jobs[j].exit.Some? {
      StatusReports(w.jobs[j].exit.value);
    }
    JobAfterRun(cfg, w, after, j);
  }

  // ---- Snapshots and stop ---------------------------------------------------

  /** The snapshot of job `j` that a `wait` or a `poll` has answered with. */
  function SnapshotOf(c: Call, j: nat): Option<Finished> {
    match c
    case PollDone(j', shown) => if j' == j then Some(shown) else None
    case WaitDone(j', answer) => if j' == j then answer else None
    case _ => None
  }

  /** The call has not copied anything of job `j` yet. */
  predicate NothingCopied(w: World, t: Caller, j: nat) {
    t !in w.calls ||
    match w.calls[t]
    case PollCopied(j', _) => j' != j
    case WaitCopied(j', _) => j' != j
    case c => SnapshotOf(c, j).None?
  }

  predicate ShowsAtLeast(seen: Finished, shown: Finished) {
    seen.output <= shown.output && (seen.status != Running ==> shown.status == seen.status)
  }

  /** What call `t` shows of job `j` is no older than `seen`. */
  ghost predicate NoOlder(w: World, t: Caller, j: nat, seen: Finished) {
    && j < |w.jobs| && seen.output <= w.jobs[j].state.output
    && (seen.status != Running ==> w.jobs[j].waiter > 0 && w.jobs[j].state.status == seen.status)
    && (t in w.calls ==>
      match w.calls[t]
      case PollCopied(j', output) => j' == j ==> seen.output <= output
      case WaitCopied(j', output) => j' == j ==> seen.output <= output
      case c => SnapshotOf(c, j).Some? ==> ShowsAtLeast(seen, SnapshotOf(c, j).value))
  }

  lemma StepNoOlder(w: World, a: Action, w': World, t: Caller, j: nat, seen: Finished)
    requires NoOlder(w, t, j, seen)
    requires j < |w'.jobs| && Evolves(w.jobs[j], w'.jobs[j], w.now)
    requires t in w'.calls ==> Moves(w, a, t, w'.calls[t])
    ensures NoOlder(w', t, j, seen)
  {
  }

  lemma {:induction false} RunNoOlder(
      cfg: Config, w: World, actions: seq<Action>, t: Caller, j: nat, seen: Finished)
    requires Inv(cfg, w) && NoOlder(w, t, j, seen)
    ensures NoOlder(Run(cfg, w, actions), t, j, seen)
    decreases |actions|
  {
    if actions != [] {
      var next := Step(cfg, w, actions[0]);
      StepKeeps(cfg, w, actions[0]);
      CallAfterStep(cfg, w, actions[0], t);
      StepNoOlder(w, actions[0], next, t, j, seen);
      RunNoOlder(cfg, next, actions[1..], t, j, seen);
    }
  }

  /** An answer of a `wait` or a `poll` is what the job showed while the call ran: all
      the output it had when the call had copied nothing yet, no byte it does not have
      now, and an end if it had ended then. */
  lemma SnapshotIsCurrent(cfg: Config, before: seq<Action>, after: seq<Action>, t: Caller, j: nat)
    requires var w := Run(cfg, EMPTY, before); j < |w.jobs| && NothingCopied(w, t, j)
    requires var w := Run(cfg, Run(cfg, EMPTY, before), after); t in w.calls && SnapshotOf(w.calls[t], j).Some?
    ensures var w := Run(cfg, EMPTY, before);
            var end := Run(cfg, w, after);
            var f := SnapshotOf(end.calls[t], j).value;
            && w.jobs[j].state.output <= f.output
            && j < |end.jobs| && f.output <= end.jobs[j].state.output
            && (w.jobs[j].state.status != Running ==> f.status == w.jobs[j].state.status)
            && (f.status != Running ==> f.status == end.jobs[j].state.status)
  {
    EmptyInv(cfg);
    RunKeeps(cfg, EMPTY, before);
    var w := Run(cfg, EMPTY, before);
    assert Lifecycle(cfg, w.jobs[j], w.now);
    RunNoOlder(cfg, w, after, t, j, Finished(w.jobs[j].state.status, w.jobs[j].state.output));
    RunKeeps(cfg, w, after);
    var end := Run(cfg, w, after);
    assert CallOk(cfg, end, end.calls[t]);
    SnapshotIsTrue(cfg, end, end.calls[t], j);
  }

  /** Any two answers about a job, each from a `wait` or a `poll`: if the second
      call had copied nothing when the first was answered, it shows at least as much.
      Its output starts with the earlier one's, and an end once reported stays. */
  lemma SnapshotsOnlyGrow(
      cfg: Config, before: seq<Action>, after: seq<Action>, first: Caller, second: Caller, j: nat)
    requires var w := Run(cfg, EMPTY, before);
             first in w.calls && SnapshotOf(w.calls[first], j).Some? && NothingCopied(w, second, j)
    requires var w := Run(cfg, Run(cfg, EMPTY, before), after);
             second in w.calls && SnapshotOf(w.calls[second], j).Some?
    ensures var early := SnapshotOf(Run(cfg, EMPTY, before).calls[first], j).value;
            var late := SnapshotOf(Run(cfg, Run(cfg, EMPTY, before), after).calls[second], j).value;
            ShowsAtLeast(early, late)
  {
    EmptyInv(cfg);
    RunKeeps(cfg, EMPTY, before);
    var w := Run(cfg, EMPTY, before);
    assert CallOk(cfg, w, w.calls[first]);
    var early := SnapshotOf(w.calls[first], j).value;
    SnapshotIsTrue(cfg, w, w.calls[first], j);
    RunNoOlder(cfg, w, after, second, j, early);
    var end := Run(cfg, w, after);
    assert NoOlder(end, second, j, early);
  }

  lemma SnapshotIsTrue(cfg: Config, w: World, c: Call, j: nat)
    requires LivesOk(cfg, w) && CallOk(cfg, w, c) && SnapshotOf(c, j).Some?
    ensures var seen := SnapshotOf(c, j).value;
            && j < |w.jobs| && seen.output <= w.jobs[j].state.output
            && (seen.status != Running ==> w.jobs[j].waiter > 0 && w.jobs[j].state.status == seen.status)
  {
    assert j < |w.jobs|;
    assert Lifecycle(cfg, w.jobs[j], w.now);
  }

  ghost predicate NotSignalled(w: World, t: Caller, j: nat) {
    j < |w.jobs| && w.jobs[j].waiter > 0 && w.jobs[j].state.status != Running
    && (t in w.calls ==> w.calls[t] != StopDone(j, true))
  }

  lemma {:induction false} RunNotSignalled(cfg: Config, w: World, actions: seq<Action>, t: Caller, j: nat)
    requires Inv(cfg, w) && NotSignalled(w, t, j)
    ensures NotSignalled(Run(cfg, w, actions), t, j)
    decreases |actions|
  {
    if actions != [] {
      var next := Step(cfg, w, actions[0]);
      StepKeeps(cfg, w, actions[0]);
      CallAfterStep(cfg, w, actions[0], t);
      StepNotSignalled(w, actions[0], next, t, j);
      RunNotSignalled(cfg, next, actions[1..], t, j);
    }
  }

  lemma StepNotSignalled(w: World, a: Action, w': World, t: Caller, j: nat)
    requires NotSignalled(w, t, j)
    requires j < |w'.jobs| && Evolves(w.jobs[j], w'.jobs[j], w.now)
    requires t in w'.calls ==> Moves(w, a, t, w'.calls[t])
    ensures NotSignalled(w', t, j)
  {
  }

  /** Once the status is terminal no `stop` that has not looked yet signals
      anything. */
  lemma StopAfterTheEnd(cfg: Config, before: seq<Action>, after: seq<Action>, t: Caller, j: nat)
    requires var w := Run(cfg, EMPTY, before);
             j < |w.jobs| && w.jobs[j].waiter > 0 && (t in w.calls ==> !w.calls[t].StopDone?)
    ensures var w := Run(cfg, Run(cfg, EMPTY, before), after);
            t in w.calls ==> w.calls[t] != StopDone(j, true)
  {
    EmptyInv(cfg);
    RunKeeps(cfg, EMPTY, before);
    var w := Run(cfg, EMPTY, before);
    assert Lifecycle(cfg, w.jobs[j], w.now);
    RunNotSignalled(cfg, w, after, t, j);
  }

  /** A `stop` that has found its job signals it exactly if the end of the process has
      not been recorded and there is a pid. */
  lemma StopExact(cfg: Config, actions: seq<Action>, t: Caller, j: nat)
    requires var w := Run(cfg, EMPTY, actions); t in w.calls && w.calls[t] == StopGot(j)
    ensures var w := Run(cfg, EMPTY, actions);
            && j < |w.jobs|
            && Step(cfg, w, OnCall(t, Signal)).calls[t] ==
               StopDone(j, w.jobs[j].waiter == 0 && w.jobs[j].state.pid.Some?)
  {
    EmptyInv(cfg);
    RunKeeps(cfg, EMPTY, actions);
    var w := Run(cfg, EMPTY, actions);
    assert CallOk(cfg, w, w.calls[t]);
    assert Lifecycle(cfg, w.jobs[j], w.now);
    StopGives(cfg, w, t, j);
  }

  lemma StopGives(cfg: Config, w: World, t: Caller, j: nat)
    requires t in w.calls && w.calls[t] == StopGot(j) && j < |w.jobs| && Lifecycle(cfg, w.jobs[j], w.now)
    ensures Step(cfg, w, OnCall(t, Signal)).calls[t] ==
            StopDone(j, w.jobs[j].waiter == 0 && w.jobs[j].state.pid.Some?)
  {
    TalkGives(cfg, w, t, Signal);
  }

  // ---- Ids and jobs ---------------------------------------------------------

  /** What `start` was asked for is what its job is, at once and in every later world. */
  lemma StartedJob(
      cfg: Config, before: seq<Action>, after: seq<Action>, t: Caller,
      command: string, maxOutput: nat, pid: Option<nat>, stdout: seq<Byte>, stderr: seq<Byte>)
    requires var w := Run(cfg, EMPTY, before); t in w.calls && w.calls[t] == Reaped
    ensures var w := Run(cfg, EMPTY, before);
            var j := |w.jobs|;
            var started := Step(cfg, w, OnCall(t, Spawn(command, maxOutput, pid, stdout, stderr)));
            var end := Run(cfg, started, after);
            && t in started.calls && started.calls[t] == SpawnedJob(j) && j < |started.jobs|
            && started.jobs[j].state.output == [] && started.jobs[j].state.status == Running
            && j < |end.jobs|
            && end.jobs[j].state.command == command && end.jobs[j].state.pid == pid
            && end.jobs[j].maxOutput == maxOutput && end.jobs[j].stdout == stdout && end.jobs[j].stderr == stderr
  {
    EmptyInv(cfg);
    RunKeeps(cfg, EMPTY, before);
    var w := Run(cfg, EMPTY, before);
    var a := OnCall(t, Spawn(command, maxOutput, pid, stdout, stderr));
    var started := Step(cfg, w, a);
    SpawnGives(cfg, w, started, t, command, maxOutput, pid, stdout, stderr);
    StepKeeps(cfg, w, a);
    JobStays(cfg, started, after, |w.jobs|);
  }

  lemma SpawnGives(
      cfg: Config, w: World, w': World, t: Caller,
      command: string, maxOutput: nat, pid: Option<nat>, stdout: seq<Byte>, stderr: seq<Byte>)
    requires t in w.calls && w.calls[t] == Reaped
    requires w' == Step(cfg, w, OnCall(t, Spawn(command, maxOutput, pid, stdout, stderr)))
    ensures t in w'.calls && w'.calls[t] == SpawnedJob(|w.jobs|) && |w'.jobs| == |w.jobs| + 1
    ensures var job := w'.jobs[|w.jobs|];
            && job.state.command == command && job.state.pid == pid
            && job.state.output == [] && job.state.status == Running
            && job.maxOutput == maxOutput && job.stdout == stdout && job.stderr == stderr
  {
  }

  /** What a job was started with stays. */
  lemma JobStays(cfg: Config, w: World, actions: seq<Action>, j: nat)
    requires Inv(cfg, w) && j < |w.jobs|
    ensures var w' := Run(cfg, w, actions);
            && j < |w'.jobs|
            && w'.jobs[j].state.command == w.jobs[j].state.command && w'.jobs[j].state.pid == w.jobs[j].state.pid
            && w'.jobs[j].maxOutput == w.jobs[j].maxOutput
            && w'.jobs[j].stdout == w.jobs[j].stdout && w'.jobs[j].stderr == w.jobs[j].stderr
  {
    JobAfterRun(cfg, w, actions, j);
  }

  /** The id that `start` hands out is that of its job, now and in every later world. */
  lemma InsertedId(cfg: Config, before: seq<Action>, after: seq<Action>, t: Caller, j: nat, id: Id)
    requires var w := Run(cfg, EMPTY, before);
             t in w.calls && w.calls[t] == SpawnedJob(j) && w.locked.None? && id !in w.issued
    ensures var inserted := Step(cfg, Run(cfg, EMPTY, before), OnCall(t, Insert(id)));
            var end := Run(cfg, inserted, after);
            && t in inserted.calls && inserted.calls[t] == Started(id)
            && id in inserted.table && inserted.table[id] == j
            && id in end.issued && end.issued[id] == j
  {
    EmptyInv(cfg);
    RunKeeps(cfg, EMPTY, before);
    var w := Run(cfg, EMPTY, before);
    var inserted := Step(cfg, w, OnCall(t, Insert(id)));
    InsertGives(cfg, w, inserted, t, j, id);
    StepKeeps(cfg, w, OnCall(t, Insert(id)));
    IssuedStays(cfg, inserted, after, id);
  }

  lemma InsertGives(cfg: Config, w: World, w': World, t: Caller, j: nat, id: Id)
    requires t in w.calls && w.calls[t] == SpawnedJob(j) && w.locked.None? && id !in w.issued
    requires w' == Step(cfg, w, OnCall(t, Insert(id)))
    ensures t in w'.calls && w'.calls[t] == Started(id)
    ensures id in w'.table && w'.table[id] == j && id in w'.issued && w'.issued[id] == j
  {
  }

  lemma IssuedStays(cfg: Config, w: World, actions: seq<Action>, id: Id)
    requires Inv(cfg, w) && id in w.issued
    ensures var end := Run(cfg, w, actions); id in end.issued && end.issued[id] == w.issued[id]
  {
    RunKeeps(cfg, w, actions);
  }

  /** The job that a `wait`, `poll` or `stop` has found. */
  function JobOf(c: Call): Option<nat> {
    match c
    case WaitGot(j) => Some(j)
    case WaitListening(j) => Some(j)
    case WaitLooked(j) => Some(j)
    case WaitParked(j) => Some(j)
    case WaitDraining(j) => Some(j)
    case WaitCopied(j, _) => Some(j)
    case WaitDone(j, _) => Some(j)
    case PollGot(j) => Some(j)
    case PollCopied(j, _) => Some(j)
    case PollDone(j, _) => Some(j)
    case StopGot(j) => Some(j)
    case StopDone(j, _) => Some(j)
    case _ => None
  }

  predicate Asks(c: Call, id: Id) {
    c == WaitCalled(id) || c == PollCalled(id) || c == StopCalled(id)
  }

  /** The call is about `id` still, and if it has found a job it is that of `id`. */
  ghost predicate AboutId(w: World, c: Call, id: Id) {
    || Asks(c, id) || c == NoSuchId(id) || c == Cancelled
    || (JobOf(c).Some? && id in w.issued && w.issued[id] == JobOf(c).value)
  }

  ghost predicate About(w: World, t: Caller, id: Id) {
    t in w.calls && AboutId(w, w.calls[t], id)
  }

  lemma NextAbout(w: World, c: Call, a: CallAction, id: Id)
    requires TableOk(w) && AboutId(w, c, id)
    ensures AboutId(w, NextCall(w, c, a), id)
  {
  }

  lemma StepAbout(w: World, a: Action, w': World, t: Caller, id: Id)
    requires TableOk(w) && About(w, t, id) && Later(w, w')
    requires t in w'.calls ==> Moves(w, a, t, w'.calls[t])
    ensures About(w', t, id)
  {
    if a.OnCall? {
      NextAbout(w, w.calls[t], a.call, id);
    }
    assert AboutId(w, w'.calls[t], id);
  }

  lemma {:induction false} RunAbout(cfg: Config, w: World, actions: seq<Action>, t: Caller, id: Id)
    requires Inv(cfg, w) && About(w, t, id)
    ensures About(Run(cfg, w, actions), t, id)
    decreases |actions|
  {
    if actions != [] {
      var next := Step(cfg, w, actions[0]);
      StepKeeps(cfg, w, actions[0]);
      CallAfterStep(cfg, w, actions[0], t);
      StepAbout(w, actions[0], next, t, id);
      RunAbout(cfg, next, actions[1..], t, id);
    }
  }

  /** A call that asks for an id is only ever answered about the job of that id. */
  lemma AnswersAreAboutTheId(cfg: Config, before: seq<Action>, after: seq<Action>, t: Caller, id: Id)
    requires var w := Run(cfg, EMPTY, before); t in w.calls && Asks(w.calls[t], id)
    ensures About(Run(cfg, Run(cfg, EMPTY, before), after), t, id)
  {
    EmptyInv(cfg);
    RunKeeps(cfg, EMPTY, before);
    RunAbout(cfg, Run(cfg, EMPTY, before), after, t, id);
  }

  /** Looking an id up finds its job exactly while it is in the table. */
  lemma LookupExact(cfg: Config, actions: seq<Action>, t: Caller, id: Id)
    requires var w := Run(cfg, EMPTY, actions); t in w.calls && Asks(w.calls[t], id) && w.locked.None?
    ensures var w := Run(cfg, EMPTY, actions);
            var c := Step(cfg, w, OnCall(t, Lookup)).calls[t];
            && (id !in w.table ==> c == NoSuchId(id))
            && (id in w.table ==>
                  && id in w.issued
                  && c == (match w.calls[t]
                           case WaitCalled(_) => WaitGot(w.issued[id])
                           case PollCalled(_) => PollGot(w.issued[id])
                           case _ => StopGot(w.issued[id])))
  {
    EmptyInv(cfg);
    RunKeeps(cfg, EMPTY, actions);
    LookupGives(cfg, Run(cfg, EMPTY, actions), t, id);
  }

  lemma LookupGives(cfg: Config, w: World, t: Caller, id: Id)
    requires TableOk(w) && t in w.calls && Asks(w.calls[t], id) && w.locked.None?
    ensures var c := Step(cfg, w, OnCall(t, Lookup)).calls[t];
            && (id !in w.table ==> c == NoSuchId(id))
            && (id in w.table ==>
                  && id in w.issued
                  && c == (match w.calls[t]
                           case WaitCalled(_) => WaitGot(w.issued[id])
                           case PollCalled(_) => PollGot(w.issued[id])
                           case _ => StopGot(w.issued[id])))
  {
    TalkGives(cfg, w, t, Lookup);
  }

  lemma TalkGives(cfg: Config, w: World, t: Caller, call: CallAction)
    requires t in w.calls && (call.Lookup? || call.Signal?)
    ensures var w' := Step(cfg, w, OnCall(t, call)); t in w'.calls && w'.calls[t] == NextCall(w, w.calls[t], call)
  {
  }
}
