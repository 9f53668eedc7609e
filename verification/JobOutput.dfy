/** What a job puts out, over every run: nothing read is lost, and reading goes on
    when the buffer is full. */
module JobOutput {
  import opened Wrappers
  import opened Utf8
  import opened JobTable
  import opened JobProtocol
  import opened JobRuns

  ghost predicate JobsOk(cfg: Config, w: World) {
    forall j :: 0 <= j < |w.jobs| ==> JobInv(cfg, w.jobs[j], w.now)
  }

  /** Neither the receivers nor the passing of time matter to it. */
  lemma JobInvElsewhere(cfg: Config, job: Job, now: nat, receivers: set<Caller>, now': nat)
    requires JobInv(cfg, job, now) && now <= now'
    ensures JobInv(cfg, job.(state := job.state.(receivers := receivers)), now')
  {
    var job' := job.(state := job.state.(receivers := receivers));
    assert job'.out == job.out && job'.err == job.err && job'.log == job.log;
  }

  lemma MoveKeepsJobs(cfg: Config, w: World, t: Caller, c: Call)
    requires JobsOk(cfg, w)
    ensures JobsOk(cfg, MoveStep(w, t, c))
  {
    var w' := MoveStep(w, t, c);
    forall j | 0 <= j < |w'.jobs| ensures JobInv(cfg, w'.jobs[j], w'.now) {
      JobInvElsewhere(cfg, w.jobs[j], w.now, w'.jobs[j].state.receivers, w.now);
    }
  }

  lemma TickKeepsJobs(cfg: Config, w: World, elapsed: nat)
    requires JobsOk(cfg, w)
    ensures JobsOk(cfg, w.(now := w.now + elapsed))
  {
    forall j | 0 <= j < |w.jobs| ensures JobInv(cfg, w.jobs[j], w.now + elapsed) {
      JobInvElsewhere(cfg, w.jobs[j], w.now, w.jobs[j].state.receivers, w.now + elapsed);
    }
  }

  lemma StepKeepsJobs(cfg: Config, w: World, a: Action)
    requires JobsOk(cfg, w)
    ensures JobsOk(cfg, Step(cfg, w, a))
  {
    match a
    case Tick(elapsed) => TickKeepsJobs(cfg, w, elapsed);
    case OnJob(j, step) =>
      if j < |w.jobs| {
        TaskKeepsJobs(cfg, w, j, JobStep(cfg, w.jobs[j], w.now, step), step);
      }
    case OnCall(t, call) => CallerKeepsJobs(cfg, w, t, call);
  }

  lemma TaskKeepsJobs(cfg: Config, w: World, j: nat, job: Job, step: JobAction)
    requires JobsOk(cfg, w) && j < |w.jobs| && job == JobStep(cfg, w.jobs[j], w.now, step)
    ensures JobsOk(cfg, WithJob(w, j, job))
  {
    JobStepKeepsInv(cfg, w.jobs[j], w.now, step);
  }

  lemma CallerKeepsJobs(cfg: Config, w: World, t: Caller, call: CallAction)
    requires JobsOk(cfg, w)
    ensures JobsOk(cfg, CallerStep(cfg, w, t, call))
  {
    match call
    case ReapBegin => SameJobsOk(cfg, w, ReapBeginStep(w, t));
    case ReapCheck(victim) => SameJobsOk(cfg, w, ReapCheckStep(cfg, w, t, victim));
    case ReapEnd => SameJobsOk(cfg, w, ReapEndStep(w, t));
    case Spawn(command, maxOutput, pid, stdout, stderr) =>
      SpawnedInv(cfg, command, maxOutput, pid, stdout, stderr, w.now);
      SpawnKeepsJobs(cfg, w, t, Spawned(command, maxOutput, pid, stdout, stderr));
    case Insert(id) => SameJobsOk(cfg, w, InsertStep(w, t, id));
    case _ => TalkKeepsJobs(cfg, w, t, call);
  }

  lemma SameJobsOk(cfg: Config, w: World, w': World)
    requires JobsOk(cfg, w) && w'.jobs == w.jobs && w'.now == w.now
    ensures JobsOk(cfg, w')
  {
  }

  lemma SpawnKeepsJobs(cfg: Config, w: World, t: Caller, job: Job)
    requires JobsOk(cfg, w) && JobInv(cfg, job, w.now)
    ensures JobsOk(cfg, SpawnStep(w, t, job))
  {
  }

  lemma TalkKeepsJobs(cfg: Config, w: World, t: Caller, call: CallAction)
    requires JobsOk(cfg, w)
    ensures JobsOk(cfg, TalkStep(w, t, call))
  {
    if t in w.calls {
      MoveKeepsJobs(cfg, w, t, NextCall(w, w.calls[t], call));
    } else if BeginCall(call).Some? {
      MoveKeepsJobs(cfg, w, t, BeginCall(call).value);
    }
  }

  lemma {:induction false} RunKeepsJobs(cfg: Config, w: World, actions: seq<Action>)
    requires JobsOk(cfg, w)
    ensures JobsOk(cfg, Run(cfg, w, actions))
    decreases |actions|
  {
    if actions != [] {
      StepKeepsJobs(cfg, w, actions[0]);
      RunKeepsJobs(cfg, Step(cfg, w, actions[0]), actions[1..]);
    }
  }

  /** The bytes of `bytes` whose tag is `source`, in order. */
  function Picked(bytes: seq<Byte>, tags: seq<Source>, source: Source): seq<Byte>
    requires |tags| == |bytes|
  {
    if bytes == [] then []
    else
      var n := |bytes| - 1;
      Picked(bytes[..n], tags[..n], source) + if tags[n] == source then [bytes[n]] else []
  }

  /** `merged` is `a` and `b` shuffled together, each in its own order. */
  ghost predicate Interleaves(merged: seq<Byte>, a: seq<Byte>, b: seq<Byte>) {
    exists tags: seq<Source> ::
      |tags| == |merged| && Picked(merged, tags, Stdout) == a && Picked(merged, tags, Stderr) == b
  }

  lemma {:induction false} PickedConcat(a: seq<Byte>, s: seq<Source>, b: seq<Byte>, t: seq<Source>, source: Source)
    requires |a| == |s| && |b| == |t|
    ensures Picked(a + b, s + t, source) == Picked(a, s, source) + Picked(b, t, source)
    decreases |b|
  {
    if b == [] {
      assert a + b == a && s + t == s;
    } else {
      var n := |b| - 1;
      assert (a + b)[..|a| + n] == a + b[..n] && (s + t)[..|s| + n] == s + t[..n];
      PickedConcat(a, s, b[..n], t[..n], source);
    }
  }

  lemma {:induction false} PickedUniform(b: seq<Byte>, t: seq<Source>, all: Source, source: Source)
    requires |b| == |t| && forall i :: 0 <= i < |t| ==> t[i] == all
    ensures Picked(b, t, source) == if source == all then b else []
    decreases |b|
  {
    if b != [] {
      PickedUniform(b[..|b| - 1], t[..|b| - 1], all, source);
      assert b[..|b| - 1] + [b[|b| - 1]] == b;
    }
  }

  /** Which stream each logged byte came from. */
  function Tags(log: seq<Chunk>): (tags: seq<Source>)
    ensures |tags| == |Bytes(log)|
  {
    if log == [] then []
    else
      var last := log[|log| - 1];
      Tags(log[..|log| - 1]) + seq(|last.bytes|, _ => last.source)
  }

  lemma {:induction false} TagsPick(log: seq<Chunk>, source: Source)
    ensures Picked(Bytes(log), Tags(log), source) == BytesFrom(log, source)
    decreases |log|
  {
    if log != [] {
      var init, last := log[..|log| - 1], log[|log| - 1];
      var t := seq(|last.bytes|, _ => last.source);
      TagsPick(init, source);
      PickedConcat(Bytes(init), Tags(init), last.bytes, t, source);
      PickedUniform(last.bytes, t, last.source, source);
    }
  }

  /** What a job has put out after any run: the first `maxOutput` bytes of the
      chunks in lock order, which shuffle a prefix of stdout with a prefix of
      stderr and lose nothing while there is room. A stream read to its end is in
      the log whole; `StreamReadToItsEnd` says that this end can always be reached. */
  lemma OutputOfRun(cfg: Config, actions: seq<Action>, j: nat) returns (fromOut: seq<Byte>, fromErr: seq<Byte>)
    requires j < |Run(cfg, EMPTY, actions).jobs|
    ensures var job := Run(cfg, EMPTY, actions).jobs[j];
            && job.state.output == Capped(Bytes(job.log), job.maxOutput)
            && fromOut <= job.stdout && fromErr <= job.stderr
            && Interleaves(job.state.output, fromOut, fromErr)
            && (job.out.at.AtEof? ==> BytesFrom(job.log, Stdout) == job.stdout)
            && (job.err.at.AtEof? ==> BytesFrom(job.log, Stderr) == job.stderr)
            && (job.out.at.AtEof? && job.err.at.AtEof? && |Bytes(job.log)| <= job.maxOutput ==>
                  fromOut == job.stdout && fromErr == job.stderr)
  {
    assert JobsOk(cfg, EMPTY);
    RunKeepsJobs(cfg, EMPTY, actions);
    var job := Run(cfg, EMPTY, actions).jobs[j];
    assert JobInv(cfg, job, Run(cfg, EMPTY, actions).now);
    fromOut, fromErr := CappedInterleaves(job.log, job.maxOutput);
    StreamPrefix(job, Stdout);
    StreamPrefix(job, Stderr);
  }

  /** Cutting a shuffled log short cuts both streams short. */
  lemma CappedInterleaves(log: seq<Chunk>, limit: nat) returns (fromOut: seq<Byte>, fromErr: seq<Byte>)
    ensures fromOut <= BytesFrom(log, Stdout) && fromErr <= BytesFrom(log, Stderr)
    ensures Interleaves(Capped(Bytes(log), limit), fromOut, fromErr)
    ensures |Bytes(log)| <= limit ==> fromOut == BytesFrom(log, Stdout) && fromErr == BytesFrom(log, Stderr)
  {
    var all, tags := Bytes(log), Tags(log);
    var m := |Capped(all, limit)|;
    TagsPick(log, Stdout);
    TagsPick(log, Stderr);
    fromOut := CutPicked(all, tags, m, Stdout);
    fromErr := CutPicked(all, tags, m, Stderr);
    assert Capped(all, limit) == all[..m];
    assert Interleaves(all[..m], fromOut, fromErr);
  }

  lemma CutPicked(bytes: seq<Byte>, tags: seq<Source>, m: nat, source: Source) returns (kept: seq<Byte>)
    requires |tags| == |bytes| && m <= |bytes|
    ensures kept == Picked(bytes[..m], tags[..m], source) && kept <= Picked(bytes, tags, source)
    ensures m == |bytes| ==> kept == Picked(bytes, tags, source)
  {
    kept := Picked(bytes[..m], tags[..m], source);
    PickedConcat(bytes[..m], tags[..m], bytes[m..], tags[m..], source);
    assert bytes == bytes[..m] + bytes[m..] && tags == tags[..m] + tags[m..];
    if m == |bytes| {
      assert bytes[..m] == bytes && tags[..m] == tags;
    }
  }

  lemma StreamPrefix(job: Job, source: Source)
    requires StreamIntact(job, source)
    ensures BytesFrom(job.log, source) <= StreamOf(job, source)
    ensures PumpOf(job, source).at.AtEof? ==> BytesFrom(job.log, source) == StreamOf(job, source)
  {
    var p := PumpOf(job, source);
    assert BytesFrom(job.log, source) <= p.taken <= p.taken + p.unread;
  }

  // ---- Reading goes on --------------------------------------------------------

  /** A step of the pump itself; a failed read is not its own doing. */
  predicate Pumps(a: JobAction, source: Source) {
    (a.Read? || a.Append? || a.Eof?) && a.source == source
  }

  function JobRun(cfg: Config, job: Job, now: nat, steps: seq<JobAction>): Job
    decreases |steps|
  {
    if steps == [] then job else JobRun(cfg, JobStep(cfg, job, now, steps[0]), now, steps[1..])
  }

  /** The pump has read its stream to the end, and all of it is in the log. */
  ghost predicate ReadWhole(job: Job, source: Source) {
    PumpOf(job, source).at.AtEof? && BytesFrom(job.log, source) == StreamOf(job, source)
  }

  /** However full the buffer is, a pump that has not met a failed read gets to the
      end of its stream by its own steps. */
  lemma {:induction false} PumpDrains(cfg: Config, job: Job, now: nat, source: Source) returns (steps: seq<JobAction>)
    requires JobInv(cfg, job, now) && PumpOf(job, source).at != Broken
    ensures forall k :: 0 <= k < |steps| ==> Pumps(steps[k], source)
    ensures ReadWhole(JobRun(cfg, job, now, steps), source)
    decreases |PumpOf(job, source).unread|,
              match PumpOf(job, source).at case Holding(_) => 2 case Reading => 1 case _ => 0
  {
    var p := PumpOf(job, source);
    if p.at.AtEof? {
      steps := [];
      StreamPrefix(job, source);
    } else {
      var step := NextPumpStep(p, source);
      JobStepKeepsInv(cfg, job, now, step);
      var rest := PumpDrains(cfg, JobStep(cfg, job, now, step), now, source);
      steps := [step] + rest;
      assert steps[1..] == rest;
    }
  }

  function NextPumpStep(p: PumpState, source: Source): JobAction {
    if p.at.Holding? then Append(source)
    else if p.unread == [] then Eof(source)
    else Read(source, if |p.unread| <= CHUNK then |p.unread| else CHUNK)
  }

  lemma {:induction false} RunOfJobSteps(cfg: Config, w: World, j: nat, steps: seq<JobAction>, actions: seq<Action>)
    requires j < |w.jobs| && |actions| == |steps|
    requires forall k :: 0 <= k < |steps| ==> actions[k] == OnJob(j, steps[k])
    ensures var w' := Run(cfg, w, actions);
            |w'.jobs| == |w.jobs| && w'.jobs[j] == JobRun(cfg, w.jobs[j], w.now, steps)
    decreases |steps|
  {
    if steps != [] {
      RunOfJobSteps(cfg, Step(cfg, w, actions[0]), j, steps[1..], actions[1..]);
    }
  }

  /** From every reachable world, whatever the buffer holds: unless a read has
      failed, steps of the pump alone bring its stream to the end, with every byte
      of it through the lock and logged. */
  lemma StreamReadToItsEnd(cfg: Config, actions: seq<Action>, j: nat, source: Source) returns (more: seq<Action>)
    requires var w := Run(cfg, EMPTY, actions); j < |w.jobs| && PumpOf(w.jobs[j], source).at != Broken
    ensures forall k :: 0 <= k < |more| ==> more[k].OnJob? && more[k].job == j && Pumps(more[k].step, source)
    ensures var w' := Run(cfg, EMPTY, actions + more); j < |w'.jobs| && ReadWhole(w'.jobs[j], source)
  {
    assert JobsOk(cfg, EMPTY);
    RunKeepsJobs(cfg, EMPTY, actions);
    var w := Run(cfg, EMPTY, actions);
    var steps := PumpDrains(cfg, w.jobs[j], w.now, source);
    more := seq(|steps|, k requires 0 <= k < |steps| => OnJob(j, steps[k]));
    RunOfJobSteps(cfg, w, j, steps, more);
    RunConcat(cfg, EMPTY, actions, more);
  }

  /** The pump of a job has not given up. */
  ghost predicate Going(w: World, j: nat, source: Source) {
    j < |w.jobs| && PumpOf(w.jobs[j], source).at != Broken
  }

  lemma StepKeepsGoing(cfg: Config, w: World, a: Action, j: nat, source: Source)
    requires Going(w, j, source) && a != OnJob(j, Break(source))
    ensures Going(Step(cfg, w, a), j, source)
  {
    if a.OnJob? && a.job == j {
      PumpStepGoing(cfg, w.jobs[j], w.now, a.step, source);
    } else if a.OnCall? {
      CallerLeavesPumps(cfg, w, a.caller, a.call, j);
    }
  }

  lemma PumpStepGoing(cfg: Config, job: Job, now: nat, a: JobAction, source: Source)
    requires PumpOf(job, source).at != Broken && a != Break(source)
    ensures PumpOf(JobStep(cfg, job, now, a), source).at != Broken
  {
  }

  lemma CallerLeavesPumps(cfg: Config, w: World, t: Caller, call: CallAction, j: nat)
    requires j < |w.jobs|
    ensures var w' := CallerStep(cfg, w, t, call);
            j < |w'.jobs| && w'.jobs[j].out == w.jobs[j].out && w'.jobs[j].err == w.jobs[j].err
  {
    match call
    case ReapBegin => assert ReapBeginStep(w, t).jobs == w.jobs;
    case ReapCheck(victim) => assert ReapCheckStep(cfg, w, t, victim).jobs == w.jobs;
    case ReapEnd => assert ReapEndStep(w, t).jobs == w.jobs;
    case Spawn(_, _, _, _, _) =>
    case Insert(id) => assert InsertStep(w, t, id).jobs == w.jobs;
    case _ => TalkLeavesPumps(w, t, call, j);
  }

  lemma TalkLeavesPumps(w: World, t: Caller, call: CallAction, j: nat)
    requires j < |w.jobs|
    ensures var w' := TalkStep(w, t, call);
            j < |w'.jobs| && w'.jobs[j].out == w.jobs[j].out && w'.jobs[j].err == w.jobs[j].err
  {
    if t in w.calls {
      MoveLeavesPumps(w, t, NextCall(w, w.calls[t], call), j);
    } else if BeginCall(call).Some? {
      MoveLeavesPumps(w, t, BeginCall(call).value, j);
    }
  }

  lemma MoveLeavesPumps(w: World, t: Caller, c: Call, j: nat)
    requires j < |w.jobs|
    ensures var w' := MoveStep(w, t, c);
            j < |w'.jobs| && w'.jobs[j].out == w.jobs[j].out && w'.jobs[j].err == w.jobs[j].err
  {
  }

  /** Nothing but a failed read stops a pump before the end of its stream: not a
      full buffer, not the other pump, not the end of the process, not any caller. */
  lemma {:induction false} OnlyFailedReadsStop(cfg: Config, w: World, actions: seq<Action>, j: nat, source: Source)
    requires Going(w, j, source)
    requires forall k :: 0 <= k < |actions| ==> actions[k] != OnJob(j, Break(source))
    ensures Going(Run(cfg, w, actions), j, source)
    decreases |actions|
  {
    if actions != [] {
      StepKeepsGoing(cfg, w, actions[0], j, source);
      OnlyFailedReadsStop(cfg, Step(cfg, w, actions[0]), actions[1..], j, source);
    }
  }
}
