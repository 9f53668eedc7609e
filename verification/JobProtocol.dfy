/** `src/exec_ops.rs` as a protocol: every critical section is one atomic step,
    and a run is any list of steps. Per job there are two pumps and one exit
    waiter; any number of callers start, wait, poll and stop. A step whose
    moment has not come does nothing, so a run is every interleaving there is. */
module JobProtocol {
  import opened Wrappers
  import opened Utf8
  import opened JobTable

  datatype Config = Config(
    /** How long a finished job is kept. */
    retention: nat,
    /** Whether `send` stores without receivers; tokio's does not. */
    always: bool)

  // ---- One job --------------------------------------------------------------

  datatype Source = Stdout | Stderr

  datatype PumpAt = Reading | Holding(chunk: seq<Byte>) | AtEof | Broken

  /** A pump and its pipe: what is still to come and what was read already. */
  datatype PumpState = PumpState(unread: seq<Byte>, taken: seq<Byte>, at: PumpAt)

  datatype Chunk = Chunk(source: Source, bytes: seq<Byte>)

  /** A job with its three tasks. `waiter` counts the waiter's steps: 1 status
      set, 2 finish time set, 3 signal sent. The rest is history: the chunks in
      the order the output lock was taken for them, everything the process ever
      writes, and whether anyone was listening when the signal was sent. */
  datatype Job = Job(
    state: JobState,
    maxOutput: nat,
    out: PumpState,
    err: PumpState,
    exit: Option<Exit>,
    waiter: nat,
    log: seq<Chunk>,
    stdout: seq<Byte>,
    stderr: seq<Byte>,
    heard: bool)

  function Spawned(command: string, maxOutput: nat, pid: Option<nat>, stdout: seq<Byte>, stderr: seq<Byte>): Job {
    Job(NewJob(command, pid), maxOutput,
        PumpState(stdout, [], Reading), PumpState(stderr, [], Reading),
        None, 0, [], stdout, stderr, false)
  }

  function PumpOf(job: Job, source: Source): PumpState {
    if source.Stdout? then job.out else job.err
  }

  function StreamOf(job: Job, source: Source): seq<Byte> {
    if source.Stdout? then job.stdout else job.stderr
  }

  function WithPump(job: Job, source: Source, p: PumpState): Job {
    if source.Stdout? then job.(out := p) else job.(err := p)
  }

  datatype JobAction =
    | Read(source: Source, n: nat)
    | Append(source: Source)
    | Eof(source: Source)
    | Break(source: Source)
    | ProcessExits(exit: Exit)
    | SetStatus
    | SetFinished
    | SendDone

  function JobStep(cfg: Config, job: Job, now: nat, a: JobAction): Job {
    match a
    case Read(source, n) =>
      var p := PumpOf(job, source);
      if p.at.Reading? && 0 < n <= CHUNK && n <= |p.unread| then
        WithPump(job, source, PumpState(p.unread[n..], p.taken + p.unread[..n], Holding(p.unread[..n])))
      else job
    case Append(source) =>
      var p := PumpOf(job, source);
      if p.at.Holding? then
        WithPump(job, source, p.(at := Reading))
        .(state := Appended(job.state, p.at.chunk, job.maxOutput), log := job.log + [Chunk(source, p.at.chunk)])
      else job
    case Eof(source) =>
      var p := PumpOf(job, source);
      if p.at.Reading? && p.unread == [] then WithPump(job, source, p.(at := AtEof)) else job
    case Break(source) =>
      var p := PumpOf(job, source);
      if p.at.Reading? then WithPump(job, source, p.(at := Broken)) else job
    case ProcessExits(exit) =>
      if job.exit.None? then job.(exit := Some(exit)) else job
    case SetStatus =>
      if job.waiter == 0 && job.exit.Some? then
        job.(state := job.state.(status := StatusOf(job.exit.value)), waiter := 1)
      else job
    case SetFinished =>
      if job.waiter == 1 then job.(state := job.state.(finishedAt := Some(now)), waiter := 2) else job
    case SendDone =>
      if job.waiter == 2 then
        job.(state := Sent(job.state, cfg.always), heard := job.state.receivers != {}, waiter := 3)
      else job
  }

  // ---- The callers ----------------------------------------------------------

  /** Where a caller is, between two of its critical sections. `WaitLooked` has
      just seen the signal still false, in a poll that ends by parking or, if the
      timer has run out, by giving up: the timer is only asked after a look.
      `WaitParked` sleeps until it is polled again. `WaitDone` carries the answer. */
  datatype Call =
    | Starting
    | Reaping(began: nat, pending: set<Id>)
    | Reaped
    | SpawnedJob(job: nat)
    | Started(id: Id)
    | StartFailed
    | WaitCalled(id: Id)
    | WaitGot(job: nat)
    | WaitListening(job: nat)
    | WaitLooked(job: nat)
    | WaitParked(job: nat)
    | WaitDraining(job: nat)
    | WaitCopied(job: nat, output: seq<Byte>)
    | WaitDone(job: nat, answer: Option<Finished>)
    | PollCalled(id: Id)
    | PollGot(job: nat)
    | PollCopied(job: nat, output: seq<Byte>)
    | PollDone(job: nat, shown: Finished)
    | StopCalled(id: Id)
    | StopGot(job: nat)
    | StopDone(job: nat, signalled: bool)
    | NoSuchId(id: Id)
    | Cancelled

  /** `table` is the map behind the table lock, `locked` the caller holding that
      lock across several steps. `issued` remembers every insertion and
      `forgotten` every id that `reap` dropped, with the clock reading used. */
  datatype World = World(
    jobs: seq<Job>,
    table: map<Id, nat>,
    locked: Option<Caller>,
    now: nat,
    calls: map<Caller, Call>,
    issued: map<Id, nat>,
    forgotten: map<Id, nat>)

  const EMPTY := World([], map[], None, 0, map[], map[], map[])

  datatype CallAction =
    | CallStart
    | ReapBegin
    | ReapCheck(victim: Id)
    | ReapEnd
    | Spawn(command: string, maxOutput: nat, pid: Option<nat>, stdout: seq<Byte>, stderr: seq<Byte>)
    | SpawnFails
    | Insert(fresh_: Id)
    | CallWait(id: Id)
    | CallPoll(id: Id)
    | CallStop(id: Id)
    | Lookup
    | Subscribe
    | Look
    | TimeOut
    | Park
    | Resume
    | CopyOutput
    | CopyStatus
    | Signal
    | Cancel

  datatype Action =
    | Tick(elapsed: nat)
    | OnJob(job: nat, step: JobAction)
    | OnCall(caller: Caller, call: CallAction)

  function At(w: World, t: Caller, c: Call): World {
    w.(calls := w.calls[t := c])
  }

  function WithJob(w: World, j: nat, job: Job): World
    requires j < |w.jobs|
  {
    w.(jobs := w.jobs[j := job])
  }

  /** New calls. */
  function BeginCall(a: CallAction): Option<Call> {
    match a
    case CallStart => Some(Starting)
    case CallWait(id) => Some(WaitCalled(id))
    case CallPoll(id) => Some(PollCalled(id))
    case CallStop(id) => Some(StopCalled(id))
    case _ => None
  }

  /** `reap` takes the table lock and holds it from its first check to its last;
      each entry is checked on its own, so exit waiters go on meanwhile. */
  function ReapBeginStep(w: World, t: Caller): World {
    if t in w.calls && w.calls[t].Starting? && w.locked.None? then
      At(w, t, Reaping(w.now, w.table.Keys)).(locked := Some(t))
    else w
  }

  function ReapCheckStep(cfg: Config, w: World, t: Caller, victim: Id): World {
    if t in w.calls && w.calls[t].Reaping? && victim in w.calls[t].pending
       && victim in w.table && w.table[victim] < |w.jobs| then
      var checked := At(w, t, w.calls[t].(pending := w.calls[t].pending - {victim}));
      if Kept(w.jobs[w.table[victim]].state, w.now, cfg.retention) then checked
      else checked.(table := w.table - {victim}, forgotten := w.forgotten[victim := w.now])
    else w
  }

  function ReapEndStep(w: World, t: Caller): World {
    if t in w.calls && w.calls[t].Reaping? && w.calls[t].pending == {} then
      At(w, t, Reaped).(locked := None)
    else w
  }

  /** The rest of `start`: spawn the process and its three tasks, then insert the
      job under a fresh id. The process may well be done before the insert. */
  function SpawnStep(w: World, t: Caller, job: Job): World {
    if t in w.calls && w.calls[t].Reaped? then
      At(w, t, SpawnedJob(|w.jobs|)).(jobs := w.jobs + [job])
    else w
  }

  function InsertStep(w: World, t: Caller, id: Id): World {
    if t in w.calls && w.calls[t].SpawnedJob? && w.locked.None? && id !in w.issued then
      At(w, t, Started(id)).(table := w.table[id := w.calls[t].job], issued := w.issued[id := w.calls[t].job])
    else w
  }

  /** `wait`, `poll` and `stop`: `Jobs::get` under the table lock, then the steps
      on the job they hold. */
  function NextCall(w: World, c: Call, a: CallAction): Call {
    match (c, a)
    case (Reaped, SpawnFails) => StartFailed
    case (WaitCalled(id), Lookup) =>
      if w.locked.Some? then c else if id in w.table then WaitGot(w.table[id]) else NoSuchId(id)
    case (PollCalled(id), Lookup) =>
      if w.locked.Some? then c else if id in w.table then PollGot(w.table[id]) else NoSuchId(id)
    case (StopCalled(id), Lookup) =>
      if w.locked.Some? then c else if id in w.table then StopGot(w.table[id]) else NoSuchId(id)
    case (WaitGot(j), Subscribe) => WaitListening(j)
    case (WaitListening(j), Look) =>
      if j < |w.jobs| && w.jobs[j].state.done then WaitDraining(j) else WaitLooked(j)
    case (WaitLooked(j), TimeOut) => WaitDone(j, None)
    case (WaitLooked(j), Park) => WaitParked(j)
    case (WaitParked(j), Resume) => WaitListening(j)
    case (WaitDraining(j), CopyOutput) => if j < |w.jobs| then WaitCopied(j, w.jobs[j].state.output) else c
    case (WaitCopied(j, output), CopyStatus) =>
      if j < |w.jobs| then WaitDone(j, Some(Finished(w.jobs[j].state.status, output))) else c
    case (PollGot(j), CopyOutput) => if j < |w.jobs| then PollCopied(j, w.jobs[j].state.output) else c
    case (PollCopied(j, output), CopyStatus) =>
      if j < |w.jobs| then PollDone(j, Finished(w.jobs[j].state.status, output)) else c
    case (StopGot(j), Signal) =>
      StopDone(j, j < |w.jobs| && w.jobs[j].state.status == Running && w.jobs[j].state.pid.Some?)
    case (WaitGot(j), Cancel) => Cancelled
    case (WaitListening(j), Cancel) => Cancelled
    case (WaitLooked(j), Cancel) => Cancelled
    case (WaitParked(j), Cancel) => Cancelled
    case (WaitDraining(j), Cancel) => Cancelled
    case _ => c
  }

  /** A `wait` holds its receiver from `subscribe` until it returns or is
      cancelled. */
  predicate Listens(c: Call, j: nat) {
    c == WaitListening(j) || c == WaitLooked(j) || c == WaitParked(j) || c == WaitDraining(j)
    || (c.WaitCopied? && c.job == j)
  }

  function Relistened(w: World, t: Caller, c: Call): World {
    w.(jobs := seq(|w.jobs|, j requires 0 <= j < |w.jobs| =>
      var s := w.jobs[j].state;
      w.jobs[j].(state := s.(receivers := if Listens(c, j) then s.receivers + {t} else s.receivers - {t}))))
  }

  function MoveStep(w: World, t: Caller, c: Call): World {
    At(Relistened(w, t, c), t, c)
  }

  function TalkStep(w: World, t: Caller, call: CallAction): World {
    if t in w.calls then MoveStep(w, t, NextCall(w, w.calls[t], call))
    else if BeginCall(call).Some? then MoveStep(w, t, BeginCall(call).value)
    else w
  }

  function CallerStep(cfg: Config, w: World, t: Caller, call: CallAction): World {
    match call
    case ReapBegin => ReapBeginStep(w, t)
    case ReapCheck(victim) => ReapCheckStep(cfg, w, t, victim)
    case ReapEnd => ReapEndStep(w, t)
    case Spawn(command, maxOutput, pid, stdout, stderr) =>
      SpawnStep(w, t, Spawned(command, maxOutput, pid, stdout, stderr))
    case Insert(id) => InsertStep(w, t, id)
    case _ => TalkStep(w, t, call)
  }

  function Step(cfg: Config, w: World, a: Action): World {
    match a
    case Tick(elapsed) => w.(now := w.now + elapsed)
    case OnJob(j, step) => if j < |w.jobs| then WithJob(w, j, JobStep(cfg, w.jobs[j], w.now, step)) else w
    case OnCall(t, call) => CallerStep(cfg, w, t, call)
  }

  /** A run: the world after a list of steps. */
  function Run(cfg: Config, w: World, actions: seq<Action>): World
    decreases |actions|
  {
    if actions == [] then w else Run(cfg, Step(cfg, w, actions[0]), actions[1..])
  }

  // ---- Invariant of one job -------------------------------------------------

  function Bytes(log: seq<Chunk>): seq<Byte> {
    if log == [] then [] else Bytes(log[..|log| - 1]) + log[|log| - 1].bytes
  }

  function BytesFrom(log: seq<Chunk>, source: Source): seq<Byte> {
    if log == [] then []
    else
      BytesFrom(log[..|log| - 1], source)
      + if log[|log| - 1].source == source then log[|log| - 1].bytes else []
  }

  /** Nothing of a stream is lost, duplicated or reordered between the pipe and
      the log, full buffer or not. */
  ghost predicate StreamIntact(job: Job, source: Source) {
    var p := PumpOf(job, source);
    && p.taken + p.unread == StreamOf(job, source)
    && BytesFrom(job.log, source) + (if p.at.Holding? then p.at.chunk else []) == p.taken
    && (p.at.AtEof? ==> p.unread == [])
  }

  /** Order of a job's life: exit, status, finish time, signal. */
  ghost predicate Lifecycle(cfg: Config, job: Job, now: nat) {
    && job.waiter <= 3
    && (job.waiter > 0 ==> job.exit.Some?)
    && job.state.status == (if job.waiter == 0 then Running else StatusOf(job.exit.value))
    && (job.state.finishedAt.Some? <==> job.waiter >= 2)
    && (job.state.finishedAt.Some? ==> job.state.finishedAt.value <= now)
    && (job.state.done <==> job.waiter == 3 && (cfg.always || job.heard))
  }

  ghost predicate JobInv(cfg: Config, job: Job, now: nat) {
    && Lifecycle(cfg, job, now)
    && StreamIntact(job, Stdout) && StreamIntact(job, Stderr)
    && job.state.output == Capped(Bytes(job.log), job.maxOutput)
  }

  lemma SpawnedInv(
      cfg: Config, command: string, maxOutput: nat, pid: Option<nat>, stdout: seq<Byte>, stderr: seq<Byte>, now: nat)
    ensures JobInv(cfg, Spawned(command, maxOutput, pid, stdout, stderr), now)
  {
    var job := Spawned(command, maxOutput, pid, stdout, stderr);
    assert [] + stdout == stdout && [] + stderr == stderr;
    assert BytesFrom(job.log, Stdout) + [] == [];
  }

  lemma JobStepKeepsInv(cfg: Config, job: Job, now: nat, a: JobAction)
    requires JobInv(cfg, job, now)
    ensures JobInv(cfg, JobStep(cfg, job, now, a), now)
  {
    match a
    case Read(source, n) => ReadKeepsInv(cfg, job, now, source, n);
    case Append(source) =>
      if PumpOf(job, source).at.Holding? {
        AppendKeepsInv(cfg, job, now, source);
      }
    case Eof(source) => PumpEndKeepsInv(cfg, job, now, source, a);
    case Break(source) => PumpEndKeepsInv(cfg, job, now, source, a);
    case _ => WaiterKeepsInv(cfg, job, now, a);
  }

  lemma ReadKeepsInv(cfg: Config, job: Job, now: nat, source: Source, n: nat)
    requires JobInv(cfg, job, now)
    ensures JobInv(cfg, JobStep(cfg, job, now, Read(source, n)), now)
  {
    var p := PumpOf(job, source);
    if p.at.Reading? && 0 < n <= CHUNK && n <= |p.unread| {
      assert p.taken + p.unread[..n] + p.unread[n..] == p.taken + p.unread;
      assert BytesFrom(job.log, source) + [] == BytesFrom(job.log, source);
    }
  }

  lemma PumpEndKeepsInv(cfg: Config, job: Job, now: nat, source: Source, a: JobAction)
    requires JobInv(cfg, job, now) && (a == Eof(source) || a == Break(source))
    ensures JobInv(cfg, JobStep(cfg, job, now, a), now)
  {
  }

  lemma WaiterKeepsInv(cfg: Config, job: Job, now: nat, a: JobAction)
    requires JobInv(cfg, job, now)
    requires a.ProcessExits? || a.SetStatus? || a.SetFinished? || a.SendDone?
    ensures JobInv(cfg, JobStep(cfg, job, now, a), now)
  {
    var after := JobStep(cfg, job, now, a);
    assert after.out == job.out && after.err == job.err && after.log == job.log;
    assert after.state.output == job.state.output;
  }

  lemma AppendKeepsInv(cfg: Config, job: Job, now: nat, source: Source)
    requires JobInv(cfg, job, now) && PumpOf(job, source).at.Holding?
    ensures JobInv(cfg, JobStep(cfg, job, now, Append(source)), now)
  {
    var chunk := Chunk(source, PumpOf(job, source).at.chunk);
    var log := job.log + [chunk];
    assert log[..|log| - 1] == job.log;
    AppendedIsCapped(job.state, Bytes(job.log), chunk.bytes, job.maxOutput);
    assert BytesFrom(log, source) + [] == BytesFrom(job.log, source) + chunk.bytes;
    var other := if source.Stdout? then Stderr else Stdout;
    assert BytesFrom(log, other) == BytesFrom(job.log, other) + [] == BytesFrom(job.log, other);
  }

  /** What later steps of a job can only add to; a finish time that was not there
      at `since` is no earlier. */
  ghost predicate Evolves(a: Job, b: Job, since: nat) {
    && a.state.output <= b.state.output && a.log <= b.log
    && a.waiter <= b.waiter
    && a.maxOutput == b.maxOutput && a.stdout == b.stdout && a.stderr == b.stderr
    && a.state.command == b.state.command && a.state.pid == b.state.pid
    && (a.exit.Some? ==> b.exit == a.exit)
    && (a.waiter > 0 ==> b.state.status == a.state.status)
    && (a.state.finishedAt.Some? ==> b.state.finishedAt == a.state.finishedAt)
    && (a.state.finishedAt.None? && b.state.finishedAt.Some? ==> b.state.finishedAt.value >= since)
    && (a.state.done ==> b.state.done)
    && (a.waiter == 3 ==> b.waiter == 3 && b.heard == a.heard && b.state.done == a.state.done)
  }

  lemma PumpStepEvolves(cfg: Config, job: Job, now: nat, a: JobAction)
    requires Lifecycle(cfg, job, now)
    requires a.Read? || a.Append? || a.Eof? || a.Break?
    ensures var job' := JobStep(cfg, job, now, a);
            && job' == job.(state := job'.state, out := job'.out, err := job'.err, log := job'.log)
            && job'.state == job.state.(output := job'.state.output)
            && job.state.output <= job'.state.output && job.log <= job'.log
  {
  }

  lemma WaiterStepEvolves(cfg: Config, job: Job, now: nat, a: JobAction)
    requires Lifecycle(cfg, job, now)
    requires a.ProcessExits? || a.SetStatus? || a.SetFinished? || a.SendDone?
    ensures var job' := JobStep(cfg, job, now, a);
            && Lifecycle(cfg, job', now) && Evolves(job, job', now)
            && job'.state.receivers == job.state.receivers
  {
  }

  lemma JobStepEvolves(cfg: Config, job: Job, now: nat, a: JobAction)
    requires Lifecycle(cfg, job, now)
    ensures Lifecycle(cfg, JobStep(cfg, job, now, a), now)
    ensures Evolves(job, JobStep(cfg, job, now, a), now)
    ensures JobStep(cfg, job, now, a).state.receivers == job.state.receivers
  {
    if a.Read? || a.Append? || a.Eof? || a.Break? {
      PumpStepEvolves(cfg, job, now, a);
    } else {
      WaiterStepEvolves(cfg, job, now, a);
    }
  }
}
