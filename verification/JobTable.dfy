/** `src/exec_ops.rs`: one job's shared state and the table of jobs, changed in
    place. Every method of `JobCell` is the body of one critical section; the
    protocol in `JobProtocol` interleaves the same updates. */
module JobTable {
  import opened Wrappers
  import opened Utf8

  /** The buffer of a pump. */
  const CHUNK := 8192

  /** A UUID. */
  type Id = nat
  type Caller = nat

  datatype Status = Running | Exited(code: int) | Signalled

  /** What `child.wait()` can report. */
  datatype Exit = WithCode(code: int) | BySignal | WaitFailed

  function StatusOf(exit: Exit): Status {
    match exit
    case WithCode(code) => Exited(code)
    case BySignal => Signalled
    case WaitFailed => Signalled
  }

  /** The status tells how the process ended: its exit code, or that it had none. */
  ghost predicate Reports(status: Status, exit: Exit) {
    && (forall code :: status == Exited(code) <==> exit == WithCode(code))
    && (status == Signalled <==> exit.BySignal? || exit.WaitFailed?)
    && status != Running
  }

  lemma StatusReports(exit: Exit)
    ensures Reports(StatusOf(exit), exit)
  {
  }

  /** The value of a `JobState`. `receivers` are the callers that hold a receiver
      of the `done` channel; `finishedAt` is a reading of the monotone clock. */
  datatype JobState = JobState(
    command: string,
    output: seq<Byte>,
    status: Status,
    done: bool,
    receivers: set<Caller>,
    finishedAt: Option<nat>,
    pid: Option<nat>)

  datatype Finished = Finished(status: Status, output: seq<Byte>)

  function NewJob(command: string, pid: Option<nat>): JobState {
    JobState(command, [], Running, false, {}, None, pid)
  }

  /** The first `limit` bytes. */
  function Capped(bytes: seq<Byte>, limit: nat): (r: seq<Byte>)
    ensures r <= bytes
  {
    if |bytes| <= limit then bytes else bytes[..limit]
  }

  /** One pass of the pump under the output lock. */
  function Appended(s: JobState, chunk: seq<Byte>, maxOutput: nat): JobState {
    if |s.output| >= maxOutput then s
    else
      var room := maxOutput - |s.output|;
      s.(output := s.output + chunk[..if |chunk| <= room then |chunk| else room])
  }

  /** `watch::Sender::send(true)`: with no receiver it fails and stores nothing.
      `always` is the variant that stores regardless (`send_replace`). */
  function Sent(s: JobState, always: bool): JobState {
    if always || s.receivers != {} then s.(done := true) else s
  }

  /** The test of `reap`: unfinished, or finished less than `retention` ago. */
  predicate Kept(s: JobState, now: nat, retention: nat) {
    s.finishedAt.None? || now - s.finishedAt.value < retention
  }

  class JobCell {
    const command: string
    const pid: Option<nat>
    var output: seq<Byte>
    var status: Status
    var done: bool
    var receivers: set<Caller>
    var finishedAt: Option<nat>

    ghost function View(): JobState
      reads this
    {
      JobState(command, output, status, done, receivers, finishedAt, pid)
    }

    constructor (command: string, pid: Option<nat>)
      ensures View() == NewJob(command, pid)
    {
      this.command, this.pid := command, pid;
      output, status, done, receivers, finishedAt := [], Running, false, {}, None;
    }

    method Append(chunk: seq<Byte>, maxOutput: nat)
      modifies this
      ensures View() == Appended(old(View()), chunk, maxOutput)
    {
      if |output| < maxOutput {
        var room := maxOutput - |output|;
        output := output + chunk[..if |chunk| <= room then |chunk| else room];
      }
    }

    method SetStatus(exit: Exit)
      modifies this
      ensures View() == old(View()).(status := StatusOf(exit)) && Reports(status, exit)
    {
      status := match exit
        case WithCode(code) => Exited(code)
        case BySignal => Signalled
        case WaitFailed => Signalled;
    }

    method SetFinished(now: nat)
      modifies this
      ensures View() == old(View()).(finishedAt := Some(now))
    {
      finishedAt := Some(now);
    }

    method SendDone()
      modifies this
      ensures View() == Sent(old(View()), false)
    {
      if receivers != {} {
        done := true;
      }
    }

    method Subscribe(caller: Caller)
      modifies this
      ensures View() == old(View()).(receivers := old(receivers) + {caller})
    {
      receivers := receivers + {caller};
    }

    /** The receiver goes out of scope. */
    method Unsubscribe(caller: Caller)
      modifies this
      ensures View() == old(View()).(receivers := old(receivers) - {caller})
    {
      receivers := receivers - {caller};
    }

    /** `Jobs::snapshot`, with nobody in between its two locks. */
    method Snapshot() returns (f: Finished)
      ensures f == Finished(View().status, View().output)
    {
      f := Finished(status, output);
    }
  }

  /** Appending under the cap is capping the whole: nothing depends on where the
      stream was cut into chunks. */
  lemma AppendedIsCapped(s: JobState, seen: seq<Byte>, chunk: seq<Byte>, maxOutput: nat)
    requires s.output == Capped(seen, maxOutput)
    ensures Appended(s, chunk, maxOutput) == s.(output := Capped(seen + chunk, maxOutput))
  {
    if |seen| >= maxOutput {
      assert (seen + chunk)[..maxOutput] == seen[..maxOutput];
    } else {
      var room := maxOutput - |seen|;
      if |chunk| > room {
        assert (seen + chunk)[..maxOutput] == seen + chunk[..room];
      } else {
        assert chunk[..|chunk|] == chunk;
      }
    }
  }

  /** The reading end of a child's pipe: what is still to come, and whether a read
      has failed. */
  class Pipe {
    var unread: seq<Byte>
    var broken: bool

    constructor (bytes: seq<Byte>)
      ensures unread == bytes && !broken
    {
      unread, broken := bytes, false;
    }

    /** `reader.read(&mut chunk)`: any number of bytes the buffer has room for, none
        only at the end, or a failure. */
    method Read() returns (chunk: Option<seq<Byte>>)
      requires !broken
      modifies this
      ensures broken <==> chunk.None?
      ensures chunk.None? ==> unread == old(unread)
      ensures chunk.Some? ==> chunk.value + unread == old(unread) && |chunk.value| <= CHUNK
      ensures chunk.Some? ==> (chunk.value == [] <==> old(unread) == [])
    {
      var fails: bool := *;
      if fails {
        broken := true;
        return None;
      }
      var n := 0;
      if unread != [] {
        n :| 1 <= n <= CHUNK && n <= |unread|;
      }
      chunk := Some(unread[..n]);
      unread := unread[n..];
    }
  }

  /** `pump`, run alone: unless a read fails, the pipe is read to its end, full
      buffer or not, and the output is the first `maxOutput` bytes of all that was
      read. */
  method Pump(cell: JobCell, pipe: Pipe, maxOutput: nat)
    requires cell.output == [] && !pipe.broken
    modifies cell, pipe
    ensures !pipe.broken ==> pipe.unread == []
    ensures exists taken ::
              && taken + pipe.unread == old(pipe.unread)
              && cell.View() == old(cell.View()).(output := Capped(taken, maxOutput))
  {
    ghost var all, taken: seq<Byte> := pipe.unread, [];
    var chunk := pipe.Read();
    assert all == taken + all;
    while chunk.Some? && chunk.value != []
      invariant pipe.broken <==> chunk.None?
      invariant chunk.Some? && chunk.value == [] ==> pipe.unread == []
      invariant all == taken + (if chunk.Some? then chunk.value + pipe.unread else pipe.unread)
      invariant cell.View() == old(cell.View()).(output := Capped(taken, maxOutput))
      decreases |pipe.unread| + if chunk.Some? then |chunk.value| else 0
    {
      AppendedIsCapped(cell.View(), taken, chunk.value, maxOutput);
      cell.Append(chunk.value, maxOutput);
      assert all == (taken + chunk.value) + pipe.unread;
      taken := taken + chunk.value;
      chunk := pipe.Read();
    }
    assert all == taken + pipe.unread;
  }

  datatype JobError = NoSuchJob(retention: nat) | CannotStart | AlreadyFinished | NoPid

  class Jobs {
    var inner: map<Id, JobCell>
    const retention: nat

    constructor (retention: nat)
      ensures inner == map[] && this.retention == retention
    {
      inner := map[];
      this.retention := retention;
    }

    /** Drop jobs that finished longer than `retention` ago, with nobody finishing
        meanwhile. */
    method Reap(now: nat)
      modifies this
      ensures inner == map id | id in old(inner) && Kept(old(inner[id].View()), now, retention) :: old(inner)[id]
    {
      ghost var before := inner;
      var pending := inner.Keys;
      while pending != {}
        invariant pending <= before.Keys
        invariant inner ==
          map id | id in before && (id in pending || Kept(before[id].View(), now, retention)) :: before[id]
        decreases |pending|
      {
        var id :| id in pending;
        pending := pending - {id};
        var at := inner[id].finishedAt;
        if at.Some? && now - at.value >= retention {
          inner := inner - {id};
        }
      }
    }

    method Get(id: Id) returns (r: Result<JobCell, JobError>)
      ensures r == if id in inner then Ok(inner[id]) else Err(NoSuchJob(retention))
    {
      if id in inner {
        return Ok(inner[id]);
      }
      return Err(NoSuchJob(retention));
    }

    /** `start`, with the spawned process given as its pid, or `None` when the
        spawn failed; `id` is the fresh UUID. */
    method Start(now: nat, command: string, child: Option<Option<nat>>, id: Id) returns (r: Result<Id, JobError>)
      modifies this
      ensures child.None? ==> r == Err(CannotStart)
      ensures child.Some? ==>
                && r == Ok(id) && id in inner && fresh(inner[id])
                && inner[id].View() == NewJob(command, child.value)
                && inner[id].command == command && inner[id].pid == child.value
                && inner[id].output == [] && inner[id].status == Running && inner[id].finishedAt.None?
                && !inner[id].done && inner[id].receivers == {}
      ensures forall other :: other != id || child.None? ==>
                (other in inner <==> other in old(inner) && Kept(old(inner[other].View()), now, retention))
                && (other in inner ==> inner[other] == old(inner)[other])
    {
      Reap(now);
      if child.None? {
        return Err(CannotStart);
      }
      var state := new JobCell(command, child.value);
      inner := inner[id := state];
      return Ok(id);
    }

    /** `wait`, with nobody in between: the result of a job that has sent its signal,
        and nothing from any other, however long the timeout. */
    method Wait(id: Id, caller: Caller) returns (r: Result<Option<Finished>, JobError>)
      modifies if id in inner then {inner[id]} else {}
      ensures id !in inner ==> r == Err(NoSuchJob(retention))
      ensures id in inner ==>
                var s := old(inner[id].View());
                && r == Ok(if s.done then Some(Finished(s.status, s.output)) else None)
                && inner[id].View() == s.(receivers := s.receivers - {caller})
    {
      var state := Get(id);
      if state.Err? {
        return Err(state.error);
      }
      state.value.Subscribe(caller);
      var answer: Option<Finished> := None;
      if state.value.done {
        var snapshot := state.value.Snapshot();
        answer := Some(snapshot);
      }
      state.value.Unsubscribe(caller);
      return Ok(answer);
    }

    method Poll(id: Id) returns (r: Result<(string, Finished), JobError>)
      ensures r == if id in inner
                   then Ok((inner[id].command, Finished(inner[id].View().status, inner[id].View().output)))
                   else Err(NoSuchJob(retention))
    {
      var state := Get(id);
      if state.Err? {
        return Err(state.error);
      }
      var snapshot := state.value.Snapshot();
      return Ok((state.value.command, snapshot));
    }

    /** `stop`, up to the signal: `Ok` is the process group to kill. */
    method Stop(id: Id) returns (r: Result<nat, JobError>)
      ensures r.Ok? <==> id in inner && inner[id].status == Running && inner[id].pid.Some?
      ensures r.Ok? ==> inner[id].pid == Some(r.value)
      ensures r == Err(AlreadyFinished) <==> id in inner && inner[id].status != Running
    {
      var state := Get(id);
      if state.Err? {
        return Err(state.error);
      }
      if state.value.status != Running {
        return Err(AlreadyFinished);
      }
      if state.value.pid.None? {
        return Err(NoPid);
      }
      return Ok(state.value.pid.value);
    }
  }
}
