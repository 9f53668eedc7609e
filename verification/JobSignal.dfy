/** The completion signal of `src/exec_ops.rs` and the answers of `wait`. */
module JobSignal {
  import opened Wrappers
  import opened Utf8
  import opened JobTable
  import opened JobProtocol
  import opened JobRuns

  // ---- The completion signal ------------------------------------------------

  /** At the moment the signal is sent it is stored exactly if some `wait` is
      listening then (or the sender stores regardless). */
  lemma SignalStoredIff(cfg: Config, actions: seq<Action>, j: nat)
    requires var w := Run(cfg, EMPTY, actions); j < |w.jobs| && w.jobs[j].waiter == 2
    ensures var w := Run(cfg, EMPTY, actions);
            var w' := Step(cfg, w, OnJob(j, SendDone));
            && w'.jobs[j].waiter == 3
            && (w'.jobs[j].state.done <==>
                cfg.always || exists t :: t in w.calls && Listens(w.calls[t], j))
  {
    EmptyInv(cfg);
    RunKeeps(cfg, EMPTY, actions);
    SignalStored(cfg, Run(cfg, EMPTY, actions), j);
  }

  lemma SignalStored(cfg: Config, w: World, j: nat)
    requires LivesOk(cfg, w) && ReceiversOk(w) && j < |w.jobs| && w.jobs[j].waiter == 2
    ensures var w' := Step(cfg, w, OnJob(j, SendDone));
            && w'.jobs[j].waiter == 3
            && (w'.jobs[j].state.done <==> cfg.always || exists t :: t in w.calls && Listens(w.calls[t], j))
  {
    assert Lifecycle(cfg, w.jobs[j], w.now);
    var receivers := w.jobs[j].state.receivers;
    if receivers != {} {
      var t :| t in receivers;
      assert Listens(w.calls[t], j);
    }
  }

  /** The call cannot have missed the signal of a job that has sent it. */
  ghost predicate NotMissed(w: World, t: Caller, j: nat) {
    && j < |w.jobs| && w.jobs[j].state.done
    && (t in w.calls ==> w.calls[t] != WaitLooked(j) && w.calls[t] != WaitDone(j, None))
  }

  lemma StepNotMissed(w: World, a: Action, w': World, t: Caller, j: nat)
    requires NotMissed(w, t, j)
    requires j < |w'.jobs| && Evolves(w.jobs[j], w'.jobs[j], w.now)
    requires t in w'.calls ==> Moves(w, a, t, w'.calls[t])
    ensures NotMissed(w', t, j)
  {
  }

  lemma {:induction false} RunNotMissed(cfg: Config, w: World, actions: seq<Action>, t: Caller, j: nat)
    requires Inv(cfg, w) && NotMissed(w, t, j)
    ensures NotMissed(Run(cfg, w, actions), t, j)
    decreases |actions|
  {
    if actions != [] {
      var next := Step(cfg, w, actions[0]);
      StepKeeps(cfg, w, actions[0]);
      CallAfterStep(cfg, w, actions[0], t);
      StepNotMissed(w, actions[0], next, t, j);
      RunNotMissed(cfg, next, actions[1..], t, j);
    }
  }

  /** Every step so far has left the call in the middle of the poll in which it saw
      the signal still false, and at step `k` its timer has run out. */
  ghost predicate GivesUpAt(cfg: Config, w: World, actions: seq<Action>, k: nat, t: Caller, j: nat) {
    && k < |actions| && actions[k] == OnCall(t, TimeOut)
    && (forall i :: 0 <= i <= k ==> MidPoll(Run(cfg, w, actions[..i]), t, j))
  }

  ghost predicate MidPoll(w: World, t: Caller, j: nat) {
    t in w.calls && w.calls[t] == WaitLooked(j)
  }

  ghost predicate AnsweredEmpty(w: World, t: Caller, j: nat) {
    t in w.calls && w.calls[t] == WaitDone(j, None)
  }

  lemma {:induction false} EmptyStays(cfg: Config, w: World, actions: seq<Action>, t: Caller, j: nat)
    requires AnsweredEmpty(w, t, j)
    ensures AnsweredEmpty(Run(cfg, w, actions), t, j)
    decreases |actions|
  {
    if actions != [] {
      StepLeavesAnswer(cfg, w, actions[0], t);
      EmptyStays(cfg, Step(cfg, w, actions[0]), actions[1..], t, j);
    }
  }

  lemma StepLeavesAnswer(cfg: Config, w: World, a: Action, t: Caller)
    requires t in w.calls && w.calls[t].WaitDone?
    ensures t in Step(cfg, w, a).calls && Step(cfg, w, a).calls[t] == w.calls[t]
  {
    if a.OnCall? {
      CallerMoves(cfg, w, a.call, a.caller, t);
    }
  }

  /** What the middle of a poll leads to. */
  lemma MidPollStep(cfg: Config, w: World, a: Action, t: Caller, j: nat)
    requires Inv(cfg, w) && MidPoll(w, t, j) && w.jobs[j].state.done
    ensures var w' := Step(cfg, w, a);
            if a == OnCall(t, TimeOut) then AnsweredEmpty(w', t, j)
            else MidPoll(w', t, j) || NotMissed(w', t, j)
  {
    if a == OnCall(t, TimeOut) {
      TimeOutGivesUp(cfg, w, t, j);
    } else {
      StepKeeps(cfg, w, a);
      CallAfterStep(cfg, w, a, t);
      MidPollMoves(w, a, Step(cfg, w, a), t, j);
    }
  }

  lemma TimeOutGivesUp(cfg: Config, w: World, t: Caller, j: nat)
    requires MidPoll(w, t, j)
    ensures AnsweredEmpty(Step(cfg, w, OnCall(t, TimeOut)), t, j)
  {
  }

  lemma MidPollMoves(w: World, a: Action, w': World, t: Caller, j: nat)
    requires MidPoll(w, t, j) && a != OnCall(t, TimeOut) && j < |w.jobs| && w.jobs[j].state.done
    requires j < |w'.jobs| && Evolves(w.jobs[j], w'.jobs[j], w.now)
    requires t in w'.calls ==> Moves(w, a, t, w'.calls[t])
    ensures MidPoll(w', t, j) || NotMissed(w', t, j)
  {
  }

  lemma GivesUpLater(cfg: Config, w: World, actions: seq<Action>, k: nat, t: Caller, j: nat)
    requires actions != [] && MidPoll(w, t, j)
    requires GivesUpAt(cfg, Step(cfg, w, actions[0]), actions[1..], k, t, j)
    ensures GivesUpAt(cfg, w, actions, k + 1, t, j)
  {
    var next, tail := Step(cfg, w, actions[0]), actions[1..];
    forall i | 0 <= i <= k + 1 ensures MidPoll(Run(cfg, w, actions[..i]), t, j) {
      if i > 0 {
        assert actions[..i][1..] == tail[..i - 1];
        assert MidPoll(Run(cfg, next, tail[..i - 1]), t, j);
      }
    }
  }

  lemma GivesUpEarlier(cfg: Config, w: World, actions: seq<Action>, k: nat, t: Caller, j: nat)
    requires k > 0 && GivesUpAt(cfg, w, actions, k, t, j)
    ensures GivesUpAt(cfg, Step(cfg, w, actions[0]), actions[1..], k - 1, t, j)
  {
    var next, tail := Step(cfg, w, actions[0]), actions[1..];
    forall i | 0 <= i <= k - 1 ensures MidPoll(Run(cfg, next, tail[..i]), t, j) {
      assert actions[..i + 1][1..] == tail[..i];
      assert MidPoll(Run(cfg, w, actions[..i + 1]), t, j);
    }
  }

  /** Once the signal is stored, a `wait` is answered empty in exactly one way: it
      was in the middle of a poll at that moment, having looked just before, and its
      timer ran out in that very poll. */
  lemma {:induction false} EmptyIff(cfg: Config, w: World, actions: seq<Action>, t: Caller, j: nat)
    requires Inv(cfg, w) && j < |w.jobs| && w.jobs[j].state.done && !AnsweredEmpty(w, t, j)
    ensures AnsweredEmpty(Run(cfg, w, actions), t, j) <==> exists k: nat :: GivesUpAt(cfg, w, actions, k, t, j)
    ensures !MidPoll(w, t, j) ==> NotMissed(Run(cfg, w, actions), t, j)
    decreases |actions|
  {
    if !MidPoll(w, t, j) {
      RunNotMissed(cfg, w, actions, t, j);
      assert forall k: nat :: GivesUpAt(cfg, w, actions, k, t, j) ==> MidPoll(Run(cfg, w, actions[..0]), t, j);
      assert actions[..0] == [];
    } else if actions != [] {
      MidPollIff(cfg, w, actions, t, j);
    }
  }

  lemma {:induction false} MidPollIff(cfg: Config, w: World, actions: seq<Action>, t: Caller, j: nat)
    requires Inv(cfg, w) && j < |w.jobs| && w.jobs[j].state.done && MidPoll(w, t, j) && actions != []
    ensures AnsweredEmpty(Run(cfg, w, actions), t, j) <==> exists k: nat :: GivesUpAt(cfg, w, actions, k, t, j)
    decreases |actions|, 0
  {
    var next, tail := Step(cfg, w, actions[0]), actions[1..];
    MidPollStep(cfg, w, actions[0], t, j);
    StepKeeps(cfg, w, actions[0]);
    if actions[0] == OnCall(t, TimeOut) {
      EmptyStays(cfg, next, tail, t, j);
      assert actions[..0] == [];
      assert GivesUpAt(cfg, w, actions, 0, t, j);
    } else {
      EmptyIff(cfg, next, tail, t, j);
      if k: nat :| GivesUpAt(cfg, next, tail, k, t, j) {
        GivesUpLater(cfg, w, actions, k, t, j);
      }
      if k: nat :| GivesUpAt(cfg, w, actions, k, t, j) {
        GivesUpEarlier(cfg, w, actions, k, t, j);
      }
    }
  }

  /** A `wait` that holds a receiver when the signal is sent makes it stored, and
      comes back empty only by a timer that runs out in the poll it was in the middle
      of. One that was parked, or had not looked yet, never does; and any answer is
      how the process really ended. */
  lemma ListenerGetsAnswer(cfg: Config, before: seq<Action>, after: seq<Action>, t: Caller, j: nat)
    requires var w := Run(cfg, EMPTY, before);
             j < |w.jobs| && w.jobs[j].waiter == 2 && t in w.calls && Listens(w.calls[t], j)
    ensures var w := Run(cfg, EMPTY, before);
            var sent := Step(cfg, w, OnJob(j, SendDone));
            var end := Run(cfg, sent, after);
            && sent.jobs[j].state.done
            && (AnsweredEmpty(end, t, j) <==> exists k: nat :: GivesUpAt(cfg, sent, after, k, t, j))
            && (w.calls[t] != WaitLooked(j) ==> NotMissed(end, t, j))
            && (t in end.calls && end.calls[t].WaitDone? && end.calls[t].job == j && end.calls[t].answer.Some? ==>
                  j < |end.jobs| && TrueAnswer(end.jobs[j], end.calls[t].answer.value))
  {
    EmptyInv(cfg);
    RunKeeps(cfg, EMPTY, before);
    var w := Run(cfg, EMPTY, before);
    SignalStoredIff(cfg, before, j);
    var sent := Step(cfg, w, OnJob(j, SendDone));
    StepKeeps(cfg, w, OnJob(j, SendDone));
    EmptyIff(cfg, sent, after, t, j);
    AnswerIsTrue(cfg, sent, after, t, j);
  }

  /** A `wait` that listens to a job whose signal is stored is answered with its
      result when it is polled again. */
  lemma HeardWaitFinishes(cfg: Config, before: seq<Action>, t: Caller, j: nat) returns (more: seq<Action>)
    requires var w := Run(cfg, EMPTY, before);
             && j < |w.jobs| && w.jobs[j].state.done && t in w.calls
             && (w.calls[t] == WaitParked(j) || w.calls[t] == WaitListening(j))
    ensures OnlyCaller(more, t)
    ensures var s := Run(cfg, EMPTY, before).jobs[j].state;
            StandsAt(Run(cfg, EMPTY, before + more), t, WaitDone(j, Some(Finished(s.status, s.output))))
  {
    var w := Run(cfg, EMPTY, before);
    var f := Finished(w.jobs[j].state.status, w.jobs[j].state.output);
    more := [];
    assert before + more == before;
    if w.calls[t] == WaitParked(j) {
      more := NextStep(cfg, before, more, t, j, f, WaitParked(j), Resume, WaitListening(j));
    }
    more := NextStep(cfg, before, more, t, j, f, WaitListening(j), Look, WaitDraining(j));
    more := NextStep(cfg, before, more, t, j, f, WaitDraining(j), CopyOutput, WaitCopied(j, f.output));
    more := NextStep(cfg, before, more, t, j, f, WaitCopied(j, f.output), CopyStatus, WaitDone(j, Some(f)));
  }

  /** What a job that has stored its signal would show now. */
  ghost predicate Ended(w: World, j: nat, f: Finished) {
    j < |w.jobs| && w.jobs[j].state.done && w.jobs[j].state.status == f.status && w.jobs[j].state.output == f.output
  }

  ghost predicate StandsAt(w: World, t: Caller, c: Call) {
    t in w.calls && w.calls[t] == c
  }

  predicate OnlyCaller(steps: seq<Action>, t: Caller) {
    forall k :: 0 <= k < |steps| ==> steps[k].OnCall? && steps[k].caller == t
  }

  /** The steps of a `wait` from its wake-up to its answer. */
  predicate WaitMove(j: nat, f: Finished, from: Call, call: CallAction, to: Call) {
    || (from == WaitParked(j) && call == Resume && to == WaitListening(j))
    || (from == WaitListening(j) && call == Look && to == WaitDraining(j))
    || (from == WaitDraining(j) && call == CopyOutput && to == WaitCopied(j, f.output))
    || (from == WaitCopied(j, f.output) && call == CopyStatus && to == WaitDone(j, Some(f)))
  }

  lemma WaitMoveIsNext(w: World, j: nat, f: Finished, from: Call, call: CallAction, to: Call)
    requires Ended(w, j, f) && WaitMove(j, f, from, call, to)
    ensures NextCall(w, from, call) == to
  {
  }

  lemma TalkAlone(w: World, t: Caller, j: nat, f: Finished, call: CallAction, to: Call)
    requires Ended(w, j, f) && t in w.calls && NextCall(w, w.calls[t], call) == to
    ensures Ended(TalkStep(w, t, call), j, f) && StandsAt(TalkStep(w, t, call), t, to)
  {
  }

  /** A waiting caller takes its next step at the end of a run. */
  lemma NextStep(cfg: Config, before: seq<Action>, more: seq<Action>, t: Caller, j: nat, f: Finished,
                 from: Call, call: CallAction, to: Call) returns (longer: seq<Action>)
    requires OnlyCaller(more, t) && WaitMove(j, f, from, call, to)
    requires var w := Run(cfg, EMPTY, before + more); Ended(w, j, f) && StandsAt(w, t, from)
    ensures OnlyCaller(longer, t)
    ensures var w := Run(cfg, EMPTY, before + longer); Ended(w, j, f) && StandsAt(w, t, to)
  {
    longer := more + [OnCall(t, call)];
    assert before + longer == (before + more) + [OnCall(t, call)];
    RunConcat(cfg, EMPTY, before + more, [OnCall(t, call)]);
    var w := Run(cfg, EMPTY, before + more);
    WaitMoveIsNext(w, j, f, from, call, to);
    TalkAlone(w, t, j, f, call, to);
    RunOfOne(cfg, w, t, call);
  }

  lemma RunOfOne(cfg: Config, w: World, t: Caller, call: CallAction)
    requires call.Resume? || call.Look? || call.CopyOutput? || call.CopyStatus?
    ensures Run(cfg, w, [OnCall(t, call)]) == TalkStep(w, t, call)
  {
    assert [OnCall(t, call)][1..] == [];
  }

  lemma AnswerIsTrue(cfg: Config, w: World, after: seq<Action>, t: Caller, j: nat)
    requires Inv(cfg, w)
    ensures var end := Run(cfg, w, after);
            t in end.calls && end.calls[t].WaitDone? && end.calls[t].job == j ==>
              && end.calls[t] == WaitDone(j, end.calls[t].answer) && j < |end.jobs|
              && (end.calls[t].answer.Some? ==>
                    end.jobs[j].state.done && TrueAnswer(end.jobs[j], end.calls[t].answer.value))
  {
    RunKeeps(cfg, w, after);
    var end := Run(cfg, w, after);
    if t in end.calls {
      assert CallOk(cfg, end, end.calls[t]);
    }
  }

  /** Once a job has sent its signal to nobody, no `wait` on it, started before or
      after, is ever answered with its result. */
  lemma UnheardStaysUnheard(cfg: Config, before: seq<Action>, after: seq<Action>, t: Caller, j: nat)
    requires var w := Run(cfg, EMPTY, before);
             j < |w.jobs| && w.jobs[j].waiter == 3 && !cfg.always && !w.jobs[j].heard
    ensures var w := Run(cfg, Run(cfg, EMPTY, before), after);
            && j < |w.jobs| && w.jobs[j].state.status != Running && !w.jobs[j].state.done
            && (t in w.calls && w.calls[t].WaitDone? && w.calls[t].job == j ==> w.calls[t].answer.None?)
  {
    EmptyInv(cfg);
    RunKeeps(cfg, EMPTY, before);
    var w := Run(cfg, EMPTY, before);
    assert Lifecycle(cfg, w.jobs[j], w.now);
    JobAfterRun(cfg, w, after, j);
    AnswerIsTrue(cfg, w, after, t, j);
  }

  /** The exact condition under which the claim made for late waiters holds: when
      somebody was listening at the exit (or the sender stores regardless), no `wait`
      is answered empty, however late it starts or subscribes, save one that was in
      the middle of a poll at that moment and gives up in it. */
  lemma HeardIsNeverMissed(cfg: Config, before: seq<Action>, after: seq<Action>, t: Caller, j: nat)
    requires var w := Run(cfg, EMPTY, before);
             && j < |w.jobs| && w.jobs[j].waiter == 3 && (cfg.always || w.jobs[j].heard)
             && !AnsweredEmpty(w, t, j)
    ensures var w := Run(cfg, EMPTY, before);
            var end := Run(cfg, w, after);
            && (!MidPoll(w, t, j) ==> NotMissed(end, t, j))
            && (AnsweredEmpty(end, t, j) <==> exists k: nat :: GivesUpAt(cfg, w, after, k, t, j))
  {
    EmptyInv(cfg);
    RunKeeps(cfg, EMPTY, before);
    var w := Run(cfg, EMPTY, before);
    assert Lifecycle(cfg, w.jobs[j], w.now);
    EmptyIff(cfg, w, after, t, j);
  }

  /** A job is started, ends with nobody listening, and only then is waited for. */
  function JobStarts(id: Id): seq<Action> {
    [ OnCall(0, CallStart), OnCall(0, ReapBegin), OnCall(0, ReapEnd),
      OnCall(0, Spawn("true", 0, None, [], [])), OnCall(0, Insert(id)) ]
  }

  function JobEnds(): seq<Action> {
    [ OnJob(0, ProcessExits(WithCode(0))), OnJob(0, SetStatus), OnJob(0, SetFinished), OnJob(0, SendDone) ]
  }

  /** The claim fails for the sender the code uses: here is a run in which a
      waiter that arrives late comes back empty from a job that has ended, its
      id still in the table. */
  lemma LateWaiterCanMiss(cfg: Config, id: Id)
    requires !cfg.always
    ensures exists actions ::
              var w := Run(cfg, EMPTY, actions);
              && |w.jobs| == 1 && w.jobs[0].state.status == Exited(0) && id in w.table && w.table[id] == 0
              && 1 in w.calls && w.calls[1] == WaitDone(0, None)
  {
    var actions := EndedUnheard(cfg, id);
    actions := LateArrival(cfg, actions, id);
    actions := LateStep(cfg, actions, Look, WaitLooked(0));
    actions := LateStep(cfg, actions, TimeOut, WaitDone(0, None));
  }

  lemma EndedUnheard(cfg: Config, id: Id) returns (actions: seq<Action>)
    requires !cfg.always
    ensures var w := Run(cfg, EMPTY, actions);
            && |w.jobs| == 1 && w.jobs[0].state.status == Exited(0) && !w.jobs[0].state.done
            && w.locked.None? && id in w.table && w.table[id] == 0 && 1 !in w.calls
  {
    actions := JobStarts(id) + JobEnds();
    RunConcat(cfg, EMPTY, JobStarts(id), JobEnds());
    StartRun(cfg, id);
    EndRun(cfg, Run(cfg, EMPTY, JobStarts(id)));
  }

  lemma LateArrival(cfg: Config, actions: seq<Action>, id: Id) returns (longer: seq<Action>)
    requires var w := Run(cfg, EMPTY, actions);
             |w.jobs| == 1 && w.locked.None? && id in w.table && w.table[id] == 0 && 1 !in w.calls
    ensures var w, w' := Run(cfg, EMPTY, actions), Run(cfg, EMPTY, longer);
            && |w'.jobs| == 1 && w'.table == w.table && 1 in w'.calls && w'.calls[1] == WaitListening(0)
            && w'.jobs[0].state.done == w.jobs[0].state.done && w'.jobs[0].state.status == w.jobs[0].state.status
  {
    longer := LateStep(cfg, actions, CallWait(id), WaitCalled(id));
    longer := LateStep(cfg, longer, Lookup, WaitGot(0));
    longer := LateStep(cfg, longer, Subscribe, WaitListening(0));
  }

  /** Caller 1 takes its next step at the end of a run with one job in it. */
  lemma LateStep(cfg: Config, actions: seq<Action>, call: CallAction, c: Call) returns (longer: seq<Action>)
    requires var w := Run(cfg, EMPTY, actions);
             && |w.jobs| == 1
             && (if 1 in w.calls then NextCall(w, w.calls[1], call) == c else BeginCall(call) == Some(c))
    requires !call.ReapBegin? && !call.ReapCheck? && !call.ReapEnd? && !call.Spawn? && !call.Insert?
    ensures var w, w' := Run(cfg, EMPTY, actions), Run(cfg, EMPTY, longer);
            && |w'.jobs| == 1 && w'.table == w.table && w'.locked == w.locked
            && 1 in w'.calls && w'.calls[1] == c
            && w'.jobs[0].state.done == w.jobs[0].state.done && w'.jobs[0].state.status == w.jobs[0].state.status
  {
    longer := actions + [OnCall(1, call)];
    RunConcat(cfg, EMPTY, actions, [OnCall(1, call)]);
    var w := Run(cfg, EMPTY, actions);
    assert CallerStep(cfg, w, 1, call) == TalkStep(w, 1, call);
    assert Run(cfg, w, [OnCall(1, call)]) == TalkStep(w, 1, call) by {
      assert [OnCall(1, call)][1..] == [];
    }
  }

  lemma StartRun(cfg: Config, id: Id)
    ensures var w := Run(cfg, EMPTY, JobStarts(id));
            && w.jobs == [Spawned("true", 0, None, [], [])]
            && w.locked.None? && w.table == map[id := 0] && w.calls.Keys == {0}
  {
    var acts := JobStarts(id);
    var w1 := EMPTY.(calls := map[0 := Starting]);
    var w2 := w1.(calls := map[0 := Reaping(0, {})], locked := Some(0));
    var w3 := w1.(calls := map[0 := Reaped]);
    var w4 := w3.(calls := map[0 := SpawnedJob(0)], jobs := [Spawned("true", 0, None, [], [])]);
    var w5 := w4.(calls := map[0 := Started(id)], table := map[id := 0], issued := map[id := 0]);
    assert w1.table.Keys == {};
    assert Step(cfg, EMPTY, acts[0]) == w1;
    assert Step(cfg, w1, acts[1]) == w2;
    assert Step(cfg, w2, acts[2]) == w3;
    assert Step(cfg, w3, acts[3]) == w4;
    assert Step(cfg, w4, acts[4]) == w5;
    RunOfTrace(cfg, [EMPTY, w1, w2, w3, w4, w5], acts);
  }

  lemma EndRun(cfg: Config, w: World)
    requires !cfg.always && w.jobs == [Spawned("true", 0, None, [], [])]
    ensures var w' := Run(cfg, w, JobEnds());
            && w' == w.(jobs := w'.jobs) && |w'.jobs| == 1
            && w'.jobs[0].state.status == Exited(0) && !w'.jobs[0].state.done
  {
    var acts := JobEnds();
    var w1 := Step(cfg, w, acts[0]);
    var w2 := Step(cfg, w1, acts[1]);
    var w3 := Step(cfg, w2, acts[2]);
    var w4 := Step(cfg, w3, acts[3]);
    assert w1.jobs[0].exit == Some(WithCode(0)) && w2.jobs[0].waiter == 1 && w3.jobs[0].waiter == 2;
    RunOfTrace(cfg, [w, w1, w2, w3, w4], acts);
  }
}
