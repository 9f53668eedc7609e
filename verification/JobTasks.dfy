/** The exit waiter of `src/exec_ops.rs` on a job's shared state. */
module JobTasks {
  import opened Wrappers
  import opened JobTable
  import opened JobProtocol

  /** The task that waits for the child, run alone once the process has ended: the
      shared state ends as the waiter's three steps of the protocol leave it. */
  method ExitWaiter(cell: JobCell, exit: Exit, now: nat, cfg: Config, ghost job: Job)
    requires !cfg.always && job.state == cell.View() && job.waiter == 0 && job.exit == Some(exit)
    modifies cell
    ensures var after := JobStep(cfg, JobStep(cfg, JobStep(cfg, job, now, SetStatus), now, SetFinished), now, SendDone);
            && cell.View() == after.state && after.waiter == 3
            && (cell.done <==> old(cell.done) || old(cell.receivers) != {})
            && Reports(cell.status, exit) && cell.finishedAt == Some(now) && cell.output == old(cell.output)
  {
    cell.SetStatus(exit);
    cell.SetFinished(now);
    cell.SendDone();
  }
}
