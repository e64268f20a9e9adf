/** Any number of workers against one job board. A run is a list of steps, one per store call; a call's
    answer may be lost after it took effect, or the call may never take effect. Executions are the
    claims that a worker holds in memory, with the lease version it last heard of. */
module LeaseProtocol {
  import opened Common
  import opened Leases
  import opened Backoff

  datatype Settings = Settings(leaseDuration: int, initial: int, max: int, maxAttempts: int)

  /** What a worker is configured with, once NewPersistentWorker has put in its defaults. */
  type Config = c: Settings | c.leaseDuration > 0 && 0 < c.initial <= c.max && c.maxAttempts > 0
    witness Settings(1, 1, 1, 1)

  datatype Phase = Working | LeaseLost | Ended

  /** One executeJob: `version` is the renewal loop's currentVersion; `born` is where the log records the claim. */
  datatype Execution = Execution(
    job: nat, owner: string, version: nat, attempts: nat, maxAttempts: int, phase: Phase, born: nat)

  datatype ErrorClass = Temporary | PermanentChallenge | Permanent

  datatype Ending = Canceled(cause: string) | Succeeds(result: string) | Fails(kind: ErrorClass, message: string)

  datatype Fate = Answered | Lost | Unsent

  /** `at` is the clock reading sent along; `later` is the second reading that executeJob takes. */
  datatype Step =
    | Creating(domain: string, key: string, at: int, fate: Fate)
    | Claiming(owner: string, at: int, fate: Fate)
    | Renewing(run: nat, at: int, fate: Fate)
    | Finishing(run: nat, at: int, later: int, ending: Ending, fate: Fate)

  /** What the store did to a job: granted a lease version (by a claim or a renewal), or applied the last
      update of execution `run`. */
  datatype Event =
    | Grant(job: nat, version: nat, claim: bool)
    | Settle(job: nat, version: nat, run: nat, status: Status)

  datatype World = World(board: Board, runs: seq<Execution>, log: seq<Event>)

  const BEGINNING := World(EMPTY, [], [])

  // ---- the steps ----

  function CreateIn(cfg: Config, w: World, domain: string, key: string, at: int): World {
    w.(board := Create(w.board, domain, key, cfg.maxAttempts, at).0)
  }

  function NewRun(w: World, id: nat, owner: string): Execution
    requires id in w.board.jobs
  {
    var job := w.board.jobs[id];
    Execution(id, owner, job.version + 1, job.attempts + 1, job.maxAttempts, Working, |w.log|)
  }

  function ClaimIn(cfg: Config, w: World, owner: string, at: int, fate: Fate): World {
    match FirstClaimable(w.board, w.board.order, at)
    case None => w
    case Some(id) =>
      World(Claim(w.board, owner, at, at + cfg.leaseDuration).0,
            if fate.Answered? then w.runs + [NewRun(w, id, owner)] else w.runs,
            w.log + [Grant(id, w.board.jobs[id].version + 1, true)])
  }

  /** One turn of the renewal loop. A refused or failed renewal ends the loop with an error. */
  function RenewIn(cfg: Config, w: World, run: nat, at: int, fate: Fate): World
    requires run < |w.runs|
  {
    var e := w.runs[run];
    var (board, version, ok) := Renew(w.board, e.job, e.owner, at, e.version, at + cfg.leaseDuration);
    if !ok then w.(runs := w.runs[run := e.(phase := LeaseLost)])
    else
      World(board,
            w.runs[run := if fate.Answered? then e.(version := version) else e.(phase := LeaseLost)],
            w.log + [Grant(e.job, version, false)])
  }

  /** The update that executeJob sends when the reconciler returns, if it sends one. */
  function LastUpdate(cfg: Config, e: Execution, ending: Ending, at: int, later: int): Option<JobUpdate> {
    if ending.Canceled? then
      Some(JobUpdate(e.job, e.owner, at, e.version, Queued, Some(later), ending.cause, ""))
    else if e.phase.LeaseLost? then None
    else if ending.Succeeds? then
      Some(JobUpdate(e.job, e.owner, at, e.version, Succeeded, None, "", ending.result))
    else
      var limit := if e.maxAttempts <= 0 then cfg.maxAttempts else e.maxAttempts;
      if e.attempts < limit && !ending.kind.Permanent? then
        Some(JobUpdate(e.job, e.owner, at, e.version, Retrying, Some(later + Delay(cfg.initial, cfg.max, e.attempts)),
          ending.message, ""))
      else
        Some(JobUpdate(e.job, e.owner, at, e.version, Failed, None, ending.message, ""))
  }

  function FinishIn(cfg: Config, w: World, run: nat, ending: Ending, at: int, later: int, fate: Fate): World
    requires run < |w.runs|
  {
    var e := w.runs[run];
    var ended := w.(runs := w.runs[run := e.(phase := Ended)]);
    var update := LastUpdate(cfg, e, ending, at, later);
    if update.None? || fate.Unsent? then ended
    else
      var (board, ok) := Update(w.board, update.value);
      if !ok then ended
      else ended.(board := board, log := w.log + [Settle(e.job, e.version, run, update.value.status)])
  }

  /** One step. Steps of executions that do not exist, have ended or stopped renewing change nothing. */
  function Next(cfg: Config, w: World, step: Step): World {
    match step
    case Creating(domain, key, at, fate) => if fate.Unsent? then w else CreateIn(cfg, w, domain, key, at)
    case Claiming(owner, at, fate) => if fate.Unsent? then w else ClaimIn(cfg, w, owner, at, fate)
    case Renewing(run, at, fate) =>
      if run >= |w.runs| || !w.runs[run].phase.Working? then w
      else if fate.Unsent? then w.(runs := w.runs[run := w.runs[run].(phase := LeaseLost)])
      else RenewIn(cfg, w, run, at, fate)
    case Finishing(run, at, later, ending, fate) =>
      if run >= |w.runs| || w.runs[run].phase.Ended? then w
      else FinishIn(cfg, w, run, ending, at, later, fate)
  }

  function WorldAfter(cfg: Config, steps: seq<Step>): World {
    if steps == [] then BEGINNING else Next(cfg, WorldAfter(cfg, steps[..|steps| - 1]), steps[|steps| - 1])
  }
}
