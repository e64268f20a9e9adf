/** What holds in every run of the lease protocol. Fencing needs nothing of the clocks; exclusion needs
    that no renewal acts on a reading older than that of a claim before it. */
module LeaseSafety {
  import opened Common
  import opened Leases
  import opened LeaseProtocol

  // ---- fencing ----

  /** Nobody claimed the job between two places of the log. */
  ghost predicate Unclaimed(log: seq<Event>, job: nat, from: nat, to: nat)
    requires to <= |log|
  {
    forall q :: from < q < to ==> !IsClaim(log[q], job)
  }

  predicate IsClaim(ev: Event, job: nat) { ev.Grant? && ev.claim && ev.job == job }

  function Version(w: World, job: nat): nat
    requires job in w.board.jobs
  {
    w.board.jobs[job].version
  }

  /** An execution holds the job's present version exactly while nobody has claimed the job after it, unless
      its renewals failed; and the present version alone tells who the lease owner is. */
  ghost predicate RunOk(w: World, e: Execution) {
    && e.job in w.board.jobs
    && e.version <= Version(w, e.job)
    && e.born < |w.log| && IsClaim(w.log[e.born], e.job)
    && (e.version == Version(w, e.job) ==> Unclaimed(w.log, e.job, e.born, |w.log|))
    && (e.phase.Working? && Unclaimed(w.log, e.job, e.born, |w.log|) ==> e.version == Version(w, e.job))
    && (e.version == Version(w, e.job) && w.board.jobs[e.job].status == Running ==>
         w.board.jobs[e.job].owner == e.owner)
  }

  ghost predicate RunsOk(w: World) {
    && (forall i :: 0 <= i < |w.runs| ==> RunOk(w, w.runs[i]))
    && (forall i, j :: 0 <= i < j < |w.runs| && w.runs[i].job == w.runs[j].job ==>
         w.runs[i].version != w.runs[j].version)
  }

  /** A settlement is by an execution after whose claim nobody claimed the job, and it ends the version. */
  ghost predicate EventOk(w: World, q: nat)
    requires q < |w.log|
  {
    var ev := w.log[q];
    && ev.job in w.board.jobs
    && ev.version <= Version(w, ev.job)
    && (ev.Settle? ==>
        && (ev.version == Version(w, ev.job) ==> w.board.jobs[ev.job].status != Running)
        && ev.run < |w.runs| && w.runs[ev.run].job == ev.job
        && w.runs[ev.run].born < q && Unclaimed(w.log, ev.job, w.runs[ev.run].born, q))
  }

  ghost predicate EventsOk(w: World) { forall q :: 0 <= q < |w.log| ==> EventOk(w, q) }

  /** Of two events of one job the later has the greater version, except that a settlement carries the
      version last granted. */
  predicate Ascends(early: Event, late: Event) {
    early.job == late.job ==>
      if late.Settle? && early.Grant? then early.version <= late.version else early.version < late.version
  }

  ghost predicate Ascending(log: seq<Event>) {
    forall p, q :: 0 <= p < q < |log| ==> Ascends(log[p], log[q])
  }

  function Claims(log: seq<Event>, job: nat): nat {
    if log == [] then 0
    else Claims(log[..|log| - 1], job) + if IsClaim(log[|log| - 1], job) then 1 else 0
  }

  ghost predicate Counted(w: World) {
    forall job :: job in w.board.jobs ==> w.board.jobs[job].attempts == Claims(w.log, job)
  }

  ghost predicate Fenced(w: World) {
    RunsOk(w) && EventsOk(w) && Ascending(w.log)
  }

  /** Adding one event at the end of the log: the earlier events stay as they were. */
  lemma AppendAscends(w: World, v: World, ev: Event)
    requires EventsOk(w) && Ascending(w.log) && v.log == w.log + [ev]
    requires ev.job in w.board.jobs
    requires ev.Grant? ==> ev.version == Version(w, ev.job) + 1
    requires ev.Settle? ==> ev.version == Version(w, ev.job) && w.board.jobs[ev.job].status == Running
    ensures Ascending(v.log)
  {
    forall p, q | 0 <= p < q < |v.log| ensures Ascends(v.log[p], v.log[q]) {
      assert EventOk(w, p);
    }
  }

  /** Versions and executions only grow, and no job starts running without a new version. */
  ghost predicate Grows(w: World, v: World) {
    && w.log <= v.log
    && (forall job :: job in w.board.jobs ==>
        && job in v.board.jobs && Version(w, job) <= Version(v, job)
        && (Version(w, job) == Version(v, job) && v.board.jobs[job].status == Running ==>
             w.board.jobs[job].status == Running))
    && |w.runs| <= |v.runs|
    && (forall i :: 0 <= i < |w.runs| ==> v.runs[i].job == w.runs[i].job && v.runs[i].born == w.runs[i].born)
  }

  lemma EventsStay(w: World, v: World)
    requires EventsOk(w) && Grows(w, v)
    requires forall q :: |w.log| <= q < |v.log| ==> EventOk(v, q)
    ensures EventsOk(v)
  {
    forall q | 0 <= q < |v.log| ensures EventOk(v, q) {
      if q < |w.log| {
        assert EventOk(w, q);
      }
    }
  }

  /** Job `id` alone is changed, and receives version `version + 1`. */
  ghost predicate Grants(w: World, v: World, id: nat, claim: bool) {
    && id in w.board.jobs
    && v.board.jobs.Keys == w.board.jobs.Keys
    && (forall other :: other in w.board.jobs && other != id ==> v.board.jobs[other] == w.board.jobs[other])
    && Version(v, id) == Version(w, id) + 1
    && v.log == w.log + [Grant(id, Version(v, id), claim)]
  }

  lemma UnclaimedAppend(log: seq<Event>, ev: Event, job: nat, from: nat)
    requires from < |log|
    ensures Unclaimed(log + [ev], job, from, |log| + 1) <==> Unclaimed(log, job, from, |log|) && !IsClaim(ev, job)
  {
    var more := log + [ev];
    assert more[|log|] == ev;
    assert forall q :: 0 <= q < |log| ==> more[q] == log[q];
    if Unclaimed(more, job, from, |log| + 1) {
      forall q | from < q < |log| ensures !IsClaim(log[q], job) { assert !IsClaim(more[q], job); }
    }
  }

  lemma GrantKeepsRun(w: World, v: World, id: nat, claim: bool, e: Execution)
    requires Grants(w, v, id, claim) && RunOk(w, e)
    requires e.job == id && !claim ==> e.version != Version(w, id)
    ensures RunOk(v, e)
  {
    UnclaimedAppend(w.log, Grant(id, Version(v, id), claim), e.job, e.born);
  }

  lemma ClaimKeepsRuns(cfg: Config, w: World, owner: string, at: int, fate: Fate)
    requires RunsOk(w)
    ensures RunsOk(ClaimIn(cfg, w, owner, at, fate))
  {
    var v := ClaimIn(cfg, w, owner, at, fate);
    var first := FirstClaimable(w.board, w.board.order, at);
    if first.Some? {
      forall i | 0 <= i < |w.runs| ensures RunOk(v, w.runs[i]) {
        assert RunOk(w, w.runs[i]);
        GrantKeepsRun(w, v, first.value, true, w.runs[i]);
      }
    } else {
      assert forall e :: RunOk(w, e) ==> RunOk(v, e);
    }
  }

  lemma RenewKeepsRuns(cfg: Config, w: World, run: nat, at: int, fate: Fate)
    requires RunsOk(w) && run < |w.runs| && w.runs[run].phase.Working?
    ensures RunsOk(RenewIn(cfg, w, run, at, fate))
  {
    var v := RenewIn(cfg, w, run, at, fate);
    assert RunOk(w, w.runs[run]);
    forall i | 0 <= i < |w.runs| ensures RunOk(v, v.runs[i]) {
      assert RunOk(w, w.runs[i]);
      if v.log == w.log {
      } else if i != run {
        GrantKeepsRun(w, v, w.runs[run].job, false, w.runs[i]);
      } else {
        UnclaimedAppend(w.log, v.log[|w.log|], w.runs[i].job, w.runs[i].born);
      }
    }
  }

  lemma FinishKeepsRuns(cfg: Config, w: World, run: nat, ending: Ending, at: int, later: int, fate: Fate)
    requires RunsOk(w) && run < |w.runs|
    ensures RunsOk(FinishIn(cfg, w, run, ending, at, later, fate))
  {
    var v := FinishIn(cfg, w, run, ending, at, later, fate);
    forall i | 0 <= i < |w.runs| ensures RunOk(v, v.runs[i]) {
      assert RunOk(w, w.runs[i]);
      if v.log != w.log { UnclaimedAppend(w.log, v.log[|w.log|], w.runs[i].job, w.runs[i].born); }
    }
  }

  lemma ClaimGrows(cfg: Config, w: World, owner: string, at: int, fate: Fate)
    requires EventsOk(w)
    ensures var v := ClaimIn(cfg, w, owner, at, fate);
      && Grows(w, v)
      && (forall q :: |w.log| <= q < |v.log| ==> EventOk(v, q))
      && (v.log != w.log ==> GrantedNext(w, v.log))
  {
  }

  /** The log has one more grant, of the next version of its job. */
  ghost predicate GrantedNext(w: World, log: seq<Event>) {
    && |log| == |w.log| + 1 && log == w.log + [log[|w.log|]]
    && var ev := log[|w.log|]; ev.Grant? && ev.job in w.board.jobs && ev.version == Version(w, ev.job) + 1
  }

  lemma GrantAscends(w: World, v: World)
    requires EventsOk(w) && Ascending(w.log) && GrantedNext(w, v.log)
    ensures Ascending(v.log)
  {
    AppendAscends(w, v, v.log[|w.log|]);
  }

  lemma ClaimKeepsFenced(cfg: Config, w: World, owner: string, at: int, fate: Fate)
    requires Fenced(w)
    ensures Fenced(ClaimIn(cfg, w, owner, at, fate))
  {
    var v := ClaimIn(cfg, w, owner, at, fate);
    FencedParts(w);
    hide *;
    ClaimKeepsRuns(cfg, w, owner, at, fate);
    ClaimGrows(cfg, w, owner, at, fate);
    EventsStay(w, v);
    if v.log != w.log { GrantAscends(w, v); }
    Assemble(v);
  }

  lemma FencedParts(w: World)
    requires Fenced(w)
    ensures RunsOk(w) && EventsOk(w) && Ascending(w.log)
  {
  }

  lemma Assemble(w: World)
    requires RunsOk(w) && EventsOk(w) && Ascending(w.log)
    ensures Fenced(w)
  {
  }

  lemma RenewGrows(cfg: Config, w: World, run: nat, at: int, fate: Fate)
    requires EventsOk(w) && run < |w.runs|
    ensures var v := RenewIn(cfg, w, run, at, fate);
      && Grows(w, v)
      && (forall q :: |w.log| <= q < |v.log| ==> EventOk(v, q))
      && (v.log != w.log ==> GrantedNext(w, v.log))
  {
  }

  lemma RenewKeepsFenced(cfg: Config, w: World, run: nat, at: int, fate: Fate)
    requires Fenced(w) && run < |w.runs| && w.runs[run].phase.Working?
    ensures Fenced(RenewIn(cfg, w, run, at, fate))
  {
    var v := RenewIn(cfg, w, run, at, fate);
    FencedParts(w);
    hide *;
    RenewKeepsRuns(cfg, w, run, at, fate);
    RenewGrows(cfg, w, run, at, fate);
    EventsStay(w, v);
    if v.log != w.log { GrantAscends(w, v); }
    Assemble(v);
  }

  /** The log has one more settlement, of a running job's present version. */
  ghost predicate SettledNow(w: World, log: seq<Event>) {
    && |log| == |w.log| + 1 && log == w.log + [log[|w.log|]]
    && var ev := log[|w.log|];
       ev.Settle? && ev.job in w.board.jobs && ev.version == Version(w, ev.job)
         && w.board.jobs[ev.job].status == Running
  }

  lemma FinishGrows(cfg: Config, w: World, run: nat, ending: Ending, at: int, later: int, fate: Fate)
    requires run < |w.runs| && RunOk(w, w.runs[run])
    ensures var v := FinishIn(cfg, w, run, ending, at, later, fate);
      Grows(w, v) && (v.log != w.log ==> SettledNow(w, v.log) && EventOk(v, |w.log|))
  {
    var v := FinishIn(cfg, w, run, ending, at, later, fate);
    if v.log != w.log { UnclaimedAppend(w.log, v.log[|w.log|], w.runs[run].job, w.runs[run].born); }
  }

  lemma FinishKeepsFenced(cfg: Config, w: World, run: nat, ending: Ending, at: int, later: int, fate: Fate)
    requires Fenced(w) && run < |w.runs|
    ensures Fenced(FinishIn(cfg, w, run, ending, at, later, fate))
  {
    var v := FinishIn(cfg, w, run, ending, at, later, fate);
    FencedParts(w);
    assert RunOk(w, w.runs[run]);
    FinishGrows(cfg, w, run, ending, at, later, fate);
    NewEventIsLast(w, v);
    hide *;
    FinishKeepsRuns(cfg, w, run, ending, at, later, fate);
    EventsStay(w, v);
    if v.log != w.log { SettlementAscends(w, v); }
    Assemble(v);
  }

  lemma NewEventIsLast(w: World, v: World)
    requires v.log != w.log ==> SettledNow(w, v.log) && EventOk(v, |w.log|)
    ensures forall q :: |w.log| <= q < |v.log| ==> EventOk(v, q)
  {
  }

  lemma SettlementAscends(w: World, v: World)
    requires EventsOk(w) && Ascending(w.log) && SettledNow(w, v.log)
    ensures Ascending(v.log)
  {
    AppendAscends(w, v, v.log[|w.log|]);
  }

  lemma AddKeepsFenced(w: World, v: World, id: nat)
    requires Fenced(w) && id !in w.board.jobs && v == w.(board := v.board)
    requires v.board.jobs.Keys == w.board.jobs.Keys + {id}
    requires forall job :: job in w.board.jobs ==> v.board.jobs[job] == w.board.jobs[job]
    ensures Fenced(v)
  {
    forall i | 0 <= i < |w.runs| ensures RunOk(v, w.runs[i]) { assert RunOk(w, w.runs[i]); }
    EventsStay(w, v);
  }

  lemma CreateIsNew(b: Board, domain: string, key: string, maxAttempts: int, at: int)
    requires Orderly(b) && (domain, key) !in b.keys
    ensures b.next + 1 !in b.jobs
    ensures var c := Create(b, domain, key, maxAttempts, at).0;
      c.jobs.Keys == b.jobs.Keys + {b.next + 1} && (forall job :: job in b.jobs ==> c.jobs[job] == b.jobs[job])
  {
    assert b.next + 1 !in b.order;
  }

  lemma CreateKeepsFenced(cfg: Config, w: World, domain: string, key: string, at: int)
    requires Fenced(w) && Orderly(w.board)
    ensures Fenced(CreateIn(cfg, w, domain, key, at))
  {
    if (domain, key) !in w.board.keys {
      CreateIsNew(w.board, domain, key, cfg.maxAttempts, at);
      AddKeepsFenced(w, CreateIn(cfg, w, domain, key, at), w.board.next + 1);
    }
  }

  lemma StopKeepsFenced(w: World, run: nat)
    requires Fenced(w) && run < |w.runs|
    ensures Fenced(w.(runs := w.runs[run := w.runs[run].(phase := LeaseLost)]))
  {
    var v := w.(runs := w.runs[run := w.runs[run].(phase := LeaseLost)]);
    forall i | 0 <= i < |w.runs| ensures RunOk(v, v.runs[i]) { assert RunOk(w, w.runs[i]); }
    EventsStay(w, v);
  }

  lemma NextKeepsFenced(cfg: Config, w: World, step: Step)
    requires Fenced(w) && Orderly(w.board)
    ensures Fenced(Next(cfg, w, step))
  {
    match step
    case Creating(domain, key, at, fate) => CreateKeepsFenced(cfg, w, domain, key, at);
    case Claiming(owner, at, fate) => ClaimKeepsFenced(cfg, w, owner, at, fate);
    case Finishing(run, at, later, ending, fate) =>
      if run < |w.runs| { FinishKeepsFenced(cfg, w, run, ending, at, later, fate); }
    case Renewing(run, at, fate) =>
      if run < |w.runs| && w.runs[run].phase.Working? {
        if fate.Unsent? { StopKeepsFenced(w, run); } else { RenewKeepsFenced(cfg, w, run, at, fate); }
      }
  }

  // ---- the board itself ----

  lemma ClaimInClaims(cfg: Config, w: World, owner: string, at: int, fate: Fate)
    ensures ClaimIn(cfg, w, owner, at, fate).board == Claim(w.board, owner, at, at + cfg.leaseDuration).0
  {
  }

  lemma RenewInRenews(cfg: Config, w: World, run: nat, at: int, fate: Fate)
    requires run < |w.runs|
    ensures var e := w.runs[run];
      RenewIn(cfg, w, run, at, fate).board == Renew(w.board, e.job, e.owner, at, e.version, at + cfg.leaseDuration).0
  {
  }

  lemma FinishInUpdates(cfg: Config, w: World, run: nat, ending: Ending, at: int, later: int, fate: Fate)
    requires run < |w.runs|
    ensures var (b, u) := (FinishIn(cfg, w, run, ending, at, later, fate).board,
      LastUpdate(cfg, w.runs[run], ending, at, later));
      b == w.board || (u.Some? && b == Update(w.board, u.value).0)
  {
  }

  /** Which call, if any, a step makes of the store. */
  lemma NextBoard(cfg: Config, w: World, step: Step)
    ensures var b := Next(cfg, w, step).board;
      || b == w.board
      || (step.Creating? && b == Create(w.board, step.domain, step.key, cfg.maxAttempts, step.at).0)
      || (step.Claiming? && b == Claim(w.board, step.owner, step.at, step.at + cfg.leaseDuration).0)
      || (step.Renewing? && step.run < |w.runs|
          && b == Renew(w.board, w.runs[step.run].job, w.runs[step.run].owner, step.at, w.runs[step.run].version,
               step.at + cfg.leaseDuration).0)
      || (step.Finishing? && step.run < |w.runs|
          && LastUpdate(cfg, w.runs[step.run], step.ending, step.at, step.later).Some?
          && b == Update(w.board, LastUpdate(cfg, w.runs[step.run], step.ending, step.at, step.later).value).0)
  {
    match step
    case Creating(_, _, _, _) =>
    case Claiming(owner, at, fate) => ClaimInClaims(cfg, w, owner, at, fate);
    case Renewing(run, at, fate) => if run < |w.runs| { RenewInRenews(cfg, w, run, at, fate); }
    case Finishing(run, at, later, ending, fate) => if run < |w.runs| {
      FinishInUpdates(cfg, w, run, ending, at, later, fate);
    }
  }

  lemma NextKeepsOrder(cfg: Config, w: World, step: Step)
    requires Orderly(w.board)
    ensures Orderly(Next(cfg, w, step).board)
  {
    hide *;
    NextBoard(cfg, w, step);
    match step
    case Creating(domain, key, at, _) => CreateKeepsOrder(w.board, domain, key, cfg.maxAttempts, at);
    case Claiming(owner, at, _) => ClaimKeepsOrder(w.board, owner, at, at + cfg.leaseDuration);
    case Renewing(run, at, _) =>
      if run < |w.runs| {
        RenewKeepsOrder(w.board, w.runs[run].job, w.runs[run].owner, at, w.runs[run].version, at + cfg.leaseDuration);
      }
    case Finishing(run, at, later, ending, _) =>
      if run < |w.runs| && LastUpdate(cfg, w.runs[run], ending, at, later).Some? {
        UpdateKeepsOrder(w.board, LastUpdate(cfg, w.runs[run], ending, at, later).value);
      }
  }

  lemma {:induction false} BoardIsOrderly(cfg: Config, steps: seq<Step>)
    ensures Orderly(WorldAfter(cfg, steps).board)
  {
    if steps != [] {
      BoardIsOrderly(cfg, steps[..|steps| - 1]);
      NextKeepsOrder(cfg, WorldAfter(cfg, steps[..|steps| - 1]), steps[|steps| - 1]);
    }
  }

  /** Every reachable world is fenced, whatever the workers' clocks show and whatever answers get lost. */
  lemma {:induction false} WorldIsFenced(cfg: Config, steps: seq<Step>)
    ensures Fenced(WorldAfter(cfg, steps))
  {
    if steps != [] {
      WorldIsFenced(cfg, steps[..|steps| - 1]);
      BoardIsOrderly(cfg, steps[..|steps| - 1]);
      NextKeepsFenced(cfg, WorldAfter(cfg, steps[..|steps| - 1]), steps[|steps| - 1]);
    }
  }

  // ---- what fencing means for an observer of the log ----

  /** An update is applied only for an execution after whose claim nobody claimed the job. */
  lemma SettledOnlyByLastClaim(cfg: Config, steps: seq<Step>, q: nat) returns (born: nat)
    requires q < |WorldAfter(cfg, steps).log| && WorldAfter(cfg, steps).log[q].Settle?
    ensures var w := WorldAfter(cfg, steps);
      && w.log[q].run < |w.runs| && born == w.runs[w.log[q].run].born
      && born < q && IsClaim(w.log[born], w.log[q].job)
      && forall r :: born < r < q ==> !IsClaim(w.log[r], w.log[q].job)
  {
    WorldIsFenced(cfg, steps);
    var w := WorldAfter(cfg, steps);
    assert EventOk(w, q);
    born := w.runs[w.log[q].run].born;
    assert RunOk(w, w.runs[w.log[q].run]);
  }

  /** Lease versions granted for a job strictly increase, and each version settles the job at most once. */
  lemma VersionsAreUsedOnce(cfg: Config, steps: seq<Step>, p: nat, q: nat)
    requires p < q < |WorldAfter(cfg, steps).log|
    requires WorldAfter(cfg, steps).log[p].job == WorldAfter(cfg, steps).log[q].job
    ensures var (early, late) := (WorldAfter(cfg, steps).log[p], WorldAfter(cfg, steps).log[q]);
      early.version < late.version || (early.Grant? && late.Settle? && early.version == late.version)
  {
    WorldIsFenced(cfg, steps);
    assert Ascends(WorldAfter(cfg, steps).log[p], WorldAfter(cfg, steps).log[q]);
  }

  /** The last update of an execution that has not ended is applied exactly if one is sent and arrives, the
      execution has the job's present version, and the lease has not run out. While its renewals go well it
      has the present version exactly if nobody has claimed the job since. Workers of one process share their
      owner name; the versions alone keep them apart. */
  lemma UpdateAppliesIff(cfg: Config, steps: seq<Step>, run: nat, ending: Ending, at: int, later: int, fate: Fate)
    requires run < |WorldAfter(cfg, steps).runs| && !WorldAfter(cfg, steps).runs[run].phase.Ended?
    ensures var w := WorldAfter(cfg, steps);
      var e := w.runs[run];
      && e.job in w.board.jobs
      && ((FinishIn(cfg, w, run, ending, at, later, fate).log != w.log) <==>
          && (e.phase.Working? || ending.Canceled?) && !fate.Unsent?
          && e.version == Version(w, e.job) && Unexpired(w.board.jobs[e.job], at))
      && (e.version == Version(w, e.job) ==> Unclaimed(w.log, e.job, e.born, |w.log|))
      && (e.phase.Working? && Unclaimed(w.log, e.job, e.born, |w.log|) ==> e.version == Version(w, e.job))
  {
    WorldIsFenced(cfg, steps);
    assert RunOk(WorldAfter(cfg, steps), WorldAfter(cfg, steps).runs[run]);
  }

  lemma {:induction false} UnknownIsUnclaimed(log: seq<Event>, job: nat)
    requires forall q :: 0 <= q < |log| ==> log[q].job != job
    ensures Claims(log, job) == 0
  {
    if log != [] { UnknownIsUnclaimed(log[..|log| - 1], job); }
  }

  lemma CreateKeepsCounted(cfg: Config, w: World, domain: string, key: string, at: int)
    requires EventsOk(w) && Orderly(w.board) && Counted(w)
    ensures Counted(CreateIn(cfg, w, domain, key, at))
  {
    if (domain, key) !in w.board.keys {
      CreateIsNew(w.board, domain, key, cfg.maxAttempts, at);
      forall q | 0 <= q < |w.log| ensures w.log[q].job != w.board.next + 1 { assert EventOk(w, q); }
      UnknownIsUnclaimed(w.log, w.board.next + 1);
    }
  }

  lemma NextKeepsCounted(cfg: Config, w: World, step: Step)
    requires EventsOk(w) && Orderly(w.board) && Counted(w)
    ensures Counted(Next(cfg, w, step))
  {
    if step.Creating? {
      CreateKeepsCounted(cfg, w, step.domain, step.key, step.at);
    } else {
      OthersKeepCounted(cfg, w, step);
    }
  }

  lemma AppendCounts(log: seq<Event>, ev: Event)
    ensures forall job :: Claims(log + [ev], job) == Claims(log, job) + if IsClaim(ev, job) then 1 else 0
  {
    assert (log + [ev])[..|log|] == log;
  }

  lemma ClaimKeepsCounted(cfg: Config, w: World, owner: string, at: int, fate: Fate)
    requires Counted(w)
    ensures Counted(ClaimIn(cfg, w, owner, at, fate))
  {
    var v := ClaimIn(cfg, w, owner, at, fate);
    if v.log != w.log { AppendCounts(w.log, v.log[|w.log|]); }
  }

  lemma RenewKeepsCounted(cfg: Config, w: World, run: nat, at: int, fate: Fate)
    requires Counted(w) && run < |w.runs|
    ensures Counted(RenewIn(cfg, w, run, at, fate))
  {
    var v := RenewIn(cfg, w, run, at, fate);
    if v.log != w.log { AppendCounts(w.log, v.log[|w.log|]); }
  }

  lemma FinishKeepsCounted(cfg: Config, w: World, run: nat, ending: Ending, at: int, later: int, fate: Fate)
    requires Counted(w) && run < |w.runs|
    ensures Counted(FinishIn(cfg, w, run, ending, at, later, fate))
  {
    var v := FinishIn(cfg, w, run, ending, at, later, fate);
    if v.log != w.log { AppendCounts(w.log, v.log[|w.log|]); }
  }

  lemma OthersKeepCounted(cfg: Config, w: World, step: Step)
    requires !step.Creating? && Counted(w)
    ensures Counted(Next(cfg, w, step))
  {
    match step
    case Creating(_, _, _, _) =>
    case Claiming(owner, at, fate) => ClaimKeepsCounted(cfg, w, owner, at, fate);
    case Renewing(run, at, fate) => if run < |w.runs| { RenewKeepsCounted(cfg, w, run, at, fate); }
    case Finishing(run, at, later, ending, fate) => if run < |w.runs| {
      FinishKeepsCounted(cfg, w, run, ending, at, later, fate);
    }
  }

  /** A job's attempts are the number of times it was claimed. */
  lemma {:induction false} AttemptsCountClaims(cfg: Config, steps: seq<Step>)
    ensures Counted(WorldAfter(cfg, steps))
  {
    if steps != [] {
      AttemptsCountClaims(cfg, steps[..|steps| - 1]);
      WorldIsFenced(cfg, steps[..|steps| - 1]);
      BoardIsOrderly(cfg, steps[..|steps| - 1]);
      NextKeepsCounted(cfg, WorldAfter(cfg, steps[..|steps| - 1]), steps[|steps| - 1]);
    }
  }

  // ---- exclusion ----

  /** The latest reading that a claim has brought to the store, or `since` if that is later. */
  function LatestClaim(since: int, steps: seq<Step>): int {
    if steps == [] then since
    else
      var latest, last := LatestClaim(since, steps[..|steps| - 1]), steps[|steps| - 1];
      if last.Claiming? && !last.fate.Unsent? && last.at > latest then last.at else latest
  }

  /** No renewal carries a reading older than that of a claim before it. Claims may come in any order. */
  ghost predicate RenewalsInOrder(since: int, steps: seq<Step>) {
    forall k :: 0 <= k < |steps| && steps[k].Renewing? ==> steps[k].at >= LatestClaim(since, steps[..k])
  }

  lemma ExclusiveStays(b: Board, now: int, later: int)
    requires Exclusive(b, now) && now <= later
    ensures Exclusive(b, later)
  {
  }

  /** A claim that carries an old reading only looks at more leases than it need. */
  lemma ClaimKeepsExclusive(b: Board, owner: string, at: int, until: int, now: int)
    requires Exclusive(b, now) && at <= now
    ensures Exclusive(Claim(b, owner, at, until).0, now)
  {
    var _ := FirstClaimableIsFirst(b, b.order, at);
  }

  /** A renewal that is accepted although another job of the domain is leased by `now`. */
  predicate Intrudes(cfg: Config, b: Board, e: Execution, at: int, now: int) {
    Holds(b, e.job, e.owner, e.version, at) && at + cfg.leaseDuration > now && DomainLeased(b, e.job, now)
  }

  /** The check that ClaimJob makes and RenewLease does not: exclusion survives a renewal exactly if it would
      have passed. */
  lemma LateRenewalIff(cfg: Config, b: Board, e: Execution, at: int, now: int)
    requires Exclusive(b, now)
    ensures Exclusive(Renew(b, e.job, e.owner, at, e.version, at + cfg.leaseDuration).0, now) <==>
      !Intrudes(cfg, b, e, at, now)
  {
    var c := Renew(b, e.job, e.owner, at, e.version, at + cfg.leaseDuration).0;
    if Intrudes(cfg, b, e, at, now) {
      var other :| other in b.jobs && other != e.job && b.jobs[other].domain == b.jobs[e.job].domain
        && Unexpired(b.jobs[other], now);
      assert Unexpired(c.jobs[other], now) && Unexpired(c.jobs[e.job], now);
    }
  }

  lemma UpdateKeepsExclusive(b: Board, u: JobUpdate, now: int)
    requires Exclusive(b, now) && u.status != Running
    ensures Exclusive(Update(b, u).0, now)
  {
  }

  lemma LastUpdateStops(cfg: Config, e: Execution, ending: Ending, at: int, later: int)
    ensures LastUpdate(cfg, e, ending, at, later).Some? ==>
      LastUpdate(cfg, e, ending, at, later).value.status != Running
  {
  }

  lemma CreateKeepsExclusive(b: Board, domain: string, key: string, maxAttempts: int, createdAt: int, now: int)
    requires Exclusive(b, now)
    ensures Exclusive(Create(b, domain, key, maxAttempts, createdAt).0, now)
  {
  }

  /** The step is a renewal that intrudes. */
  predicate IntrudingStep(cfg: Config, w: World, step: Step, now: int) {
    && step.Renewing? && !step.fate.Unsent? && step.run < |w.runs| && w.runs[step.run].phase.Working?
    && Intrudes(cfg, w.board, w.runs[step.run], step.at, now)
  }

  lemma RenewingStep(cfg: Config, w: World, step: Step, now: int)
    requires step.Renewing? && Exclusive(w.board, now)
    ensures Exclusive(Next(cfg, w, step).board, now) <==> !IntrudingStep(cfg, w, step, now)
  {
    if step.run < |w.runs| && w.runs[step.run].phase.Working? && !step.fate.Unsent? {
      RenewInRenews(cfg, w, step.run, step.at, step.fate);
      LateRenewalIff(cfg, w.board, w.runs[step.run], step.at, now);
    }
  }

  lemma OtherSteps(cfg: Config, w: World, step: Step, now: int)
    requires !step.Renewing? && Exclusive(w.board, now) && (step.Claiming? && !step.fate.Unsent? ==> step.at <= now)
    ensures Exclusive(Next(cfg, w, step).board, now)
  {
    assert step.Claiming? && step.fate.Unsent? ==> Next(cfg, w, step) == w;
    hide *;
    NextBoard(cfg, w, step);
    match step
    case Creating(domain, key, at, _) => CreateKeepsExclusive(w.board, domain, key, cfg.maxAttempts, at, now);
    case Claiming(owner, at, fate) =>
      if !fate.Unsent? { ClaimKeepsExclusive(w.board, owner, at, at + cfg.leaseDuration, now); }
    case Renewing(_, _, _) =>
    case Finishing(run, at, later, ending, _) =>
      if run < |w.runs| && LastUpdate(cfg, w.runs[run], ending, at, later).Some? {
        LastUpdateStops(cfg, w.runs[run], ending, at, later);
        UpdateKeepsExclusive(w.board, LastUpdate(cfg, w.runs[run], ending, at, later).value, now);
      }
  }

  lemma WorldAfterMore(cfg: Config, steps: seq<Step>, step: Step)
    ensures WorldAfter(cfg, steps + [step]) == Next(cfg, WorldAfter(cfg, steps), step)
  {
    assert (steps + [step])[..|steps|] == steps;
  }

  /** After `k` steps no domain has two leases that are unexpired at the latest claim's reading, and so at
      none later. */
  ghost predicate ExclusiveAt(cfg: Config, since: int, steps: seq<Step>, k: nat)
    requires k <= |steps|
  {
    Exclusive(WorldAfter(cfg, steps[..k]).board, LatestClaim(since, steps[..k]))
  }

  predicate IntrudesAt(cfg: Config, since: int, steps: seq<Step>, k: nat)
    requires k < |steps|
  {
    IntrudingStep(cfg, WorldAfter(cfg, steps[..k]), steps[k], LatestClaim(since, steps[..k]))
  }

  lemma StepIsExclusiveIff(cfg: Config, since: int, steps: seq<Step>, k: nat)
    requires k < |steps| && ExclusiveAt(cfg, since, steps, k)
    ensures ExclusiveAt(cfg, since, steps, k + 1) <==> !IntrudesAt(cfg, since, steps, k)
  {
    var init, last := steps[..k], steps[k];
    var w := WorldAfter(cfg, init);
    var latest := LatestClaim(since, steps[..k + 1]);
    assert steps[..k + 1] == init + [last];
    ExclusiveStays(w.board, LatestClaim(since, init), latest);
    WorldAfterMore(cfg, init, last);
    if last.Renewing? { RenewingStep(cfg, w, last, latest); } else { OtherSteps(cfg, w, last, latest); }
  }

  lemma {:induction false} ExclusiveUntil(cfg: Config, since: int, steps: seq<Step>, k: nat)
    requires k <= |steps| && forall j :: 0 <= j < k ==> !IntrudesAt(cfg, since, steps, j)
    ensures ExclusiveAt(cfg, since, steps, k)
  {
    if k == 0 {
      assert steps[..0] == [];
    } else {
      ExclusiveUntil(cfg, since, steps, k - 1);
      StepIsExclusiveIff(cfg, since, steps, k - 1);
    }
  }

  /** The exact condition, over whole runs: a domain never has two unexpired leases, exactly if no renewal is
      accepted while another job of its domain is leased. */
  lemma AlwaysExclusiveIff(cfg: Config, since: int, steps: seq<Step>)
    ensures (forall k :: 0 <= k <= |steps| ==> ExclusiveAt(cfg, since, steps, k)) <==>
            (forall k :: 0 <= k < |steps| ==> !IntrudesAt(cfg, since, steps, k))
  {
    hide *;
    if forall k :: 0 <= k < |steps| ==> !IntrudesAt(cfg, since, steps, k) {
      forall k | 0 <= k <= |steps| ensures ExclusiveAt(cfg, since, steps, k) { ExclusiveUntil(cfg, since, steps, k); }
    } else {
      var k :| 0 <= k < |steps| && IntrudesAt(cfg, since, steps, k);
      if ExclusiveAt(cfg, since, steps, k) { StepIsExclusiveIff(cfg, since, steps, k); }
    }
  }

  lemma {:induction false} OrderedUntil(cfg: Config, since: int, steps: seq<Step>, k: nat)
    requires RenewalsInOrder(since, steps) && k <= |steps|
    ensures ExclusiveAt(cfg, since, steps, k)
  {
    if k == 0 {
      assert steps[..0] == [];
    } else {
      OrderedUntil(cfg, since, steps, k - 1);
      InOrderDoesNotIntrude(cfg, since, steps, k - 1);
      StepIsExclusiveIff(cfg, since, steps, k - 1);
    }
  }

  lemma InOrderDoesNotIntrude(cfg: Config, since: int, steps: seq<Step>, k: nat)
    requires RenewalsInOrder(since, steps) && k < |steps| && ExclusiveAt(cfg, since, steps, k)
    ensures !IntrudesAt(cfg, since, steps, k)
  {
  }

  /** When renewals act on readings in order, no domain ever has two unexpired leases. */
  lemma OneLeasePerDomain(cfg: Config, since: int, steps: seq<Step>, now: int)
    requires RenewalsInOrder(since, steps) && LatestClaim(since, steps) <= now
    ensures Exclusive(WorldAfter(cfg, steps).board, now)
  {
    OrderedUntil(cfg, since, steps, |steps|);
    assert steps[..|steps|] == steps;
    ExclusiveStays(WorldAfter(cfg, steps).board, LatestClaim(since, steps), now);
  }

  /** The execution holds an unexpired lease at its present version. */
  predicate HoldsLease(w: World, e: Execution, now: int) {
    Holds(w.board, e.job, e.owner, e.version, now)
  }

  /** At any time at most one execution of a domain still holds its lease. */
  lemma OneHolderPerDomain(cfg: Config, since: int, steps: seq<Step>, now: int, i: nat, j: nat)
    requires RenewalsInOrder(since, steps) && LatestClaim(since, steps) <= now
    requires var w := WorldAfter(cfg, steps);
      && i < |w.runs| && j < |w.runs|
      && HoldsLease(w, w.runs[i], now) && HoldsLease(w, w.runs[j], now)
      && w.board.jobs[w.runs[i].job].domain == w.board.jobs[w.runs[j].job].domain
    ensures i == j
  {
    OneLeasePerDomain(cfg, since, steps, now);
    WorldIsFenced(cfg, steps);
  }

  // ---- idempotent creation ----

  lemma NextKeepsKeys(cfg: Config, w: World, step: Step, k: (string, string))
    requires k in w.board.keys
    ensures var v := Next(cfg, w, step); k in v.board.keys && v.board.keys[k] == w.board.keys[k]
  {
  }

  /** A domain and key, once used, name the same single job ever after, finished or not. */
  lemma {:induction false} CreationIsIdempotent(cfg: Config, steps: seq<Step>, more: seq<Step>, k: (string, string))
    requires k in WorldAfter(cfg, steps).board.keys
    ensures var (b, c) := (WorldAfter(cfg, steps).board, WorldAfter(cfg, steps + more).board);
      && k in c.keys && c.keys[k] == b.keys[k]
      && (forall id :: id in c.jobs && (c.jobs[id].domain, c.jobs[id].key) == k ==> id == b.keys[k])
    decreases |more|
  {
    if more == [] {
      assert steps + more == steps;
    } else {
      var init := more[..|more| - 1];
      CreationIsIdempotent(cfg, steps, init, k);
      assert steps + more == (steps + init) + [more[|more| - 1]];
      WorldAfterMore(cfg, steps + init, more[|more| - 1]);
      NextKeepsKeys(cfg, WorldAfter(cfg, steps + init), more[|more| - 1], k);
    }
    BoardIsOrderly(cfg, steps + more);
    var c := WorldAfter(cfg, steps + more).board;
    forall id | id in c.jobs && (c.jobs[id].domain, c.jobs[id].key) == k ensures id == c.keys[k] {
      assert Registered(c, id);
    }
  }

  // ---- late readings ----

  const FIRST_JOB := Job("d", "a", Queued, 0, 3, Some(0), "", 0, None, "", "")

  const FIRST_BOARD := Board(map[1 := FIRST_JOB], [1], map[("d", "a") := 1], 1)

  lemma FirstCreation(cfg: Config)
    requires cfg.maxAttempts == 3
    ensures Next(cfg, BEGINNING, Creating("d", "a", 0, Answered)) == World(FIRST_BOARD, [], [])
  {
  }

  lemma FirstIsClaimed(cfg: Config)
    requires cfg.leaseDuration == 60
    ensures var w := Next(cfg, World(FIRST_BOARD, [], []), Claiming("w", 0, Answered));
      && w.board == Board(map[1 := Taken(FIRST_JOB, "w", 60)], [1], map[("d", "a") := 1], 1)
      && w.runs == [Execution(1, "w", 1, 1, 3, Working, 0)]
  {
    assert Claimable(FIRST_BOARD, 1, 0) by { assert FIRST_BOARD.jobs[1] == FIRST_JOB; }
    assert FirstClaimable(FIRST_BOARD, [1], 0) == Some(1);
    assert map[1 := FIRST_JOB][1 := Taken(FIRST_JOB, "w", 60)] == map[1 := Taken(FIRST_JOB, "w", 60)];
  }

  lemma FirstClaim(cfg: Config) returns (w: World)
    requires cfg.leaseDuration == 60 && cfg.initial == 61 && cfg.maxAttempts == 3
    ensures w == WorldAfter(cfg, [Creating("d", "a", 0, Answered), Claiming("w", 0, Answered)])
    ensures w.board.jobs == map[1 := Job("d", "a", Running, 1, 3, Some(0), "w", 1, Some(60), "", "")]
    ensures w.board.order == [1] && w.board.next == 1 && w.board.keys == map[("d", "a") := 1]
    ensures w.runs == [Execution(1, "w", 1, 1, 3, Working, 0)]
  {
    var create, claim := Creating("d", "a", 0, Answered), Claiming("w", 0, Answered);
    assert WorldAfter(cfg, []) == BEGINNING;
    assert Taken(FIRST_JOB, "w", 60) == Job("d", "a", Running, 1, 3, Some(0), "w", 1, Some(60), "", "");
    hide *;
    w := WorldAfter(cfg, [create, claim]);
    WorldAfterMore(cfg, [], create);
    WorldAfterMore(cfg, [create], claim);
    assert [] + [create] == [create] && [create] + [claim] == [create, claim];
    FirstCreation(cfg);
    FirstIsClaimed(cfg);
  }

  /** A job of the domain waits for its second attempt at 61. */
  lemma FirstJobWaits(cfg: Config) returns (steps: seq<Step>)
    requires cfg.leaseDuration == 60 && cfg.initial == 61 && cfg.maxAttempts == 3
    ensures steps == [Creating("d", "a", 0, Answered),
      Claiming("w", 0, Answered)] + [Finishing(0, 0, 0, Fails(Temporary, ""), Answered)]
    ensures var w := WorldAfter(cfg, steps);
      && w.board.order == [1] && w.board.next == 1 && |w.runs| == 1 && w.board.jobs.Keys == {1}
      && w.board.keys.Keys == {("d", "a")}
      && w.board.jobs[1].domain == "d" && w.board.jobs[1].status == Retrying && w.board.jobs[1].availableAt == Some(61)
  {
    var w := FirstClaim(cfg);
    steps := [Creating("d", "a", 0, Answered), Claiming("w", 0, Answered)];
    WorldAfterMore(cfg, steps, Finishing(0, 0, 0, Fails(Temporary, ""), Answered));
    steps := steps + [Finishing(0, 0, 0, Fails(Temporary, ""), Answered)];
  }

  /** A second job is created and claimed at 1, while the first one waits. */
  lemma SecondClaim(cfg: Config, w: World)
    requires cfg.leaseDuration == 60
    requires w.board.order == [1] && w.board.next == 1 && |w.runs| == 1 && w.board.jobs.Keys == {1}
      && w.board.keys.Keys == {("d", "a")}
    requires w.board.jobs[1].domain == "d" && w.board.jobs[1].status == Retrying
      && w.board.jobs[1].availableAt == Some(61)
    ensures var v := Next(cfg, Next(cfg, w, Creating("d", "b", 1, Answered)), Claiming("w", 1, Answered));
      && v.board.order == [1, 2] && v.board.jobs.Keys == {1, 2} && v.board.jobs[1] == w.board.jobs[1]
      && v.board.jobs[2].domain == "d" && v.board.jobs[2].status == Running && v.board.jobs[2].expiresAt == Some(61)
      && v.board.jobs[2].owner == "w" && v.board.jobs[2].version == 1
      && |v.runs| == 2 && v.runs[1].job == 2 && v.runs[1].owner == "w" && v.runs[1].version == 1
      && v.runs[1].phase == Working
  {
    var u := Next(cfg, w, Creating("d", "b", 1, Answered));
    assert u.board.order == [1, 2] && u.board.order[1..] == [2];
    assert !Claimable(u.board, 1, 1) && Claimable(u.board, 2, 1);
    assert FirstClaimable(u.board, [2], 1) == Some(2);
  }

  /** A second job of the domain is leased until 61. At 61 the first one is claimed again; then a renewal of
      the second arrives whose clock was read at 60. Two leases of one domain are unexpired. */
  lemma LateRenewalSharesDomain(cfg: Config) returns (steps: seq<Step>)
    requires cfg.leaseDuration == 60 && cfg.initial == 61 && cfg.maxAttempts == 3
    ensures steps == [Creating("d", "a", 0, Answered),
      Claiming("w", 0, Answered)] + [Finishing(0, 0, 0, Fails(Temporary, ""), Answered)]
                     + [Creating("d", "b", 1, Answered)] + [Claiming("w", 1, Answered)]
                     + [Claiming("v", 61, Answered)] + [Renewing(1, 60, Answered)]
    ensures !Exclusive(WorldAfter(cfg, steps).board, 61)
  {
    steps := FirstJobWaits(cfg);
    var create, claim := Creating("d", "b", 1, Answered), Claiming("w", 1, Answered);
    var w := Next(cfg, Next(cfg, WorldAfter(cfg, steps), create), claim);
    SecondClaim(cfg, WorldAfter(cfg, steps));
    WorldAfterMore(cfg, steps, create);
    WorldAfterMore(cfg, steps + [create], claim);
    steps := steps + [create] + [claim];
    BothLeased(cfg, w);
    WorldAfterMore(cfg, steps, Claiming("v", 61, Answered));
    WorldAfterMore(cfg, steps + [Claiming("v", 61, Answered)], Renewing(1, 60, Answered));
    steps := steps + [Claiming("v", 61, Answered)] + [Renewing(1, 60, Answered)];
  }

  lemma BothLeased(cfg: Config, w: World)
    requires cfg.leaseDuration == 60 && w.board.order == [1, 2] && w.board.jobs.Keys == {1, 2}
    requires w.board.jobs[1].domain == "d" && w.board.jobs[1].status == Retrying
      && w.board.jobs[1].availableAt == Some(61)
    requires w.board.jobs[2].domain == "d" && w.board.jobs[2].status == Running && w.board.jobs[2].expiresAt == Some(61)
    requires w.board.jobs[2].owner == "w" && w.board.jobs[2].version == 1
    requires |w.runs| == 2 && w.runs[1].job == 2 && w.runs[1].owner == "w" && w.runs[1].version == 1
      && w.runs[1].phase == Working
    ensures !Exclusive(Next(cfg, Next(cfg, w, Claiming("v", 61, Answered)), Renewing(1, 60, Answered)).board, 61)
  {
    assert Claimable(w.board, 1, 61);
    var u := Next(cfg, w, Claiming("v", 61, Answered));
    assert Unexpired(u.board.jobs[1], 61);
    var v := Next(cfg, u, Renewing(1, 60, Answered));
    assert Unexpired(v.board.jobs[1], 61) && Unexpired(v.board.jobs[2], 61);
  }
}
