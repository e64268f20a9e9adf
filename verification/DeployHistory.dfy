/** Any sequence of deployments into one output directory, each cut short anywhere. */
module DeployHistory {
  import opened Common
  import opened FileTree
  import opened DeployRuns
  import opened DeploySafety

  /** `current` names nothing, or a release that is complete. */
  predicate Sound(out: Out) {
    && Readable(out.current)
    && (Value(out.current).Some? ==>
         Value(out.current).value in out.releases && SafeRelease(out.releases[Value(out.current).value]))
  }

  /** A deployment on `out` ends, or is cut off by a crash, in `s`. */
  ghost predicate Leaves(pki: Pki, out: Out, input: Input, faults: set<Step>, s: Out) {
    FreshStaging(out, input) && (s in Deploy(pki, out, input, faults).0.trace
      || s == Deploy(pki, out, input, faults).0.out)
  }

  ghost predicate Follows(pki: Pki, out: Out, s: Out) { exists input, faults :: Leaves(pki, out, input, faults, s) }

  ghost predicate IsHistory(pki: Pki, h: seq<Out>) {
    h != [] && Sound(h[0]) && forall i :: 0 < i < |h| ==> Follows(pki, h[i - 1], h[i])
  }

  lemma FineIsSound(pki: Pki, out: Out, input: Input, s: Out)
    requires Sound(out) && Fine(pki, out, input, s)
    ensures Sound(s)
  {
  }

  lemma FollowsKeeps(pki: Pki, out: Out, s: Out)
    requires Sound(out) && Follows(pki, out, s)
    ensures Sound(s) && Kept(out, s)
  {
    var input, faults :| Leaves(pki, out, input, faults, s);
    DeployIsSafe(pki, out, input, faults);
    FineIsSound(pki, out, input, s);
  }

  /** After any history `current` is absent or names a complete release, and no release ever changes. */
  lemma {:induction false} HistoryIsSound(pki: Pki, h: seq<Out>, i: nat, j: nat)
    requires IsHistory(pki, h) && i <= j < |h|
    ensures Sound(h[j]) && Kept(h[i], h[j])
  {
    if j == 0 {
    } else {
      HistoryIsSound(pki, h, if i < j then i else j - 1, j - 1);
      FollowsKeeps(pki, h[j - 1], h[j]);
    }
  }

  /** A release is in place that is not current, as a failed verification or an interrupted switch leaves it. */
  predicate LeftBehind(out: Out, gen: Id) { gen in out.releases && Value(out.current) != Some(gen) }

  /** The new generation is current when the deployment is over: the link is renamed into place, and no failed
      verification takes it back. */
  predicate EndsCurrent(out: Out, input: Input, faults: set<Step>) {
    && ChmodRelease !in faults && SyncReleases !in faults && Switches(out, Switching, input.generation, faults)
    && !(SyncOut(Switching) !in faults && input.verify == Some(false) && RollsBack(out, faults))
  }

  lemma ActivationEnds(pki: Pki, out: Out, input: Input, d: Io, faults: set<Step>)
    requires d.ok && AllFine(pki, out, input, d) && Placed(pki, out, input, d.out)
    requires Readable(out.current) && Value(out.current) != Some(input.generation)
    ensures var r := Activate(d, input, Value(out.current), faults).0;
      input.generation in r.out.releases
        && (Value(r.out.current) == Some(input.generation) <==> EndsCurrent(out, input, faults))
  {
    SwitchedResult(pki, out, input, d, faults);
    var synced := Do(Check(d, ChmodRelease !in faults), SyncReleases, faults, d.out);
    var switched := if synced.ok then SwitchTo(synced, Switching, input.generation, faults) else synced;
    if synced.ok { SwitchToEnds(synced, Switching, input.generation, faults); }
    if switched.ok && input.verify == Some(false) {
      RestoreResult(pki, out, input, switched, faults);
      RestoreKeeps(switched, Value(out.current), faults);
      assert Fine(pki, out, input, Restore(switched, Value(out.current), faults).out);
    }
  }

  lemma RestoreKeeps(d: Io, previous: Option<Id>, faults: set<Step>)
    requires d.ok
    ensures Restore(d, previous, faults).out.releases == d.out.releases
  {
    if previous.Some? { SwitchToEnds(d, Restoring, previous.value, faults); }
  }

  lemma ActivationGrows(d: Io, input: Input, previous: Option<Id>, faults: set<Step>)
    ensures forall s :: s in d.trace ==> s in Activate(d, input, previous, faults).0.trace
  {
  }

  lemma MovedIsSeen(pki: Pki, d: Io, input: Input, faults: set<Step>)
    requires StageRelease(pki, d, input, faults).ok
    ensures StageRelease(pki, d, input, faults).out in StageRelease(pki, d, input, faults).trace
  {
  }

  /** How a generation is left behind: at some step, exactly by a deployment that builds its release, so that a
      crash is enough; and at the end, exactly by one after which it is not current. */
  lemma LeavesBehindIff(pki: Pki, out: Out, input: Input, faults: set<Step>)
    requires FreshStaging(out, input) && !LeftBehind(out, input.generation)
    ensures var r := Deploy(pki, out, input, faults).0;
      && ((exists s :: s in r.trace && LeftBehind(s, input.generation)) <==> Builds(pki, out, input, faults))
      && (LeftBehind(r.out, input.generation) <==> Builds(pki, out, input, faults) && !EndsCurrent(out, input, faults))
  {
    if Admitted(out, input, faults) {
      BuildsIff(pki, out, input, faults);
      StageReleaseResult(pki, out, input, faults);
      var moved := StageRelease(pki, Io(out, [out], true), input, faults);
      if moved.ok {
        ActivationEnds(pki, out, input, moved, faults);
        MovedIsSeen(pki, Io(out, [out], true), input, faults);
        ActivationGrows(moved, input, Value(out.current), faults);
        assert LeftBehind(moved.out, input.generation);
      } else {
        DropStagingStays(out, input, moved, faults);
        StagingKeepsNames(out, input, DropStaging(moved, input, faults));
      }
    }
  }

  lemma StagingKeepsNames(out: Out, input: Input, d: Io)
    requires AllStaging(out, input, d) && FreshStaging(out, input)
    ensures LeftBehind(d.out, input.generation) <==> LeftBehind(out, input.generation)
    ensures forall s :: s in d.trace ==> (LeftBehind(s, input.generation) <==> LeftBehind(out, input.generation))
  {
    forall s | Staging(out, input, s) ensures LeftBehind(s, input.generation) <==> LeftBehind(out, input.generation) {
      assert input.generation in s.releases <==> input.generation in (s.releases - {input.staging});
    }
  }

  /** The offer is good: the files match the manifest, the bundle is valid, and the callbacks agree. */
  ghost predicate Acceptable(pki: Pki, input: Input) {
    && ValidId(input.generation) && input.domain != "" && CompleteItems(input.manifest)
    && (forall f: FileName :: f in input.fetched && Matches(pki, input.manifest, f, input.fetched[f]))
    && pki.accepts(input.domain, input.fetched, input.sans)
    && input.verify != Some(false) && input.reload != Some(false)
  }

  /** A good offer can be deployed, on some fault plan, exactly if its generation has not been left behind. */
  lemma DeployableIff(pki: Pki, out: Out, input: Input)
    requires Sound(out) && FreshStaging(out, input) && Acceptable(pki, input)
    ensures (exists faults :: Deploy(pki, out, input, faults).1.state != Failed) <==> !LeftBehind(out, input.generation)
  {
    if LeftBehind(out, input.generation) {
      forall faults ensures Deploy(pki, out, input, faults).1.state == Failed {
        LeftBehindFails(pki, out, input, faults);
      }
    } else {
      NothingFails(pki, out, input);
      assert Deploy(pki, out, input, {}).1.state != Failed;
    }
  }

  lemma NothingFails(pki: Pki, out: Out, input: Input)
    requires Sound(out) && FreshStaging(out, input) && Acceptable(pki, input) && !LeftBehind(out, input.generation)
    ensures Deploy(pki, out, input, {}).1.state != Failed
  {
    if Value(out.current) != Some(input.generation) { DeployEnds(pki, out, input, {}); }
  }

  lemma LeftBehindStays(pki: Pki, out: Out, s: Out, gen: Id)
    requires LeftBehind(out, gen) && Follows(pki, out, s)
    ensures LeftBehind(s, gen)
  {
    var input, faults :| Leaves(pki, out, input, faults, s);
    DeployIsSafe(pki, out, input, faults);
    if input.generation == gen { LeftBehindFails(pki, out, input, faults); }
  }

  /** Deploying such a generation again always fails and leaves `current` alone. */
  lemma LeftBehindFails(pki: Pki, out: Out, input: Input, faults: set<Step>)
    requires LeftBehind(out, input.generation) && FreshStaging(out, input)
    ensures var (r, report) := Deploy(pki, out, input, faults);
      report.state == Failed && r.out.current == out.current && forall s :: s in r.trace ==> s.current == out.current
  {
    if Admitted(out, input, faults) {
      StageReleaseResult(pki, out, input, faults);
      var moved := StageRelease(pki, Io(out, [out], true), input, faults);
      assert !moved.ok;
      DropStagingStays(out, input, moved, faults);
    }
  }

  /** Once left behind, always left behind: no later deployment can make that generation current. */
  lemma {:induction false} LeftBehindForever(pki: Pki, h: seq<Out>, gen: Id, j: nat)
    requires IsHistory(pki, h) && LeftBehind(h[0], gen) && j < |h|
    ensures LeftBehind(h[j], gen)
  {
    if j > 0 {
      LeftBehindForever(pki, h, gen, j - 1);
      LeftBehindStays(pki, h[j - 1], h[j], gen);
    }
  }

  // ---- a failed reload ----

  /** A failed reload is reported as retryable, but the reload is never run again: from then on a deployment of
      that generation changes nothing, and exactly if its checks pass it is skipped as reloaded. */
  lemma ReloadIsNotRetried(pki: Pki, out: Out, input: Input, faults: set<Step>, again: Input, more: set<Step>)
    requires FreshStaging(out, input) && Deploy(pki, out, input, faults).1.retryable
      && again.generation == input.generation
    ensures var left := Deploy(pki, out, input, faults).0.out;
      var (r, report) := Deploy(pki, left, again, more);
      && r.out == left && r.trace == [left]
      && report == if again.domain != "" && PrepareDirs !in more && ReadPointer !in more
      && InspectCurrentRelease !in more
                   then Report(Skipped, true, true, false) else FAILURE
  {
    assert Value(out.current) != Some(input.generation);
    DeployEnds(pki, out, input, faults);
  }
}
