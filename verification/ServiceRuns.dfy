/** Executing one claimed job: the certificate files, the generations table and the jobs table change one
    step at a time, and any database call may fail. The issuer is an input. */
module ServiceRuns {
  import opened Common
  import opened FileTree
  import Runs = CertRuns
  import G = Generations
  import J = Jobs

  datatype World = World(tree: Tree, gens: G.Table, jobs: J.Table)

  /** A run so far: the present world and every world seen since the start. A crash leaves one of them. */
  datatype Path = Path(world: World, seen: seq<World>)

  datatype Fault =
    | ReadPreset | ReadState | ListRows | ReadFiles(id: nat) | CreateRow | PrepareIssue
    | MarkPublishing | LoadPublished | MarkIssued(id: nat) | WriteArtifact(id: nat) | MarkFailed(id: nat) | SetJob

  datatype Input = Input(
    job: string, owner: string, now: int,
    forced: bool,
    notDue: Loaded -> Option<bool>,      // whether the certificate is not due yet; None if its expiry cannot be parsed
    issued: bool,                        // whether the issuer succeeds
    publish: Runs.PublishInput,          // holds what the issuer staged
    steps: set<Runs.Step>,               // file operations that fail while publishing
    digest: Manifest -> string,
    retryable: bool,                     // whether a failure, should one occur, is worth a retry
    listing: seq<nat>)                   // the domain's rows, highest generation first

  datatype Outcome = NotDue | Recovered | Published | Errored

  datatype Recovery = Finalized(id: nat) | NothingLeft | RecoveryFailed

  const RETRY_DELAY := 60
  const INT64_LIMIT := 0x8000_0000_0000_0000

  /** int64(revision): a uint64 above the limit turns negative. */
  function Int64(revision: int): int { if revision < INT64_LIMIT then revision else revision - 2 * INT64_LIMIT }

  /** The text of a generation identifier. */
  function Ref(gen: Id): (r: string)
    ensures ValidId(gen) ==> r != ""
  {
    match gen
    case Name(text) => text
    case Temp(suffix) => ".tmp-" + suffix
  }

  function SetGens(p: Path, gens: G.Table): Path {
    var w := p.world.(gens := gens);
    Path(w, p.seen + [w])
  }

  function SetJobs(p: Path, jobs: J.Table): Path {
    var w := p.world.(jobs := jobs);
    Path(w, p.seen + [w])
  }

  /** A status update whose error the caller ignores. */
  function FailRow(p: Path, id: nat, faults: set<Fault>): Path {
    if MarkFailed(id) in faults then p else SetGens(p, G.SetStatus(p.world.gens, id, G.Failed, "").0)
  }

  function SetJobStatus(p: Path, input: Input, status: J.Status, faults: set<Fault>): Path {
    if SetJob in faults then p else SetJobs(p, J.SetStatus(p.world.jobs, input.job, status, input.now).0)
  }

  /** finishV2GenerationFailure */
  function FinishFailure(p: Path, input: Input, row: Option<nat>, faults: set<Fault>): Path {
    var q := if row.Some? then FailRow(p, row.value, faults) else p;
    if SetJob in faults then q
    else if input.retryable then
      SetJobs(q, J.Retry(q.world.jobs, input.job, input.owner, "retryable", input.now + RETRY_DELAY, input.now).0)
    else SetJobStatus(q, input, J.Failed, faults)
  }

  function ArtifactOf(input: Input, m: Manifest): G.Artifact {
    G.Artifact(Int64(m.revision), input.digest(m), m.serial, m.fingerprint, true)
  }

  /** Record a generation of the certificate store in a row: status and reference, then the artifact. */
  function Finalize(p: Path, input: Input, id: nat, gen: Id, m: Manifest, faults: set<Fault>): (Path, bool) {
    var (gens, ok) := G.SetStatus(p.world.gens, id, G.Issued, Ref(gen));
    if MarkIssued(id) in faults || !ok then (p, false)
    else
      var q := SetGens(p, gens);
      var (final, done) := G.SetArtifact(gens, id, ArtifactOf(input, m));
      if WriteArtifact(id) in faults || !done then (q, false) else (SetGens(q, final), true)
  }

  /** recoverPublishingGeneration over the remaining rows: the first publishing row takes over what the store
      has as current; rows for which nothing can be read are marked failed. */
  function Recover(pki: Pki, domain: string, p: Path, input: Input, rows: seq<nat>, faults: set<Fault>): (Path,
                   Recovery)
    decreases |rows|
  {
    if rows == [] then (p, NothingLeft)
    else
      var id := rows[0];
      if id !in p.world.gens.rows || p.world.gens.rows[id].status != G.Publishing
        then Recover(pki, domain, p, input, rows[1..], faults)
      else
        var current := ReadCurrent(pki, domain, p.world.tree);
        if ReadFiles(id) in faults || !current.Reading? then Recover(pki, domain, FailRow(p, id, faults), input,
          rows[1..], faults)
        else
          var (q, ok) := Finalize(p, input, id, current.gen, current.loaded.manifest, faults);
          (q, if ok then Finalized(id) else RecoveryFailed)
  }

  function Domains(jobs: J.Table): map<string, string> { map id | id in jobs :: jobs[id].domain }

  ghost function Top(t: G.Table, domain: string): int {
    Runs.SetMax(set a | a in t.rows && t.rows[a].domain == domain :: t.rows[a].generation)
  }

  function NewRow(input: Input, domain: string): G.Row {
    G.Row(input.job, domain, 0, 0, G.Pending, "", "", "", "", false)
  }

  /** The path after publishing: every tree that the certificate store passed through, then the last one. */
  function AfterPublish(p: Path, disk: Runs.Io): Path {
    var w := p.world.(tree := disk.tree);
    Path(w, p.seen + seq(|disk.trace|, i requires 0 <= i < |disk.trace| => p.world.(tree := disk.trace[i])) + [w])
  }

  /** Publish the staged files and record the result in the row. */
  ghost function PublishRow(pki: Pki, domain: string, p: Path, input: Input, id: nat, faults: set<Fault>): (Path,
                            Outcome) {
    var out := Runs.Publish(pki, domain, p.world.tree, input.publish, input.steps);
    var q := AfterPublish(p, out.disk);
    var published := ReadByName(pki, domain, q.world.tree, out.gen);
    if !out.disk.ok || LoadPublished in faults
      || !published.Reading? then (FinishFailure(q, input, Some(id), faults), Errored)
    else
      var (final, ok) := Finalize(q, input, id, out.gen, published.loaded.manifest, faults);
      if !ok then (FinishFailure(final, input, Some(id), faults), Errored)
      else if SetJob in faults || input.job !in final.world.jobs then (final, Errored)
      else (SetJobStatus(final, input, J.Succeeded, faults), Published)
  }

  /** From a new row to a published generation. */
  ghost function IssueRow(pki: Pki, domain: string, p: Path, input: Input, faults: set<Fault>): (Path, Outcome) {
    var (gens, row) := G.Create(p.world.gens, Domains(p.world.jobs), NewRow(input, domain), Top(p.world.gens, domain));
    if CreateRow in faults || row.None? then (FinishFailure(p, input, None, faults), Errored)
    else
      var id := row.value;
      var created := SetGens(p, gens);
      if PrepareIssue in faults || !input.issued || MarkPublishing in faults
      then (FinishFailure(created, input, Some(id), faults), Errored)
      else PublishRow(pki, domain, SetGens(created, G.SetStatus(gens, id, G.Publishing, "").0), input, id, faults)
  }

  /** executeClaimedV2Job */
  ghost function Execute(pki: Pki, domain: string, w: World, input: Input, faults: set<Fault>): (Path, Outcome) {
    var p := Path(w, [w]);
    var current := ReadCurrent(pki, domain, w.tree);
    if ReadPreset in faults || ReadState in faults || current.Refused?
      || (current.Reading? && input.notDue(current.loaded).None?)
    then (FinishFailure(p, input, None, faults), Errored)
    else if !input.forced && current.Reading? && input.notDue(current.loaded) == Some(true)
    then (SetJobStatus(p, input, J.Succeeded, faults), NotDue)
    else if ListRows in faults then (SetJobStatus(p, input, J.Failed, faults), Errored)
    else
      var (q, recovery) := Recover(pki, domain, p, input, input.listing, faults);
      match recovery
      case RecoveryFailed => (SetJobStatus(q, input, J.Failed, faults), Errored)
      case Finalized(_) => (SetJobStatus(q, input, J.Succeeded, faults), Recovered)
      case NothingLeft => IssueRow(pki, domain, q, input, faults)
  }

  /** What ListCertificateGenerations returns: the domain's rows by descending generation. */
  ghost predicate Lists(t: G.Table, domain: string, rows: seq<nat>) {
    && (forall i :: 0 <= i < |rows| ==> rows[i] in t.rows && t.rows[rows[i]].domain == domain)
    && (forall id :: id in t.rows && t.rows[id].domain == domain ==> id in rows)
    && (forall i, j :: 0 <= i < j < |rows| ==> t.rows[rows[i]].generation > t.rows[rows[j]].generation)
  }
}
