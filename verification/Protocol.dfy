/**
 * The generation protocol as a transition system: the gateway's start request, review decisions,
 * the workflow, and the attempts of its activities, interleaved at their awaits.
 */
module Protocol {
  import opened Sequences
  import opened Strings
  import opened Shards

  type Blob = string

  /** The modality handlers' names and sizes. */
  datatype Handler = Tabular | Text | Image | Audio | Video | Graph {
    function ShardRows(): (rows: nat)
      ensures rows > 0
    {
      match this
      case Tabular => 50000
      case Text => 200
      case Image => 50000
      case Audio => 50000
      case Video => 4
      case Graph => 1000000
    }

    function Format(): string {
      match this
      case Tabular => "parquet"
      case Text => "jsonl"
      case Image => "image_manifest"
      case Audio => "audio_manifest"
      case Video => "video-manifest"
      case Graph => "graph_json"
    }

    function ShardName(): (string, string) {
      match this
      case Tabular => ("shard-", ".parquet")
      case Text => ("shard-", ".parquet")
      case Image => ("image-shard-", ".parquet")
      case Audio => ("audio/manifest-shard-", ".json")
      case Video => ("videos/manifest-shard-", ".json")
      case Graph => ("graph-shard-", ".json")
    }

    function ArtifactName(): string {
      match this
      case Tabular => "artifact.parquet"
      case Text => "artifact.jsonl"
      case Image => "manifest.json"
      case Audio => "manifest.json"
      case Video => "manifest.json"
      case Graph => "artifact.json"
    }
  }

  /** One job: its input, its handler and how that handler assembles shard blobs. */
  datatype Config = Config(datasetId: string, jobId: string, targetRows: int, handler: Handler,
                           assemble: seq<Blob> -> Blob, gated: bool) {
    function WorkflowId(): string { "gen-" + jobId }

    function Folder(): string { "datasets/" + datasetId + "/" + jobId + "/" }

    function ShardKey(i: nat): string { Folder() + handler.ShardName().0 + Decimal(i) + handler.ShardName().1 }

    function ArtifactKey(): string { Folder() + handler.ArtifactName() }

    function Shards(): seq<(nat, nat)> { Plan(targetRows, handler.ShardRows()) }
  }

  // Keys

  lemma StemsDiffer(h: Handler)
    ensures !(h.ShardName().0 <= h.ArtifactName())
  {
    match h
    case Tabular => assert "shard-"[0] != "artifact.parquet"[0];
    case Text => assert "shard-"[0] != "artifact.jsonl"[0];
    case Image => assert "image-shard-"[0] != "manifest.json"[0];
    case Audio => assert "audio/manifest-shard-"[0] != "manifest.json"[0];
    case Video => assert "videos/manifest-shard-"[0] != "manifest.json"[0];
    case Graph => assert "graph-shard-"[0] != "artifact.json"[0];
  }

  /** Retried puts hit the same keys, and no two things share a key. */
  lemma KeysDistinct(c: Config, i: nat, j: nat)
    ensures c.ShardKey(i) == c.ShardKey(j) ==> i == j
    ensures c.ShardKey(i) != c.ArtifactKey()
  {
    hide Decimal, Handler.ShardName, Handler.ArtifactName, Config.Folder;
    var (stem, ext) := c.handler.ShardName();
    Affixes(c.Folder() + stem, Decimal(i), Decimal(j), ext);
    DecimalInjective(i, j);
    StemsDiffer(c.handler);
    Prefixed(c.Folder(), stem, Decimal(i) + ext, c.handler.ArtifactName());
  }

  /** The keys of different jobs never meet: ids that are free of slashes can be read off any key. */
  lemma JobsApart(c: Config, d: Config, i: nat, j: nat)
    requires '/' !in c.datasetId && '/' !in c.jobId && '/' !in d.datasetId && '/' !in d.jobId
    requires c.ShardKey(i) == d.ShardKey(j) || c.ArtifactKey() == d.ArtifactKey() || c.ShardKey(i) == d.ArtifactKey()
    ensures c.datasetId == d.datasetId && c.jobId == d.jobId
  {
    hide Decimal, Handler.ShardName, Handler.ArtifactName;
    var shard, artifact := c.handler.ShardName().0 + Decimal(i) + c.handler.ShardName().1, c.handler.ArtifactName();
    var shard', artifact' := d.handler.ShardName().0 + Decimal(j) + d.handler.ShardName().1, d.handler.ArtifactName();
    var r := if c.ArtifactKey() == d.ArtifactKey() then artifact else shard;
    var t := if c.ShardKey(i) == d.ShardKey(j) && c.ArtifactKey() != d.ArtifactKey() then shard' else artifact';
    assert c.ShardKey(i) == c.Folder() + shard && d.ShardKey(j) == d.Folder() + shard';
    FoldersApart(c, d, r, t);
  }

  lemma FoldersApart(c: Config, d: Config, r: string, t: string)
    requires '/' !in c.datasetId && '/' !in c.jobId && '/' !in d.datasetId && '/' !in d.jobId
    requires c.Folder() + r == d.Folder() + t
    ensures c.datasetId == d.datasetId && c.jobId == d.jobId
  {
    var x, y := c.jobId + ['/'] + r, d.jobId + ['/'] + t;
    assert c.Folder() + r == "datasets/" + (c.datasetId + ['/'] + x);
    assert d.Folder() + t == "datasets/" + (d.datasetId + ['/'] + y);
    SamePrefix("datasets/", c.datasetId + ['/'] + x, d.datasetId + ['/'] + y);
    FirstMarkSplits('/', c.datasetId, d.datasetId, x, y);
    FirstMarkSplits('/', c.jobId, d.jobId, r, t);
  }

  lemma Affixes(p: string, a: string, b: string, s: string)
    ensures p + a + s == p + b + s ==> a == b
  {
    if p + a + s == p + b + s {
      assert |a| == |b|;
      assert a == (p + a + s)[|p|..|p| + |a|] && b == (p + b + s)[|p|..|p| + |b|];
    }
  }

  lemma Prefixed(p: string, stem: string, rest: string, name: string)
    requires !(stem <= name)
    ensures p + stem + rest != p + name
  {
    assert (p + name)[|p|..] == name;
    assert (p + stem + rest)[|p|..] == stem + rest;
  }

  // State

  datatype Status = Pending | AwaitingReview | Running | Succeeded

  datatype Job = Job(status: Status, progress: real, message: string, workflowId: Option<string>)

  datatype Version = Version(id: nat, uri: string, format: string, rowCount: int)

  datatype Workflow = NotStarted | Open | Completed | Failed | Cancelled

  /** Where an activity attempt stands: what it does next, or that its effects are complete. */
  datatype Act =
    | ReadJob | WriteJob(job: Job) | JobWritten
    | Planning | Planned
    | PutShard(next: nat)
    | ReadShards(blobs: seq<Blob>) | ArtifactPut
    | InsertVersion | VersionInserted

  datatype Attempt = Idle | Busy(no: nat, act: Act)

  datatype Gateway = Begin | Started | JobSaved | Finished | Died

  datatype ReviewStatus = PendingReview | Approved | Rejected | ChangesRequested

  datatype Task = Task(status: ReviewStatus, comment: Option<string>)

  datatype Decision = Approve | Reject | RequestChanges {
    function Outcome(): ReviewStatus {
      match this
      case Approve => Approved
      case Reject => Rejected
      case RequestChanges => ChangesRequested
    }
  }

  /** A decision request between its awaits; Refused covers 404 and 409, Aborted any failure. */
  datatype Stage = Arrived | Loaded | Acted | Saved | Refused | Aborted

  /** `seen` records how many decisions had been saved when the task was loaded. */
  datatype Request = Request(decision: Decision, comment: Option<string>, stage: Stage, seen: nat) {
    predicate InFlight() { stage == Loaded || stage == Acted }
  }

  /** The workflow execution: where it stands, what was sent to it, and its activities' results. */
  datatype Flow = Flow(
    status: Workflow, pc: nat, approved: bool, signalled: bool, cancelRequested: bool,
    plan: seq<(nat, nat)>, keys: seq<string>, uri: string, attempt: Attempt)

  /** The job row, the object store and the dataset versions. */
  datatype Data = Data(row: Option<Job>, store: map<string, Blob>, versions: seq<Version>)

  /** The review task and its decision requests; the last three fields record history only. */
  datatype Desk = Desk(review: Option<Task>, requests: map<nat, Request>,
                       approvers: set<nat>, rejecters: set<nat>, savers: seq<nat>)

  datatype State = State(gateway: Gateway, flow: Flow, data: Data, desk: Desk)

  const INITIAL := State(
    Begin, Flow(NotStarted, 0, false, false, false, [], [], "", Idle), Data(None, map[], []),
    Desk(None, map[], {}, {}, []))

  // The workflow's schedule

  const MAX_ATTEMPTS := 3
  const LAST := 8

  datatype Activity =
    | SetStatus(status: Status, progress: real)
    | PlanShards | GenerateShards | AssembleAndUpload | RegisterVersion

  /** The activity awaited at each point of `run`; the approval gate precedes the second one. */
  function Scheduled(pc: nat): Activity
    requires pc < LAST
  {
    if pc == 0 then SetStatus(AwaitingReview, 0.0)
    else if pc == 1 then SetStatus(Running, 0.1)
    else if pc == 2 then PlanShards
    else if pc == 3 then GenerateShards
    else if pc == 4 then SetStatus(Running, 0.7)
    else if pc == 5 then AssembleAndUpload
    else if pc == 6 then RegisterVersion
    else SetStatus(Succeeded, 1.0)
  }

  function FirstAct(a: Activity): Act {
    match a
    case SetStatus(_, _) => ReadJob
    case PlanShards => Planning
    case GenerateShards => PutShard(0)
    case AssembleAndUpload => ReadShards([])
    case RegisterVersion => InsertVersion
  }

  /** The attempt has taken all its effects and can report its result. */
  predicate Done(plan: seq<(nat, nat)>, act: Act) {
    match act
    case JobWritten => true
    case Planned => true
    case PutShard(i) => i >= |plan|
    case ArtifactPut => true
    case VersionInserted => true
    case _ => false
  }

  // Steps

  datatype Action =
    | StartWorkflow | SaveJob | CreateReview | GatewayDies
    | Arrive(r: nat, decision: Decision, comment: Option<string>)
    | Load(r: nat) | Act(r: nat) | Save(r: nat) | Abort(r: nat)
    | DeliverSignal | DeliverCancel | Schedule | Work(blob: Blob, id: nat) | Report | Fail

  predicate Staged(desk: Desk, r: nat, stage: Stage) { r in desk.requests && desk.requests[r].stage == stage }

  predicate Enabled(c: Config, s: State, a: Action) {
    match a
    case StartWorkflow => s.gateway == Begin
    case SaveJob => s.gateway == Started
    case CreateReview => s.gateway == JobSaved
    case GatewayDies => s.gateway == Begin || s.gateway == Started || s.gateway == JobSaved
    case Arrive(r, _, _) => r !in s.desk.requests
    case Load(r) => Staged(s.desk, r, Arrived)
    case Act(r) => Staged(s.desk, r, Loaded)
    case Save(r) => Staged(s.desk, r, Acted)
    case Abort(r) => Staged(s.desk, r, Arrived) || Staged(s.desk, r, Loaded) || Staged(s.desk, r, Acted)
    case DeliverSignal => s.flow.status == Open && s.flow.signalled
    case DeliverCancel => s.flow.status == Open && s.flow.cancelRequested
    case Schedule =>
      s.flow.status == Open && s.flow.attempt == Idle && s.flow.pc < LAST && (s.flow.pc == 0 || s.flow.approved)
    case Work(_, id) => s.flow.attempt.Busy? && WorkEnabled(s.flow, s.data, id)
    case Report => s.flow.attempt.Busy? && Done(s.flow.plan, s.flow.attempt.act)
    case Fail => s.flow.attempt.Busy?
  }

  /** The next effect of the attempt can be taken; `id` must be fresh when a version is inserted. */
  predicate WorkEnabled(f: Flow, d: Data, id: nat)
    requires f.attempt.Busy?
  {
    match f.attempt.act
    case ReadJob => f.pc < LAST && Scheduled(f.pc).SetStatus?
    case WriteJob(_) => true
    case Planning => true
    case PutShard(i) => i < |f.plan|
    case ReadShards(blobs) => |blobs| < |f.keys| ==> f.keys[|blobs|] in d.store
    case InsertVersion => forall i :: 0 <= i < |d.versions| ==> d.versions[i].id != id
    case _ => false
  }

  function Apply(c: Config, s: State, a: Action): State
    requires Enabled(c, s, a)
  {
    match a
    case StartWorkflow => s.(gateway := Started, flow := s.flow.(status := Open, signalled := !c.gated))
    case SaveJob =>
      s.(gateway := JobSaved, data := s.data.(row := Some(Job(Pending, 0.0, "", Some(c.WorkflowId())))))
    case CreateReview =>
      s.(gateway := Finished, desk := if c.gated then s.desk.(review := Some(Task(PendingReview, None))) else s.desk)
    case GatewayDies => s.(gateway := Died)
    case Act(r) =>
      s.(desk := Decide(s.desk, r, s.flow.status == Open), flow := Tell(s.flow, s.desk.requests[r].decision))
    case DeliverSignal => s.(flow := s.flow.(approved := true))
    case DeliverCancel => s.(flow := s.flow.(status := Cancelled))
    case Schedule => s.(flow := s.flow.(attempt := Busy(1, FirstAct(Scheduled(s.flow.pc)))))
    case Work(blob, id) =>
      s.(flow := s.flow.(attempt := Busy(s.flow.attempt.no, NextAct(s.flow, s.data, id))),
         data := Effect(c, s.flow, s.data, blob, id))
    case Report => s.(flow := Receive(c, s.flow))
    case Fail => s.(flow := Retry(s.flow))
    case _ => s.(desk := Handle(s.desk, a))
  }

  /** The steps of a request that touch only the review table. */
  function Handle(d: Desk, a: Action): Desk
    requires a.Load? ==> Staged(d, a.r, Arrived)
    requires a.Save? ==> Staged(d, a.r, Acted)
    requires a.Abort? ==> a.r in d.requests
  {
    match a
    case Arrive(r, decision, comment) => d.(requests := d.requests[r := Request(decision, comment, Arrived, 0)])
    case Load(r) =>
      var pending := d.review.Some? && d.review.value.status == PendingReview;
      d.(requests := d.requests[r := d.requests[r].(stage := if pending then Loaded else Refused, seen := |d.savers|)])
    case Save(r) =>
      d.(requests := d.requests[r := d.requests[r].(stage := Saved)],
         review := Some(Task(d.requests[r].decision.Outcome(), d.requests[r].comment)),
         savers := d.savers + [r])
    case Abort(r) => d.(requests := d.requests[r := d.requests[r].(stage := Aborted)])
    case _ => d
  }

  /** The signal or cancel call of a decision; on a closed workflow it errors and the request dies. */
  function Decide(d: Desk, r: nat, open: bool): Desk
    requires r in d.requests
  {
    var q := d.requests[r];
    if q.decision == RequestChanges then d.(requests := d.requests[r := q.(stage := Acted)])
    else if !open then d.(requests := d.requests[r := q.(stage := Aborted)])
    else if q.decision == Approve then
      d.(requests := d.requests[r := q.(stage := Acted)], approvers := d.approvers + {r})
    else d.(requests := d.requests[r := q.(stage := Acted)], rejecters := d.rejecters + {r})
  }

  function Tell(f: Flow, decision: Decision): Flow {
    if f.status != Open then f
    else match decision
      case Approve => f.(signalled := true)
      case Reject => f.(cancelRequested := true)
      case RequestChanges => f
  }

  function NextAct(f: Flow, d: Data, id: nat): Act
    requires f.attempt.Busy? && WorkEnabled(f, d, id)
  {
    match f.attempt.act
    case ReadJob =>
      var job := if d.row.Some? then d.row.value else Job(Pending, 0.0, "", None);
      WriteJob(job.(status := Scheduled(f.pc).status, progress := Scheduled(f.pc).progress))
    case WriteJob(_) => JobWritten
    case Planning => Planned
    case PutShard(i) => PutShard(i + 1)
    case ReadShards(blobs) => if |blobs| < |f.keys| then ReadShards(blobs + [d.store[f.keys[|blobs|]]]) else ArtifactPut
    case InsertVersion => VersionInserted
    case other => other
  }

  function Effect(c: Config, f: Flow, d: Data, blob: Blob, id: nat): Data
    requires f.attempt.Busy?
  {
    match f.attempt.act
    case WriteJob(job) => d.(row := Some(job))
    case PutShard(i) => d.(store := d.store[c.ShardKey(i) := blob])
    case ReadShards(blobs) =>
      if |blobs| < |f.keys| then d else d.(store := d.store[c.ArtifactKey() := c.assemble(blobs)])
    case InsertVersion => d.(versions := d.versions + [Version(id, f.uri, c.handler.Format(), c.targetRows)])
    case _ => d
  }

  function ShardKeys(c: Config, n: nat): (keys: seq<string>)
    ensures |keys| == n
    ensures forall i :: 0 <= i < n ==> keys[i] == c.ShardKey(i)
  {
    seq(n, i => if i >= 0 then c.ShardKey(i) else "")
  }

  /** The workflow receives a result, unless it has been cancelled meanwhile. */
  function Receive(c: Config, f: Flow): Flow
    requires f.attempt.Busy?
  {
    if f.status != Open then f.(attempt := Idle)
    else
      var next := f.(attempt := Idle, pc := f.pc + 1, status := if f.pc + 1 == LAST then Completed else Open);
      match f.attempt.act
      case Planned => next.(plan := c.Shards())
      case PutShard(_) => next.(keys := ShardKeys(c, |f.plan|))
      case ArtifactPut => next.(uri := c.ArtifactKey())
      case _ => next
  }

  /** A failed attempt is followed by another up to the bound, then fails the workflow. */
  function Retry(f: Flow): Flow
    requires f.attempt.Busy?
  {
    if f.status != Open || f.pc >= LAST then f.(attempt := Idle)
    else if f.attempt.no < MAX_ATTEMPTS then f.(attempt := Busy(f.attempt.no + 1, FirstAct(Scheduled(f.pc))))
    else f.(attempt := Idle, status := Failed)
  }

  /** The state a sequence of steps leads to, if each is enabled when it is taken. */
  function RunFrom(c: Config, s: State, acts: seq<Action>): Option<State> {
    if |acts| == 0 then Some(s)
    else
      var before := RunFrom(c, s, acts[..|acts| - 1]);
      var a := acts[|acts| - 1];
      if before.Some? && Enabled(c, before.value, a) then Some(Apply(c, before.value, a)) else None
  }

  function Run(c: Config, acts: seq<Action>): Option<State> {
    RunFrom(c, INITIAL, acts)
  }
}
