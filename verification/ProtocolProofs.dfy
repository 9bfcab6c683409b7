/** What every run of the generation protocol keeps. */
module ProtocolProofs {
  import opened Sequences
  import opened Protocol

  // The workflow

  /** The attempt in progress belongs to the activity the workflow awaits. */
  ghost predicate Fitting(pc: nat, act: Act) {
    match act
    case ReadJob => pc < LAST && Scheduled(pc).SetStatus?
    case WriteJob(job) =>
      && pc < LAST && Scheduled(pc).SetStatus?
      && job.status == Scheduled(pc).status && job.progress == Scheduled(pc).progress
    case JobWritten => pc < LAST && Scheduled(pc).SetStatus?
    case Planning => pc == 2
    case Planned => pc == 2
    case PutShard(_) => pc == 3
    case ReadShards(_) => pc == 5
    case ArtifactPut => pc == 5
    case InsertVersion => pc == 6
    case VersionInserted => pc == 6
  }

  ghost predicate FlowInv(g: Gateway, f: Flow) {
    && f.pc <= LAST
    && (f.status == Open ==> f.pc < LAST)
    && (f.status == Completed <==> f.pc == LAST)
    && (f.status == Cancelled ==> f.cancelRequested)
    && (g == Begin ==> f.status == NotStarted)
    && (f.status == NotStarted ==>
          && f.pc == 0 && f.attempt == Idle && !f.signalled && !f.approved
          && (g == Begin || g == Died))
    && (f.attempt.Busy? ==>
          Fitting(f.pc, f.attempt.act) && 1 <= f.attempt.no <= MAX_ATTEMPTS && (f.pc > 0 ==> f.approved))
    && (f.pc > 1 ==> f.approved)
    && (f.approved ==> f.signalled)
  }

  lemma FlowStep(c: Config, s: State, a: Action)
    requires Enabled(c, s, a) && FlowInv(s.gateway, s.flow)
    ensures FlowInv(Apply(c, s, a).gateway, Apply(c, s, a).flow)
  {
    hide Config.ShardKey, Config.ArtifactKey, Config.Shards, Config.WorkflowId, Handler.Format, Effect, Handle, Decide;
    if a.Work? {
      hide Apply;
      FlowWork(c, s, a);
    } else if a.Report? {
      hide Apply;
      FlowReport(c, s);
    } else if a.Fail? {
      hide Apply;
      FlowRetry(c, s);
    }
  }

  lemma FlowWork(c: Config, s: State, a: Action)
    requires a.Work? && Enabled(c, s, a) && FlowInv(s.gateway, s.flow)
    ensures FlowInv(Apply(c, s, a).gateway, Apply(c, s, a).flow)
  {
    hide Effect;
  }

  lemma FlowReport(c: Config, s: State)
    requires Enabled(c, s, Report) && FlowInv(s.gateway, s.flow)
    ensures FlowInv(Apply(c, s, Report).gateway, Apply(c, s, Report).flow)
  {
    hide Config.ShardKey, Config.ArtifactKey, Config.Shards;
  }

  lemma FlowRetry(c: Config, s: State)
    requires Enabled(c, s, Fail) && FlowInv(s.gateway, s.flow)
    ensures FlowInv(Apply(c, s, Fail).gateway, Apply(c, s, Fail).flow)
  {
  }

  // The artifact

  ghost predicate AllShardsStored(c: Config, store: map<string, Blob>) {
    forall i :: 0 <= i < |c.Shards()| ==> c.ShardKey(i) in store
  }

  /** The stored shard blobs, in shard order. */
  ghost function StoredShards(c: Config, store: map<string, Blob>): seq<Blob>
    requires AllShardsStored(c, store)
  {
    seq(|c.Shards()|, i requires 0 <= i < |c.Shards()| => store[c.ShardKey(i)])
  }

  /** The artifact key holds the in-order assembly of all shards. */
  ghost predicate Assembled(c: Config, store: map<string, Blob>) {
    && AllShardsStored(c, store)
    && c.ArtifactKey() in store
    && store[c.ArtifactKey()] == c.assemble(StoredShards(c, store))
  }

  /** What the attempt in progress has done to the store. */
  ghost predicate ActStored(c: Config, f: Flow, store: map<string, Blob>) {
    match f.attempt
    case Idle => true
    case Busy(_, PutShard(next)) =>
      next <= |f.plan| && forall k :: 0 <= k < next ==> c.ShardKey(k) in store
    case Busy(_, ReadShards(blobs)) =>
      AllShardsStored(c, store) ==> blobs <= StoredShards(c, store)
    case Busy(_, ArtifactPut) => Assembled(c, store)
    case Busy(_, _) => true
  }

  ghost predicate StoreInv(c: Config, f: Flow, store: map<string, Blob>) {
    && (f.pc <= 2 ==> store == map[])
    && (f.pc > 2 ==> f.plan == c.Shards())
    && ActStored(c, f, store)
    && (f.pc > 3 ==> AllShardsStored(c, store) && f.keys == ShardKeys(c, |c.Shards()|))
    && (f.pc > 5 ==> Assembled(c, store) && f.uri == c.ArtifactKey())
  }

  /** Storing the artifact leaves the shards alone. */
  lemma ArtifactBesideShards(c: Config, store: map<string, Blob>, blob: Blob)
    requires AllShardsStored(c, store)
    ensures var after := store[c.ArtifactKey() := blob];
      AllShardsStored(c, after) && StoredShards(c, after) == StoredShards(c, store)
  {
    hide Config.ShardKey, Config.ArtifactKey, Config.Shards;
    forall i: nat ensures c.ShardKey(i) != c.ArtifactKey() { KeysDistinct(c, i, i); }
  }

  lemma StoreStep(c: Config, s: State, a: Action)
    requires Enabled(c, s, a) && FlowInv(s.gateway, s.flow) && StoreInv(c, s.flow, s.data.store)
    ensures StoreInv(c, Apply(c, s, a).flow, Apply(c, s, a).data.store)
  {
    hide Config.ShardKey, Config.ArtifactKey, Config.Shards, Config.WorkflowId, Handler.Format, Handle, Decide;
    if a.Work? {
      hide Apply, Enabled, StoreInv;
      StoreWork(c, s, a);
    } else if a.Report? {
      hide Apply, StoreInv;
      StoreReport(c, s);
    } else if a.Fail? {
      hide Apply, StoreInv;
      StoreRetry(c, s);
    } else {
      hide Assembled, StoredShards, AllShardsStored;
    }
  }

  lemma StoreReport(c: Config, s: State)
    requires Enabled(c, s, Report) && FlowInv(s.gateway, s.flow) && StoreInv(c, s.flow, s.data.store)
    ensures StoreInv(c, Apply(c, s, Report).flow, Apply(c, s, Report).data.store)
  {
    hide Config.ShardKey, Config.ArtifactKey, Config.Shards, StoredShards;
  }

  lemma StoreRetry(c: Config, s: State)
    requires Enabled(c, s, Fail) && FlowInv(s.gateway, s.flow) && StoreInv(c, s.flow, s.data.store)
    ensures StoreInv(c, Apply(c, s, Fail).flow, Apply(c, s, Fail).data.store)
  {
    hide Config.ShardKey, Config.ArtifactKey, Config.Shards, Assembled;
  }

  lemma StoreWork(c: Config, s: State, a: Action)
    requires a.Work? && Enabled(c, s, a) && FlowInv(s.gateway, s.flow) && StoreInv(c, s.flow, s.data.store)
    ensures StoreInv(c, Apply(c, s, a).flow, Apply(c, s, a).data.store)
  {
    hide Config.ShardKey, Config.ArtifactKey, Config.Shards, Config.WorkflowId, Handler.Format, Handle, Decide;
    var act := s.flow.attempt.act;
    if act.ReadShards? {
      if |act.blobs| == |s.flow.keys| {
        assert act.blobs == StoredShards(c, s.data.store);
        ArtifactBesideShards(c, s.data.store, c.assemble(act.blobs));
      }
    }
  }

  // The versions

  /** All versions describe the same artifact, under different ids. */
  ghost predicate Uniform(c: Config, versions: seq<Version>) {
    && (forall i :: 0 <= i < |versions| ==>
          && versions[i].uri == c.ArtifactKey()
          && versions[i].format == c.handler.Format()
          && versions[i].rowCount == c.targetRows)
    && (forall i, j :: 0 <= i < j < |versions| ==> versions[i].id != versions[j].id)
  }

  ghost predicate VersionInv(c: Config, f: Flow, versions: seq<Version>) {
    && Uniform(c, versions)
    && |versions| <= MAX_ATTEMPTS
    && (f.pc < 6 ==> versions == [])
    && (f.pc == 6 && f.attempt == Idle && f.status == Open ==> versions == [])
    && (f.attempt.Busy? && f.attempt.act.InsertVersion? ==> |versions| < f.attempt.no)
    && (f.attempt.Busy? && f.attempt.act.VersionInserted? ==> 1 <= |versions| <= f.attempt.no)
    && (f.pc > 6 ==> |versions| >= 1)
  }

  lemma VersionStep(c: Config, s: State, a: Action)
    requires Enabled(c, s, a) && FlowInv(s.gateway, s.flow) && StoreInv(c, s.flow, s.data.store)
             && VersionInv(c, s.flow, s.data.versions)
    ensures VersionInv(c, Apply(c, s, a).flow, Apply(c, s, a).data.versions)
  {
    hide Config.ShardKey, Config.ArtifactKey, Config.Shards, Config.WorkflowId, Handler.Format, Handle, Decide,
         Assembled, ActStored, AllShardsStored;
    if a.Work? && s.flow.attempt.act.InsertVersion? {
      hide Uniform;
      InsertKeepsUniform(c, s.data.versions, a.id, s.flow.uri);
    }
  }

  lemma InsertKeepsUniform(c: Config, versions: seq<Version>, id: nat, uri: string)
    requires Uniform(c, versions) && (forall i :: 0 <= i < |versions| ==> versions[i].id != id)
             && uri == c.ArtifactKey()
    ensures Uniform(c, versions + [Version(id, uri, c.handler.Format(), c.targetRows)])
  {
    hide Config.ArtifactKey, Handler.Format;
  }

  // The job row

  /** The highest progress reported by the time the workflow stands at `pc`. */
  function Mark(pc: nat): real {
    if pc == 0 then 0.0 else if pc < 4 then 0.1 else if pc < 7 then 0.7 else 1.0
  }

  ghost predicate RowInv(g: Gateway, f: Flow, row: Option<Job>) {
    && (row.Some? ==> 0.0 <= row.value.progress <= Mark(f.pc))
    && (row.Some? && row.value.status == Succeeded ==> f.pc >= 7)
    && (row.Some? && !f.approved ==> row.value.status == Pending || row.value.status == AwaitingReview)
    && (g == JobSaved || g == Finished ==> row.Some?)
  }

  lemma RowStep(c: Config, s: State, a: Action)
    requires Enabled(c, s, a) && FlowInv(s.gateway, s.flow) && RowInv(s.gateway, s.flow, s.data.row)
    ensures RowInv(Apply(c, s, a).gateway, Apply(c, s, a).flow, Apply(c, s, a).data.row)
  {
    hide Config.ShardKey, Config.ArtifactKey, Config.Shards, Config.WorkflowId, Handler.Format, Handle, Decide;
  }

  // Reviews

  ghost predicate RequestInv(d: Desk, r: nat, q: Request) {
    && (q.stage == Loaded || q.stage == Acted || q.stage == Saved ==> d.review.Some? && q.seen == 0)
    && ((q.stage == Acted || q.stage == Saved) && q.decision == Approve ==> r in d.approvers)
    && ((q.stage == Acted || q.stage == Saved) && q.decision == Reject ==> r in d.rejecters)
  }

  ghost predicate DeskInv(d: Desk) {
    && (d.review.None? ==> d.savers == [])
    && (d.review.Some? ==> (d.review.value.status == PendingReview <==> d.savers == []))
    && (d.review.Some? && d.savers != [] ==>
          && d.savers[|d.savers| - 1] in d.requests
          && d.review.value.status == d.requests[d.savers[|d.savers| - 1]].decision.Outcome()
          && d.review.value.comment == d.requests[d.savers[|d.savers| - 1]].comment)
    && (forall r :: r in d.requests ==> RequestInv(d, r, d.requests[r]))
    && (forall i :: 0 <= i < |d.savers| ==> Staged(d, d.savers[i], Saved))
    && (forall r :: r in d.approvers ==> r in d.requests && d.requests[r].decision == Approve)
    && (forall r :: r in d.rejecters ==> r in d.requests && d.requests[r].decision == Reject)
  }

  lemma SaveKeeps(d: Desk, r: nat)
    requires Staged(d, r, Acted) && DeskInv(d)
    ensures DeskInv(Handle(d, Save(r)))
  {
  }

  lemma HandleKeeps(d: Desk, a: Action)
    requires a.Arrive? ==> a.r !in d.requests
    requires a.Load? ==> Staged(d, a.r, Arrived)
    requires a.Save? ==> Staged(d, a.r, Acted)
    requires a.Abort? ==> Staged(d, a.r, Arrived) || Staged(d, a.r, Loaded) || Staged(d, a.r, Acted)
    requires DeskInv(d)
    ensures DeskInv(Handle(d, a))
  {
    if a.Save? {
      hide DeskInv, Handle;
      SaveKeeps(d, a.r);
    }
  }

  lemma DecideKeeps(d: Desk, r: nat, open: bool)
    requires Staged(d, r, Loaded) && DeskInv(d)
    ensures DeskInv(Decide(d, r, open))
  {
  }

  lemma ReviewCreated(d: Desk)
    requires DeskInv(d) && d.review.None?
    ensures DeskInv(d.(review := Some(Task(PendingReview, None))))
  {
  }

  /** What the review queue and the workflow know of each other. */
  ghost predicate GateInv(c: Config, g: Gateway, f: Flow, d: Desk) {
    && (g == Begin || g == Started || g == JobSaved ==> d.review.None?)
    && (d.approvers != {} ==> f.signalled)
    && (d.rejecters != {} <==> f.cancelRequested)
    && (c.gated && f.signalled ==> d.approvers != {})
    && (!c.gated && f.status != NotStarted ==> f.signalled)
  }

  lemma ActedOnReview(d: Desk, r: nat)
    requires DeskInv(d) && Staged(d, r, Acted)
    ensures d.review.Some?
  {
  }

  lemma DeskStep(c: Config, s: State, a: Action)
    requires Enabled(c, s, a) && FlowInv(s.gateway, s.flow) && DeskInv(s.desk) && GateInv(c, s.gateway, s.flow, s.desk)
    ensures DeskInv(Apply(c, s, a).desk) && GateInv(c, Apply(c, s, a).gateway, Apply(c, s, a).flow, Apply(c, s, a).desk)
  {
    hide Config.ShardKey, Config.ArtifactKey, Config.Shards, Config.WorkflowId, Handler.Format, DeskInv, NextAct,
         Effect;
    match a {
      case CreateReview => if c.gated { ReviewCreated(s.desk); }
      case Act(r) => DecideKeeps(s.desk, r, s.flow.status == Open);
      case Arrive(_, _, _) => HandleKeeps(s.desk, a);
      case Load(_) => HandleKeeps(s.desk, a);
      case Save(r) => HandleKeeps(s.desk, a); ActedOnReview(s.desk, r);
      case Abort(_) => HandleKeeps(s.desk, a);
      case _ =>
    }
  }

  // Every run

  ghost predicate Inv(c: Config, s: State) {
    && FlowInv(s.gateway, s.flow)
    && StoreInv(c, s.flow, s.data.store)
    && VersionInv(c, s.flow, s.data.versions)
    && RowInv(s.gateway, s.flow, s.data.row)
    && DeskInv(s.desk)
    && GateInv(c, s.gateway, s.flow, s.desk)
  }

  lemma InvStep(c: Config, s: State, a: Action)
    requires Enabled(c, s, a) && Inv(c, s)
    ensures Inv(c, Apply(c, s, a))
  {
    hide FlowInv, StoreInv, VersionInv, RowInv, DeskInv, GateInv, Enabled, Apply;
    FlowStep(c, s, a);
    StoreStep(c, s, a);
    VersionStep(c, s, a);
    RowStep(c, s, a);
    DeskStep(c, s, a);
  }

  lemma {:induction false} EveryRun(c: Config, acts: seq<Action>)
    ensures Run(c, acts).Some? ==> Inv(c, Run(c, acts).value)
  {
    hide Enabled, Apply, FlowInv, StoreInv, VersionInv, RowInv, DeskInv, GateInv;
    if |acts| == 0 {
      InitialInv(c);
    } else {
      EveryRun(c, acts[..|acts| - 1]);
      var before := Run(c, acts[..|acts| - 1]);
      if before.Some? && Enabled(c, before.value, acts[|acts| - 1]) {
        InvStep(c, before.value, acts[|acts| - 1]);
      }
    }
  }

  lemma InitialInv(c: Config)
    ensures Inv(c, INITIAL)
  {
    hide Config.ShardKey, Config.ArtifactKey, Config.Shards, Config.WorkflowId;
  }

  /**
   * In every run: once "succeeded" is persisted the artifact key holds the in-order assembly of all
   * shards, and one to three versions exist, all alike but for their ids.
   */
  lemma SucceededMeansPublished(c: Config, acts: seq<Action>)
    requires Run(c, acts).Some?
    ensures var d := Run(c, acts).value.data;
      d.row.Some? && d.row.value.status == Succeeded ==>
        Assembled(c, d.store) && 1 <= |d.versions| <= MAX_ATTEMPTS && Uniform(c, d.versions)
  {
    hide DeskInv, GateInv, Run, Config.ShardKey, Config.ArtifactKey, Config.Shards, Assembled, Uniform;
    EveryRun(c, acts);
  }

  /**
   * In every run of a review-gated job: no shard is planned, generated, assembled or registered, and
   * the row never says "running" or "succeeded", before some approve request has sent the signal.
   */
  lemma NothingBeforeApproval(c: Config, acts: seq<Action>)
    requires Run(c, acts).Some? && c.gated
    ensures var s := Run(c, acts).value;
      s.desk.approvers == {} ==>
        && s.flow.pc <= 1 && !s.flow.approved && s.data.store == map[] && s.data.versions == []
        && (s.flow.attempt.Busy? ==> s.flow.pc == 0)
        && (s.data.row.Some? ==> s.data.row.value.status == Pending || s.data.row.value.status == AwaitingReview)
    ensures var s := Run(c, acts).value;
      forall r :: r in s.desk.approvers ==> r in s.desk.requests && s.desk.requests[r].decision == Approve
  {
    hide Run, Config.ShardKey, Config.ArtifactKey, Config.Shards, Assembled, Uniform;
    EveryRun(c, acts);
  }

  /**
   * In every run: a persisted APPROVED means the signal was sent first, a persisted REJECTED that the
   * cancel was requested first, each by the very request whose decision is stored.
   */
  lemma DecisionAfterEffect(c: Config, acts: seq<Action>)
    requires Run(c, acts).Some?
    ensures var s := Run(c, acts).value;
      s.desk.review.Some? && s.desk.savers != [] ==>
        var last := s.desk.savers[|s.desk.savers| - 1];
        && (s.desk.review.value.status == Approved ==> last in s.desk.approvers && s.flow.signalled)
        && (s.desk.review.value.status == Rejected ==> last in s.desk.rejecters && s.flow.cancelRequested)
    ensures var s := Run(c, acts).value;
      s.desk.review.Some? && s.desk.review.value.status != PendingReview ==> s.desk.savers != []
  {
    hide RowInv, StoreInv, VersionInv, FlowInv, Run;
    EveryRun(c, acts);
  }

  /**
   * In every run the stored review says what the request that saved last decided: approved, rejected or changes
   * requested exactly as it asked, with its comment; and it is pending exactly when none has saved.
   */
  lemma {:induction false} StoredDecisionExact(c: Config, acts: seq<Action>)
    requires Run(c, acts).Some? && Run(c, acts).value.desk.review.Some?
    ensures var d := Run(c, acts).value.desk;
      if d.savers == [] then d.review.value.status == PendingReview
      else
        var last := d.savers[|d.savers| - 1];
        && last in d.requests && d.review.value.comment == d.requests[last].comment
        && (d.review.value.status == Approved <==> d.requests[last].decision == Approve)
        && (d.review.value.status == Rejected <==> d.requests[last].decision == Reject)
        && (d.review.value.status == ChangesRequested <==> d.requests[last].decision == RequestChanges)
  {
    hide RowInv, StoreInv, VersionInv, FlowInv, GateInv, Run, RequestInv;
    EveryRun(c, acts);
  }

  /**
   * In every run: a cancel was asked for exactly when a reject request has acted, a cancelled workflow was so rejected,
   * and on a review-gated job the signal was sent exactly when an approve request has acted.
   */
  lemma {:induction false} OnlyDecisionsSteer(c: Config, acts: seq<Action>)
    requires Run(c, acts).Some?
    ensures var s := Run(c, acts).value;
      && (s.flow.cancelRequested <==> exists r :: r in s.desk.rejecters)
      && (s.flow.status == Cancelled ==> exists r :: r in s.desk.rejecters)
      && (forall r :: r in s.desk.rejecters ==> r in s.desk.requests && s.desk.requests[r].decision == Reject)
      && (c.gated ==> (s.flow.signalled <==> exists r :: r in s.desk.approvers))
      && (forall r :: r in s.desk.approvers ==> r in s.desk.requests && s.desk.requests[r].decision == Approve)
  {
    hide RowInv, StoreInv, VersionInv, Run, RequestInv;
    EveryRun(c, acts);
    var d := Run(c, acts).value.desk;
    assert d.rejecters != {} ==> exists r :: r in d.rejecters;
    assert d.approvers != {} ==> exists r :: r in d.approvers;
  }

  /** What a request's act sends: approvals signal and rejections cancel an open workflow; nothing else is sent. */
  lemma ActSends(c: Config, s: State, r: nat)
    requires Enabled(c, s, Act(r))
    ensures var t := Apply(c, s, Act(r)); var q := s.desk.requests[r];
      && t.gateway == s.gateway && t.data == s.data && t.desk.review == s.desk.review
      && r in t.desk.requests && t.desk.requests[r].decision == q.decision && t.desk.requests[r].comment == q.comment
      && (q.decision == RequestChanges ==> t.flow == s.flow && t.desk.requests[r].stage == Acted)
      && (q.decision != RequestChanges && s.flow.status != Open ==>
            t.flow == s.flow && t.desk.requests[r].stage == Aborted)
      && (s.flow.status == Open && q.decision == Approve ==>
            t.flow == s.flow.(signalled := true) && t.desk.requests[r].stage == Acted)
      && (s.flow.status == Open && q.decision == Reject ==>
            t.flow == s.flow.(cancelRequested := true) && t.desk.requests[r].stage == Acted)
  {
  }

  /** Progress falls only in the step where the gateway's own save lands late; workers never lower it. */
  lemma {:induction false} ProgressFallsOnlyAtSave(c: Config, acts: seq<Action>, a: Action)
    requires Run(c, acts).Some? && Enabled(c, Run(c, acts).value, a)
    ensures var s := Run(c, acts).value; var t := Apply(c, s, a);
      && (s.data.row.Some? ==> t.data.row.Some?)
      && (s.data.row.Some? && t.data.row.value.progress < s.data.row.value.progress ==>
            a == SaveJob && s.gateway == Started)
      && (s.gateway == JobSaved || s.gateway == Finished ==>
            s.data.row.Some? && t.data.row.value.progress >= s.data.row.value.progress)
  {
    hide DeskInv, GateInv, StoreInv, VersionInv, Run, Handle, Decide, Config.ShardKey, Config.ArtifactKey,
         Config.Shards, Config.WorkflowId, Handler.Format;
    EveryRun(c, acts);
  }

  // Concurrent decisions

  /** Every decision that is ever saved was taken on a task loaded before the first one was saved. */
  lemma SavedDecisionsOverlap(c: Config, acts: seq<Action>, r: nat)
    requires Run(c, acts).Some? && r in Run(c, acts).value.desk.savers
    ensures var d := Run(c, acts).value.desk;
      r in d.requests && d.requests[r].stage == Saved && d.requests[r].seen == 0
  {
    hide RowInv, StoreInv, VersionInv, FlowInv, GateInv, Run;
    EveryRun(c, acts);
    var d := Run(c, acts).value.desk;
    var i :| 0 <= i < |d.savers| && d.savers[i] == r;
  }

  /** Decision requests are handled one at a time throughout the run. */
  ghost predicate OneAtATime(c: Config, acts: seq<Action>) {
    forall k :: 0 <= k <= |acts| ==> AtMostOneInFlight(Run(c, acts[..k]))
  }

  ghost predicate InFlight(d: Desk, r: nat) { r in d.requests && d.requests[r].InFlight() }

  ghost predicate AtMostOneInFlight(s: Option<State>) {
    s.Some? ==> forall q, r :: InFlight(s.value.desk, q) && InFlight(s.value.desk, r) ==> q == r
  }

  /** One decision at most, and none in flight after it. */
  ghost predicate Settled(d: Desk) {
    |d.savers| <= 1 && (|d.savers| == 1 ==> forall r :: !InFlight(d, r))
  }

  /** A request gets in flight only by loading a pending task, and a save takes its own request out. */
  lemma InFlightAfter(c: Config, s: State, a: Action, q: nat)
    requires Enabled(c, s, a) && DeskInv(s.desk)
    ensures InFlight(Apply(c, s, a).desk, q) ==>
      (InFlight(s.desk, q) && a != Save(q)) || (a == Load(q) && s.desk.savers == [])
    ensures a.Save? ==> InFlight(s.desk, a.r)
  {
    hide NextAct, Effect, Config.ShardKey, Config.ArtifactKey, Config.Shards, Config.WorkflowId, Handler.Format,
         RequestInv;
  }

  lemma SaversAfter(c: Config, s: State, a: Action)
    requires Enabled(c, s, a)
    ensures Apply(c, s, a).desk.savers == s.desk.savers + (if a.Save? then [a.r] else [])
    ensures !a.Save? && !a.CreateReview? ==> Apply(c, s, a).desk.review == s.desk.review
  {
    hide NextAct, Effect, Config.ShardKey, Config.ArtifactKey, Config.Shards, Config.WorkflowId, Handler.Format;
  }

  lemma SettledStep(c: Config, s: State, a: Action)
    requires Enabled(c, s, a) && DeskInv(s.desk) && GateInv(c, s.gateway, s.flow, s.desk)
    requires Settled(s.desk) && AtMostOneInFlight(Some(s))
    ensures Settled(Apply(c, s, a).desk)
    ensures s.desk.savers != [] ==>
              Apply(c, s, a).desk.review == s.desk.review && Apply(c, s, a).desk.savers == s.desk.savers
  {
    hide InFlight, Apply, Enabled, RequestInv;
    SaversAfter(c, s, a);
    InFlightAfter(c, s, a, 0);
    assert a.CreateReview? ==> s.desk.savers == [] by { CreatedBeforeDecisions(c, s, a); }
    forall q ensures |Apply(c, s, a).desk.savers| == 1 ==> !InFlight(Apply(c, s, a).desk, q) {
      InFlightAfter(c, s, a, q);
    }
  }

  lemma CreatedBeforeDecisions(c: Config, s: State, a: Action)
    requires Enabled(c, s, a) && DeskInv(s.desk) && GateInv(c, s.gateway, s.flow, s.desk)
    ensures a.CreateReview? ==> s.desk.savers == []
  {
    hide RequestInv;
  }

  lemma {:induction false} SerialRunsSettle(c: Config, acts: seq<Action>)
    requires Run(c, acts).Some? && OneAtATime(c, acts)
    ensures Settled(Run(c, acts).value.desk)
  {
    hide Enabled, Apply, FlowInv, StoreInv, VersionInv, RowInv, DeskInv, GateInv, AtMostOneInFlight;
    if |acts| > 0 {
      var n := |acts| - 1;
      SerialPrefix(c, acts, n);
      SerialRunsSettle(c, acts[..n]);
      EveryRun(c, acts[..n]);
      assert AtMostOneInFlight(Run(c, acts[..n]));
      SettledStep(c, Run(c, acts[..n]).value, acts[n]);
    }
  }

  lemma SerialPrefix(c: Config, acts: seq<Action>, n: nat)
    requires OneAtATime(c, acts) && n <= |acts|
    ensures OneAtATime(c, acts[..n])
  {
    hide AtMostOneInFlight, Run;
    forall k | 0 <= k <= n ensures AtMostOneInFlight(Run(c, acts[..n][..k])) {
      assert acts[..n][..k] == acts[..k];
    }
  }

  /** With requests handled one at a time, a task leaves PENDING at most once and is frozen afterwards. */
  lemma {:induction false} SerialDecisionsFreeze(c: Config, acts: seq<Action>, k: nat)
    requires k <= |acts| && Run(c, acts).Some? && OneAtATime(c, acts)
    ensures |Run(c, acts).value.desk.savers| <= 1
    ensures Run(c, acts[..k]).Some?
    ensures Run(c, acts[..k]).value.desk.savers != [] ==>
      && Run(c, acts).value.desk.review == Run(c, acts[..k]).value.desk.review
      && Run(c, acts).value.desk.savers == Run(c, acts[..k]).value.desk.savers
  {
    hide Enabled, Apply, FlowInv, StoreInv, VersionInv, RowInv, DeskInv, GateInv, AtMostOneInFlight;
    SerialRunsSettle(c, acts);
    if k == |acts| {
      assert acts[..k] == acts;
    } else {
      var n := |acts| - 1;
      SerialPrefix(c, acts, n);
      SerialDecisionsFreeze(c, acts[..n], k);
      assert acts[..n][..k] == acts[..k];
      EveryRun(c, acts[..n]);
      SerialRunsSettle(c, acts[..n]);
      assert AtMostOneInFlight(Run(c, acts[..n]));
      SettledStep(c, Run(c, acts[..n]).value, acts[n]);
    }
  }
}
