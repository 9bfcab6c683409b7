/** What the gateway's late save and the workers' read-then-writes make of the job row. */
module JobRow {
  import opened Sequences
  import opened Protocol
  import opened ProtocolProofs
  import opened ProtocolRuns

  // Histories of the row

  /** A worker has read the row and not yet written it back. */
  predicate AtWrite(f: Flow) { f.attempt.Busy? && f.attempt.act.WriteJob? }

  ghost predicate WritesRow(s: State, a: Action) { a.Work? && AtWrite(s.flow) }

  /** The row as the gateway saves it. */
  function SavedRow(c: Config): Job { Job(Pending, 0.0, "", Some(c.WorkflowId())) }

  /** The gateway has saved the job, and no worker has written the row since. */
  ghost predicate SavedLast(c: Config, acts: seq<Action>) {
    |acts| > 0 &&
    var before, a := Run(c, acts[..|acts| - 1]), acts[|acts| - 1];
    a == SaveJob || (SavedLast(c, acts[..|acts| - 1]) && !(before.Some? && WritesRow(before.value, a)))
  }

  /** The gateway saved the job between a worker's read and its write, and that write is still to come. */
  ghost predicate Threatened(c: Config, acts: seq<Action>) {
    |acts| > 0 &&
    var before, a := Run(c, acts[..|acts| - 1]), acts[|acts| - 1];
    if a == SaveJob then before.Some? && AtWrite(before.value.flow)
    else !a.Work? && a != Fail && Threatened(c, acts[..|acts| - 1])
  }

  /** The attempt that was about to write when the gateway saved went on to write. */
  ghost predicate Overwritten(c: Config, acts: seq<Action>) {
    exists k :: 0 <= k < |acts| && acts[k].Work? && Threatened(c, acts[..k])
  }

  lemma OverwrittenNext(c: Config, acts: seq<Action>)
    requires |acts| > 0
    ensures var n := |acts| - 1;
            Overwritten(c, acts) <==> Overwritten(c, acts[..n]) || (acts[n].Work? && Threatened(c, acts[..n]))
  {
    hide Threatened;
    var n := |acts| - 1;
    if k :| 0 <= k < |acts| && acts[k].Work? && Threatened(c, acts[..k]) {
      if k < n {
        assert acts[..n][..k] == acts[..k] && acts[..n][k].Work?;
      }
    }
    if k :| 0 <= k < n && acts[..n][k].Work? && Threatened(c, acts[..n][..k]) {
      assert acts[..n][..k] == acts[..k] && acts[k].Work?;
    }
  }

  /** Who wrote the row last, and what it therefore says. */
  ghost predicate LastWriter(c: Config, s: State, saved: bool, last: bool) {
    && (saved ==> s.gateway != Begin && s.gateway != Started)
    && (!saved ==> s.gateway != JobSaved && s.gateway != Finished)
    && (last ==> saved && s.data.row == Some(SavedRow(c)))
    && (!last && s.flow.attempt.Busy? && s.flow.attempt.act.JobWritten? ==>
          s.flow.pc < LAST && Scheduled(s.flow.pc).SetStatus?
          && s.data.row.Some? && s.data.row.value.status == Scheduled(s.flow.pc).status)
    && (!last && s.flow.pc == LAST ==> s.data.row.Some? && s.data.row.value.status == Succeeded)
  }

  /** The workflow id in the row and in a write still to come. */
  ghost predicate IdOf(c: Config, s: State, saved: bool, threatened: bool, over: bool) {
    && (saved ==> s.gateway != Begin && s.gateway != Started && s.data.row.Some?)
    && (threatened ==> saved && AtWrite(s.flow))
    && (over ==> saved && !threatened)
    && (s.data.row.Some? ==> s.data.row.value.workflowId == if saved && !over then Some(c.WorkflowId()) else None)
    && (AtWrite(s.flow) ==>
          s.flow.attempt.act.job.workflowId == if saved && !over && !threatened then Some(c.WorkflowId()) else None)
  }

  lemma LastWriterStep(c: Config, s: State, a: Action, saved: bool, last: bool)
    requires Enabled(c, s, a) && FlowInv(s.gateway, s.flow) && LastWriter(c, s, saved, last)
    ensures LastWriter(c, Apply(c, s, a), saved || a == SaveJob, a == SaveJob || (last && !WritesRow(s, a)))
  {
    hide Config.ShardKey, Config.ArtifactKey, Config.Shards, Config.WorkflowId, Handler.Format, Handle, Decide;
  }

  lemma IdStep(c: Config, s: State, a: Action, saved: bool, threatened: bool, over: bool)
    requires Enabled(c, s, a) && FlowInv(s.gateway, s.flow) && IdOf(c, s, saved, threatened, over)
    ensures IdOf(c, Apply(c, s, a), saved || a == SaveJob,
                 if a == SaveJob then AtWrite(s.flow) else threatened && !a.Work? && a != Fail,
                 over || (a.Work? && threatened))
  {
    hide Config.ShardKey, Config.ArtifactKey, Config.Shards, Config.WorkflowId, Handler.Format, Handle, Decide;
  }

  /** How the histories grow by one step. */
  lemma HistoryNext(c: Config, acts: seq<Action>)
    requires |acts| > 0 && Run(c, acts).Some?
    ensures var n := |acts| - 1;
            && Run(c, acts[..n]).Some? && Enabled(c, Run(c, acts[..n]).value, acts[n])
            && var s, a := Run(c, acts[..n]).value, acts[n];
               && Run(c, acts) == Some(Apply(c, s, a))
               && (SaveJob in acts <==> SaveJob in acts[..n] || a == SaveJob)
               && (SavedLast(c, acts) <==> a == SaveJob || (SavedLast(c, acts[..n]) && !WritesRow(s, a)))
               && (Threatened(c, acts) <==>
                     if a == SaveJob then AtWrite(s.flow) else Threatened(c, acts[..n]) && !a.Work? && a != Fail)
               && (Overwritten(c, acts) <==> Overwritten(c, acts[..n]) || (a.Work? && Threatened(c, acts[..n])))
  {
    hide Enabled, Apply, WritesRow, AtWrite, Overwritten;
    OverwrittenNext(c, acts);
    assert acts == acts[..|acts| - 1] + [acts[|acts| - 1]];
  }

  lemma NoHistory(c: Config, acts: seq<Action>)
    requires |acts| == 0
    ensures LastWriter(c, INITIAL, SaveJob in acts, SavedLast(c, acts))
    ensures IdOf(c, INITIAL, SaveJob in acts, Threatened(c, acts), Overwritten(c, acts))
  {
  }

  lemma {:induction false} RowHistory(c: Config, acts: seq<Action>)
    requires Run(c, acts).Some?
    ensures LastWriter(c, Run(c, acts).value, SaveJob in acts, SavedLast(c, acts))
    ensures IdOf(c, Run(c, acts).value, SaveJob in acts, Threatened(c, acts), Overwritten(c, acts))
  {
    hide RunFrom, Enabled, Apply, LastWriter, IdOf, StoreInv, VersionInv, RowInv, DeskInv, GateInv, FlowInv,
         SavedLast, Threatened, Overwritten, WritesRow, AtWrite;
    if |acts| == 0 {
      EmptyRun(c, acts);
      NoHistory(c, acts);
    } else {
      var n := |acts| - 1;
      HistoryNext(c, acts);
      RowHistory(c, acts[..n]);
      EveryRun(c, acts[..n]);
      var s := Run(c, acts[..n]).value;
      LastWriterStep(c, s, acts[n], SaveJob in acts[..n], SavedLast(c, acts[..n]));
      IdStep(c, s, acts[n], SaveJob in acts[..n], Threatened(c, acts[..n]), Overwritten(c, acts[..n]));
    }
  }

  lemma EmptyRun(c: Config, acts: seq<Action>)
    requires |acts| == 0
    ensures Run(c, acts) == Some(INITIAL)
  {
  }

  // What a completed job reads

  /**
   * In every run that completes, the row reads "succeeded" exactly when some worker wrote it after the gateway's
   * save; otherwise it reads as the gateway saved it.
   */
  lemma {:induction false} CompletedReadsSucceededIff(c: Config, acts: seq<Action>)
    requires Run(c, acts).Some? && Run(c, acts).value.flow.status == Completed
    ensures var row := Run(c, acts).value.data.row;
            && row.Some?
            && (row.value.status == Succeeded <==> !SavedLast(c, acts))
            && (SavedLast(c, acts) ==> row.value == SavedRow(c))
  {
    hide Run, SavedLast, Threatened, Overwritten, IdOf, StoreInv, VersionInv, RowInv, DeskInv, GateInv;
    RowHistory(c, acts);
    EveryRun(c, acts);
  }

  /** The last write of the workflow is done: only a save could still touch the row. */
  predicate PastLastWrite(f: Flow) {
    f.pc == LAST || (f.pc == 7 && f.status == Open && f.attempt.Busy? && f.attempt.act.JobWritten?)
  }

  lemma StillToWrite(c: Config, s: State, a: Action)
    requires Enabled(c, s, a) && FlowInv(s.gateway, s.flow) && !PastLastWrite(s.flow) && !WritesRow(s, a)
    ensures !PastLastWrite(Apply(c, s, a).flow)
  {
    hide Config.ShardKey, Config.ArtifactKey, Config.Shards, Config.WorkflowId, Handler.Format, Handle, Decide, Effect;
  }

  /** Until a worker writes the row, the workflow is not past its last write unless it was so at the save. */
  lemma {:induction false} NotPastUntilWrite(c: Config, before: seq<Action>, rest: seq<Action>)
    requires Run(c, before + [SaveJob] + rest).Some? && Run(c, before).Some?
    requires !PastLastWrite(Run(c, before).value.flow) && SavedLast(c, before + [SaveJob] + rest)
    ensures !PastLastWrite(Run(c, before + [SaveJob] + rest).value.flow)
  {
    hide Apply, Enabled, PastLastWrite, WritesRow, StoreInv, VersionInv, RowInv, DeskInv, GateInv, FlowInv;
    var acts := before + [SaveJob] + rest;
    var n := |acts| - 1;
    if |rest| == 0 {
      assert acts[..n] == before && acts[n] == SaveJob;
      EveryRun(c, before);
      NotAWrite(Run(c, before).value);
      StillToWrite(c, Run(c, before).value, SaveJob);
    } else {
      assert acts[..n] == before + [SaveJob] + rest[..|rest| - 1];
      assert Run(c, acts[..n]).Some?;
      EveryRun(c, acts[..n]);
      var s := Run(c, acts[..n]).value;
      if acts[n] == SaveJob {
        RowHistory(c, acts[..n]);
        assert (before + [SaveJob])[|before|] == SaveJob && SaveJob in acts[..n];
        SavesOnce(c, s);
      } else {
        NotPastUntilWrite(c, before, rest[..|rest| - 1]);
        StillToWrite(c, s, acts[n]);
      }
    }
  }

  lemma NotAWrite(s: State)
    ensures !WritesRow(s, SaveJob)
  {
  }

  lemma SavesOnce(c: Config, s: State)
    requires s.gateway != Started
    ensures !Enabled(c, s, SaveJob)
  {
  }

  ghost predicate ReadsSucceeded(s: State) { s.data.row.Some? && s.data.row.value.status == Succeeded }

  /** The run `before`, the save, then `rest`, as one run. */
  lemma SaveThen(c: Config, before: seq<Action>, s: State, rest: seq<Action>)
    requires Run(c, before) == Some(s) && Enabled(c, s, SaveJob)
    ensures Run(c, before + [SaveJob]) == Some(Apply(c, s, SaveJob))
    ensures Run(c, before + [SaveJob] + rest) == RunFrom(c, Apply(c, s, SaveJob), rest)
  {
    hide Apply, Enabled;
    var acts := before + [SaveJob];
    assert acts[..|acts| - 1] == before && acts[|acts| - 1] == SaveJob;
    RunsCompose(c, INITIAL, acts, rest);
  }

  /**
   * When the gateway is about to save: every continuation that completes reads "succeeded" exactly when the workflow
   * is not yet past its last write of the row.
   */
  lemma {:induction false} SaveKeepsSuccessIff(c: Config, s: State)
    requires Reachable(c, s) && s.gateway == Started
    ensures (forall acts :: var t := RunFrom(c, Apply(c, s, SaveJob), acts);
                            t.Some? && t.value.flow.status == Completed ==> ReadsSucceeded(t.value))
            <==> !PastLastWrite(s.flow)
  {
    hide Reachable, ReadsSucceeded, Config.WorkflowId, Config.ShardKey, Config.ArtifactKey, Config.Shards,
         PastLastWrite;
    var saved := Apply(c, s, SaveJob);
    if PastLastWrite(s.flow) {
      var acts := SavedTooLate(c, s);
      assert RunFrom(c, saved, acts).Some?;
    } else {
      forall acts | RunFrom(c, saved, acts).Some? && RunFrom(c, saved, acts).value.flow.status == Completed
        ensures ReadsSucceeded(RunFrom(c, saved, acts).value)
      {
        SavedInTime(c, s, acts);
      }
    }
  }

  lemma SavedTooLate(c: Config, s: State) returns (acts: seq<Action>)
    requires Reachable(c, s) && s.gateway == Started && PastLastWrite(s.flow)
    ensures var t := RunFrom(c, Apply(c, s, SaveJob), acts);
            t.Some? && t.value.flow.status == Completed && !ReadsSucceeded(t.value)
  {
    hide Reachable, Config.WorkflowId, Config.ShardKey, Config.ArtifactKey, Config.Shards;
    ReachableInv(c, s);
    var saved := Apply(c, s, SaveJob);
    assert RunFrom(c, saved, []) == Some(saved);
    if s.flow.pc == LAST {
      acts := [];
    } else {
      acts := [Report];
      assert acts[..0] == [];
    }
  }

  lemma SavedInTime(c: Config, s: State, acts: seq<Action>)
    requires Reachable(c, s) && s.gateway == Started && !PastLastWrite(s.flow)
    requires RunFrom(c, Apply(c, s, SaveJob), acts).Some?
    requires RunFrom(c, Apply(c, s, SaveJob), acts).value.flow.status == Completed
    ensures ReadsSucceeded(RunFrom(c, Apply(c, s, SaveJob), acts).value)
  {
    var before :| Run(c, before) == Some(s);
    SaveThen(c, before, s, acts);
    hide Run, RunFrom, Apply, SavedLast, Inv, FlowInv;
    var all := before + [SaveJob] + acts;
    CompletedReadsSucceededIff(c, all);
    CompletedIsPast(c, all);
    if SavedLast(c, all) {
      NotPastUntilWrite(c, before, acts);
    }
  }

  lemma CompletedIsPast(c: Config, acts: seq<Action>)
    requires Run(c, acts).Some? && Run(c, acts).value.flow.status == Completed
    ensures PastLastWrite(Run(c, acts).value.flow)
  {
    hide Run, StoreInv, VersionInv, RowInv, DeskInv, GateInv;
    EveryRun(c, acts);
  }

  // A completed job whose gateway is done

  lemma StaysCompleted(c: Config, s: State, a: Action)
    requires Enabled(c, s, a) && FlowInv(s.gateway, s.flow) && s.flow.status == Completed
    ensures Apply(c, s, a).flow.status == Completed
    ensures s.gateway != Begin
    ensures s.gateway != Started ==> Apply(c, s, a).gateway != Started && Apply(c, s, a).data.row == s.data.row
  {
    hide Config.ShardKey, Config.ArtifactKey, Config.Shards, Config.WorkflowId, Handler.Format, Handle, Decide, Effect;
  }

  /** Once the workflow is complete and the gateway no longer about to save, the row never changes again. */
  lemma {:induction false} RowSettled(c: Config, s: State, acts: seq<Action>)
    requires Reachable(c, s) && s.flow.status == Completed && s.gateway != Started
    requires RunFrom(c, s, acts).Some?
    ensures var t := RunFrom(c, s, acts).value;
            t.flow.status == Completed && t.gateway != Started && t.data.row == s.data.row
  {
    hide Reachable, Apply, Enabled, StoreInv, VersionInv, RowInv, DeskInv, GateInv, FlowInv;
    if |acts| > 0 {
      var n := |acts| - 1;
      RowSettled(c, s, acts[..n]);
      var t := RunFrom(c, s, acts[..n]).value;
      ContinuesReachable(c, s, acts[..n]);
      ReachableInv(c, t);
      StaysCompleted(c, t, acts[n]);
    }
  }

  /** A completed job that reads "succeeded" keeps reading it exactly when the gateway is not still to save. */
  lemma {:induction false} SuccessKeptIff(c: Config, s: State)
    requires Reachable(c, s) && s.flow.status == Completed && ReadsSucceeded(s)
    ensures (forall acts :: var t := RunFrom(c, s, acts); t.Some? ==> ReadsSucceeded(t.value)) <==> s.gateway != Started
  {
    hide Reachable, RunFrom, ReadsSucceeded;
    if s.gateway == Started {
      SaveErases(c, s);
    } else {
      forall acts | RunFrom(c, s, acts).Some? ensures ReadsSucceeded(RunFrom(c, s, acts).value) {
        RowSettled(c, s, acts);
        SameReading(s, RunFrom(c, s, acts).value);
      }
    }
  }

  lemma SaveErases(c: Config, s: State)
    requires s.gateway == Started
    ensures var t := RunFrom(c, s, [SaveJob]); t.Some? && !ReadsSucceeded(t.value)
  {
    hide Config.WorkflowId;
    var acts := [SaveJob];
    assert acts[..0] == [];
    assert RunFrom(c, s, acts[..0]) == Some(s);
  }

  lemma SameReading(s: State, t: State)
    requires s.data.row == t.data.row
    ensures ReadsSucceeded(s) <==> ReadsSucceeded(t)
  {
  }

  /**
   * A run in which the gateway's save lands last: a finished workflow, a registered version, and a job that reads
   * "pending" at progress 0 in every continuation.
   */
  lemma {:induction false} LateSaveErasesSuccess(c: Config) returns (t: State)
    requires !c.gated
    ensures Reachable(c, t) && t.flow.status == Completed && |t.data.versions| == 1
    ensures t.data.row == Some(SavedRow(c))
    ensures forall acts :: RunFrom(c, t, acts).Some? ==> RunFrom(c, t, acts).value.data.row == t.data.row
  {
    hide Reachable, RunFrom, Config.ShardKey, Config.ArtifactKey, Config.Shards, Config.WorkflowId;
    t := SuccessReachable(c);
    t := Step(c, t, SaveJob);
    forall acts | RunFrom(c, t, acts).Some? ensures RunFrom(c, t, acts).value.data.row == t.data.row {
      RowSettled(c, t, acts);
    }
  }

  // The workflow id

  /**
   * In every run in which the gateway has saved: the row has lost its workflow id exactly when the attempt that was
   * about to write at the save went on to write; otherwise it has the id.
   */
  lemma {:induction false} WorkflowIdLostIff(c: Config, acts: seq<Action>)
    requires Run(c, acts).Some? && SaveJob in acts
    ensures var row := Run(c, acts).value.data.row;
            && row.Some?
            && (row.value.workflowId == None <==> Overwritten(c, acts))
            && (!Overwritten(c, acts) ==> row.value.workflowId == Some(c.WorkflowId()))
  {
    hide Run, SavedLast, Threatened, Overwritten, Config.WorkflowId;
    RowHistory(c, acts);
  }

  /** A threat comes from the save, taken while an attempt was about to write. */
  lemma {:induction false} ThreatOrigin(c: Config, acts: seq<Action>) returns (k: nat)
    requires Threatened(c, acts)
    ensures k < |acts| && acts[k] == SaveJob
    ensures Run(c, acts[..k]).Some? && AtWrite(Run(c, acts[..k]).value.flow)
  {
    hide RunFrom, AtWrite;
    var n := |acts| - 1;
    if acts[n] == SaveJob {
      k := n;
    } else {
      k := ThreatOrigin(c, acts[..n]);
      assert acts[..n][..k] == acts[..k];
    }
  }

  /** Every prefix of a run is a run. */
  lemma {:induction false} PrefixRuns(c: Config, s: State, acts: seq<Action>, k: nat)
    requires RunFrom(c, s, acts).Some? && k <= |acts|
    ensures RunFrom(c, s, acts[..k]).Some?
  {
    hide Apply, Enabled;
    if k == |acts| {
      assert acts[..k] == acts;
    } else {
      PrefixRuns(c, s, acts[..|acts| - 1], k);
      assert acts[..|acts| - 1][..k] == acts[..k];
    }
  }

  /** The gateway saves at most once in a run. */
  lemma SavedOnce(c: Config, acts: seq<Action>, i: nat, k: nat)
    requires Run(c, acts).Some? && i < k < |acts| && acts[i] == SaveJob
    ensures acts[k] != SaveJob
  {
    hide Apply, SavedLast, Threatened, Overwritten;
    PrefixRuns(c, INITIAL, acts, k);
    PrefixRuns(c, INITIAL, acts, k + 1);
    assert acts[..k + 1][..k] == acts[..k] && acts[..k][i] == SaveJob;
    RowHistory(c, acts[..k]);
  }

  /**
   * If no attempt stands between reading and writing the row when the gateway saves (in particular when no worker has
   * read it yet), the workflow id is never lost.
   */
  lemma {:induction false} CleanSaveSurvives(c: Config, acts: seq<Action>, k: nat)
    requires Run(c, acts).Some? && k < |acts| && acts[k] == SaveJob
    requires Run(c, acts[..k]).Some? && !AtWrite(Run(c, acts[..k]).value.flow)
    ensures var row := Run(c, acts).value.data.row; row.Some? && row.value.workflowId == Some(c.WorkflowId())
  {
    hide Run, RunFrom, Threatened, Config.WorkflowId;
    WorkflowIdLostIff(c, acts);
    if j :| 0 <= j < |acts| && acts[j].Work? && Threatened(c, acts[..j]) {
      var i := ThreatOrigin(c, acts[..j]);
      assert acts[..j][..i] == acts[..i];
      if i < k {
        SavedOnce(c, acts, i, k);
      } else if k < i {
        SavedOnce(c, acts, k, i);
      }
    }
  }

  ghost predicate KeepsId(c: Config, s: State) {
    s.data.row.Some? && s.data.row.value.workflowId == Some(c.WorkflowId())
  }

  /**
   * When the gateway is about to save: every continuation keeps the workflow id exactly when no attempt stands between
   * its read and its write of the row.
   */
  lemma {:induction false} SaveKeepsIdIff(c: Config, s: State)
    requires Reachable(c, s) && s.gateway == Started
    ensures (forall acts :: var t := RunFrom(c, Apply(c, s, SaveJob), acts); t.Some? ==> KeepsId(c, t.value))
            <==> !AtWrite(s.flow)
  {
    hide Reachable, KeepsId, Config.WorkflowId, AtWrite;
    var saved := Apply(c, s, SaveJob);
    if AtWrite(s.flow) {
      LosesId(c, s);
    } else {
      forall acts | RunFrom(c, saved, acts).Some? ensures KeepsId(c, RunFrom(c, saved, acts).value) {
        IdSurvives(c, s, acts);
      }
    }
  }

  lemma IdSurvives(c: Config, s: State, acts: seq<Action>)
    requires Reachable(c, s) && s.gateway == Started && !AtWrite(s.flow)
    requires RunFrom(c, Apply(c, s, SaveJob), acts).Some?
    ensures KeepsId(c, RunFrom(c, Apply(c, s, SaveJob), acts).value)
  {
    var before :| Run(c, before) == Some(s);
    SaveThen(c, before, s, acts);
    hide Run, RunFrom, Apply, AtWrite, Config.WorkflowId;
    var all := before + [SaveJob] + acts;
    assert all[..|before|] == before && all[|before|] == SaveJob;
    CleanSaveSurvives(c, all, |before|);
  }

  lemma LosesId(c: Config, s: State)
    requires Reachable(c, s) && s.gateway == Started && AtWrite(s.flow)
    ensures var t := RunFrom(c, Apply(c, s, SaveJob), [Work("", 0)]); t.Some? && !KeepsId(c, t.value)
  {
    var before :| Run(c, before) == Some(s);
    RowHistory(c, before);
    hide Run, Config.WorkflowId, SavedLast, Threatened, Overwritten;
    var saved := Apply(c, s, SaveJob);
    var acts := [Work("", 0)];
    assert acts[..0] == [];
    assert RunFrom(c, saved, acts[..0]) == Some(saved);
  }

  /** Such a run exists: a save between a worker's read and its write, itself overwritten. */
  lemma DirtySaveLosesWorkflowId(c: Config) returns (t: State)
    ensures Reachable(c, t) && t.gateway == JobSaved
    ensures t.data.row.Some? && t.data.row.value.workflowId == None
  {
    hide Reachable, Config.ShardKey, Config.ArtifactKey, Config.Shards, Config.WorkflowId;
    StartsReachable(c);
    t := Step(c, INITIAL, StartWorkflow);
    t := Step(c, t, Schedule);
    t := Step(c, t, Work("", 0));
    t := Step(c, t, SaveJob);
    t := Step(c, t, Work("", 0));
  }
}
