/** Runs that exist: a complete generation, and the ones that limit what can be promised. */
module ProtocolRuns {
  import opened Sequences
  import opened Protocol
  import opened ProtocolProofs

  ghost predicate Reachable(c: Config, s: State) {
    exists acts :: Run(c, acts) == Some(s)
  }

  lemma Step(c: Config, s: State, a: Action) returns (t: State)
    requires Reachable(c, s) && Enabled(c, s, a)
    ensures t == Apply(c, s, a) && Reachable(c, t)
  {
    hide Enabled, Apply;
    var acts :| Run(c, acts) == Some(s);
    t := Apply(c, s, a);
    assert (acts + [a])[..|acts|] == acts;
    assert Run(c, acts + [a]) == Some(t);
  }

  /** Runs compose. */
  lemma {:induction false} RunsCompose(c: Config, s: State, first: seq<Action>, rest: seq<Action>)
    requires RunFrom(c, s, first).Some?
    ensures RunFrom(c, s, first + rest) == RunFrom(c, RunFrom(c, s, first).value, rest)
  {
    hide Enabled, Apply;
    if |rest| == 0 {
      assert first + rest == first;
    } else {
      var n := |rest| - 1;
      assert (first + rest)[..|first + rest| - 1] == first + rest[..n];
      RunsCompose(c, s, first, rest[..n]);
    }
  }

  /** Whatever a reachable state leads to is reachable, and keeps the invariant. */
  lemma ContinuesReachable(c: Config, s: State, acts: seq<Action>)
    requires Reachable(c, s) && RunFrom(c, s, acts).Some?
    ensures Reachable(c, RunFrom(c, s, acts).value)
  {
    hide RunFrom;
    var before :| Run(c, before) == Some(s);
    RunsCompose(c, INITIAL, before, acts);
    assert Run(c, before + acts) == RunFrom(c, s, acts);
  }

  lemma ReachableInv(c: Config, s: State)
    requires Reachable(c, s)
    ensures Inv(c, s)
  {
    hide Inv, Run;
    var acts :| Run(c, acts) == Some(s);
    EveryRun(c, acts);
  }

  lemma StartsReachable(c: Config)
    ensures Reachable(c, INITIAL)
  {
    assert Run(c, []) == Some(INITIAL);
  }

  // Continuations

  /** Some continuation of `o` ends in `s`. */
  ghost predicate Leads(c: Config, o: State, s: State) {
    exists acts :: RunFrom(c, o, acts) == Some(s)
  }

  lemma LeadsHere(c: Config, o: State)
    ensures Leads(c, o, o)
  {
    assert RunFrom(c, o, []) == Some(o);
  }

  lemma LeadsReach(c: Config, o: State, s: State)
    requires Reachable(c, o) && Leads(c, o, s)
    ensures Reachable(c, s)
  {
    hide RunFrom;
    var acts :| RunFrom(c, o, acts) == Some(s);
    ContinuesReachable(c, o, acts);
  }

  /** One more step, keeping the invariant. */
  lemma Next(c: Config, o: State, s: State, a: Action) returns (t: State)
    requires Leads(c, o, s) && Enabled(c, s, a) && Inv(c, s)
    ensures t == Apply(c, s, a) && Leads(c, o, t) && Inv(c, t)
  {
    hide Enabled, Apply, Inv;
    InvStep(c, s, a);
    var acts :| RunFrom(c, o, acts) == Some(s);
    t := Apply(c, s, a);
    assert (acts + [a])[..|acts|] == acts;
    assert RunFrom(c, o, acts + [a]) == Some(t);
  }

  /** How many effects the attempt still has to take. */
  function Remaining(f: Flow): nat
    requires f.attempt.Busy?
  {
    match f.attempt.act
    case ReadJob => 2
    case WriteJob(_) => 1
    case Planning => 1
    case PutShard(i) => if i < |f.plan| then |f.plan| - i else 0
    case ReadShards(blobs) => if |blobs| < |f.keys| then |f.keys| - |blobs| + 1 else 1
    case InsertVersion => 1
    case _ => 0
  }

  /** An id no version bears. */
  lemma {:induction false} FreshId(versions: seq<Version>) returns (id: nat)
    ensures forall i :: 0 <= i < |versions| ==> versions[i].id < id
  {
    if |versions| == 0 {
      id := 0;
    } else {
      var n := |versions| - 1;
      id := FreshId(versions[..n]);
      id := if versions[n].id < id then id else versions[n].id + 1;
      assert forall i :: 0 <= i < n ==> versions[..n][i].id == versions[i].id;
    }
  }

  lemma CanWork(c: Config, s: State, id: nat)
    requires Inv(c, s) && s.flow.attempt.Busy? && !Done(s.flow.plan, s.flow.attempt.act)
    requires forall i :: 0 <= i < |s.data.versions| ==> s.data.versions[i].id < id
    ensures Enabled(c, s, Work("", id))
  {
    hide Config.ShardKey, Config.ArtifactKey, Config.Shards, DeskInv, GateInv, VersionInv, RowInv, Assembled,
         StoredShards;
  }

  /** Only the attempt and the data it writes have moved. */
  ghost predicate SamePlace(s: State, t: State) {
    && s.flow.attempt.Busy? && t.flow.attempt.Busy? && t.flow.attempt.no == s.flow.attempt.no
    && t.flow == s.flow.(attempt := t.flow.attempt) && t.gateway == s.gateway && t.desk == s.desk
  }

  /** The attempt in progress can take all its effects. */
  lemma {:induction false} WorksOut(c: Config, o: State, s: State) returns (t: State)
    requires Leads(c, o, s) && Inv(c, s) && s.flow.attempt.Busy?
    ensures Leads(c, o, t) && Inv(c, t) && SamePlace(s, t) && Done(t.flow.plan, t.flow.attempt.act)
    ensures |t.data.versions| == |s.data.versions| + if s.flow.attempt.act.InsertVersion? then 1 else 0
    ensures Done(s.flow.plan, s.flow.attempt.act) ==> t == s
    ensures s.flow.attempt.act.WriteJob? ==> t.data.row == Some(s.flow.attempt.act.job)
    ensures s.flow.attempt.act.ReadJob? && s.flow.pc < LAST && Scheduled(s.flow.pc).SetStatus? ==>
              t.data.row.Some? && t.data.row.value.status == Scheduled(s.flow.pc).status
    decreases Remaining(s.flow)
  {
    hide Config.ShardKey, Config.ArtifactKey, Config.Shards, Leads, Inv, Handler.Format;
    if Done(s.flow.plan, s.flow.attempt.act) {
      t := s;
    } else {
      var id := FreshId(s.data.versions);
      CanWork(c, s, id);
      var u := Next(c, o, s, Work("", id));
      t := WorksOut(c, o, u);
    }
  }

  /** The workflow may go on: an attempt is in progress, or the next one may start. */
  predicate GoesOn(f: Flow) { f.status == Open && (f.attempt.Busy? || f.pc == 0 || f.approved) }

  /** The attempt that is to register a version has not done so. */
  predicate ToRegister(f: Flow) {
    f.pc < 6 || (f.pc == 6 && !(f.attempt.Busy? && f.attempt.act.VersionInserted?))
  }

  /** From there the activity can be completed and the workflow come to the next one. */
  lemma Advances(c: Config, o: State, s: State) returns (t: State)
    requires Leads(c, o, s) && Inv(c, s) && GoesOn(s.flow)
    ensures Leads(c, o, t) && Inv(c, t) && t.gateway == s.gateway && t.desk == s.desk
    ensures t.flow.pc == s.flow.pc + 1 && t.flow.attempt == Idle
    ensures t.flow.status == (if t.flow.pc == LAST then Completed else Open)
    ensures t.flow.approved == s.flow.approved && t.flow.signalled == s.flow.signalled
    ensures |t.data.versions| == |s.data.versions| + if s.flow.pc == 6 && ToRegister(s.flow) then 1 else 0
    ensures s.flow.pc == 7 && s.flow.attempt == Idle ==>
              t.data.row.Some? && t.data.row.value.status == Succeeded
  {
    hide Config.ShardKey, Config.ArtifactKey, Config.Shards, Leads, StoreInv, VersionInv, RowInv, DeskInv, GateInv,
         Handler.Format;
    var u := s;
    if s.flow.attempt == Idle {
      u := Next(c, o, s, Schedule);
    }
    u := WorksOut(c, o, u);
    t := Reports(c, o, u);
  }

  lemma Reports(c: Config, o: State, s: State) returns (t: State)
    requires Leads(c, o, s) && Inv(c, s) && s.flow.status == Open
    requires s.flow.attempt.Busy? && Done(s.flow.plan, s.flow.attempt.act)
    ensures Leads(c, o, t) && Inv(c, t) && t.gateway == s.gateway && t.desk == s.desk && t.data == s.data
    ensures t.flow.pc == s.flow.pc + 1 && t.flow.attempt == Idle
    ensures t.flow.status == (if t.flow.pc == LAST then Completed else Open)
    ensures t.flow.approved == s.flow.approved && t.flow.signalled == s.flow.signalled
  {
    hide Config.ShardKey, Config.ArtifactKey, Config.Shards, Leads, Inv, Done;
    t := Next(c, o, s, Report);
  }

  /** A workflow that has been told to go on can complete. */
  lemma {:induction false} Completes(c: Config, o: State, s: State) returns (t: State)
    requires Leads(c, o, s) && Inv(c, s) && s.flow.status == Open && s.flow.signalled
    ensures Leads(c, o, t) && Inv(c, t) && t.flow.status == Completed && t.gateway == s.gateway && t.desk == s.desk
    ensures |t.data.versions| == |s.data.versions| + if ToRegister(s.flow) then 1 else 0
    ensures s.flow.pc < 7 || s.flow.attempt == Idle ==> t.data.row.Some? && t.data.row.value.status == Succeeded
    decreases LAST - s.flow.pc
  {
    hide Leads, StoreInv, VersionInv, RowInv, DeskInv, GateInv;
    t := s;
    if !s.flow.approved {
      t := Next(c, o, s, DeliverSignal);
    }
    t := Advances(c, o, t);
    if t.flow.status == Open {
      t := Completes(c, o, t);
    }
  }

  /** Every ungated job has a run that completes with "succeeded" persisted. */
  lemma SuccessReachable(c: Config) returns (t: State)
    requires !c.gated
    ensures Reachable(c, t) && t.flow.status == Completed && t.gateway == Started
    ensures t.data.row.Some? && t.data.row.value.status == Succeeded && |t.data.versions| == 1
  {
    hide Inv, Config.ShardKey, Config.ArtifactKey, Config.Shards;
    StartsReachable(c);
    ReachableInv(c, INITIAL);
    LeadsHere(c, INITIAL);
    hide Leads, Reachable;
    t := Next(c, INITIAL, INITIAL, StartWorkflow);
    t := Completes(c, INITIAL, t);
    LeadsReach(c, INITIAL, t);
  }

  /** A review-gated job waiting for its first decision. */
  lemma ReviewOpens(c: Config) returns (t: State)
    requires c.gated
    ensures Reachable(c, t) && t.flow == INITIAL.flow.(status := Open)
    ensures t.desk == Desk(Some(Task(PendingReview, None)), map[], {}, {}, [])
  {
    hide Reachable, Config.ShardKey, Config.ArtifactKey, Config.Shards, Config.WorkflowId;
    StartsReachable(c);
    t := Step(c, INITIAL, StartWorkflow);
    t := Step(c, t, SaveJob);
    t := Step(c, t, CreateReview);
  }

  /**
   * Loading and saving are separate awaits, so two overlapping requests can both decide one task:
   * here an approval resumes the workflow and is then overwritten by a rejection.
   */
  lemma OverlappingDecisionsBothSave(c: Config) returns (t: State)
    requires c.gated
    ensures Reachable(c, t) && t.desk.savers == [0, 1] && t.desk.review == Some(Task(Rejected, None))
    ensures t.flow.signalled && t.flow.cancelRequested
  {
    hide Reachable, Config.ShardKey, Config.ArtifactKey, Config.Shards, Config.WorkflowId, WorkEnabled, NextAct, Effect;
    t := ReviewOpens(c);
    t := Step(c, t, Arrive(0, Approve, None));
    t := Step(c, t, Arrive(1, Reject, None));
    t := Step(c, t, Load(0));
    t := Step(c, t, Load(1));
    t := Step(c, t, Act(0));
    t := Step(c, t, Act(1));
    t := Step(c, t, Save(0));
    t := Step(c, t, Save(1));
  }
}
