/** Failed attempts: when they are retried, when they fail the workflow, and what can still complete. */
module Retries {
  import opened Sequences
  import opened Protocol
  import opened ProtocolProofs
  import opened ProtocolRuns

  // Counting failures

  /** How often the activity awaited last has failed while the workflow was open, since it was scheduled. */
  ghost function Strikes(c: Config, acts: seq<Action>): nat {
    if |acts| == 0 then 0
    else
      var before, a := Run(c, acts[..|acts| - 1]), acts[|acts| - 1];
      var struck := a == Fail && before.Some? && before.value.flow.status == Open;
      if a == Schedule || a == Report then 0 else Strikes(c, acts[..|acts| - 1]) + if struck then 1 else 0
  }

  /** At some point of the run an activity failed for the third time. */
  ghost predicate StruckOut(c: Config, acts: seq<Action>) {
    exists k :: 0 <= k <= |acts| && Strikes(c, acts[..k]) == 3
  }

  ghost predicate Struck(f: Flow, strikes: nat, out: bool) {
    && (f.status == Failed <==> out) && strikes <= 3 && (strikes == 3 ==> out)
    && (f.status == Open && f.attempt == Idle ==> strikes == 0)
    && (f.status == Open && f.attempt.Busy? ==> f.attempt.no == strikes + 1)
    && (f.status == NotStarted ==> strikes == 0)
  }

  lemma StruckNext(c: Config, acts: seq<Action>)
    requires |acts| > 0
    ensures StruckOut(c, acts) <==> StruckOut(c, acts[..|acts| - 1]) || Strikes(c, acts) == 3
  {
    hide Strikes;
    var n := |acts| - 1;
    assert acts[..|acts|] == acts;
    if k :| 0 <= k <= |acts| && Strikes(c, acts[..k]) == 3 {
      if k <= n { assert acts[..n][..k] == acts[..k]; }
    }
    if k :| 0 <= k <= n && Strikes(c, acts[..n][..k]) == 3 {
      assert acts[..n][..k] == acts[..k];
    }
  }

  lemma StruckStep(c: Config, s: State, a: Action, strikes: nat, out: bool)
    requires Enabled(c, s, a) && FlowInv(s.gateway, s.flow) && Struck(s.flow, strikes, out)
    ensures var next := if a == Schedule || a == Report then 0
                        else strikes + if a == Fail && s.flow.status == Open then 1 else 0;
            Struck(Apply(c, s, a).flow, next, out || next == 3)
  {
    hide Config.ShardKey, Config.ArtifactKey, Config.Shards, Config.WorkflowId, Handler.Format, Handle, Decide, Effect,
         NextAct;
  }

  lemma {:induction false} StrikesHistory(c: Config, acts: seq<Action>)
    requires Run(c, acts).Some?
    ensures Struck(Run(c, acts).value.flow, Strikes(c, acts), StruckOut(c, acts))
  {
    hide Enabled, Apply, Inv, FlowInv, StruckOut, Struck;
    if |acts| == 0 {
      NoStrikes(c, acts);
    } else {
      var n := |acts| - 1;
      StrikesHistory(c, acts[..n]);
      EveryRun(c, acts[..n]);
      StruckNext(c, acts);
      InvFlow(c, Run(c, acts[..n]).value);
      StruckStep(c, Run(c, acts[..n]).value, acts[n], Strikes(c, acts[..n]), StruckOut(c, acts[..n]));
    }
  }

  lemma NoStrikes(c: Config, acts: seq<Action>)
    requires |acts| == 0
    ensures Run(c, acts) == Some(INITIAL) && Struck(INITIAL.flow, Strikes(c, acts), StruckOut(c, acts))
  {
    assert forall k :: 0 <= k <= |acts| ==> acts[..k] == [];
  }

  lemma InvFlow(c: Config, s: State)
    requires Inv(c, s)
    ensures FlowInv(s.gateway, s.flow)
  {
    hide FlowInv, StoreInv, VersionInv, RowInv, DeskInv, GateInv;
  }

  /**
   * In every run the workflow reads failed exactly when some scheduled activity failed three times with no report in
   * between.
   */
  lemma {:induction false} FailedIff(c: Config, acts: seq<Action>)
    requires Run(c, acts).Some?
    ensures Run(c, acts).value.flow.status == Failed <==> StruckOut(c, acts)
  {
    hide Run, Strikes, StruckOut;
    StrikesHistory(c, acts);
  }

  /** The first thing an attempt at the `pc`-th activity does. */
  ghost predicate StartsOver(pc: nat, act: Act) {
    if pc == 2 then act == Planning
    else if pc == 3 then act == PutShard(0)
    else if pc == 5 then act == ReadShards([])
    else if pc == 6 then act == InsertVersion
    else act == ReadJob
  }

  /**
   * An attempt that fails for the first or second time leaves the workflow open at the same activity, which starts
   * over as the next attempt; the third failure fails the workflow. Nothing that was stored is undone.
   */
  lemma {:induction false} FailureRetries(c: Config, acts: seq<Action>)
    requires Run(c, acts).Some? && Run(c, acts).value.flow.status == Open && Run(c, acts).value.flow.attempt.Busy?
    ensures var s := Run(c, acts).value; var n := Strikes(c, acts);
      && n < 3 && Enabled(c, s, Fail)
      && var t := Apply(c, s, Fail);
         && t.data == s.data && t.desk == s.desk && t.gateway == s.gateway && t.flow.pc == s.flow.pc
         && (n < 2 ==> t.flow.status == Open && t.flow == s.flow.(attempt := t.flow.attempt)
                       && t.flow.attempt.Busy? && t.flow.attempt.no == n + 2
                       && StartsOver(s.flow.pc, t.flow.attempt.act))
         && (n == 2 ==> t.flow.status == Failed)
  {
    hide Run, Strikes, StruckOut, StoreInv, VersionInv, RowInv, DeskInv, GateInv;
    StrikesHistory(c, acts);
    EveryRun(c, acts);
  }

  // What can still complete

  /** Some request can still send the signal, or has. */
  ghost predicate CanResume(s: State) {
    || s.flow.signalled
    || (s.desk.review.Some? && s.desk.review.value.status == PendingReview)
    || s.gateway == Started || s.gateway == JobSaved
    || exists r :: Staged(s.desk, r, Loaded) && s.desk.requests[r].decision == Approve
  }

  /** A request id in no use. */
  lemma FreshRequest(requests: map<nat, Request>) returns (r: nat)
    ensures r !in requests
  {
    r := Above(requests.Keys);
  }

  lemma {:induction false} Above(keys: set<nat>) returns (r: nat)
    ensures forall k :: k in keys ==> k < r
  {
    if keys == {} {
      r := 0;
    } else {
      var k :| k in keys;
      var rest := Above(keys - {k});
      r := if k < rest then rest else k + 1;
      forall j | j in keys ensures j < r {
        assert j == k || j in keys - {k};
      }
    }
  }

  lemma ApproveLoaded(c: Config, o: State, s: State, r: nat) returns (t: State)
    requires Leads(c, o, s) && Inv(c, s) && s.flow.status == Open
    requires Staged(s.desk, r, Loaded) && s.desk.requests[r].decision == Approve
    ensures Leads(c, o, t) && Inv(c, t) && t.flow.status == Open && t.flow.signalled
  {
    hide Inv, Leads, Config.ShardKey, Config.ArtifactKey, Config.Shards, Config.WorkflowId, Handler.Format;
    t := Next(c, o, s, Act(r));
  }

  lemma ApprovePending(c: Config, o: State, s: State) returns (t: State)
    requires Leads(c, o, s) && Inv(c, s) && s.flow.status == Open
    requires s.desk.review.Some? && s.desk.review.value.status == PendingReview
    ensures Leads(c, o, t) && Inv(c, t) && t.flow.status == Open && t.flow.signalled
  {
    hide Inv, Leads, Config.ShardKey, Config.ArtifactKey, Config.Shards, Config.WorkflowId, Handler.Format;
    var r := FreshRequest(s.desk.requests);
    t := Next(c, o, s, Arrive(r, Approve, None));
    t := Next(c, o, t, Load(r));
    t := ApproveLoaded(c, o, t, r);
  }

  lemma ReviewStillToCome(c: Config, o: State, s: State) returns (t: State)
    requires Leads(c, o, s) && Inv(c, s) && s.flow.status == Open
    requires c.gated && (s.gateway == Started || s.gateway == JobSaved)
    ensures Leads(c, o, t) && Inv(c, t) && t.flow.status == Open && t.flow.signalled
  {
    hide Inv, Leads, Config.ShardKey, Config.ArtifactKey, Config.Shards, Config.WorkflowId, Handler.Format;
    t := s;
    if t.gateway == Started {
      t := Next(c, o, t, SaveJob);
    }
    t := Next(c, o, t, CreateReview);
    t := ApprovePending(c, o, t);
  }

  lemma Resumes(c: Config, o: State, s: State) returns (t: State)
    requires Leads(c, o, s) && Inv(c, s) && s.flow.status == Open && CanResume(s)
    ensures Leads(c, o, t) && Inv(c, t) && t.flow.status == Open && t.flow.signalled
  {
    hide Leads, StoreInv, VersionInv, RowInv, DeskInv, FlowInv;
    if s.flow.signalled {
      t := s;
    } else if s.desk.review.Some? && s.desk.review.value.status == PendingReview {
      t := ApprovePending(c, o, s);
    } else if r :| Staged(s.desk, r, Loaded) && s.desk.requests[r].decision == Approve {
      t := ApproveLoaded(c, o, s, r);
    } else {
      t := ReviewStillToCome(c, o, s);
    }
  }

  /** No signal was sent and none can be any more. */
  ghost predicate Stalled(s: State) {
    && !s.flow.signalled && s.flow.status != NotStarted && s.gateway != Begin
    && !(s.desk.review.Some? && s.desk.review.value.status == PendingReview)
    && s.gateway != Started && s.gateway != JobSaved
    && forall r :: Staged(s.desk, r, Loaded) ==> s.desk.requests[r].decision != Approve
  }

  lemma StalledStep(c: Config, s: State, a: Action)
    requires Enabled(c, s, a) && Stalled(s)
    ensures Stalled(Apply(c, s, a))
  {
    hide Config.ShardKey, Config.ArtifactKey, Config.Shards, Config.WorkflowId, Handler.Format, Effect, NextAct;
  }

  lemma {:induction false} StaysStalled(c: Config, s: State, acts: seq<Action>)
    requires Stalled(s) && RunFrom(c, s, acts).Some?
    ensures Stalled(RunFrom(c, s, acts).value)
  {
    hide Enabled, Apply, Stalled;
    if |acts| > 0 {
      StaysStalled(c, s, acts[..|acts| - 1]);
      StalledStep(c, RunFrom(c, s, acts[..|acts| - 1]).value, acts[|acts| - 1]);
    }
  }

  lemma StalledNeverCompletes(c: Config, s: State)
    requires Inv(c, s) && Stalled(s)
    ensures s.flow.status != Completed
  {
    hide StoreInv, VersionInv, RowInv, DeskInv, GateInv;
  }

  /**
   * Whatever has failed so far: an open workflow can still complete exactly when the signal was sent or some request
   * can still send it; in particular every ungated one can.
   */
  lemma {:induction false} CompletesIff(c: Config, s: State)
    requires Reachable(c, s) && s.flow.status == Open
    ensures (exists acts :: Finishes(RunFrom(c, s, acts))) <==> CanResume(s)
    ensures !c.gated ==> CanResume(s)
  {
    hide Reachable, StoreInv, VersionInv, RowInv, DeskInv;
    ReachableInv(c, s);
    if CanResume(s) {
      LeadsHere(c, s);
      hide Leads, Inv;
      var t := Resumes(c, s, s);
      t := Completes(c, s, t);
      LeadsFinishes(c, s, t);
    } else {
      forall acts ensures !Finishes(RunFrom(c, s, acts)) {
        if RunFrom(c, s, acts).Some? {
          StaysStalled(c, s, acts);
          ContinuesReachable(c, s, acts);
          ReachableInv(c, RunFrom(c, s, acts).value);
          StalledNeverCompletes(c, RunFrom(c, s, acts).value);
        }
      }
    }
  }

  ghost predicate Finishes(t: Option<State>) { t.Some? && t.value.flow.status == Completed }

  lemma LeadsFinishes(c: Config, s: State, t: State)
    requires Leads(c, s, t) && t.flow.status == Completed
    ensures exists acts :: Finishes(RunFrom(c, s, acts))
  {
    hide RunFrom;
    var acts :| RunFrom(c, s, acts) == Some(t);
    assert Finishes(RunFrom(c, s, acts));
  }
}
