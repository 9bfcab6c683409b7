/** When two decision requests that overlap can both save their decision. */
module ReviewRaces {
  import opened Sequences
  import opened Protocol
  import opened ProtocolProofs
  import opened ProtocolRuns

  /** The request has acted or still can: a signal or cancel needs an open workflow, a request for changes does not. */
  predicate Savable(s: State, r: nat) {
    || Staged(s.desk, r, Acted)
    || (Staged(s.desk, r, Loaded) && (s.desk.requests[r].decision == RequestChanges || s.flow.status == Open))
  }

  /** What saving one decision leaves alone. */
  ghost predicate SavedOne(s: State, t: State, r: nat) {
    && t.desk.savers == s.desk.savers + [r]
    && t.flow.status == s.flow.status
    && s.desk.requests.Keys == t.desk.requests.Keys
    && forall q :: q in s.desk.requests && q != r ==> t.desk.requests[q] == s.desk.requests[q]
  }

  lemma SaveRuns(c: Config, s: State, r: nat) returns (acts: seq<Action>)
    requires Savable(s, r)
    ensures RunFrom(c, s, acts).Some? && SavedOne(s, RunFrom(c, s, acts).value, r)
  {
    hide Config.ShardKey, Config.ArtifactKey, Config.Shards, Config.WorkflowId, WorkEnabled, NextAct, Effect;
    var none: seq<Action> := [];
    assert RunFrom(c, s, none) == Some(s);
    if Staged(s.desk, r, Acted) {
      acts := [Save(r)];
      assert acts[..0] == none;
    } else {
      var t := Apply(c, s, Act(r));
      assert [Act(r)][..0] == none;
      assert RunFrom(c, s, [Act(r)]) == Some(t);
      acts := [Act(r), Save(r)];
      assert acts[..1] == [Act(r)];
      assert Staged(t.desk, r, Acted);
    }
  }

  /** From here the request can never save. */
  ghost predicate Doomed(s: State, r: nat) {
    && r in s.desk.requests && r !in s.desk.savers
    && (Staged(s.desk, r, Aborted) ||
        (Staged(s.desk, r, Loaded) && s.desk.requests[r].decision != RequestChanges
         && s.flow.status != Open && s.gateway != Begin))
  }

  lemma DoomedStep(c: Config, s: State, a: Action, r: nat)
    requires Enabled(c, s, a) && FlowInv(s.gateway, s.flow) && Doomed(s, r)
    ensures Doomed(Apply(c, s, a), r)
  {
    hide Config.ShardKey, Config.ArtifactKey, Config.Shards, Config.WorkflowId, Handler.Format, NextAct, Effect;
  }

  lemma {:induction false} StaysDoomed(c: Config, s: State, acts: seq<Action>, r: nat)
    requires Reachable(c, s) && Doomed(s, r) && RunFrom(c, s, acts).Some?
    ensures Doomed(RunFrom(c, s, acts).value, r)
  {
    hide Reachable, Apply, Enabled, Doomed, StoreInv, VersionInv, RowInv, DeskInv, GateInv, FlowInv;
    if |acts| > 0 {
      var n := |acts| - 1;
      StaysDoomed(c, s, acts[..n], r);
      ContinuesReachable(c, s, acts[..n]);
      ReachableInv(c, RunFrom(c, s, acts[..n]).value);
      DoomedStep(c, RunFrom(c, s, acts[..n]).value, acts[n], r);
    }
  }

  lemma SaversAreSaved(d: Desk, r: nat)
    requires DeskInv(d)
    ensures r in d.savers ==> Staged(d, r, Saved)
  {
    if r in d.savers {
      var i :| 0 <= i < |d.savers| && d.savers[i] == r;
    }
  }

  lemma UnsavableIsDoomed(c: Config, s: State, r: nat)
    requires Reachable(c, s) && InFlight(s.desk, r) && !Savable(s, r)
    ensures Doomed(s, r)
  {
    ReachableInv(c, s);
    hide Reachable, StoreInv, VersionInv, RowInv, FlowInv;
    SaversAreSaved(s.desk, r);
    assert RequestInv(s.desk, r, s.desk.requests[r]);
  }

  /** A request that is refused or fails never saves a decision later. */
  lemma {:induction false} EndedNeverSaves(c: Config, s: State, r: nat, acts: seq<Action>)
    requires Reachable(c, s) && Enabled(c, s, Abort(r)) && RunFrom(c, Apply(c, s, Abort(r)), acts).Some?
    ensures r !in RunFrom(c, Apply(c, s, Abort(r)), acts).value.desk.savers
  {
    ReachableInv(c, s);
    SaversAreSaved(s.desk, r);
    hide Reachable, RunFrom, Enabled;
    var t := Step(c, s, Abort(r));
    StaysDoomed(c, t, acts, r);
  }

  ghost predicate BothSaved(t: Option<State>, q: nat, r: nat) {
    t.Some? && q in t.value.desk.savers && r in t.value.desk.savers
  }

  /**
   * Two requests that have both loaded a pending task can both save their decision exactly when each can still act;
   * on an open workflow that is always so.
   */
  lemma {:induction false} OverlapSavesTwiceIff(c: Config, s: State, q: nat, r: nat)
    requires Reachable(c, s) && q != r && InFlight(s.desk, q) && InFlight(s.desk, r)
    ensures (exists acts :: BothSaved(RunFrom(c, s, acts), q, r)) <==> Savable(s, q) && Savable(s, r)
    ensures s.flow.status == Open ==> Savable(s, q) && Savable(s, r)
  {
    hide Reachable;
    if Savable(s, q) && Savable(s, r) {
      var first := SaveRuns(c, s, q);
      var t := RunFrom(c, s, first).value;
      assert Savable(t, r);
      var rest := SaveRuns(c, t, r);
      RunsCompose(c, s, first, rest);
      hide RunFrom;
      assert BothSaved(RunFrom(c, s, first + rest), q, r) by {
        var u := RunFrom(c, t, rest).value;
        assert u.desk.savers[|s.desk.savers|] == q && u.desk.savers[|s.desk.savers| + 1] == r;
      }
    } else {
      var stuck := if Savable(s, q) then r else q;
      UnsavableIsDoomed(c, s, stuck);
      forall acts ensures !BothSaved(RunFrom(c, s, acts), q, r) {
        if RunFrom(c, s, acts).Some? {
          StaysDoomed(c, s, acts, stuck);
        }
      }
    }
  }
}
