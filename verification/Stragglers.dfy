/**
 * Attempts that time out and keep running beside their retries: the protocol with stragglers, and what survives them.
 */
module Stragglers {
  import opened Sequences
  import opened Protocol
  import opened ProtocolProofs
  import opened ProtocolRuns
  import opened JobRow

  /** The protocol's state, the attempts given up but still running, and every shard blob ever put (history only). */
  datatype World = World(s: State, late: seq<Flow>, puts: set<(nat, Blob)>)

  const START := World(INITIAL, [], {})

  /** A step of the protocol; an attempt timing out without stopping; a step of the `i`-th such attempt. */
  datatype Move = Base(a: Action) | TimeOut | Late(i: nat, blob: Blob, id: nat)

  predicate Can(c: Config, w: World, m: Move) {
    match m
    case Base(a) => Enabled(c, w.s, a)
    case TimeOut => Enabled(c, w.s, Fail)
    case Late(i, _, id) => i < |w.late| && w.late[i].attempt.Busy? && WorkEnabled(w.late[i], w.s.data, id)
  }

  /** The shard blob an attempt's next effect puts. */
  function Put(f: Flow, blob: Blob): set<(nat, Blob)> {
    if f.attempt.Busy? && f.attempt.act.PutShard? then {(f.attempt.act.next, blob)} else {}
  }

  function Onward(f: Flow, d: Data, id: nat): Flow
    requires f.attempt.Busy? && WorkEnabled(f, d, id)
  {
    f.(attempt := Busy(f.attempt.no, NextAct(f, d, id)))
  }

  function Do(c: Config, w: World, m: Move): World
    requires Can(c, w, m)
  {
    match m
    case Base(a) => World(Apply(c, w.s, a), w.late, if a.Work? then w.puts + Put(w.s.flow, a.blob) else w.puts)
    case TimeOut => World(Apply(c, w.s, Fail), w.late + [w.s.flow], w.puts)
    case Late(i, blob, id) =>
      var f := w.late[i];
      World(w.s.(data := Effect(c, f, w.s.data, blob, id)), w.late[i := Onward(f, w.s.data, id)], w.puts + Put(f, blob))
  }

  function MovesFrom(c: Config, w: World, moves: seq<Move>): Option<World> {
    if |moves| == 0 then Some(w)
    else
      var before := MovesFrom(c, w, moves[..|moves| - 1]);
      var m := moves[|moves| - 1];
      if before.Some? && Can(c, before.value, m) then Some(Do(c, before.value, m)) else None
  }

  function Moves(c: Config, moves: seq<Move>): Option<World> { MovesFrom(c, START, moves) }

  // What an attempt, given up or not, has in hand

  ghost predicate InHand(c: Config, f: Flow, puts: set<(nat, Blob)>) {
    && (f.pc > 2 ==> f.plan == c.Shards())
    && (f.pc > 3 ==> f.keys == ShardKeys(c, |c.Shards()|))
    && (f.pc > 5 ==> f.uri == c.ArtifactKey())
    && (f.attempt.Busy? && f.attempt.act.PutShard? ==> f.attempt.act.next <= |f.plan|)
    && (f.attempt.Busy? && f.attempt.act.ReadShards? ==> WerePut(c, f.attempt.act.blobs, puts))
  }

  /** The blobs were put under the first shard keys, in order. */
  ghost predicate WerePut(c: Config, blobs: seq<Blob>, puts: set<(nat, Blob)>) {
    |blobs| <= |c.Shards()| && forall k :: 0 <= k < |blobs| ==> (k, blobs[k]) in puts
  }

  /** An assembly of blobs that were put, one for each shard. */
  ghost predicate AssemblyOf(c: Config, blob: Blob, puts: set<(nat, Blob)>) {
    exists blobs :: WerePut(c, blobs, puts) && |blobs| == |c.Shards()| && blob == c.assemble(blobs)
  }

  /** Every stored shard was put there, and a stored artifact is an assembly of puts. */
  ghost predicate Sourced(c: Config, store: map<string, Blob>, puts: set<(nat, Blob)>) {
    && (forall k: nat :: c.ShardKey(k) in store ==> (k, store[c.ShardKey(k)]) in puts)
    && (c.ArtifactKey() in store ==> AssemblyOf(c, store[c.ArtifactKey()], puts))
  }

  lemma WorkSourced(c: Config, f: Flow, d: Data, puts: set<(nat, Blob)>, blob: Blob, id: nat)
    requires f.attempt.Busy? && WorkEnabled(f, d, id) && Fitting(f.pc, f.attempt.act)
    requires InHand(c, f, puts) && Sourced(c, d.store, puts)
    ensures Sourced(c, Effect(c, f, d, blob, id).store, puts + Put(f, blob))
    ensures d.store.Keys <= Effect(c, f, d, blob, id).store.Keys
  {
    hide Config.ShardKey, Config.ArtifactKey, Config.Shards, Handler.Format, AssemblyOf;
    var after := Effect(c, f, d, blob, id).store;
    var more := puts + Put(f, blob);
    if c.ArtifactKey() in d.store {
      MorePuts(c, d.store[c.ArtifactKey()], puts, more);
    }
    match f.attempt.act
    case PutShard(i) =>
      forall k: nat ensures c.ShardKey(k) == c.ShardKey(i) ==> k == i { KeysDistinct(c, k, i); }
      KeysDistinct(c, i, i);
    case ReadShards(blobs) =>
      forall k: nat ensures c.ShardKey(k) != c.ArtifactKey() { KeysDistinct(c, k, k); }
      if |blobs| == |f.keys| {
        assert AssemblyOf(c, c.assemble(blobs), more) by { OwnAssembly(c, blobs, more); }
      }
    case _ =>
  }

  lemma OwnAssembly(c: Config, blobs: seq<Blob>, puts: set<(nat, Blob)>)
    requires WerePut(c, blobs, puts) && |blobs| == |c.Shards()|
    ensures AssemblyOf(c, c.assemble(blobs), puts)
  {
    hide WerePut, Config.Shards;
  }

  lemma MorePuts(c: Config, blob: Blob, puts: set<(nat, Blob)>, more: set<(nat, Blob)>)
    requires AssemblyOf(c, blob, puts) && puts <= more
    ensures AssemblyOf(c, blob, more)
  {
    hide Config.Shards;
    var blobs :| WerePut(c, blobs, puts) && |blobs| == |c.Shards()| && blob == c.assemble(blobs);
    assert WerePut(c, blobs, more);
  }

  lemma WorkInHand(c: Config, f: Flow, d: Data, puts: set<(nat, Blob)>, blob: Blob, id: nat)
    requires f.attempt.Busy? && WorkEnabled(f, d, id) && Fitting(f.pc, f.attempt.act)
    requires InHand(c, f, puts) && Sourced(c, d.store, puts)
    ensures InHand(c, Onward(f, d, id), puts + Put(f, blob))
    ensures Fitting(f.pc, NextAct(f, d, id))
  {
    hide Config.ShardKey, Config.ArtifactKey, Config.Shards, Handler.Format, AssemblyOf;
  }

  lemma StillInHand(c: Config, f: Flow, puts: set<(nat, Blob)>, more: set<(nat, Blob)>)
    requires InHand(c, f, puts) && puts <= more
    ensures InHand(c, f, more)
  {
    hide Config.ShardKey, Config.ArtifactKey, Config.Shards;
  }

  // The store

  /** What the workflow's own progress says of the store. */
  ghost predicate Filled(c: Config, f: Flow, store: map<string, Blob>) {
    && (f.pc <= 2 ==> store == map[])
    && (f.pc > 3 ==> AllShardsStored(c, store))
    && (f.pc > 5 ==> c.ArtifactKey() in store)
    && (f.attempt.Busy? && f.attempt.act.PutShard? ==>
          forall k :: 0 <= k < f.attempt.act.next ==> c.ShardKey(k) in store)
    && (f.attempt.Busy? && f.attempt.act.ArtifactPut? ==> c.ArtifactKey() in store)
  }

  /** A straggler belongs to an activity the workflow has scheduled. */
  ghost predicate Straggles(c: Config, f: Flow, late: Flow, puts: set<(nat, Blob)>) {
    && late.attempt.Busy? && Fitting(late.pc, late.attempt.act) && InHand(c, late, puts)
    && late.pc <= f.pc && (late.pc > 0 ==> f.approved)
  }

  ghost predicate StoreSound(c: Config, w: World) {
    && InHand(c, w.s.flow, w.puts) && Sourced(c, w.s.data.store, w.puts) && Filled(c, w.s.flow, w.s.data.store)
    && forall i :: 0 <= i < |w.late| ==> Straggles(c, w.s.flow, w.late[i], w.puts)
  }

  lemma ReportInHand(c: Config, s: State, puts: set<(nat, Blob)>)
    requires Enabled(c, s, Report) && FlowInv(s.gateway, s.flow) && InHand(c, s.flow, puts)
    ensures InHand(c, Apply(c, s, Report).flow, puts) && Apply(c, s, Report).data == s.data
    ensures s.flow.pc <= Apply(c, s, Report).flow.pc && Apply(c, s, Report).flow.approved == s.flow.approved
  {
    hide Config.ShardKey, Config.ArtifactKey, Config.Shards;
  }

  lemma FailInHand(c: Config, s: State, puts: set<(nat, Blob)>)
    requires Enabled(c, s, Fail) && FlowInv(s.gateway, s.flow) && InHand(c, s.flow, puts)
    ensures InHand(c, Apply(c, s, Fail).flow, puts) && Apply(c, s, Fail).data == s.data
    ensures s.flow.pc <= Apply(c, s, Fail).flow.pc && Apply(c, s, Fail).flow.approved == s.flow.approved
  {
    hide Config.ShardKey, Config.ArtifactKey, Config.Shards;
  }

  lemma BaseFlow(c: Config, w: World, a: Action)
    requires Enabled(c, w.s, a) && FlowInv(w.s.gateway, w.s.flow) && StoreSound(c, w)
    ensures var t := Do(c, w, Base(a));
            InHand(c, t.s.flow, t.puts) && Sourced(c, t.s.data.store, t.puts) && w.puts <= t.puts
    ensures w.s.flow.pc <= Apply(c, w.s, a).flow.pc && (w.s.flow.approved ==> Apply(c, w.s, a).flow.approved)
  {
    hide Config.ShardKey, Config.ArtifactKey, Config.Shards, Config.WorkflowId, Handler.Format, Handle, Decide,
         AssemblyOf, Filled, Straggles, Sourced;
    if a.Work? {
      hide InHand, Effect;
      WorkSourced(c, w.s.flow, w.s.data, w.puts, a.blob, a.id);
      WorkInHand(c, w.s.flow, w.s.data, w.puts, a.blob, a.id);
    } else if a.Report? {
      hide InHand, Apply, Enabled;
      ReportInHand(c, w.s, w.puts);
    } else if a.Fail? {
      hide InHand, Apply, Enabled;
      FailInHand(c, w.s, w.puts);
    }
  }

  lemma WorkFills(c: Config, s: State, a: Action)
    requires a.Work? && Enabled(c, s, a) && FlowInv(s.gateway, s.flow) && Filled(c, s.flow, s.data.store)
    requires s.flow.pc > 2 ==> s.flow.plan == c.Shards()
    ensures Filled(c, Apply(c, s, a).flow, Apply(c, s, a).data.store)
  {
    hide Config.ShardKey, Config.ArtifactKey, Config.Shards, Config.WorkflowId, Handler.Format, Handle, Decide;
  }

  lemma ReportFills(c: Config, s: State)
    requires Enabled(c, s, Report) && FlowInv(s.gateway, s.flow) && Filled(c, s.flow, s.data.store)
    requires s.flow.pc > 2 ==> s.flow.plan == c.Shards()
    ensures Filled(c, Apply(c, s, Report).flow, Apply(c, s, Report).data.store)
  {
    hide Config.ShardKey, Config.ArtifactKey, Config.Shards;
  }

  lemma FailFills(c: Config, s: State)
    requires Enabled(c, s, Fail) && FlowInv(s.gateway, s.flow) && Filled(c, s.flow, s.data.store)
    ensures Filled(c, Apply(c, s, Fail).flow, Apply(c, s, Fail).data.store)
  {
    hide Config.ShardKey, Config.ArtifactKey, Config.Shards;
  }

  lemma BaseFills(c: Config, w: World, a: Action)
    requires Enabled(c, w.s, a) && FlowInv(w.s.gateway, w.s.flow) && StoreSound(c, w)
    ensures Filled(c, Apply(c, w.s, a).flow, Apply(c, w.s, a).data.store)
  {
    hide Config.ShardKey, Config.ArtifactKey, Config.Shards, Config.WorkflowId, Handler.Format, Handle, Decide,
         Straggles, Sourced, Effect, NextAct, Receive, AllShardsStored;
    if a.Work? {
      hide Apply, Filled;
      WorkFills(c, w.s, a);
    } else if a.Report? {
      hide Apply, Filled;
      ReportFills(c, w.s);
    } else if a.Fail? {
      hide Apply, Filled;
      FailFills(c, w.s);
    }
  }

  lemma LateStore(c: Config, w: World, m: Move)
    requires m.Late? && Can(c, w, m) && StoreSound(c, w)
    ensures StoreSound(c, Do(c, w, m))
  {
    hide Config.ShardKey, Config.ArtifactKey, Config.Shards, Handler.Format, InHand, Sourced, Fitting, Effect,
         WorkEnabled, NextAct;
    var f, t := w.late[m.i], Do(c, w, m);
    WorkSourced(c, f, w.s.data, w.puts, m.blob, m.id);
    WorkInHand(c, f, w.s.data, w.puts, m.blob, m.id);
    StillInHand(c, w.s.flow, w.puts, t.puts);
    LateFills(c, w.s.flow, f, w.s.data, m.blob, m.id);
    forall i | 0 <= i < |t.late| ensures Straggles(c, t.s.flow, t.late[i], t.puts) {
      StillInHand(c, w.late[i], w.puts, t.puts);
    }
  }

  lemma LateFills(c: Config, f: Flow, late: Flow, d: Data, blob: Blob, id: nat)
    requires late.attempt.Busy? && WorkEnabled(late, d, id) && Fitting(late.pc, late.attempt.act) && late.pc <= f.pc
    requires Filled(c, f, d.store) && d.store.Keys <= Effect(c, late, d, blob, id).store.Keys
    ensures Filled(c, f, Effect(c, late, d, blob, id).store)
  {
    hide Config.ShardKey, Config.ArtifactKey, Config.Shards, Handler.Format;
  }

  lemma BaseStore(c: Config, w: World, a: Action)
    requires Enabled(c, w.s, a) && FlowInv(w.s.gateway, w.s.flow) && StoreSound(c, w)
    ensures StoreSound(c, Do(c, w, Base(a)))
  {
    var t := Do(c, w, Base(a));
    BaseFlow(c, w, a);
    BaseFills(c, w, a);
    hide Config.ShardKey, Config.ArtifactKey, Config.Shards, InHand, Sourced, Fitting, Filled, Apply, Enabled;
    forall i | 0 <= i < |t.late| ensures Straggles(c, t.s.flow, t.late[i], t.puts) {
      StillInHand(c, w.late[i], w.puts, t.puts);
    }
  }

  lemma TimeOutStore(c: Config, w: World)
    requires Can(c, w, TimeOut) && FlowInv(w.s.gateway, w.s.flow) && StoreSound(c, w)
    ensures StoreSound(c, Do(c, w, TimeOut))
  {
    BaseStore(c, w, Fail);
    FailKeepsPlace(c, w.s);
    hide Config.ShardKey, Config.ArtifactKey, Config.Shards, InHand, Sourced, Fitting, Filled, Apply;
  }

  lemma FailKeepsPlace(c: Config, s: State)
    requires Enabled(c, s, Fail) && FlowInv(s.gateway, s.flow)
    ensures Apply(c, s, Fail).flow.pc == s.flow.pc && s.flow.attempt.Busy? && Fitting(s.flow.pc, s.flow.attempt.act)
    ensures Apply(c, s, Fail).flow.approved == s.flow.approved && (s.flow.pc > 0 ==> s.flow.approved)
    ensures Apply(c, s, Fail).data == s.data && Apply(c, s, Fail).gateway == s.gateway
    ensures Apply(c, s, Fail).desk == s.desk
  {
  }

  // Versions

  predicate Inserting(f: Flow) { f.attempt.Busy? && f.attempt.act.InsertVersion? }

  /** The stragglers that may still insert a version. */
  function ToInsert(late: seq<Flow>): nat {
    if |late| == 0 then 0
    else ToInsert(late[..|late| - 1]) + (if Inserting(late[|late| - 1]) then 1 else 0)
  }

  lemma {:induction false} ToInsertUpdate(late: seq<Flow>, i: nat, f: Flow)
    requires i < |late|
    ensures ToInsert(late[i := f]) + (if Inserting(late[i]) then 1 else 0)
         == ToInsert(late) + (if Inserting(f) then 1 else 0)
  {
    var n := |late| - 1;
    if i < n {
      ToInsertUpdate(late[..n], i, f);
      assert late[i := f][..n] == late[..n][i := f];
    } else {
      assert late[i := f][..n] == late[..n];
    }
  }

  lemma ToInsertMore(late: seq<Flow>, f: Flow)
    ensures ToInsert(late + [f]) == ToInsert(late) + (if Inserting(f) then 1 else 0)
  {
    assert (late + [f])[..|late|] == late;
  }

  /** How many attempts to register a version have begun, at most. */
  function Begun(f: Flow): nat {
    if f.pc < 6 then 0
    else if f.pc == 6 && f.attempt.Busy? then f.attempt.no
    else if f.pc == 6 && f.status == Open then 0
    else MAX_ATTEMPTS
  }

  /** Each begun attempt has inserted its version, may still insert it, or never will. */
  ghost predicate VersionsSound(c: Config, f: Flow, versions: seq<Version>, late: seq<Flow>) {
    && Uniform(c, versions)
    && |versions| + ToInsert(late) + (if Inserting(f) then 1 else 0) <= Begun(f)
    && (f.pc > 6 || (f.attempt.Busy? && f.attempt.act.VersionInserted?) ==> |versions| >= 1)
  }

  lemma BaseVersions(c: Config, s: State, a: Action, late: seq<Flow>)
    requires Enabled(c, s, a) && FlowInv(s.gateway, s.flow) && VersionsSound(c, s.flow, s.data.versions, late)
    requires s.flow.pc > 5 ==> s.flow.uri == c.ArtifactKey()
    ensures VersionsSound(c, Apply(c, s, a).flow, Apply(c, s, a).data.versions, late)
  {
    hide Config.ShardKey, Config.ArtifactKey, Config.Shards, Config.WorkflowId, Handler.Format, Handle, Decide,
         ToInsert, Uniform;
    if a.Work? && s.flow.attempt.act.InsertVersion? {
      InsertKeepsUniform(c, s.data.versions, a.id, s.flow.uri);
    }
  }

  lemma TimeOutVersions(c: Config, s: State, late: seq<Flow>)
    requires Enabled(c, s, Fail) && FlowInv(s.gateway, s.flow) && VersionsSound(c, s.flow, s.data.versions, late)
    ensures VersionsSound(c, Apply(c, s, Fail).flow, s.data.versions, late + [s.flow])
  {
    hide Config.ArtifactKey, Handler.Format, ToInsert, Uniform;
    ToInsertMore(late, s.flow);
  }

  lemma LateVersions(c: Config, w: World, m: Move)
    requires m.Late? && Can(c, w, m) && Straggles(c, w.s.flow, w.late[m.i], w.puts)
    requires VersionsSound(c, w.s.flow, w.s.data.versions, w.late)
    ensures VersionsSound(c, w.s.flow, Do(c, w, m).s.data.versions, Do(c, w, m).late)
  {
    hide Config.ShardKey, Config.ArtifactKey, Config.Shards, Handler.Format, ToInsert, Uniform;
    var f := w.late[m.i];
    ToInsertUpdate(w.late, m.i, Onward(f, w.s.data, m.id));
    if f.attempt.act.InsertVersion? {
      InsertKeepsUniform(c, w.s.data.versions, m.id, f.uri);
    }
  }

  // The job row

  ghost predicate RowSound(g: Gateway, f: Flow, row: Option<Job>) {
    && (row.Some? && row.value.status == Succeeded ==> f.pc >= 7)
    && (row.Some? && !f.approved ==> row.value.status == Pending || row.value.status == AwaitingReview)
    && (g == JobSaved || g == Finished ==> row.Some?)
  }

  lemma BaseRow(c: Config, s: State, a: Action)
    requires Enabled(c, s, a) && FlowInv(s.gateway, s.flow) && RowSound(s.gateway, s.flow, s.data.row)
    ensures RowSound(Apply(c, s, a).gateway, Apply(c, s, a).flow, Apply(c, s, a).data.row)
  {
    hide Config.ShardKey, Config.ArtifactKey, Config.Shards, Config.WorkflowId, Handler.Format, Handle, Decide;
  }

  lemma LateRow(c: Config, w: World, m: Move)
    requires m.Late? && Can(c, w, m) && Straggles(c, w.s.flow, w.late[m.i], w.puts)
    requires RowSound(w.s.gateway, w.s.flow, w.s.data.row)
    ensures RowSound(w.s.gateway, w.s.flow, Do(c, w, m).s.data.row)
  {
    hide Config.ShardKey, Config.ArtifactKey, Config.Shards, Handler.Format;
  }

  // Every run with stragglers

  ghost predicate Sound(c: Config, w: World) {
    && FlowInv(w.s.gateway, w.s.flow)
    && DeskInv(w.s.desk) && GateInv(c, w.s.gateway, w.s.flow, w.s.desk)
    && StoreSound(c, w)
    && VersionsSound(c, w.s.flow, w.s.data.versions, w.late)
    && RowSound(w.s.gateway, w.s.flow, w.s.data.row)
  }

  lemma SoundStep(c: Config, w: World, m: Move)
    requires Can(c, w, m) && Sound(c, w)
    ensures Sound(c, Do(c, w, m))
  {
    hide FlowInv, DeskInv, GateInv, VersionsSound, RowSound, Apply, Enabled, InHand, Sourced, Filled, Straggles, Effect,
         Onward, WorkEnabled;
    match m
    case Base(a) =>
      UriInHand(c, w.s.flow, w.puts);
      FlowStep(c, w.s, a);
      DeskStep(c, w.s, a);
      BaseStore(c, w, a);
      BaseVersions(c, w.s, a, w.late);
      BaseRow(c, w.s, a);
    case TimeOut =>
      FailKeepsPlace(c, w.s);
      FlowStep(c, w.s, Fail);
      DeskStep(c, w.s, Fail);
      TimeOutStore(c, w);
      TimeOutVersions(c, w.s, w.late);
      BaseRow(c, w.s, Fail);
    case Late(_, _, _) =>
      LateStore(c, w, m);
      LateVersions(c, w, m);
      LateRow(c, w, m);
  }

  lemma UriInHand(c: Config, f: Flow, puts: set<(nat, Blob)>)
    requires InHand(c, f, puts)
    ensures f.pc > 5 ==> f.uri == c.ArtifactKey()
  {
  }

  lemma StartsSound(c: Config)
    ensures Sound(c, START)
  {
    hide Config.ShardKey, Config.ArtifactKey, Config.Shards, Config.WorkflowId;
  }

  lemma {:induction false} EveryRunSound(c: Config, moves: seq<Move>)
    requires Moves(c, moves).Some?
    ensures Sound(c, Moves(c, moves).value)
  {
    hide Sound, Can, Do;
    if |moves| == 0 {
      StartsSound(c);
    } else {
      EveryRunSound(c, moves[..|moves| - 1]);
      SoundStep(c, Moves(c, moves[..|moves| - 1]).value, moves[|moves| - 1]);
    }
  }

  // What survives

  /** No shard was ever put with two different contents. */
  ghost predicate OneBlobEach(puts: set<(nat, Blob)>) {
    forall k, a, b :: (k, a) in puts && (k, b) in puts ==> a == b
  }

  lemma SameBlobs(c: Config, store: map<string, Blob>, puts: set<(nat, Blob)>)
    requires Sourced(c, store, puts) && OneBlobEach(puts) && AllShardsStored(c, store) && c.ArtifactKey() in store
    ensures Assembled(c, store)
  {
    hide Config.ShardKey, Config.ArtifactKey, Config.Shards;
    var blobs :| WerePut(c, blobs, puts) && |blobs| == |c.Shards()| && store[c.ArtifactKey()] == c.assemble(blobs);
    forall k | 0 <= k < |blobs| ensures blobs[k] == StoredShards(c, store)[k] {
      assert (k, blobs[k]) in puts && (k, store[c.ShardKey(k)]) in puts;
    }
    assert blobs == StoredShards(c, store);
  }

  /**
   * In every run with stragglers: once "succeeded" is persisted all shards and the artifact are stored, the artifact
   * is the in-order assembly of blobs put for the shards, and one to three versions exist, all alike.  It is the
   * assembly of the shards as they are stored whenever no shard was put with two different contents.
   */
  lemma {:induction false} SucceededMeansStored(c: Config, moves: seq<Move>)
    requires Moves(c, moves).Some?
    ensures var w := Moves(c, moves).value; var d := w.s.data;
      d.row.Some? && d.row.value.status == Succeeded ==>
        && AllShardsStored(c, d.store) && c.ArtifactKey() in d.store
        && AssemblyOf(c, d.store[c.ArtifactKey()], w.puts)
        && 1 <= |d.versions| <= MAX_ATTEMPTS && Uniform(c, d.versions)
        && (OneBlobEach(w.puts) ==> Assembled(c, d.store))
  {
    hide Moves, Config.ShardKey, Config.ArtifactKey, Config.Shards, AssemblyOf, FlowInv, DeskInv, GateInv, Uniform,
         Straggles, InHand, OneBlobEach, Assembled, ToInsert, AllShardsStored;
    EveryRunSound(c, moves);
    var w := Moves(c, moves).value;
    if OneBlobEach(w.puts) && AllShardsStored(c, w.s.data.store) && c.ArtifactKey() in w.s.data.store {
      SameBlobs(c, w.s.data.store, w.puts);
    }
  }

  /** In every run of a review-gated job, stragglers or not: nothing happens before some approval. */
  lemma {:induction false} NothingBeforeApprovalLate(c: Config, moves: seq<Move>)
    requires Moves(c, moves).Some? && c.gated
    ensures var s := Moves(c, moves).value.s;
      s.desk.approvers == {} ==>
        && s.flow.pc <= 1 && !s.flow.approved && s.data.store == map[] && s.data.versions == []
        && (s.data.row.Some? ==> s.data.row.value.status == Pending || s.data.row.value.status == AwaitingReview)
  {
    hide Moves, Config.ShardKey, Config.ArtifactKey, Config.Shards, AssemblyOf, DeskInv, Uniform, Straggles, InHand,
         Sourced, ToInsert;
    EveryRunSound(c, moves);
  }

  // A completed job's row

  ghost predicate ReachedWith(c: Config, w: World) { exists moves :: Moves(c, moves) == Some(w) }

  lemma {:induction false} SoundFrom(c: Config, w: World, moves: seq<Move>)
    requires Sound(c, w) && MovesFrom(c, w, moves).Some?
    ensures Sound(c, MovesFrom(c, w, moves).value)
  {
    hide Sound, Can, Do;
    if |moves| > 0 {
      SoundFrom(c, w, moves[..|moves| - 1]);
      SoundStep(c, MovesFrom(c, w, moves[..|moves| - 1]).value, moves[|moves| - 1]);
    }
  }

  lemma ReachedSound(c: Config, w: World)
    requires ReachedWith(c, w)
    ensures Sound(c, w)
  {
    hide Sound, Moves;
    var moves :| Moves(c, moves) == Some(w);
    EveryRunSound(c, moves);
  }

  /** A straggler that is still to write the row. */
  predicate ToWrite(f: Flow) { f.attempt.Busy? && (f.attempt.act.ReadJob? || f.attempt.act.WriteJob?) }

  /** A straggler that is still to write another status than "succeeded". */
  predicate ToRegress(f: Flow) { ToWrite(f) && f.pc < 7 }

  ghost predicate AnyToRegress(late: seq<Flow>) { exists i :: 0 <= i < |late| && ToRegress(late[i]) }

  /** The workflow is complete, the gateway is not to save, the row reads "succeeded" and no straggler is to undo it. */
  ghost predicate Kept(w: World) {
    w.s.flow.status == Completed && w.s.gateway != Started && ReadsSucceeded(w.s) && !AnyToRegress(w.late)
  }

  lemma KeptStep(c: Config, w: World, m: Move)
    requires Can(c, w, m) && Sound(c, w) && Kept(w)
    ensures Kept(Do(c, w, m))
  {
    hide Config.ShardKey, Config.ArtifactKey, Config.Shards, Config.WorkflowId, Handler.Format, Handle, Decide,
         StoreSound, VersionsSound, DeskInv, GateInv;
    match m
    case Base(a) => StaysCompleted(c, w.s, a);
    case TimeOut => FailKeepsPlace(c, w.s);
    case Late(_, _, _) => LateKeeps(c, w, m);
  }

  lemma LateKeeps(c: Config, w: World, m: Move)
    requires m.Late? && Can(c, w, m) && StoreSound(c, w) && Kept(w)
    ensures Kept(Do(c, w, m))
  {
    hide Config.ShardKey, Config.ArtifactKey, Config.Shards, Handler.Format, InHand, Sourced, Filled;
    var t := Do(c, w, m);
    assert Straggles(c, w.s.flow, w.late[m.i], w.puts) && !ToRegress(w.late[m.i]);
    forall i | 0 <= i < |t.late| ensures !ToRegress(t.late[i]) {
      assert !ToRegress(w.late[i]);
    }
  }

  lemma {:induction false} KeptFrom(c: Config, w: World, moves: seq<Move>)
    requires Sound(c, w) && Kept(w) && MovesFrom(c, w, moves).Some?
    ensures Kept(MovesFrom(c, w, moves).value)
  {
    hide Sound, Can, Do, Kept;
    if |moves| > 0 {
      var n := |moves| - 1;
      KeptFrom(c, w, moves[..n]);
      SoundFrom(c, w, moves[..n]);
      KeptStep(c, MovesFrom(c, w, moves[..n]).value, moves[n]);
    }
  }

  /** A straggler's write of the row: at most its read, then the write. */
  lemma Regresses(c: Config, w: World, i: nat) returns (moves: seq<Move>)
    requires Sound(c, w) && i < |w.late| && ToRegress(w.late[i])
    ensures MovesFrom(c, w, moves).Some? && !ReadsSucceeded(MovesFrom(c, w, moves).value.s)
  {
    hide Config.ShardKey, Config.ArtifactKey, Config.Shards, Handler.Format, InHand, Sourced, Filled, FlowInv,
         DeskInv, GateInv, VersionsSound, RowSound;
    assert Straggles(c, w.s.flow, w.late[i], w.puts);
    var m := Late(i, "", 0);
    OneMove(c, w, m);
    if w.late[i].attempt.act.WriteJob? {
      moves := [m];
    } else {
      var next := Do(c, w, m);
      moves := [m, m];
      assert moves[..1] == [m];
      assert next.late[i].attempt.act.WriteJob?;
    }
  }

  lemma OneMove(c: Config, w: World, m: Move)
    requires Can(c, w, m)
    ensures MovesFrom(c, w, [m]) == Some(Do(c, w, m))
  {
    hide Can, Do;
    assert [m][..0] == [];
    assert MovesFrom(c, w, []) == Some(w);
  }

  /**
   * With stragglers, a completed job that reads "succeeded" keeps reading it in every continuation exactly when the
   * gateway is not still to save and no straggler of an earlier status is still to write.
   */
  lemma {:induction false} SuccessKeptLateIff(c: Config, w: World)
    requires ReachedWith(c, w) && w.s.flow.status == Completed && ReadsSucceeded(w.s)
    ensures (forall moves :: MovesFrom(c, w, moves).Some? ==> ReadsSucceeded(MovesFrom(c, w, moves).value.s)) <==>
            w.s.gateway != Started && !AnyToRegress(w.late)
  {
    hide ReachedWith, Sound, MovesFrom, ToRegress;
    ReachedSound(c, w);
    if w.s.gateway == Started {
      SaveUndoes(c, w);
    } else if i :| 0 <= i < |w.late| && ToRegress(w.late[i]) {
      var moves := Regresses(c, w, i);
    } else {
      forall moves | MovesFrom(c, w, moves).Some? ensures ReadsSucceeded(MovesFrom(c, w, moves).value.s) {
        KeptFrom(c, w, moves);
      }
    }
  }

  lemma SaveUndoes(c: Config, w: World)
    requires w.s.gateway == Started
    ensures MovesFrom(c, w, [Base(SaveJob)]).Some? && !ReadsSucceeded(MovesFrom(c, w, [Base(SaveJob)]).value.s)
  {
    hide Config.WorkflowId, MovesFrom;
    OneMove(c, w, Base(SaveJob));
  }

  /** The workflow is complete and neither the gateway nor a straggler is to write the row, which reads `row`. */
  ghost predicate Settled(w: World, row: Option<Job>) {
    && w.s.flow.status == Completed && w.s.gateway != Started && w.s.data.row == row
    && forall i :: 0 <= i < |w.late| ==> !ToWrite(w.late[i])
  }

  lemma SettledStep(c: Config, w: World, m: Move, row: Option<Job>)
    requires Can(c, w, m) && Sound(c, w) && Settled(w, row)
    ensures Settled(Do(c, w, m), row)
  {
    hide Config.ShardKey, Config.ArtifactKey, Config.Shards, Config.WorkflowId, Handler.Format, Handle, Decide,
         StoreSound, VersionsSound, DeskInv, GateInv, RowSound;
    match m
    case Base(a) => StaysCompleted(c, w.s, a);
    case TimeOut => FailKeepsPlace(c, w.s);
    case Late(i, _, _) => assert !ToWrite(w.late[i]);
  }

  /** Then the row never changes again. */
  lemma {:induction false} RowSettledLate(c: Config, w: World, moves: seq<Move>, row: Option<Job>)
    requires Sound(c, w) && Settled(w, row) && MovesFrom(c, w, moves).Some?
    ensures Settled(MovesFrom(c, w, moves).value, row)
  {
    hide Sound, Can, Do, Settled;
    if |moves| > 0 {
      var n := |moves| - 1;
      RowSettledLate(c, w, moves[..n], row);
      SoundFrom(c, w, moves[..n]);
      SettledStep(c, MovesFrom(c, w, moves[..n]).value, moves[n], row);
    }
  }

  // What does not survive

  lemma {:induction false} MovesCompose(c: Config, w: World, first: seq<Move>, rest: seq<Move>)
    requires MovesFrom(c, w, first).Some?
    ensures MovesFrom(c, w, first + rest) == MovesFrom(c, MovesFrom(c, w, first).value, rest)
  {
    hide Can, Do;
    if |rest| == 0 {
      assert first + rest == first;
    } else {
      var n := |rest| - 1;
      assert (first + rest)[..|first + rest| - 1] == first + rest[..n];
      MovesCompose(c, w, first, rest[..n]);
    }
  }

  /** A run of the protocol is one among stragglers that rest. */
  lemma {:induction false} Lifted(c: Config, w: World, acts: seq<Action>) returns (moves: seq<Move>, t: World)
    requires RunFrom(c, w.s, acts).Some?
    ensures MovesFrom(c, w, moves) == Some(t) && t.s == RunFrom(c, w.s, acts).value && t.late == w.late
  {
    hide Enabled, Apply;
    if |acts| == 0 {
      moves, t := [], w;
    } else {
      var n := |acts| - 1;
      var before, u := Lifted(c, w, acts[..n]);
      OneMove(c, u, Base(acts[n]));
      t := Do(c, u, Base(acts[n]));
      moves := before + [Base(acts[n])];
      MovesCompose(c, w, before, [Base(acts[n])]);
    }
  }

  /** Any run in which an attempt failed is a run in which it timed out and runs on. */
  lemma {:induction false} TimedOut(c: Config, first: seq<Action>, rest: seq<Action>) returns (w: World)
    requires Run(c, first).Some? && Run(c, first + [Fail] + rest).Some?
    ensures ReachedWith(c, w) && w.s == Run(c, first + [Fail] + rest).value && w.late == [Run(c, first).value.flow]
  {
    hide Enabled, Apply;
    var a, u := Lifted(c, START, first);
    assert (first + [Fail])[..|first|] == first;
    FailedPrefix(c, first, rest);
    assert Run(c, first + [Fail]) == Some(Apply(c, u.s, Fail));
    OneMove(c, u, TimeOut);
    MovesCompose(c, START, a, [TimeOut]);
    var v := Do(c, u, TimeOut);
    RunsCompose(c, INITIAL, first + [Fail], rest);
    var b: seq<Move>;
    b, w := Lifted(c, v, rest);
    MovesCompose(c, START, a + [TimeOut], b);
    assert Moves(c, a + [TimeOut] + b) == Some(w);
  }

  lemma FailedPrefix(c: Config, first: seq<Action>, rest: seq<Action>)
    requires Run(c, first + [Fail] + rest).Some?
    ensures Run(c, first + [Fail]).Some?
  {
    hide Run, RunFrom;
    var acts := first + [Fail] + rest;
    RunIsFrom(c, acts);
    PrefixRuns(c, INITIAL, acts, |first| + 1);
    assert acts[..|first| + 1] == first + [Fail];
    RunIsFrom(c, first + [Fail]);
  }

  lemma RunIsFrom(c: Config, acts: seq<Action>)
    ensures Run(c, acts) == RunFrom(c, INITIAL, acts)
  {
  }

  /**
   * Take any run that completes, in which an attempt failed between reading and writing the row, and let that attempt
   * have timed out instead: its write can land at the end, and an earlier status than "succeeded" then stays for good.
   */
  lemma {:induction false} TimedOutWriteStays(c: Config, first: seq<Action>, rest: seq<Action>) returns (w: World)
    requires Run(c, first).Some? && AtWrite(Run(c, first).value.flow) && Run(c, first).value.flow.pc < 7
    requires Run(c, first + [Fail] + rest).Some?
    requires var t := Run(c, first + [Fail] + rest).value; t.flow.status == Completed && t.gateway != Started
    ensures ReachedWith(c, w) && w.s.flow.status == Completed && !ReadsSucceeded(w.s)
    ensures w.s.data.row == Some(Run(c, first).value.flow.attempt.act.job)
    ensures forall moves :: MovesFrom(c, w, moves).Some? ==>
              MovesFrom(c, w, moves).value.s.data.row == w.s.data.row
  {
    hide Run, MovesFrom, ReachedWith, Config.ShardKey, Config.ArtifactKey, Config.Shards, Handler.Format;
    var v := TimedOut(c, first, rest);
    var m := Late(0, "", 0);
    w := Do(c, v, m);
    ReachedNext(c, v, m);
    EveryRun(c, first);
    ReachedSound(c, w);
    hide Sound, Inv;
    assert Settled(w, w.s.data.row);
    forall moves | MovesFrom(c, w, moves).Some?
      ensures MovesFrom(c, w, moves).value.s.data.row == w.s.data.row
    {
      RowSettledLate(c, w, moves, w.s.data.row);
    }
  }

  lemma ReachedNext(c: Config, w: World, m: Move)
    requires ReachedWith(c, w) && Can(c, w, m)
    ensures ReachedWith(c, Do(c, w, m))
  {
    hide Can, Do;
    var moves :| Moves(c, moves) == Some(w);
    OneMove(c, w, m);
    MovesCompose(c, START, moves, [m]);
    assert Moves(c, moves + [m]) == Some(Do(c, w, m));
  }

  /**
   * Likewise for an attempt that failed before putting a shard: its put can land at the end, and the artifact is then
   * the assembly of the stored shards exactly when the handler assembles the changed list to the same blob.
   */
  lemma {:induction false} TimedOutPutLands(c: Config, first: seq<Action>, rest: seq<Action>, i: nat, blob: Blob)
    returns (w: World)
    requires Run(c, first).Some? && Run(c, first).value.flow.attempt.Busy?
    requires Run(c, first).value.flow.attempt.act == PutShard(i) && i < |Run(c, first).value.flow.plan|
    requires Run(c, first + [Fail] + rest).Some? && Run(c, first + [Fail] + rest).value.flow.status == Completed
    ensures ReachedWith(c, w) && w.s.flow == Run(c, first + [Fail] + rest).value.flow
    ensures var store := Run(c, first + [Fail] + rest).value.data.store;
            && i < |c.Shards()| && Assembled(c, store)
            && w.s.data.store == store[c.ShardKey(i) := blob]
            && (Assembled(c, w.s.data.store) <==>
                  c.assemble(StoredShards(c, store)[i := blob]) == c.assemble(StoredShards(c, store)))
  {
    hide Run, ReachedWith, Config.ShardKey, Config.ArtifactKey, Config.Shards, Handler.Format, Assembled, StoredShards,
         AllShardsStored, DeskInv, GateInv;
    var v := TimedOut(c, first, rest);
    EveryRun(c, first);
    EveryRun(c, first + [Fail] + rest);
    var m := Late(0, blob, 0);
    w := Do(c, v, m);
    ReachedNext(c, v, m);
    ShardReplaced(c, v.s.data.store, i, blob);
  }

  lemma ShardReplaced(c: Config, store: map<string, Blob>, i: nat, blob: Blob)
    requires Assembled(c, store) && i < |c.Shards()|
    ensures Assembled(c, store[c.ShardKey(i) := blob]) <==>
            c.assemble(StoredShards(c, store)[i := blob]) == c.assemble(StoredShards(c, store))
  {
    hide Config.ShardKey, Config.ArtifactKey, Config.Shards;
    forall k: nat ensures c.ShardKey(k) == c.ShardKey(i) ==> k == i { KeysDistinct(c, k, i); }
    KeysDistinct(c, i, i);
    var after := store[c.ShardKey(i) := blob];
    assert AllShardsStored(c, after);
    assert StoredShards(c, after) == StoredShards(c, store)[i := blob];
  }
}
