/** Runs of whole operations, in any order and with any failures: what they keep of containers, of
    committed snapshots and of ownership, and the round trip from a snapshot to a restore or a reset. */
module SnapshotRuns {
  import opened Wrappers
  import opened SnapshotStore
  import opened SnapshotOps

  /** One operation with the faults it meets; `Write` is a container changing its own file system. */
  datatype Op =
    | Snapshot(src: Id, name: Key, restart: bool, sf: SnapshotFaults)
    | Clone(src: Id, dst: Id, restart: bool, cf: CloneFaults)
    | Restore(name: Key, dst: Id, rf: RestoreFaults)
    | Reset(id: Id, name: Key, restart: bool, xf: ResetFaults)
    | Create(id: Id, image: string, chain: Key, prepareFault: bool, crf: CreateFaults)
    | RemoveOne(id: Id, deleteFault: bool, removeFault: bool)
    | DeleteNamed(name: Key, statFault: bool, removeFault: bool)
    | Write(id: Id, path: Path, content: Option<Content>)

  /** Containers the operation is about. */
  function Ids(op: Op): set<Id> {
    match op
    case Snapshot(src, _, _, _) => {src}
    case Clone(src, dst, _, _) => {src, dst}
    case Restore(_, dst, _) => {dst}
    case Reset(id, _, _, _) => {id}
    case Create(id, _, _, _, _) => {id}
    case RemoveOne(id, _, _) => {id}
    case DeleteNamed(_, _, _) => {}
    case Write(id, _, _) => {id}
  }

  /** Snapshot names it may make or take away. */
  function Names(op: Op): set<Key> {
    match op
    case Snapshot(_, name, _, _) => {name}
    case Clone(src, _, _, _) => {CloneBaseFor(src)}
    case DeleteNamed(name, _, _) => {name}
    case _ => {}
  }

  /** The operation reports Ok. */
  predicate Succeeds(s: Store, op: Op) {
    match op
    case Snapshot(src, name, _, f) => Commits(s, src, name, f) && !f.reprepare
    case Clone(src, dst, _, f) => CloneProceeds(s, src, f) && CanClone(s, src, dst, f)
    case Restore(name, dst, f) => CanRestore(s, name, dst, f)
    case Reset(id, name, restart, f) =>
      DropsLayer(s, id, name, f) && CanPrepare(s, s.records[id].snapshotKey, name, f) && (restart ==> !f.restart)
    case Create(id, _, chain, prepareFault, f) => CanCreate(s, id, chain, f, prepareFault)
    case RemoveOne(_, deleteFault, _) => !deleteFault
    case DeleteNamed(name, statFault, removeFault) => CanDelete(s, name, statFault, removeFault)
    case Write(id, path, content) =>
      id in s.records && Outcome(s, WriteFile(s.records[id].snapshotKey, path, content)) == Fine
  }

  /** The failures that leave a record without its layer. */
  predicate Strands(s: Store, op: Op) {
    match op
    case Snapshot(src, name, _, f) => Commits(s, src, name, f) && f.reprepare
    case Clone(src, _, _, f) => CloneProceeds(s, src, f) && StrandsSource(s, src, f)
    case Reset(id, name, _, f) => DropsLayer(s, id, name, f) && !CanPrepare(s, s.records[id].snapshotKey, name, f)
    case RemoveOne(id, deleteFault, removeFault) => id in s.records && deleteFault && !removeFault
    case _ => false
  }

  /** The ways a committed snapshot can go: deleted by name; removed as if it were the layer of a container
      whose id the name happens to match; or reset away by a record that lost its own layer of that name. */
  predicate Drops(s: Store, op: Op, k: Key) {
    match op
    case DeleteNamed(name, _, _) => name == k && Succeeds(s, op)
    case RemoveOne(id, _, removeFault) => SnapshotKeyFor(id) == k && !removeFault && !HasChild(s.snaps, k)
    case Reset(id, name, _, f) => DropsLayer(s, id, name, f) && s.records[id].snapshotKey == k
    case _ => false
  }

  /** What every operation keeps, whatever fails. */
  ghost predicate Sound(s: Store) { WellFormed(s) && Named(s) && LayersUnmanaged(s) }

  /** What a successful snapshot, clone, restore or reset gives. */
  ghost predicate Shows(s: Store, op: Op, s': Store) {
    match op
    case Snapshot(src, name, _, _) =>
      && src in s.records
      && name in s'.snaps && s'.snaps[name].kind.Committed? && name != ""
      && ManagedImage(s', name) == Ok(s.records[src].image)
      && ViewOf(s'.snaps, name) == ViewOf(s.snaps, SnapshotKeyFor(src))
    case Clone(src, dst, _, _) =>
      var base := CloneBaseFor(src);
      && src in s.records && dst in s'.records && OwnsLayer(s', dst)
      && s'.records[dst].image == s.records[src].image
      && base in s'.snaps && s'.snaps[base].kind.Committed?
      && ViewOf(s'.snaps, base) == ViewOf(s.snaps, if base in s.snaps then base else SnapshotKeyFor(src))
      && ViewOf(s'.snaps, SnapshotKeyFor(dst)) == ViewOf(s'.snaps, base)
    case Restore(name, dst, _) =>
      && dst in s'.records && OwnsLayer(s', dst)
      && ManagedImage(s, name) == Ok(s'.records[dst].image)
      && ViewOf(s'.snaps, SnapshotKeyFor(dst)) == ViewOf(s.snaps, name)
    case Reset(id, name, _, _) =>
      && s'.records == s.records && id in s.records && OwnsLayer(s', id)
      && ViewOf(s'.snaps, SnapshotKeyFor(id)) == ViewOf(s.snaps, name)
    case _ => true
  }

  /** One operation taking `s` to `s'`: what its method guarantees, and no more. */
  ghost predicate Step(s: Store, op: Op, s': Store) {
    && Sound(s')
    && Operation(s, s', Ids(op), Names(op))
    && (forall k | k in s.snaps && s.snaps[k].kind.Committed? :: Keeps(s, s', k) <==> !Drops(s, op, k))
    && (Owned(s) ==> (Owned(s') <==> !Strands(s, op)))
    && (Succeeds(s, op) ==> Shows(s, op, s'))
    && (forall b | OnlySource(op, b) && b in s.records && OwnsLayer(s, b) && !Strands(s, op) :: SourceKept(s, s', b))
    && TasksStep(s, op, s')
  }

  /** The container whose task the operation may stop or start. */
  function TaskOf(op: Op): Option<Id> {
    match op
    case Snapshot(src, _, _, _) => Some(src)
    case Clone(src, _, _, _) => Some(src)
    case Reset(id, _, _, _) => Some(id)
    case _ => None
  }

  /** Tasks change only where they are stopped or started: a copied source not seen running keeps its own, one
      seen running and not to be restarted ends up without, and a restart that is asked for gives one back. */
  ghost predicate TasksStep(s: Store, op: Op, s': Store) {
    && (TaskOf(op).None? ==> s'.tasks == s.tasks)
    && (TaskOf(op).Some? ==> s'.tasks - {TaskOf(op).value} == s.tasks - {TaskOf(op).value})
    && match op
       case Snapshot(src, name, restart, f) =>
         && (!SeenRunning(s, src, f.lookup) ==> s'.tasks == s.tasks)
         && (AsksCommit(s, src, name, f) && SeenRunning(s, src, f.lookup) && !restart ==> src !in s'.tasks)
         && (Succeeds(s, op) && SeenRunning(s, src, f.lookup) && restart && !f.restart ==> TaskRunning(s', src))
       case Clone(src, _, restart, f) =>
         && (!SeenRunning(s, src, f.lookup) ==> s'.tasks == s.tasks)
         && (src in s.records && SeenRunning(s, src, f.lookup) && CloneProceeds(s, src, f) && !restart ==>
               src !in s'.tasks)
         && (Succeeds(s, op) && OwnsLayer(s, src) && SeenRunning(s, src, f.lookup) && restart && !f.restart ==>
               TaskRunning(s', src))
       case Reset(id, _, restart, _) =>
         Succeeds(s, op) ==> if restart then TaskRunning(s', id) else id !in s'.tasks
       case _ => true
  }

  /** The operation copies the container and is not otherwise about it. */
  predicate OnlySource(op: Op, b: Id) { (op.Snapshot? && op.src == b) || (op.Clone? && op.src == b && op.dst != b) }

  // ---- the methods are such steps ----

  lemma SoundAfter(s: Store, s': Store, es: seq<Event>, keys: set<Key>)
    requires Sound(s) && Trace(s, s', es, keys) && Named(s')
    ensures Sound(s')
  {
    hide ApplyAll, WellFormed, Named, LayersUnmanaged;
    RunWellFormed(s, es);
    RunUnmanaged(s, es);
  }

  method PerformSnapshot(c: Client, op: Op) returns (r: OpResult)
    requires Sound(c.st) && op.Snapshot?
    modifies c
    ensures Step(old(c.st), op, c.st) && (r.Ok? <==> Succeeds(old(c.st), op))
  {
    hide ViewOf, WellFormed, Trace, OwnsLayer, LayersUnmanaged, Operation, SourceKept;
    ghost var s0, es := c.st, [];
    r, es := SnapshotContainer(c, op.src, op.name, op.restart, op.sf);
    if op.src in s0.records {
      ghost var keys := {SnapshotKeyFor(op.src), op.name};
      SoundAfter(s0, c.st, es, keys);
      SnapshotIsOperation(s0, c.st, es, op.src, op.name);
      TraceKeepsCommitted(s0, c.st, es, keys);
      if !Commits(s0, op.src, op.name, op.sf) { SourceUnchanged(s0, c.st, op.src); }
      if Succeeds(s0, op) { SourceShown(s0, c.st, op.src); }
    } else {
      IdleOperation(s0, Ids(op), Names(op));
      SameSnapsKeep(s0, c.st);
    }
  }

  lemma SourceShown(s: Store, s': Store, src: Id)
    requires s'.records == s.records && src in s.records && s.records[src].snapshotKey == SnapshotKeyFor(src)
    requires var key := SnapshotKeyFor(src);
             key in s'.snaps && s'.snaps[key].kind.Active? && ViewOf(s'.snaps, key) == ViewOf(s.snaps, key)
    ensures SourceKept(s, s', src)
  {
    hide ViewOf;
  }

  lemma IdleOperation(s: Store, ids: set<Id>, names: set<Key>)
    ensures Operation(s, s, ids, names)
  {
    TraceEmpty(s, Layers(ids) + names);
  }

  method PerformClone(c: Client, op: Op) returns (r: OpResult)
    requires Sound(c.st) && op.Clone?
    modifies c
    ensures Step(old(c.st), op, c.st) && (r.Ok? <==> Succeeds(old(c.st), op))
  {
    hide ViewOf, WellFormed, Trace, OwnsLayer, LayersUnmanaged, Operation, SourceKept, CommitsBase;
    ghost var s0, es := c.st, [];
    r, es := CloneContainer(c, op.src, op.dst, op.restart, op.cf);
    if op.src in s0.records {
      SoundAfter(s0, c.st, es, {SnapshotKeyFor(op.src), CloneBaseFor(op.src), SnapshotKeyFor(op.dst)});
      CloneIsOperation(s0, c.st, es, op.src, op.dst);
      LayerPresent(s0, op.src);
    } else {
      IdleOperation(s0, Ids(op), Names(op));
    }
  }

  lemma LayerPresent(s: Store, id: Id)
    requires id in s.records
    ensures OwnsLayer(s, id) ==> SnapshotKeyFor(id) in s.snaps
  {
  }

  method PerformRestore(c: Client, op: Op) returns (r: OpResult)
    requires Sound(c.st) && op.Restore?
    modifies c
    ensures Step(old(c.st), op, c.st) && (r.Ok? <==> Succeeds(old(c.st), op))
  {
    hide ViewOf, WellFormed, Trace, OwnsLayer, LayersUnmanaged, Operation;
    ghost var s0, es := c.st, [];
    r, es := RestoreContainer(c, op.name, op.dst, op.rf);
    SoundAfter(s0, c.st, es, {SnapshotKeyFor(op.dst)});
    OwnLayerIsOperation(s0, c.st, es, op.dst);
  }

  method PerformReset(c: Client, op: Op) returns (r: OpResult)
    requires Sound(c.st) && op.Reset?
    modifies c
    ensures Step(old(c.st), op, c.st) && (r.Ok? <==> Succeeds(old(c.st), op))
  {
    hide ViewOf, WellFormed, Trace, LayersUnmanaged, Operation;
    ghost var s0, es := c.st, [];
    r, es := ResetToSnapshot(c, op.id, op.name, op.restart, op.xf);
    if op.id in s0.records {
      SoundAfter(s0, c.st, es, {SnapshotKeyFor(op.id)});
      OwnLayerIsOperation(s0, c.st, es, op.id);
      forall k | k in s0.snaps && s0.snaps[k].kind.Committed? ensures Keeps(s0, c.st, k) <==> !Drops(s0, op, k) {
        if k != SnapshotKeyFor(op.id) { TraceFrame(s0, c.st, es, {SnapshotKeyFor(op.id)}, k); }
      }
    } else {
      IdleOperation(s0, Ids(op), Names(op));
      SameSnapsKeep(s0, c.st);
    }
  }

  lemma TraceFrame(s: Store, s': Store, es: seq<Event>, keys: set<Key>, k: Key)
    requires WellFormed(s) && Trace(s, s', es, keys) && k in s.snaps && k !in keys
    ensures Keeps(s, s', k)
  {
    hide ViewOf, ApplyAll, WellFormed;
    RunIsolation(s, es, k);
  }

  method PerformCreate(c: Client, op: Op) returns (r: OpResult)
    requires Sound(c.st) && op.Create?
    modifies c
    ensures Step(old(c.st), op, c.st) && (r.Ok? <==> Succeeds(old(c.st), op))
  {
    hide ViewOf, WellFormed, Trace, OwnsLayer, LayersUnmanaged, Operation;
    ghost var s0, es := c.st, [];
    r, es := CreateContainer(c, op.id, op.image, op.chain, op.crf, op.prepareFault);
    SoundAfter(s0, c.st, es, {SnapshotKeyFor(op.id)});
    OwnLayerIsOperation(s0, c.st, es, op.id);
    TraceKeepsCommitted(s0, c.st, es, {SnapshotKeyFor(op.id)});
  }

  method PerformRemove(c: Client, op: Op) returns (r: OpResult)
    requires Sound(c.st) && op.RemoveOne?
    modifies c
    ensures Step(old(c.st), op, c.st) && (r.Ok? <==> Succeeds(old(c.st), op))
  {
    hide ViewOf, WellFormed, Trace, OwnsLayer, LayersUnmanaged, Operation, HasChild;
    ghost var s0, es := c.st, [];
    r, es := RemoveContainer(c, op.id, op.deleteFault, op.removeFault);
    SoundAfter(s0, c.st, es, {SnapshotKeyFor(op.id)});
    OwnLayerIsOperation(s0, c.st, es, op.id);
    forall k | k in s0.snaps && s0.snaps[k].kind.Committed? ensures Keeps(s0, c.st, k) <==> !Drops(s0, op, k) {
      if k != SnapshotKeyFor(op.id) { TraceFrame(s0, c.st, es, {SnapshotKeyFor(op.id)}, k); }
    }
  }

  method PerformDelete(c: Client, op: Op) returns (r: OpResult)
    requires Sound(c.st) && op.DeleteNamed?
    modifies c
    ensures Step(old(c.st), op, c.st) && (r.Ok? <==> Succeeds(old(c.st), op))
  {
    hide ViewOf, WellFormed, Trace, OwnsLayer, LayersUnmanaged, Operation, HasChild;
    ghost var s0, es := c.st, [];
    r, es := DeleteSnapshot(c, op.name, op.statFault, op.removeFault);
    SoundAfter(s0, c.st, es, {op.name});
    DeleteIsOperation(s0, c.st, es, op.name);
    forall k | k in s0.snaps && s0.snaps[k].kind.Committed? ensures Keeps(s0, c.st, k) <==> !Drops(s0, op, k) {
      if k != op.name { TraceFrame(s0, c.st, es, {op.name}, k); }
    }
  }

  /** Every operation of the crate, and every write of a container, is a step. */
  method Perform(c: Client, op: Op) returns (r: OpResult)
    requires Sound(c.st)
    modifies c
    ensures Step(old(c.st), op, c.st) && (r.Ok? <==> Succeeds(old(c.st), op))
  {
    hide Step, Succeeds, Sound;
    match op {
      case Snapshot(_, _, _, _) => r := PerformSnapshot(c, op);
      case Clone(_, _, _, _) => r := PerformClone(c, op);
      case Restore(_, _, _) => r := PerformRestore(c, op);
      case Reset(_, _, _, _) => r := PerformReset(c, op);
      case Create(_, _, _, _, _) => r := PerformCreate(c, op);
      case RemoveOne(_, _, _) => r := PerformRemove(c, op);
      case DeleteNamed(_, _, _) => r := PerformDelete(c, op);
      case Write(_, _, _) => r := PerformWrite(c, op);
    }
  }

  method PerformWrite(c: Client, op: Op) returns (r: OpResult)
    requires Sound(c.st) && op.Write?
    modifies c
    ensures Step(old(c.st), op, c.st) && (r.Ok? <==> Succeeds(old(c.st), op))
  {
    hide ViewOf, WellFormed, Trace, LayersUnmanaged, Operation, HasChild;
    ghost var s0 := c.st;
    if op.id !in c.st.records {
      IdleOperation(s0, Ids(op), Names(op));
      SameSnapsKeep(s0, s0);
      return Err(ContainerNotFound);
    }
    var key := c.st.records[op.id].snapshotKey;
    var e := WriteFile(key, op.path, op.content);
    TraceEmpty(s0, {key});
    TraceCall(s0, s0, [], {key}, e, false);
    var code := c.Call(e, false);
    ghost var es := Logged([], e, false);
    SoundAfter(s0, c.st, es, {key});
    OwnLayerIsOperation(s0, c.st, es, op.id);
    TraceKeepsCommitted(s0, c.st, es, {key});
    WriteKeepsOwners(s0, e);
    r := if code == Fine then Ok(()) else Err(Rpc(code));
  }

  lemma WriteKeepsOwners(s: Store, e: Event)
    requires e.WriteFile?
    ensures Owned(s) <==> Owned(Apply(s, e))
  {
    var s' := Apply(s, e);
    assert forall id | id in s.records :: OwnsLayer(s, id) <==> OwnsLayer(s', id);
  }

  // ---- runs ----

  ghost predicate Run(ss: seq<Store>, ops: seq<Op>) {
    && |ss| == |ops| + 1 && Sound(ss[0])
    && forall i | 0 <= i < |ops| :: Step(ss[i], ops[i], ss[i + 1])
  }

  /** Ownership over runs: every record has its own active layer throughout if and only if no operation
      meets one of the failures that strand a record. */
  lemma {:induction false} RunOwnedIff(ss: seq<Store>, ops: seq<Op>)
    requires Run(ss, ops) && Owned(ss[0])
    ensures (forall i | 0 <= i <= |ops| :: Owned(ss[i])) <==> (forall i | 0 <= i < |ops| :: !Strands(ss[i], ops[i]))
    decreases |ops|
  {
    hide Owned, Strands, Sound, Operation, Keeps, Drops, Succeeds, Shows, TasksStep;
    if |ops| > 0 {
      var n := |ops| - 1;
      RunOwnedIff(ss[..n + 1], ops[..n]);
      assert Step(ss[n], ops[n], ss[n + 1]);
    }
  }

  /** Containers over runs: operations on others, with any failures, and operations that only copy the
      container and do not strand it, leave it its record, its layer and its view. */
  lemma {:induction false} RunIsolated(ss: seq<Store>, ops: seq<Op>, b: Id)
    requires Run(ss, ops) && b in ss[0].records && OwnsLayer(ss[0], b)
    requires forall i | 0 <= i < |ops| :: b !in Ids(ops[i]) || (OnlySource(ops[i], b) && !Strands(ss[i], ops[i]))
    ensures SourceKept(ss[0], ss[|ops|], b)
    decreases |ops|
  {
    hide ViewOf, Operation, Keeps, Drops, Succeeds, Shows, Strands, Owned, Ids, Names, OwnsLayer, OnlySource, TasksStep;
    if |ops| > 0 {
      var n := |ops| - 1;
      RunIsolated(ss[..n + 1], ops[..n], b);
      RunSound(ss, ops, n);
      assert Step(ss[n], ops[n], ss[n + 1]);
      if b !in Ids(ops[n]) { ContainersIsolated(ss[n], ss[n + 1], Ids(ops[n]), b, Names(ops[n])); }
    }
  }

  /** Tasks over runs: a container's task is what it was after any operations that do not copy or reset it. */
  lemma {:induction false} RunTaskKept(ss: seq<Store>, ops: seq<Op>, b: Id)
    requires Run(ss, ops) && forall i | 0 <= i < |ops| :: TaskOf(ops[i]) != Some(b)
    ensures b in ss[|ops|].tasks <==> b in ss[0].tasks
    ensures b in ss[0].tasks ==> ss[|ops|].tasks[b] == ss[0].tasks[b]
    decreases |ops|
  {
    hide Sound, Operation, Keeps, Drops, Shows, Strands, Owned, SourceKept, OnlySource, Succeeds;
    if |ops| > 0 {
      var n := |ops| - 1;
      RunTaskKept(ss[..n + 1], ops[..n], b);
      assert Step(ss[n], ops[n], ss[n + 1]);
      TaskUntouched(ss[n], ops[n], ss[n + 1], b);
    }
  }

  lemma TaskUntouched(s: Store, op: Op, s': Store, b: Id)
    requires TasksStep(s, op, s') && TaskOf(op) != Some(b)
    ensures b in s'.tasks <==> b in s.tasks
    ensures b in s.tasks ==> s'.tasks[b] == s.tasks[b]
  {
    hide Succeeds, OwnsLayer;
    if TaskOf(op).Some? {
      var id := TaskOf(op).value;
      assert b in s'.tasks <==> b in s'.tasks - {id};
      assert b in s.tasks <==> b in s.tasks - {id};
      if b in s.tasks { assert (s'.tasks - {id})[b] == (s.tasks - {id})[b]; }
    }
  }

  lemma {:induction false} RunSound(ss: seq<Store>, ops: seq<Op>, n: nat)
    requires Run(ss, ops) && n <= |ops|
    ensures Sound(ss[n])
  {
    hide Sound, Operation, Keeps, Drops, Succeeds, Shows, Strands, Owned, SourceKept, TasksStep;
    if n > 0 { assert Step(ss[n - 1], ops[n - 1], ss[n]); }
  }

  /** Committed snapshots over runs: one stays as it was, view and all, throughout the run if and only if no
      operation drops it. */
  lemma {:induction false} RunSnapshotKeptIff(ss: seq<Store>, ops: seq<Op>, k: Key)
    requires Run(ss, ops) && k in ss[0].snaps && ss[0].snaps[k].kind.Committed?
    ensures (forall i | 0 <= i <= |ops| :: Keeps(ss[0], ss[i], k))
       <==> (forall i | 0 <= i < |ops| :: !Drops(ss[i], ops[i], k))
    decreases |ops|
  {
    hide ViewOf, Sound, Operation, Owned, Drops, Succeeds, Shows, Strands, TasksStep;
    if |ops| > 0 {
      var n := |ops| - 1;
      RunSnapshotKeptIff(ss[..n + 1], ops[..n], k);
      assert Step(ss[n], ops[n], ss[n + 1]);
    }
  }

  /** While ownership holds a reset drops no committed snapshot, so only a deletion by name or a removal of
      an id with that snapshot key can. */
  lemma ResetSparesCommitted(s: Store, op: Op, k: Key)
    requires Owned(s) && op.Reset? && k in s.snaps && s.snaps[k].kind.Committed?
    ensures !Drops(s, op, k)
  {
    if op.id in s.records { assert OwnsLayer(s, op.id); }
  }

  /** Snapshot round trip over operations: after a successful snapshot, then any run that does not drop it
      (the source may be written to, reset, cloned or removed), the snapshot can still be restored into any
      free container and reset to, and both show the source as it was when the snapshot was taken. */
  lemma RoundTrip(ss: seq<Store>, ops: seq<Op>, last: Op, end: Store)
    requires Run(ss, ops) && |ops| > 0 && ops[0].Snapshot? && Succeeds(ss[0], ops[0])
    requires forall i | 1 <= i < |ops| :: !Drops(ss[i], ops[i], ops[0].name)
    requires Step(ss[|ops|], last, end)
    ensures ops[0].src in ss[0].records
    ensures var s, name, image := ss[|ops|], ops[0].name, ss[0].records[ops[0].src].image;
            var was := ViewOf(ss[0].snaps, SnapshotKeyFor(ops[0].src));
            && (last.Restore? && last.name == name ==>
                  && (Succeeds(s, last) <==>
                        NoRestoreFault(last.rf) && last.dst !in s.records && SnapshotKeyFor(last.dst) !in s.snaps)
                  && (Succeeds(s, last) ==>
                        && last.dst in end.records && end.records[last.dst].image == image && OwnsLayer(end, last.dst)
                        && ViewOf(end.snaps, SnapshotKeyFor(last.dst)) == was))
            && (last.Reset? && last.name == name && Succeeds(s, last) ==>
                  && end.records == s.records && last.id in s.records && OwnsLayer(end, last.id)
                  && ViewOf(end.snaps, SnapshotKeyFor(last.id)) == was)
  {
    hide ViewOf, Sound, Operation, Owned, Drops, Strands, OwnsLayer, TasksStep;
    var name := ops[0].name;
    assert Step(ss[0], ops[0], ss[1]);
    assert Run(ss[1..], ops[1..]);
    RunSnapshotKeptIff(ss[1..], ops[1..], name);
    assert Keeps(ss[1], ss[1..][|ops| - 1], name);
  }

  predicate NoRestoreFault(f: RestoreFaults) { !f.stat && !f.prepare && !f.create.before && !f.create.create }

  /** All clones of a source show the same: after a first clone, then any run that does not drop the base,
      a second clone shows what the first one did, whatever was written to the source meanwhile. */
  lemma ClonesAgree(ss: seq<Store>, ops: seq<Op>, second: Op, end: Store)
    requires Run(ss, ops) && |ops| > 0 && ops[0].Clone? && Succeeds(ss[0], ops[0])
    requires forall i | 1 <= i < |ops| :: !Drops(ss[i], ops[i], CloneBaseFor(ops[0].src))
    requires second.Clone? && second.src == ops[0].src && Step(ss[|ops|], second, end) && Succeeds(ss[|ops|], second)
    ensures ViewOf(end.snaps, SnapshotKeyFor(second.dst)) == ViewOf(ss[1].snaps, SnapshotKeyFor(ops[0].dst))
  {
    hide ViewOf, Sound, Operation, Owned, Drops, Strands, OwnsLayer, Succeeds, SourceKept, TasksStep;
    var base := CloneBaseFor(ops[0].src);
    assert Step(ss[0], ops[0], ss[1]);
    assert Run(ss[1..], ops[1..]);
    RunSnapshotKeptIff(ss[1..], ops[1..], base);
    assert Keeps(ss[1], ss[1..][|ops| - 1], base);
  }

  // ---- a name that invites a loss ----

  const NO_FAULTS: SnapshotFaults :=
    SnapshotFaults(false, false, false, false, false, false, false, false, false)

  /** After a snapshot nothing but the source's own layer is built on it. */
  lemma OnlyOwnChild(s: Store, s': Store, es: seq<Event>, key: Key, name: Key, k: Key)
    requires WellFormed(s) && WellFormed(s') && Trace(s, s', es, {key, name}) && name !in s.snaps
    requires k in s'.snaps && s'.snaps[k].parent == Some(name)
    ensures k == key
  {
    hide ViewOf, ApplyAll;
    if k != key && k != name {
      NoStrayKeys(s, s', es, {key, name}, k);
      RunIsolation(s, es, k);
    }
  }

  /** A snapshot of `a` called like the layer of an unused id `x`, then the removal of `a`, then a removal of
      `x`: three operations that all report Ok, after which the snapshot, and with it the last copy of
      `a`'s data, is gone. */
  method LayerNameLosesSnapshot(c: Client, a: Id, x: Id)
    returns (taken: OpResult, removed: OpResult, lost: OpResult, ghost mid: Store)
    requires Sound(c.st) && a in c.st.records && OwnsLayer(c.st, a)
    requires x !in c.st.records && SnapshotKeyFor(x) !in c.st.snaps
    modifies c
    ensures taken.Ok? && removed.Ok? && lost.Ok?
    ensures SnapshotKeyFor(x) in mid.snaps && ManagedImage(mid, SnapshotKeyFor(x)).Ok?
    ensures ViewOf(mid.snaps, SnapshotKeyFor(x)) == ViewOf(old(c.st).snaps, SnapshotKeyFor(a))
    ensures SnapshotKeyFor(x) !in c.st.snaps && SnapshotKeyFor(a) !in c.st.snaps
  {
    hide ViewOf, Trace, Owned;
    ghost var s0, es, more := c.st, [], [];
    var name, key := SnapshotKeyFor(x), SnapshotKeyFor(a);
    SnapshotKeyInjective(a, x);
    taken, es := SnapshotContainer(c, a, name, false, NO_FAULTS);
    mid := c.st;
    LayerHasNoChild(mid, key);
    removed, more := RemoveContainer(c, a, false, false);
    assert !HasChild(c.st.snaps, name) by {
      forall k | k in mid.snaps && mid.snaps[k].parent == Some(name) ensures k == key {
        OnlyOwnChild(s0, mid, es, key, name, k);
      }
    }
    lost, more := RemoveContainer(c, x, false, false);
  }

  lemma LayerHasNoChild(s: Store, key: Key)
    requires WellFormed(s) && key in s.snaps && s.snaps[key].kind.Active?
    ensures !HasChild(s.snaps, key)
  {
  }
}
