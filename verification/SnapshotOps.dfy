/** Clone, snapshot, restore, reset, create and delete as the crate performs them: one containerd
    request after another, each of which may be lost, with the crate's own rollback paths. */
module SnapshotOps {
  import opened Wrappers
  import opened SnapshotStore

  const IMAGE_LABEL := "containerd-manager.snapshot.image"
  const MANAGED_LABEL := "containerd-manager.snapshot.managed"

  function SnapshotKeyFor(id: Id): Key { id + "-snapshot" }

  function CloneBaseFor(id: Id): Key { id + "-clone-base" }

  /** Keys are the id and a fixed suffix, and no two ids share one. */
  lemma SnapshotKeyInjective(a: Id, b: Id)
    ensures SnapshotKeyFor(a) == a + "-snapshot"
    ensures SnapshotKeyFor(a) == SnapshotKeyFor(b) ==> a == b
  {
    assert a == SnapshotKeyFor(a)[..|SnapshotKeyFor(a)| - 9];
    assert b == SnapshotKeyFor(b)[..|SnapshotKeyFor(b)| - 9];
  }

  datatype Error =
    | InvalidArgument | ContainerNotFound | ContainerAlreadyExists
    | SnapshotNotFound | SnapshotAlreadyExists | SnapshotNotManaged | Rpc(code: Code)

  type OpResult = Result<(), Error>

  /** A connection to containerd. */
  class Client {
    var st: Store

    constructor (st: Store)
      ensures this.st == st
    {
      this.st := st;
    }

    /** One request. A fault is an answer that never arrives, for a request that had no effect. */
    method Call(e: Event, fault: bool) returns (code: Code)
      modifies this
      ensures code == if fault then Unavailable else Outcome(old(st), e)
      ensures st == if fault then old(st) else Apply(old(st), e)
    {
      if fault { return Unavailable; }
      code := Outcome(st, e);
      st := Apply(st, e);
    }
  }

  /** Every record names the active snapshot derived from its own id. */
  ghost predicate Owned(s: Store) {
    forall id | id in s.records :: OwnsLayer(s, id)
  }

  predicate OwnsLayer(s: Store, id: Id)
    requires id in s.records
  {
    var key := SnapshotKeyFor(id);
    s.records[id].snapshotKey == key && key in s.snaps && s.snaps[key].kind.Active?
  }

  /** Every record, with or without its layer, names the key derived from its own id. */
  ghost predicate Named(s: Store) { forall id | id in s.records :: s.records[id].snapshotKey == SnapshotKeyFor(id) }

  /** No writable layer carries the marker of a managed snapshot. */
  ghost predicate LayersUnmanaged(s: Store) {
    forall k | k in s.snaps && s.snaps[k].kind.Active? :: MANAGED_LABEL !in s.snaps[k].labels
  }

  lemma ApplyUnmanaged(s: Store, e: Event)
    requires LayersUnmanaged(s)
    ensures LayersUnmanaged(Apply(s, e))
  {
    hide HasChild;
  }

  lemma {:induction false} RunUnmanaged(s: Store, es: seq<Event>)
    requires LayersUnmanaged(s)
    ensures LayersUnmanaged(ApplyAll(s, es))
    decreases |es|
  {
    hide Apply, LayersUnmanaged;
    if |es| > 0 {
      ApplyUnmanaged(s, es[0]);
      RunUnmanaged(Apply(s, es[0]), es[1..]);
    }
  }

  lemma ApplyAllSnoc(s: Store, es: seq<Event>, e: Event)
    ensures ApplyAll(s, es + [e]) == Apply(ApplyAll(s, es), e)
    decreases |es|
  {
    hide Apply;
    if |es| == 0 {
      assert [e][1..] == [];
      assert es + [e] == [e];
    } else {
      assert (es + [e])[1..] == es[1..] + [e];
      ApplyAllSnoc(Apply(s, es[0]), es[1..], e);
    }
  }

  /** The requests that took effect, in order, and the snapshot keys they were about. */
  ghost predicate Trace(before: Store, after: Store, es: seq<Event>, keys: set<Key>) {
    && after == ApplyAll(before, es)
    && forall e | e in es :: Touches(e) <= keys
  }

  lemma TraceEmpty(s: Store, keys: set<Key>)
    ensures Trace(s, s, [], keys)
  {
  }

  lemma TraceSnoc(before: Store, after: Store, es: seq<Event>, keys: set<Key>, e: Event)
    requires Trace(before, after, es, keys) && Touches(e) <= keys
    ensures Trace(before, Apply(after, e), es + [e], keys)
  {
    ApplyAllSnoc(before, es, e);
  }

  /** A stand-in for `trace := trace + [e]` after a call that may have been lost. */
  ghost function Logged(es: seq<Event>, e: Event, fault: bool): seq<Event> {
    if fault then es else es + [e]
  }

  lemma TraceCall(before: Store, mid: Store, es: seq<Event>, keys: set<Key>, e: Event, fault: bool)
    requires Trace(before, mid, es, keys) && Touches(e) <= keys
    ensures Trace(before, if fault then mid else Apply(mid, e), Logged(es, e, fault), keys)
    ensures WellFormed(mid) ==> WellFormed(if fault then mid else Apply(mid, e))
  {
    hide Apply, WellFormed;
    if !fault { TraceSnoc(before, mid, es, keys, e); }
    if WellFormed(mid) { ApplyWellFormed(mid, e); }
  }

  /** Ownership carries over a trace when every record either has its layer or was not touched. */
  lemma OwnedAfter(s0: Store, s1: Store, es: seq<Event>, keys: set<Key>)
    requires WellFormed(s0) && Owned(s0) && Trace(s0, s1, es, keys)
    requires forall id | id in s1.records ::
               || OwnsLayer(s1, id)
               || (id in s0.records && s1.records[id] == s0.records[id] && SnapshotKeyFor(id) !in keys)
    ensures Owned(s1)
  {
    hide ViewOf, ApplyAll, WellFormed;
    forall id | id in s1.records ensures OwnsLayer(s1, id) {
      if !OwnsLayer(s1, id) {
        assert OwnsLayer(s0, id);
        RunIsolation(s0, es, SnapshotKeyFor(id));
      }
    }
  }

  /** With ownership, no other container's layer has the key of this one, nor a name not yet taken. */
  lemma OthersUntouched(s: Store, id: Id, x: Id, name: Key)
    requires Owned(s) && id in s.records && x in s.records && x != id && name !in s.snaps
    ensures SnapshotKeyFor(x) !in {s.records[id].snapshotKey, name}
  {
    assert OwnsLayer(s, id) && OwnsLayer(s, x);
    SnapshotKeyInjective(id, x);
  }

  function Layers(ids: set<Id>): set<Key> { set id | id in ids :: SnapshotKeyFor(id) }

  /** One operation on the containers `ids`: requests about their own layers and about `names`, none of
      which is another container's layer unless nothing came of the operation; other records stay. */
  ghost predicate Operation(s: Store, s': Store, ids: set<Id>, names: set<Key>) {
    && (exists es :: Trace(s, s', es, Layers(ids) + names))
    && (forall x | x in s.records && x !in ids :: x in s'.records && s'.records[x] == s.records[x])
    && (forall x | x in s.records && OwnsLayer(s, x) && SnapshotKeyFor(x) in names :: s'.snaps == s.snaps)
  }

  /** What a snapshot does, successful or not, is an operation on its source. */
  lemma SnapshotIsOperation(s: Store, s': Store, es: seq<Event>, src: Id, name: Key)
    requires src in s.records && s.records[src].snapshotKey == SnapshotKeyFor(src)
    requires Trace(s, s', es, {SnapshotKeyFor(src), name})
    requires s'.records == s.records && (name in s.snaps ==> s'.snaps == s.snaps)
    ensures Operation(s, s', {src}, {name})
  {
    hide Trace;
    assert Layers({src}) == {SnapshotKeyFor(src)};
    TraceWiden(s, s', es, {SnapshotKeyFor(src), name}, Layers({src}) + {name});
  }

  /** What create, restore, reset and removal do is an operation on one container. */
  lemma OwnLayerIsOperation(s: Store, s': Store, es: seq<Event>, id: Id)
    requires Trace(s, s', es, {SnapshotKeyFor(id)})
    requires forall x | x in s.records && x != id :: x in s'.records && s'.records[x] == s.records[x]
    ensures Operation(s, s', {id}, {})
  {
    assert Layers({id}) + {} == {SnapshotKeyFor(id)};
  }

  /** What a clone does, successful or not, is an operation on its source and its destination. */
  lemma CloneIsOperation(s: Store, s': Store, es: seq<Event>, src: Id, dst: Id)
    requires src in s.records && s.records[src].snapshotKey == SnapshotKeyFor(src)
    requires Trace(s, s', es, {SnapshotKeyFor(src), CloneBaseFor(src), SnapshotKeyFor(dst)})
    requires s'.records == s.records || (dst in s'.records && s'.records == s.records[dst := s'.records[dst]])
    ensures Operation(s, s', {src, dst}, {CloneBaseFor(src)})
  {
    hide Trace;
    assert SnapshotKeyFor(dst) in Layers({src, dst}) && SnapshotKeyFor(src) in Layers({src, dst});
    TraceWiden(s, s', es, {SnapshotKeyFor(src), CloneBaseFor(src), SnapshotKeyFor(dst)},
               Layers({src, dst}) + {CloneBaseFor(src)});
    forall x: Id ensures SnapshotKeyFor(x) != CloneBaseFor(src) { BaseIsNoLayer(src, x); }
  }

  /** Isolation between containers: an operation on some never changes another's record, layer or view. */
  lemma ContainersIsolated(s: Store, s': Store, ids: set<Id>, b: Id, names: set<Key>)
    requires WellFormed(s) && b !in ids && b in s.records && OwnsLayer(s, b) && Operation(s, s', ids, names)
    ensures WellFormed(s') && b in s'.records && s'.records[b] == s.records[b] && OwnsLayer(s', b)
    ensures ViewOf(s'.snaps, SnapshotKeyFor(b)) == ViewOf(s.snaps, SnapshotKeyFor(b))
  {
    hide ViewOf, ApplyAll, WellFormed, SnapshotKeyFor;
    var key := SnapshotKeyFor(b);
    forall a | a in ids ensures SnapshotKeyFor(a) != key { SnapshotKeyInjective(a, b); }
    var es :| Trace(s, s', es, Layers(ids) + names);
    RunWellFormed(s, es);
    if key !in names { RunIsolation(s, es, key); }
  }

  /** Over any run of operations on other containers, in any order and with any failures, a container
      keeps its record, its layer and its view. */
  lemma {:induction false} OperationsIsolated(ss: seq<Store>, who: seq<set<Id>>, names: seq<set<Key>>, b: Id)
    requires |ss| == |who| + 1 && |names| == |who|
    requires WellFormed(ss[0]) && b in ss[0].records && OwnsLayer(ss[0], b)
    requires forall i | 0 <= i < |who| :: b !in who[i] && Operation(ss[i], ss[i + 1], who[i], names[i])
    ensures var last := ss[|who|];
            && WellFormed(last) && b in last.records && last.records[b] == ss[0].records[b] && OwnsLayer(last, b)
            && ViewOf(last.snaps, SnapshotKeyFor(b)) == ViewOf(ss[0].snaps, SnapshotKeyFor(b))
    decreases |who|
  {
    hide ViewOf, WellFormed, OwnsLayer, Operation, SnapshotKeyFor;
    if |who| > 0 {
      var n := |who| - 1;
      OperationsIsolated(ss[..n + 1], who[..n], names[..n], b);
      ContainersIsolated(ss[n], ss[n + 1], who[n], b, names[n]);
    }
  }

  /** Every committed snapshot stays as it is. */
  ghost predicate KeepsCommitted(s: Store, s': Store) {
    forall k | k in s.snaps && s.snaps[k].kind.Committed? :: Keeps(s, s', k)
  }

  /** Requests about keys that are not committed snapshots leave all of those alone. */
  lemma TraceKeepsCommitted(s: Store, s': Store, es: seq<Event>, keys: set<Key>)
    requires WellFormed(s) && Trace(s, s', es, keys)
    requires forall k | k in keys && k in s.snaps && s.snaps[k].kind.Committed? :: s'.snaps == s.snaps
    ensures KeepsCommitted(s, s')
  {
    hide ViewOf, ApplyAll, WellFormed;
    forall k | k in s.snaps && s.snaps[k].kind.Committed? ensures Keeps(s, s', k) {
      if k !in keys { RunIsolation(s, es, k); }
    }
  }

  lemma KeepsCommittedTwice(a: Store, b: Store, c: Store)
    requires KeepsCommitted(a, b) && KeepsCommitted(b, c)
    ensures KeepsCommitted(a, c)
  {
    hide ViewOf;
    forall k | k in a.snaps && a.snaps[k].kind.Committed? ensures Keeps(a, c, k) {
      assert Keeps(a, b, k) && Keeps(b, c, k);
    }
  }

  lemma SameSnapsKeep(a: Store, b: Store)
    requires a.snaps == b.snaps
    ensures KeepsCommitted(a, b)
  {
  }

  // ---- managed snapshots ----

  /** `stat_managed_snapshot`: the image a managed snapshot was taken of. */
  function ManagedImage(s: Store, name: Key): Result<string, Error> {
    if name !in s.snaps then Err(SnapshotNotFound)
    else
      var labels := s.snaps[name].labels;
      if MANAGED_LABEL !in labels || labels[MANAGED_LABEL] != "1" then Err(SnapshotNotManaged)
      else if IMAGE_LABEL !in labels then Err(InvalidArgument)
      else Ok(labels[IMAGE_LABEL])
  }

  /** Exactly which snapshots the crate takes for its own, and how it refuses the others. */
  lemma ManagedImageIff(s: Store, name: Key, image: string)
    ensures ManagedImage(s, name) == Ok(image)
       <==> (&& name in s.snaps
             && "containerd-manager.snapshot.managed" in s.snaps[name].labels
             && s.snaps[name].labels["containerd-manager.snapshot.managed"] == "1"
             && "containerd-manager.snapshot.image" in s.snaps[name].labels
             && s.snaps[name].labels["containerd-manager.snapshot.image"] == image)
    ensures ManagedImage(s, name) == Err(SnapshotNotFound) <==> name !in s.snaps
    ensures ManagedImage(s, name) == Err(SnapshotNotManaged)
       <==> (&& name in s.snaps
             && ("containerd-manager.snapshot.managed" in s.snaps[name].labels ==>
                   s.snaps[name].labels["containerd-manager.snapshot.managed"] != "1"))
    ensures ManagedImage(s, name).Err? ==>
              ManagedImage(s, name).error in {SnapshotNotFound, SnapshotNotManaged, InvalidArgument}
  {
  }

  /** Requests that are lost. `lookup` is the task's part of the inspection: unanswered, the code takes it
      for no task. */
  datatype SnapshotFaults = SnapshotFaults(
    inspect: bool, lookup: bool, stop: bool, deleteTask: bool, fetch: bool, commit: bool,
    reprepare: bool, rollback: bool, restart: bool)

  predicate TaskRunning(s: Store, id: Id) { id in s.tasks && s.tasks[id].Running? }

  /** The code sees a running task. */
  predicate SeenRunning(s: Store, id: Id, lookup: bool) { TaskRunning(s, id) && !lookup }

  /** The commit request gets its answer. */
  predicate AsksCommit(s: Store, src: Id, name: Key, f: SnapshotFaults) {
    && name != "" && !f.inspect && src in s.records && !f.fetch && !f.commit
    && (SeenRunning(s, src, f.lookup) ==> !f.stop && !f.deleteTask)
  }

  /** The snapshot gets as far as a successful commit. */
  predicate Commits(s: Store, src: Id, name: Key, f: SnapshotFaults) {
    && AsksCommit(s, src, name, f)
    && var key := s.records[src].snapshotKey;
       name !in s.snaps && key in s.snaps && s.snaps[key].kind.Active?
  }

  lemma TraceConcat(a: Store, b: Store, c: Store, xs: seq<Event>, ys: seq<Event>, keys: set<Key>)
    requires Trace(a, b, xs, keys) && Trace(b, c, ys, keys)
    ensures Trace(a, c, xs + ys, keys)
  {
    ApplyAllAppend(a, xs, ys);
  }

  lemma {:induction false} ApplyAllAppend(s: Store, xs: seq<Event>, ys: seq<Event>)
    ensures ApplyAll(s, xs + ys) == ApplyAll(ApplyAll(s, xs), ys)
    decreases |xs|
  {
    hide Apply;
    if |xs| == 0 {
      assert xs + ys == ys;
    } else {
      assert (xs + ys)[1..] == xs[1..] + ys;
      ApplyAllAppend(Apply(s, xs[0]), xs[1..], ys);
    }
  }

  /** A task can be deleted when there is none, it has stopped, or it runs and can be stopped; a paused
      one cannot. */
  predicate CanDropTask(s: Store, id: Id, stopFault: bool) {
    id !in s.tasks || s.tasks[id].Stopped? || (s.tasks[id].Running? && !stopFault)
  }

  /** Stops the task and deletes its record; either request may be lost. */
  method StopAndDeleteTask(c: Client, id: Id, stopFault: bool, deleteFault: bool)
    returns (stopped: Code, deleted: Code, ghost es: seq<Event>)
    modifies c
    ensures Trace(old(c.st), c.st, es, {})
    ensures c.st == old(c.st).(tasks := c.st.tasks) && (WellFormed(old(c.st)) ==> WellFormed(c.st))
    ensures TaskRunning(old(c.st), id) && !stopFault && !deleteFault ==> deleted == Fine
    ensures deleted == Fine || deleted == NotFound <==> !deleteFault && CanDropTask(old(c.st), id, stopFault)
    ensures deleted == Fine || deleted == NotFound ==> id !in c.st.tasks
    ensures deleteFault ==> deleted == Unavailable
    ensures c.st.tasks - {id} == old(c.st).tasks - {id}
    ensures stopFault && deleteFault ==> c.st == old(c.st)
    ensures TaskRunning(old(c.st), id) && !stopFault && deleteFault ==> id in c.st.tasks && c.st.tasks[id].Stopped?
    ensures stopped == if stopFault then Unavailable else Outcome(old(c.st), StopTask(id))
  {
    hide WellFormed;
    es := [];
    TraceEmpty(c.st, {});
    ghost var s0 := c.st;
    TraceCall(s0, c.st, es, {}, StopTask(id), stopFault);
    stopped := c.Call(StopTask(id), stopFault);
    es := Logged(es, StopTask(id), stopFault);
    TraceCall(s0, c.st, es, {}, DeleteTask(id), deleteFault);
    deleted := c.Call(DeleteTask(id), deleteFault);
    es := Logged(es, DeleteTask(id), deleteFault);
  }

  method StartAgain(c: Client, id: Id, wanted: bool, fault: bool) returns (code: Code, ghost es: seq<Event>)
    modifies c
    ensures Trace(old(c.st), c.st, es, {})
    ensures c.st == old(c.st).(tasks := c.st.tasks) && (WellFormed(old(c.st)) ==> WellFormed(c.st))
    ensures !wanted || fault ==> c.st == old(c.st)
    ensures code == if !wanted then Fine else if fault then Unavailable else Outcome(old(c.st), StartTask(id))
    ensures wanted && code == Fine ==> TaskRunning(c.st, id)
    ensures code != Fine ==> c.st == old(c.st)
    ensures c.st.tasks - {id} == old(c.st).tasks - {id}
  {
    hide WellFormed;
    TraceEmpty(c.st, {});
    if !wanted { return Fine, []; }
    TraceCall(c.st, c.st, [], {}, StartTask(id), fault);
    code := c.Call(StartTask(id), fault);
    es := Logged([], StartTask(id), fault);
  }

  /** Freezes an active layer into `name` and gives the key a new layer on top of it; on a lost
      re-prepare the committed snapshot is rolled back. */
  method CommitAndReprepare(c: Client, key: Key, name: Key, labels: map<string, string>, f: SnapshotFaults)
    returns (committed: Code, prepared: Code, ghost es: seq<Event>)
    requires WellFormed(c.st)
    modifies c
    ensures Trace(old(c.st), c.st, es, {key, name}) && WellFormed(c.st)
    ensures c.st.records == old(c.st).records && c.st.tasks == old(c.st).tasks
    ensures committed == if f.commit then Unavailable else Outcome(old(c.st), Commit(name, key, labels))
    ensures committed != Fine ==> c.st == old(c.st)
    ensures committed == Fine ==> (prepared == Fine <==> !f.reprepare)
    ensures committed == Fine && prepared == Fine ==>
              && key in c.st.snaps && c.st.snaps[key].kind.Active?
              && ViewOf(c.st.snaps, key) == ViewOf(old(c.st).snaps, key)
    ensures committed == Fine && (prepared == Fine || f.rollback) ==>
              && name in c.st.snaps && c.st.snaps[name].kind.Committed? && c.st.snaps[name].labels == labels
              && ViewOf(c.st.snaps, name) == ViewOf(old(c.st).snaps, key)
    ensures committed == Fine && prepared != Fine ==> key !in c.st.snaps && (name in c.st.snaps <==> f.rollback)
  {
    hide ViewOf, Trace, WellFormed;
    es := [];
    prepared := Unavailable;
    ghost var s0, keys := c.st, {key, name};
    TraceEmpty(s0, keys);
    TraceCall(s0, c.st, es, keys, Commit(name, key, labels), f.commit);
    committed := c.Call(Commit(name, key, labels), f.commit);
    es := Logged(es, Commit(name, key, labels), f.commit);
    if committed != Fine { return; }
    ghost var s1 := c.st;
    CommitMovesView(s0, name, key, labels);
    ApplyWellFormed(s0, Commit(name, key, labels));
    NewNameHasNoChild(s0, name, key, labels);
    TraceCall(s0, c.st, es, keys, Prepare(key, name), f.reprepare);
    prepared := c.Call(Prepare(key, name), f.reprepare);
    es := Logged(es, Prepare(key, name), f.reprepare);
    if prepared == Fine {
      PrepareInheritsView(s1, key, name);
      ApplyWellFormed(s1, Prepare(key, name));
      StepFrame(s1, Prepare(key, name), name);
    } else {
      TraceCall(s0, c.st, es, keys, Remove(name), f.rollback);
      var _ := c.Call(Remove(name), f.rollback);
      es := Logged(es, Remove(name), f.rollback);
      ApplyWellFormed(s1, Remove(name));
    }
  }

  /** `snapshot_container`. On success the name shows the source's view, the source keeps its own.
      When the re-prepare is lost, the rollback decides between a source without a layer and the loss
      of its data altogether. */
  method SnapshotContainer(c: Client, src: Id, name: Key, restart: bool, f: SnapshotFaults)
    returns (r: OpResult, ghost es: seq<Event>)
    requires WellFormed(c.st)
    modifies c
    ensures src in old(c.st).records ==> Trace(old(c.st), c.st, es, {old(c.st).records[src].snapshotKey, name})
    ensures src !in old(c.st).records ==> c.st == old(c.st) && r.Err?
    ensures WellFormed(c.st) && c.st.records == old(c.st).records
    ensures r.Ok? <==> Commits(old(c.st), src, name, f) && !f.reprepare
    ensures r == Err(SnapshotAlreadyExists) <==> AsksCommit(old(c.st), src, name, f) && name in old(c.st).snaps
    ensures r.Ok? ==>
              var key := old(c.st).records[src].snapshotKey;
              && key in c.st.snaps && c.st.snaps[key].kind.Active?
              && ViewOf(c.st.snaps, key) == ViewOf(old(c.st).snaps, key)
              && name in c.st.snaps && c.st.snaps[name].kind.Committed?
              && ViewOf(c.st.snaps, name) == ViewOf(old(c.st).snaps, key)
              && ManagedImage(c.st, name) == Ok(old(c.st).records[src].image)
    ensures !Commits(old(c.st), src, name, f) ==> c.st.snaps == old(c.st).snaps
    ensures Commits(old(c.st), src, name, f) && f.reprepare ==>
              var key := old(c.st).records[src].snapshotKey;
              && key !in c.st.snaps
              && (f.rollback ==> name in c.st.snaps && ViewOf(c.st.snaps, name) == ViewOf(old(c.st).snaps, key))
              && (!f.rollback ==> name !in c.st.snaps)
    ensures Owned(old(c.st)) ==> (Owned(c.st) <==> !(Commits(old(c.st), src, name, f) && f.reprepare))
    // a source that was running is running again, whether or not the commit went through
    ensures (&& restart && !f.restart && !f.stop && !f.deleteTask && !f.fetch
             && src in old(c.st).records && SeenRunning(old(c.st), src, f.lookup)
             && old(c.st).records[src].snapshotKey in c.st.snaps) ==>
              TaskRunning(c.st, src)
    // only a task seen running is stopped: a paused one, or one whose lookup went unanswered, is still
    // there at the commit
    ensures !SeenRunning(old(c.st), src, f.lookup) ==> c.st.tasks == old(c.st).tasks
    ensures AsksCommit(old(c.st), src, name, f) && SeenRunning(old(c.st), src, f.lookup) && (!restart || f.restart) ==>
              src !in c.st.tasks
    ensures c.st.tasks - {src} == old(c.st).tasks - {src}
    ensures name == "" ==> r == Err(InvalidArgument)
    ensures name != "" && !f.inspect && src !in old(c.st).records ==> r == Err(ContainerNotFound)
  {
    hide ViewOf, Trace, Apply, OwnsLayer, WellFormed;
    es := [];
    if src in c.st.records { TraceEmpty(c.st, {c.st.records[src].snapshotKey, name}); }
    if name == "" { return Err(InvalidArgument), es; }
    if f.inspect { return Err(Rpc(Unavailable)), es; }
    if src !in c.st.records { return Err(ContainerNotFound), es; }
    ghost var s0 := c.st;
    var key, image := c.st.records[src].snapshotKey, c.st.records[src].image;
    ghost var keys := {key, name};
    ghost var more;
    var wasRunning := SeenRunning(c.st, src, f.lookup);
    if wasRunning {
      var stopped, deleted;
      stopped, deleted, more := StopAndDeleteTask(c, src, f.stop, f.stop || f.deleteTask);
      TraceWiden(s0, c.st, more, {}, keys);
      es := more;
      SameLayers(s0, c.st);
      if f.stop || f.deleteTask { return Err(Rpc(Unavailable)), es; }
    }
    if f.fetch { return Err(Rpc(Unavailable)), es; }
    var labels := map[IMAGE_LABEL := image, MANAGED_LABEL := "1"];
    ghost var s1 := c.st;
    var committed, prepared;
    committed, prepared, more := CommitAndReprepare(c, key, name, labels, f);
    TraceConcat(s0, s1, c.st, es, more, keys);
    es := es + more;
    if committed == Fine && prepared != Fine {
      SnapshotLosesLayer(s0, c.st, src);
      return Err(Rpc(prepared)), es;
    }
    ghost var s2 := c.st;
    var started;
    started, more := StartAgain(c, src, wasRunning && restart, f.restart);
    TraceWiden(s2, c.st, more, {}, keys);
    TraceConcat(s0, s2, c.st, es, more, keys);
    es := es + more;
    if committed == Fine { SnapshotKeepsOwners(s0, c.st, es, src, name); } else { SameLayers(s0, c.st); }
    if committed != Fine {
      return Err(if committed == AlreadyExists then SnapshotAlreadyExists else Rpc(committed)), es;
    }
    r := Ok(());
  }

  lemma SnapshotLosesLayer(s0: Store, s1: Store, src: Id)
    requires src in s0.records && s1.records == s0.records && s0.records[src].snapshotKey !in s1.snaps
    ensures !Owned(s1)
  {
    assert !OwnsLayer(s1, src);
  }

  lemma SnapshotKeepsOwners(s0: Store, s1: Store, es: seq<Event>, src: Id, name: Key)
    requires WellFormed(s0) && src in s0.records && s1.records == s0.records && name !in s0.snaps
    requires var key := s0.records[src].snapshotKey;
             Trace(s0, s1, es, {key, name}) && key in s1.snaps && s1.snaps[key].kind.Active?
    ensures Owned(s0) ==> Owned(s1)
  {
    if Owned(s0) {
      var keys := {s0.records[src].snapshotKey, name};
      forall id | id in s1.records ensures OwnsLayer(s1, id) || SnapshotKeyFor(id) !in keys {
        if id != src { OthersUntouched(s0, src, id, name); } else { assert OwnsLayer(s0, src); }
      }
      OwnedAfter(s0, s1, es, keys);
    }
  }

  lemma SameLayers(s0: Store, s1: Store)
    requires s1.records == s0.records && s1.snaps == s0.snaps
    ensures Owned(s0) <==> Owned(s1)
  {
    if Owned(s0) {
      forall id | id in s1.records ensures OwnsLayer(s1, id) { assert OwnsLayer(s0, id); }
    }
    if Owned(s1) {
      forall id | id in s0.records ensures OwnsLayer(s0, id) { assert OwnsLayer(s1, id); }
    }
  }

  lemma TraceWiden(a: Store, b: Store, es: seq<Event>, few: set<Key>, keys: set<Key>)
    requires Trace(a, b, es, few) && few <= keys
    ensures Trace(a, b, es, keys)
  {
  }

  lemma NewNameHasNoChild(s: Store, name: Key, key: Key, labels: map<string, string>)
    requires WellFormed(s) && Outcome(s, Commit(name, key, labels)) == Fine
    ensures !HasChild(Apply(s, Commit(name, key, labels)).snaps, name)
  {
  }

  /** What the rollback after a lost re-prepare amounts to: the store without the source's layer, and
      with its contents nowhere else. */
  lemma RollbackErasesSource(s: Store, name: Key, key: Key, labels: map<string, string>)
    requires WellFormed(s) && Outcome(s, Commit(name, key, labels)) == Fine
    ensures ApplyAll(s, [Commit(name, key, labels), Remove(name)]).snaps == s.snaps - {key}
  {
    var commit, remove := Commit(name, key, labels), Remove(name);
    NewNameHasNoChild(s, name, key, labels);
    ApplyAllSnoc(s, [commit], remove);
    ApplyAllSnoc(s, [], commit);
    assert [] + [commit] == [commit] && [commit] + [remove] == [commit, remove];
    assert ApplyAll(s, [commit]) == Apply(s, commit);
  }

  lemma FreshKeyHasNoChild(s: Store, key: Key, parent: Key)
    requires WellFormed(s) && Outcome(s, Prepare(key, parent)) == Fine
    ensures !HasChild(Apply(s, Prepare(key, parent)).snaps, key)
  {
  }

  // ---- creating a record on a layer ----

  datatype CreateFaults = CreateFaults(before: bool, create: bool, cleanup: bool)

  /** The layer's key or the record's id is in use, and containerd gets to say so. */
  predicate Taken(s: Store, id: Id, parent: Key, prepareFault: bool, f: CreateFaults) {
    && !prepareFault
    && if SnapshotKeyFor(id) in s.snaps then true
       else Outcome(s, Prepare(SnapshotKeyFor(id), parent)) == Fine && !f.before && !f.create && id in s.records
  }

  predicate CanCreate(s: Store, id: Id, chain: Key, f: CreateFaults, prepareFault: bool) {
    && !prepareFault && Outcome(s, Prepare(SnapshotKeyFor(id), chain)) == Fine
    && !f.before && !f.create && id !in s.records
  }

  /** `create_container_with_id` without a layer of its own: prepare from the image, then create. `before`
      stands for any error between the two, on which the code returns without removing the layer. */
  method CreateContainer(c: Client, id: Id, image: string, chain: Key, f: CreateFaults, prepareFault: bool)
    returns (r: OpResult, ghost es: seq<Event>)
    requires WellFormed(c.st)
    modifies c
    ensures Trace(old(c.st), c.st, es, {SnapshotKeyFor(id)}) && WellFormed(c.st)
    ensures r.Ok? <==> CanCreate(old(c.st), id, chain, f, prepareFault)
    ensures r == Err(ContainerAlreadyExists) <==> Taken(old(c.st), id, chain, prepareFault, f)
    ensures c.st.tasks == old(c.st).tasks
    ensures r.Ok? ==>
              && id in c.st.records && c.st.records == old(c.st).records[id := Record(image, SnapshotKeyFor(id))]
              && OwnsLayer(c.st, id)
              && ViewOf(c.st.snaps, SnapshotKeyFor(id)) == ViewOf(old(c.st).snaps, chain)
    ensures r.Err? ==> c.st.records == old(c.st).records
    ensures Owned(old(c.st)) ==> Owned(c.st)
    // a layer is left behind exactly on the early exits, or when the rollback itself is lost
    ensures r.Err? ==>
              (c.st.snaps == old(c.st).snaps
          <==> (|| prepareFault || Outcome(old(c.st), Prepare(SnapshotKeyFor(id), chain)) != Fine
                || (!f.before && !f.cleanup)))
  {
    hide ViewOf, Owned, Trace, WellFormed;
    es := [];
    var key := SnapshotKeyFor(id);
    ghost var s0, keys := c.st, {key};
    TraceEmpty(s0, keys);
    TraceCall(s0, c.st, es, keys, Prepare(key, chain), prepareFault);
    var code := c.Call(Prepare(key, chain), prepareFault);
    es := Logged(es, Prepare(key, chain), prepareFault);
    if code != Fine { return Err(if code == AlreadyExists then ContainerAlreadyExists else Rpc(code)), es; }
    PrepareInheritsView(s0, key, chain);
    ApplyWellFormed(s0, Prepare(key, chain));
    FreshKeyHasNoChild(s0, key, chain);
    assert key in c.st.snaps && key !in s0.snaps;
    CreateKeepsOwners(s0, c.st, es, id);
    if f.before { return Err(Rpc(Unavailable)), es; }
    ghost var s1 := c.st;
    TraceCall(s0, c.st, es, keys, CreateRecord(id, Record(image, key)), f.create);
    code := c.Call(CreateRecord(id, Record(image, key)), f.create);
    es := Logged(es, CreateRecord(id, Record(image, key)), f.create);
    if code != Fine {
      TraceCall(s0, c.st, es, keys, Remove(key), f.cleanup);
      var _ := c.Call(Remove(key), f.cleanup);
      es := Logged(es, Remove(key), f.cleanup);
      assert s1.snaps - {key} == s0.snaps;
      CreateKeepsOwners(s0, c.st, es, id);
      return Err(if code == AlreadyExists then ContainerAlreadyExists else Rpc(code)), es;
    }
    CreateKeepsOwners(s0, c.st, es, id);
    r := Ok(());
  }

  /** Creating on a key nobody holds disturbs no owner. */
  lemma CreateKeepsOwners(s0: Store, s1: Store, es: seq<Event>, id: Id)
    requires WellFormed(s0) && SnapshotKeyFor(id) !in s0.snaps && Trace(s0, s1, es, {SnapshotKeyFor(id)})
    requires || s1.records == s0.records
             || (id in s1.records && s1.records == s0.records[id := s1.records[id]] && OwnsLayer(s1, id))
    ensures Owned(s0) ==> Owned(s1)
  {
    if Owned(s0) {
      forall x | x in s1.records
        ensures || OwnsLayer(s1, x)
                || (&& x in s0.records && s1.records[x] == s0.records[x]
                    && SnapshotKeyFor(x) !in {SnapshotKeyFor(id)})
      {
        if x in s0.records { assert OwnsLayer(s0, x); SnapshotKeyInjective(x, id); }
      }
      OwnedAfter(s0, s1, es, {SnapshotKeyFor(id)});
    }
  }

  /** Prepare `dst`'s layer on `parent`, create its record on it, and remove the layer if the record
      cannot be created: the tail shared by clone and restore. */
  method InstantiateOn(c: Client, dst: Id, image: string, parent: Key, prepareFault: bool, f: CreateFaults)
    returns (r: OpResult, ghost es: seq<Event>)
    requires WellFormed(c.st)
    modifies c
    ensures Trace(old(c.st), c.st, es, {SnapshotKeyFor(dst)}) && WellFormed(c.st)
    ensures c.st.tasks == old(c.st).tasks
    ensures r.Ok? <==> (&& !prepareFault && Outcome(old(c.st), Prepare(SnapshotKeyFor(dst), parent)) == Fine
                        && !f.before && !f.create && dst !in old(c.st).records)
    ensures r.Ok? ==>
              && c.st.records == old(c.st).records[dst := Record(image, SnapshotKeyFor(dst))]
              && OwnsLayer(c.st, dst)
              && ViewOf(c.st.snaps, SnapshotKeyFor(dst)) == ViewOf(old(c.st).snaps, parent)
    ensures r == Err(ContainerAlreadyExists) <==> Taken(old(c.st), dst, parent, prepareFault, f)
    ensures r.Err? ==> c.st.records == old(c.st).records
    ensures r.Err? && !f.cleanup ==> c.st.snaps == old(c.st).snaps
    ensures SnapshotKeyFor(dst) in old(c.st).snaps ==> c.st.snaps == old(c.st).snaps
    ensures KeepsCommitted(old(c.st), c.st)
    ensures Owned(old(c.st)) ==> Owned(c.st)
  {
    hide ViewOf, Owned, Trace, WellFormed, KeepsCommitted;
    es := [];
    var key := SnapshotKeyFor(dst);
    ghost var s0, keys := c.st, {key};
    TraceEmpty(s0, keys);
    TraceCall(s0, c.st, es, keys, Prepare(key, parent), prepareFault);
    var code := c.Call(Prepare(key, parent), prepareFault);
    es := Logged(es, Prepare(key, parent), prepareFault);
    if code != Fine {
      SameSnapsKeep(s0, c.st);
      return Err(if code == AlreadyExists then ContainerAlreadyExists else Rpc(code)), es;
    }
    PrepareInheritsView(s0, key, parent);
    ApplyWellFormed(s0, Prepare(key, parent));
    FreshKeyHasNoChild(s0, key, parent);
    ghost var s1 := c.st;
    var lost := f.before || f.create;
    TraceCall(s0, c.st, es, keys, CreateRecord(dst, Record(image, key)), lost);
    code := c.Call(CreateRecord(dst, Record(image, key)), lost);
    es := Logged(es, CreateRecord(dst, Record(image, key)), lost);
    if code != Fine {
      TraceCall(s0, c.st, es, keys, Remove(key), f.cleanup);
      var _ := c.Call(Remove(key), f.cleanup);
      es := Logged(es, Remove(key), f.cleanup);
      assert s1.snaps - {key} == s0.snaps;
      CreateKeepsOwners(s0, c.st, es, dst);
      TraceKeepsCommitted(s0, c.st, es, keys);
      return Err(if code == AlreadyExists then ContainerAlreadyExists else Rpc(code)), es;
    }
    CreateKeepsOwners(s0, c.st, es, dst);
    TraceKeepsCommitted(s0, c.st, es, keys);
    r := Ok(());
  }

  // ---- clone ----

  datatype BaseFaults = BaseFaults(stat: bool, commit: bool, reprepare: bool)

  /** The base does not exist yet and gets committed. */
  predicate CommitsBase(s: Store, srcKey: Key, base: Key, f: BaseFaults) {
    !f.stat && !f.commit && base !in s.snaps && srcKey in s.snaps && s.snaps[srcKey].kind.Active?
  }

  /** `ensure_clone_base` with nobody else at work: reuse the base, or freeze the source into it and
      give the source a new layer on top. */
  method EnsureCloneBase(c: Client, srcKey: Key, base: Key, f: BaseFaults) returns (r: OpResult, ghost es: seq<Event>)
    requires WellFormed(c.st)
    modifies c
    ensures Trace(old(c.st), c.st, es, {srcKey, base}) && WellFormed(c.st)
    ensures c.st.records == old(c.st).records && c.st.tasks == old(c.st).tasks
    ensures r.Ok? <==> !f.stat && (base in old(c.st).snaps || (CommitsBase(old(c.st), srcKey, base, f) && !f.reprepare))
    ensures !CommitsBase(old(c.st), srcKey, base, f) ==> c.st == old(c.st)
    ensures KeepsCommitted(old(c.st), c.st)
    ensures CommitsBase(old(c.st), srcKey, base, f) ==>
              && base in c.st.snaps && c.st.snaps[base].kind.Committed?
              && ManagedImage(c.st, base) == Err(SnapshotNotManaged)
              && ViewOf(c.st.snaps, base) == ViewOf(old(c.st).snaps, srcKey)
              && (srcKey in c.st.snaps <==> !f.reprepare)
              && (!f.reprepare ==>
                    && c.st.snaps[srcKey].kind.Active?
                    && ViewOf(c.st.snaps, srcKey) == ViewOf(old(c.st).snaps, srcKey))
  {
    hide ViewOf, Trace, WellFormed, KeepsCommitted;
    es := [];
    ghost var s0, keys := c.st, {srcKey, base};
    TraceEmpty(s0, keys);
    SameSnapsKeep(s0, s0);
    if f.stat { return Err(Rpc(Unavailable)), es; }
    if base in c.st.snaps { return Ok(()), es; }
    TraceCall(s0, c.st, es, keys, Commit(base, srcKey, map[]), f.commit);
    var code := c.Call(Commit(base, srcKey, map[]), f.commit);
    es := Logged(es, Commit(base, srcKey, map[]), f.commit);
    if code == AlreadyExists { return Ok(()), es; }
    if code != Fine { return Err(Rpc(code)), es; }
    ghost var s1 := c.st;
    CommitMovesView(s0, base, srcKey, map[]);
    ApplyWellFormed(s0, Commit(base, srcKey, map[]));
    TraceCall(s0, c.st, es, keys, Prepare(srcKey, base), f.reprepare);
    code := c.Call(Prepare(srcKey, base), f.reprepare);
    es := Logged(es, Prepare(srcKey, base), f.reprepare);
    if code == Fine {
      PrepareInheritsView(s1, srcKey, base);
      ApplyWellFormed(s1, Prepare(srcKey, base));
      StepFrame(s1, Prepare(srcKey, base), base);
    }
    TraceKeepsCommitted(s0, c.st, es, keys);
    r := if code == Fine || code == AlreadyExists then Ok(()) else Err(Rpc(code));
  }

  datatype CloneFaults = CloneFaults(
    inspect: bool, lookup: bool, stop: bool, deleteTask: bool, restart: bool,
    fetch: bool, base: BaseFaults, prepareDst: bool, create: CreateFaults)

  /** The clone gets past stopping its source. */
  predicate CloneProceeds(s: Store, src: Id, f: CloneFaults) {
    !f.inspect && (SeenRunning(s, src, f.lookup) ==> !f.stop && !f.deleteTask)
  }

  /** The base is committed and the source's re-prepare is then lost: the code has no rollback here. */
  predicate StrandsSource(s: Store, src: Id, f: CloneFaults) {
    && src in s.records && !f.fetch && f.base.reprepare
    && CommitsBase(s, s.records[src].snapshotKey, CloneBaseFor(src), f.base)
  }

  /** Everything a clone needs: a committed base, found or made, and a destination nobody has taken. */
  predicate CanClone(s: Store, src: Id, dst: Id, f: CloneFaults) {
    && !f.fetch && src in s.records && !f.base.stat && !f.prepareDst && !f.create.before && !f.create.create
    && dst !in s.records && SnapshotKeyFor(dst) !in s.snaps
    && var base := CloneBaseFor(src);
       if base in s.snaps then s.snaps[base].kind.Committed?
       else CommitsBase(s, s.records[src].snapshotKey, base, f.base) && !f.base.reprepare
  }

  /** `clone_inner`. The clone shows the base: the source as it is now if this call made the base, and
      as it was at the first clone otherwise. The source keeps its view; a failed clone whose cleanup
      succeeds leaves no destination layer. */
  method CloneInner(c: Client, src: Id, dst: Id, f: CloneFaults) returns (r: OpResult, ghost es: seq<Event>)
    requires WellFormed(c.st)
    modifies c
    ensures WellFormed(c.st)
    ensures src in old(c.st).records ==>
              Trace(old(c.st), c.st, es, {old(c.st).records[src].snapshotKey, CloneBaseFor(src), SnapshotKeyFor(dst)})
    ensures src !in old(c.st).records ==> c.st == old(c.st)
    ensures c.st.tasks == old(c.st).tasks
    ensures KeepsCommitted(old(c.st), c.st)
    ensures r.Ok? <==> CanClone(old(c.st), src, dst, f)
    ensures !f.fetch && src !in old(c.st).records ==> r == Err(ContainerNotFound)
    ensures f.fetch ==> c.st == old(c.st)
    ensures r.Ok? ==>
              && src in old(c.st).records
              && var key, base := old(c.st).records[src].snapshotKey, CloneBaseFor(src);
                 && c.st.records == old(c.st).records[dst := Record(old(c.st).records[src].image, SnapshotKeyFor(dst))]
                 && OwnsLayer(c.st, dst)
                 && ViewOf(c.st.snaps, SnapshotKeyFor(dst))
                    == ViewOf(old(c.st).snaps, if base in old(c.st).snaps then base else key)
                 && base in c.st.snaps && c.st.snaps[base].kind.Committed?
                 && ViewOf(c.st.snaps, base) == ViewOf(c.st.snaps, SnapshotKeyFor(dst))
                 && (key in old(c.st).snaps ==>
                       key in c.st.snaps && ViewOf(c.st.snaps, key) == ViewOf(old(c.st).snaps, key))
    ensures r.Err? ==> c.st.records == old(c.st).records
    ensures r.Err? && !f.create.cleanup ==>
              (SnapshotKeyFor(dst) in c.st.snaps ==> SnapshotKeyFor(dst) in old(c.st).snaps)
    ensures Owned(old(c.st)) ==> (Owned(c.st) <==> !StrandsSource(old(c.st), src, f))
    ensures src in old(c.st).records && OwnsLayer(old(c.st), src) && !StrandsSource(old(c.st), src, f) ==>
              SourceKept(old(c.st), c.st, src)
  {
    hide ViewOf, Owned, Trace, KeepsCommitted;
    SameSnapsKeep(c.st, c.st);
    es := [];
    if src in c.st.records {
      TraceEmpty(c.st, {c.st.records[src].snapshotKey, CloneBaseFor(src), SnapshotKeyFor(dst)});
    }
    if f.fetch { return Err(Rpc(Unavailable)), es; }
    if src !in c.st.records { return Err(ContainerNotFound), es; }
    ghost var s0 := c.st;
    var key, base := c.st.records[src].snapshotKey, CloneBaseFor(src);
    ghost var keys := {key, base, SnapshotKeyFor(dst)};
    var image := c.st.records[src].image;
    assert base != SnapshotKeyFor(dst) by { BaseIsNoLayer(src, dst); }
    var made;
    made, es := EnsureCloneBase(c, key, base, f.base);
    ghost var s1 := c.st;
    NoStrayKeys(s0, s1, es, {key, base}, SnapshotKeyFor(dst));
    TraceWiden(s0, s1, es, {key, base}, keys);
    if CommitsBase(s0, key, base, f.base) {
      if f.base.reprepare { SnapshotLosesLayer(s0, s1, src); } else { SnapshotKeepsOwners(s0, s1, es, src, base); }
    }
    if made.Err? {
      if SnapshotKeyFor(dst) in s1.snaps && SnapshotKeyFor(dst) == key { KeyWasThere(s0, s1, key, base, f.base); }
      return Err(made.error), es;
    }
    BaseLeavesFreeKey(s0, s1, es, key, base, SnapshotKeyFor(dst));
    ghost var more;
    r, more := InstantiateOn(c, dst, image, base, f.prepareDst, f.create);
    if key in s1.snaps && key != SnapshotKeyFor(dst) { CloneLeavesSource(s1, c.st, more, dst, key); }
    if base in s1.snaps { CloneLeavesSource(s1, c.st, more, dst, base); }
    TraceWiden(s1, c.st, more, {SnapshotKeyFor(dst)}, keys);
    TraceConcat(s0, s1, c.st, es, more, keys);
    es := es + more;
    KeepsCommittedTwice(s0, s1, c.st);
  }

  /** `clone_container`: stop the source if it is running, clone, and start it again if asked to,
      whatever became of the clone. */
  method CloneContainer(c: Client, src: Id, dst: Id, restart: bool, f: CloneFaults)
    returns (r: OpResult, ghost es: seq<Event>)
    requires WellFormed(c.st)
    modifies c
    ensures WellFormed(c.st)
    ensures src in old(c.st).records ==>
              Trace(old(c.st), c.st, es, {old(c.st).records[src].snapshotKey, CloneBaseFor(src), SnapshotKeyFor(dst)})
    ensures src !in old(c.st).records ==> c.st == old(c.st)
    ensures KeepsCommitted(old(c.st), c.st)
    ensures r.Ok? <==> CloneProceeds(old(c.st), src, f) && CanClone(old(c.st), src, dst, f)
    ensures r.Ok? ==>
              && src in old(c.st).records
              && var key, base := old(c.st).records[src].snapshotKey, CloneBaseFor(src);
                 && c.st.records == old(c.st).records[dst := Record(old(c.st).records[src].image, SnapshotKeyFor(dst))]
                 && OwnsLayer(c.st, dst)
                 && ViewOf(c.st.snaps, SnapshotKeyFor(dst))
                    == ViewOf(old(c.st).snaps, if base in old(c.st).snaps then base else key)
                 && base in c.st.snaps && c.st.snaps[base].kind.Committed?
                 && ViewOf(c.st.snaps, base) == ViewOf(c.st.snaps, SnapshotKeyFor(dst))
                 && (key in old(c.st).snaps ==>
                       key in c.st.snaps && ViewOf(c.st.snaps, key) == ViewOf(old(c.st).snaps, key))
    ensures r.Err? ==> c.st.records == old(c.st).records
    ensures r.Err? && !f.create.cleanup ==>
              (SnapshotKeyFor(dst) in c.st.snaps ==> SnapshotKeyFor(dst) in old(c.st).snaps)
    ensures Owned(old(c.st)) ==>
              (Owned(c.st) <==> !(CloneProceeds(old(c.st), src, f) && StrandsSource(old(c.st), src, f)))
    // a source that is not stranded keeps its layer and its view, whatever became of the clone
    ensures (&& src in old(c.st).records && OwnsLayer(old(c.st), src)
             && !(CloneProceeds(old(c.st), src, f) && StrandsSource(old(c.st), src, f))) ==>
              SourceKept(old(c.st), c.st, src)
    ensures !f.inspect && src !in old(c.st).records ==> r == Err(ContainerNotFound)
    ensures !CloneProceeds(old(c.st), src, f) ==> c.st.snaps == old(c.st).snaps && c.st.records == old(c.st).records
    // a source not seen running keeps its task, or the lack of one; nobody else's task is touched
    ensures !SeenRunning(old(c.st), src, f.lookup) ==> c.st.tasks == old(c.st).tasks
    ensures c.st.tasks - {src} == old(c.st).tasks - {src}
    // a source seen running is stopped, and stays so unless asked for
    ensures (&& src in old(c.st).records && SeenRunning(old(c.st), src, f.lookup)
             && CloneProceeds(old(c.st), src, f) && (!restart || f.restart)) ==>
              src !in c.st.tasks
    // a source that was running is running again, whatever became of the clone
    ensures (&& restart && !f.restart && !f.stop && !f.deleteTask
             && src in old(c.st).records && SeenRunning(old(c.st), src, f.lookup)
             && old(c.st).records[src].snapshotKey in c.st.snaps) ==>
              TaskRunning(c.st, src)
  {
    hide ViewOf, Owned, Trace, OwnsLayer, WellFormed, Apply, KeepsCommitted, SourceKept;
    SameSnapsKeep(c.st, c.st);
    SourceUnchanged(c.st, c.st, src);
    es := [];
    if src in c.st.records {
      TraceEmpty(c.st, {c.st.records[src].snapshotKey, CloneBaseFor(src), SnapshotKeyFor(dst)});
    }
    if f.inspect { return Err(Rpc(Unavailable)), es; }
    if src !in c.st.records { return Err(ContainerNotFound), es; }
    ghost var s0, keys := c.st, {c.st.records[src].snapshotKey, CloneBaseFor(src), SnapshotKeyFor(dst)};
    ghost var more;
    var wasRunning := SeenRunning(c.st, src, f.lookup);
    if wasRunning {
      var stopped, deleted;
      stopped, deleted, es := StopAndDeleteTask(c, src, f.stop, f.stop || f.deleteTask);
      TraceWiden(s0, c.st, es, {}, keys);
      SameLayers(s0, c.st);
      SameSnapsKeep(s0, c.st);
      SourceUnchanged(s0, c.st, src);
      if f.stop || f.deleteTask { return Err(Rpc(Unavailable)), es; }
    }
    ghost var s1 := c.st;
    r, more := CloneInner(c, src, dst, f);
    TraceConcat(s0, s1, c.st, es, more, keys);
    es := es + more;
    ghost var s2 := c.st;
    var code;
    code, more := StartAgain(c, src, wasRunning && restart, f.restart);
    TraceWiden(s2, c.st, more, {}, keys);
    TraceConcat(s0, s2, c.st, es, more, keys);
    es := es + more;
    SameLayers(s2, c.st);
    SameSnapsKeep(s2, c.st);
    KeepsCommittedTwice(s0, s1, s2);
    KeepsCommittedTwice(s0, s2, c.st);
    if r.Ok? { SameOwner(s2, c.st, dst); }
    SourceKeptAcross(s0, s1, s2, c.st, src);
  }

  /** The source has its record, its layer and its view. */
  ghost predicate SourceKept(s: Store, s': Store, src: Id) {
    && src in s.records && src in s'.records && s'.records[src] == s.records[src] && OwnsLayer(s', src)
    && ViewOf(s'.snaps, SnapshotKeyFor(src)) == ViewOf(s.snaps, SnapshotKeyFor(src))
  }

  lemma SourceUnchanged(s: Store, s': Store, src: Id)
    requires s'.records == s.records && s'.snaps == s.snaps
    ensures src in s.records && OwnsLayer(s, src) ==> SourceKept(s, s', src)
    ensures src in s.records ==> (OwnsLayer(s, src) <==> OwnsLayer(s', src))
  {
  }

  /** A source kept by the middle of an operation is kept by all of it, the rest being about tasks. */
  lemma SourceKeptAcross(s0: Store, s1: Store, s2: Store, s3: Store, src: Id)
    requires s1.records == s0.records && s1.snaps == s0.snaps && s3.records == s2.records && s3.snaps == s2.snaps
    ensures SourceKept(s1, s2, src) ==> SourceKept(s0, s3, src)
  {
    hide ViewOf;
  }

  /** Making the base neither takes nor frees a destination key that is not the source's own. */
  lemma BaseLeavesFreeKey(s0: Store, s1: Store, es: seq<Event>, key: Key, base: Key, k: Key)
    requires WellFormed(s0) && Trace(s0, s1, es, {key, base}) && k != base
    requires k == key ==> (k in s0.snaps <==> k in s1.snaps)
    ensures k in s1.snaps <==> k in s0.snaps
  {
    hide ViewOf, ApplyAll, WellFormed;
    if k != key {
      NoStrayKeys(s0, s1, es, {key, base}, k);
      if k in s0.snaps { RunIsolation(s0, es, k); }
    }
  }

  lemma SameOwner(s0: Store, s1: Store, id: Id)
    requires s1.records == s0.records && s1.snaps == s0.snaps && id in s0.records && OwnsLayer(s0, id)
    ensures OwnsLayer(s1, id)
  {
  }

  lemma KeyWasThere(s0: Store, s1: Store, key: Key, base: Key, f: BaseFaults)
    requires !CommitsBase(s0, key, base, f) ==> s1 == s0
    requires CommitsBase(s0, key, base, f) ==> key in s0.snaps
    requires key in s1.snaps
    ensures key in s0.snaps
  {
  }

  lemma CloneLeavesSource(s: Store, s': Store, es: seq<Event>, dst: Id, key: Key)
    requires WellFormed(s) && Trace(s, s', es, {SnapshotKeyFor(dst)}) && key in s.snaps && key != SnapshotKeyFor(dst)
    ensures key in s'.snaps && s'.snaps[key] == s.snaps[key] && ViewOf(s'.snaps, key) == ViewOf(s.snaps, key)
  {
    hide ViewOf, ApplyAll, WellFormed;
    RunIsolation(s, es, key);
  }

  lemma BaseIsNoLayer(a: Id, b: Id)
    ensures CloneBaseFor(a) != SnapshotKeyFor(b)
  {
    var x, y := CloneBaseFor(a), SnapshotKeyFor(b);
    assert x[|x| - 1] == 'e' && y[|y| - 1] == 't';
  }

  /** A request creates no snapshot under a key it is not about. */
  lemma {:induction false} NoStrayKeys(s: Store, s': Store, es: seq<Event>, keys: set<Key>, k: Key)
    requires Trace(s, s', es, keys)
    ensures k in s'.snaps ==> k in keys || k in s.snaps
    decreases |es|
  {
    hide Apply;
    if |es| > 0 {
      assert es[0] in es;
      NoStrayKey(s, es[0], k);
      NoStrayKeys(Apply(s, es[0]), s', es[1..], keys, k);
    }
  }

  lemma NoStrayKey(s: Store, e: Event, k: Key)
    ensures k in Apply(s, e).snaps ==> k in Touches(e) || k in s.snaps
  {
  }

  // ---- restore, reset, delete ----

  datatype RestoreFaults = RestoreFaults(stat: bool, prepare: bool, create: CreateFaults)

  /** A managed snapshot that can be built on, and a destination nobody has taken. */
  predicate CanRestore(s: Store, name: Key, dst: Id, f: RestoreFaults) {
    && name != "" && !f.stat && ManagedImage(s, name).Ok? && !f.prepare
    && Outcome(s, Prepare(SnapshotKeyFor(dst), name)) == Fine
    && !f.create.before && !f.create.create && dst !in s.records
  }

  /** `restore_container`: a new container on a managed snapshot. */
  method RestoreContainer(c: Client, name: Key, dst: Id, f: RestoreFaults) returns (r: OpResult, ghost es: seq<Event>)
    requires WellFormed(c.st)
    modifies c
    ensures Trace(old(c.st), c.st, es, {SnapshotKeyFor(dst)}) && WellFormed(c.st)
    ensures r.Ok? <==> CanRestore(old(c.st), name, dst, f)
    ensures c.st.tasks == old(c.st).tasks
    ensures name == "" ==> r == Err(InvalidArgument)
    ensures name != "" && !f.stat && ManagedImage(old(c.st), name).Err? ==>
              r == Err(ManagedImage(old(c.st), name).error)
    ensures name != "" && !f.stat && ManagedImage(old(c.st), name).Ok? ==>
              (r == Err(ContainerAlreadyExists) <==> Taken(old(c.st), dst, name, f.prepare, f.create))
    ensures SnapshotKeyFor(dst) in old(c.st).snaps ==> c.st.snaps == old(c.st).snaps
    ensures r.Err? ==> c.st.records == old(c.st).records
    ensures KeepsCommitted(old(c.st), c.st)
    ensures r.Ok? ==>
              && ManagedImage(old(c.st), name).Ok?
              && c.st.records
                 == old(c.st).records[dst := Record(ManagedImage(old(c.st), name).value, SnapshotKeyFor(dst))]
              && OwnsLayer(c.st, dst)
              && ViewOf(c.st.snaps, SnapshotKeyFor(dst)) == ViewOf(old(c.st).snaps, name)
    ensures r.Err? && !f.create.cleanup ==> c.st.snaps == old(c.st).snaps && c.st.records == old(c.st).records
    ensures Owned(old(c.st)) ==> Owned(c.st)
  {
    hide ViewOf, KeepsCommitted;
    SameSnapsKeep(c.st, c.st);
    es := [];
    TraceEmpty(c.st, {SnapshotKeyFor(dst)});
    if name == "" { return Err(InvalidArgument), es; }
    if f.stat { return Err(Rpc(Unavailable)), es; }
    match ManagedImage(c.st, name) {
      case Err(e) => return Err(e), es;
      case Ok(image) => r, es := InstantiateOn(c, dst, image, name, f.prepare, f.create);
    }
  }

  datatype ResetFaults = ResetFaults(fetch: bool, stat: bool, stop: bool, deleteTask: bool, remove: bool,
                                     prepare: nat -> bool, restart: bool)

  const PREPARE_ATTEMPTS: nat := 5

  /** The retry loop: up to five prepares, stopping at the first that succeeds. */
  method PrepareWithRetries(c: Client, key: Key, name: Key, fault: nat -> bool)
    returns (code: Code, ghost es: seq<Event>)
    requires WellFormed(c.st)
    modifies c
    ensures Trace(old(c.st), c.st, es, {key}) && WellFormed(c.st)
    ensures c.st.records == old(c.st).records && c.st.tasks == old(c.st).tasks
    ensures code == Fine <==> (&& Outcome(old(c.st), Prepare(key, name)) == Fine
                               && exists n: nat :: n < 5 && !fault(n))
    ensures code == Fine ==> c.st == Apply(old(c.st), Prepare(key, name))
    ensures code != Fine ==> c.st == old(c.st)
  {
    hide Trace, WellFormed;
    es := [];
    code := Unavailable;
    ghost var s0, keys := c.st, {key};
    TraceEmpty(s0, keys);
    ApplyWellFormed(s0, Prepare(key, name));
    var attempt: nat := 0;
    while attempt < PREPARE_ATTEMPTS
      invariant attempt <= PREPARE_ATTEMPTS
      invariant code != Fine && c.st == s0 && Trace(s0, s0, es, keys)
      invariant Outcome(s0, Prepare(key, name)) == Fine ==> forall n: nat | n < attempt :: fault(n)
    {
      TraceCall(s0, c.st, es, keys, Prepare(key, name), fault(attempt));
      code := c.Call(Prepare(key, name), fault(attempt));
      es := Logged(es, Prepare(key, name), fault(attempt));
      if code == Fine { return; }
      attempt := attempt + 1;
    }
  }

  /** The reset gets past its checks: a container, and a managed snapshot of the same image. */
  predicate ResetChecked(s: Store, id: Id, name: Key, f: ResetFaults) {
    name != "" && !f.fetch && id in s.records && !f.stat && ManagedImage(s, name) == Ok(s.records[id].image)
  }

  /** The reset gets past the removal of the old layer. */
  predicate DropsLayer(s: Store, id: Id, name: Key, f: ResetFaults) {
    && ResetChecked(s, id, name, f)
    && !f.deleteTask && CanDropTask(s, id, f.stop)
    && !f.remove && !HasChild(s.snaps, s.records[id].snapshotKey)
  }

  /** Some prepare succeeds: the snapshot is a committed one, not the layer itself, and one of the five
      requests gets through. */
  predicate CanPrepare(s: Store, key: Key, name: Key, f: ResetFaults) {
    && key != name && name in s.snaps && s.snaps[name].kind.Committed?
    && exists n: nat :: n < 5 && !f.prepare(n)
  }

  /** `reset_to_snapshot`. On success the container shows the snapshot and its record is untouched; it
      loses its layer exactly when the layer was removed and no prepare then succeeds. */
  method ResetToSnapshot(c: Client, id: Id, name: Key, restart: bool, f: ResetFaults)
    returns (r: OpResult, ghost es: seq<Event>)
    requires WellFormed(c.st)
    modifies c
    ensures id in old(c.st).records ==> Trace(old(c.st), c.st, es, {old(c.st).records[id].snapshotKey})
    ensures id !in old(c.st).records ==> c.st == old(c.st)
    ensures WellFormed(c.st) && c.st.records == old(c.st).records
    ensures r.Ok? ==>
              && id in old(c.st).records
              && var key := old(c.st).records[id].snapshotKey;
                 && key in c.st.snaps && c.st.snaps[key].kind.Active?
                 && ViewOf(c.st.snaps, key) == ViewOf(old(c.st).snaps, name)
                 && ManagedImage(old(c.st), name) == Ok(old(c.st).records[id].image)
    ensures r.Ok? <==> (&& DropsLayer(old(c.st), id, name, f)
                        && CanPrepare(old(c.st), old(c.st).records[id].snapshotKey, name, f)
                        && (restart ==> !f.restart))
    ensures r.Ok? && restart ==> TaskRunning(c.st, id)
    ensures !ResetChecked(old(c.st), id, name, f) ==> c.st == old(c.st)
    ensures (&& ResetChecked(old(c.st), id, name, f) && !f.deleteTask && CanDropTask(old(c.st), id, f.stop)
             && !(r.Ok? && restart)) ==>
              id !in c.st.tasks
    ensures c.st.tasks - {id} == old(c.st).tasks - {id}
    ensures name == "" ==> r == Err(InvalidArgument)
    ensures name != "" && !f.fetch && id !in old(c.st).records ==> r == Err(ContainerNotFound)
    ensures name != "" && !f.fetch && id in old(c.st).records && !f.stat ==>
              match ManagedImage(old(c.st), name)
              case Err(e) => r == Err(e) && c.st == old(c.st)
              case Ok(image) => image != old(c.st).records[id].image ==> r == Err(InvalidArgument) && c.st == old(c.st)
    ensures !DropsLayer(old(c.st), id, name, f) ==> c.st.snaps == old(c.st).snaps
    ensures DropsLayer(old(c.st), id, name, f) ==>
              var key := old(c.st).records[id].snapshotKey;
              && (key in c.st.snaps <==> CanPrepare(old(c.st), key, name, f))
              && (key in c.st.snaps ==> c.st.snaps[key].kind.Active?)
    ensures Owned(old(c.st)) ==>
              (Owned(c.st) <==> (id in old(c.st).records ==> old(c.st).records[id].snapshotKey in c.st.snaps))
  {
    hide ViewOf, Trace, OwnsLayer, WellFormed;
    es := [];
    if id in c.st.records { TraceEmpty(c.st, {c.st.records[id].snapshotKey}); }
    if id in c.st.records { ResetOwners(c.st, c.st, es, id); }
    if name == "" { return Err(InvalidArgument), es; }
    if f.fetch { return Err(Rpc(Unavailable)), es; }
    if id !in c.st.records { return Err(ContainerNotFound), es; }
    var key := c.st.records[id].snapshotKey;
    ghost var s0, keys := c.st, {key};
    ghost var more;
    if f.stat { return Err(Rpc(Unavailable)), es; }
    var managed := ManagedImage(c.st, name);
    if managed.Err? { return Err(managed.error), es; }
    if managed.value != c.st.records[id].image { return Err(InvalidArgument), es; }
    var stopped, code;
    stopped, code, es := StopAndDeleteTask(c, id, f.stop, f.deleteTask);
    TraceWiden(s0, c.st, es, {}, keys);
    ResetOwners(s0, c.st, es, id);
    if code != Fine && code != NotFound { return Err(Rpc(code)), es; }
    ghost var s1 := c.st;
    MissingHasNoChild(s1, key);
    TraceCall(s0, c.st, es, keys, Remove(key), f.remove);
    code := c.Call(Remove(key), f.remove);
    es := Logged(es, Remove(key), f.remove);
    ResetOwners(s0, c.st, es, id);
    if code != Fine && code != NotFound { return Err(Rpc(code)), es; }
    ghost var s2 := c.st;
    ApplyWellFormed(s1, Remove(key));
    ResetKeepsBase(s1, key, name);
    code, more := PrepareWithRetries(c, key, name, f.prepare);
    TraceConcat(s0, s2, c.st, es, more, keys);
    es := es + more;
    if code != Fine { ResetOwners(s0, c.st, es, id); return Err(Rpc(code)), es; }
    PrepareInheritsView(s2, key, name);
    ghost var s3 := c.st;
    code, more := StartAgain(c, id, restart, f.restart);
    TraceWiden(s3, c.st, more, {}, keys);
    TraceConcat(s0, s3, c.st, es, more, keys);
    es := es + more;
    ResetOwners(s0, c.st, es, id);
    r := if code == Fine then Ok(()) else Err(Rpc(code));
  }

  lemma ResetOwners(s0: Store, s1: Store, es: seq<Event>, id: Id)
    requires WellFormed(s0) && id in s0.records && s1.records == s0.records
    requires var key := s0.records[id].snapshotKey;
             && Trace(s0, s1, es, {key})
             && (s1.snaps == s0.snaps || key !in s1.snaps || s1.snaps[key].kind.Active?)
    ensures Owned(s0) ==> (Owned(s1) <==> s0.records[id].snapshotKey in s1.snaps)
  {
    var key := s0.records[id].snapshotKey;
    if Owned(s0) {
      assert OwnsLayer(s0, id);
      if key !in s1.snaps {
        assert !OwnsLayer(s1, id);
      } else {
        forall x | x in s1.records ensures OwnsLayer(s1, x) || SnapshotKeyFor(x) !in {key} {
          if x != id { SnapshotKeyInjective(x, id); }
        }
        OwnedAfter(s0, s1, es, {key});
      }
    }
  }

  lemma MissingHasNoChild(s: Store, key: Key)
    requires WellFormed(s)
    ensures key !in s.snaps ==> !HasChild(s.snaps, key)
  {
  }

  lemma ResetKeepsBase(s: Store, key: Key, name: Key)
    requires WellFormed(s) && name in s.snaps && Outcome(s, Remove(key)) != FailedPrecondition
    ensures var s' := Apply(s, Remove(key));
            && key !in s'.snaps
            && (key != name ==>
                  && name in s'.snaps && s'.snaps[name] == s.snaps[name]
                  && ViewOf(s'.snaps, name) == ViewOf(s.snaps, name))
  {
    hide ViewOf;
    if key != name { StepFrame(s, Remove(key), name); }
  }

  /** `remove_container`: record, then layer. Ownership survives unless the record's deletion is lost
      while the layer's removal is not. */
  method RemoveContainer(c: Client, id: Id, deleteFault: bool, removeFault: bool)
    returns (r: OpResult, ghost es: seq<Event>)
    requires WellFormed(c.st)
    modifies c
    ensures Trace(old(c.st), c.st, es, {SnapshotKeyFor(id)}) && WellFormed(c.st)
    ensures r.Ok? <==> !deleteFault
    ensures c.st.records == if deleteFault then old(c.st).records else old(c.st).records - {id}
    ensures c.st.tasks == old(c.st).tasks
    ensures c.st.snaps == if removeFault || HasChild(old(c.st).snaps, SnapshotKeyFor(id)) then old(c.st).snaps
                          else old(c.st).snaps - {SnapshotKeyFor(id)}
    ensures Owned(old(c.st)) ==>
              (Owned(c.st) <==> !(id in old(c.st).records && deleteFault && !removeFault))
  {
    hide Trace, WellFormed, OwnsLayer;
    es := [];
    var key := SnapshotKeyFor(id);
    ghost var s0, keys := c.st, {key};
    TraceEmpty(s0, keys);
    TraceCall(s0, c.st, es, keys, DeleteRecord(id), deleteFault);
    var code := c.Call(DeleteRecord(id), deleteFault);
    es := Logged(es, DeleteRecord(id), deleteFault);
    r := if code == Fine || code == NotFound then Ok(()) else Err(Rpc(code));
    assert c.st.records == if deleteFault then s0.records else s0.records - {id};
    ghost var s1 := c.st;
    TraceCall(s0, c.st, es, keys, Remove(key), removeFault);
    code := c.Call(Remove(key), removeFault);
    es := Logged(es, Remove(key), removeFault);
    ApplyWellFormed(s1, Remove(key));
    if Owned(s0) { RemovalOwnership(s0, s1, id, deleteFault, removeFault); }
  }

  lemma RemovalOwnership(s0: Store, s1: Store, id: Id, deleteFault: bool, removeFault: bool)
    requires WellFormed(s0) && Owned(s0)
    requires s1 == if deleteFault then s0 else Apply(s0, DeleteRecord(id))
    ensures var s2 := if removeFault then s1 else Apply(s1, Remove(SnapshotKeyFor(id)));
            Owned(s2) <==> !(id in s0.records && deleteFault && !removeFault)
  {
    var key := SnapshotKeyFor(id);
    var s2 := if removeFault then s1 else Apply(s1, Remove(key));
    if id in s0.records {
      assert OwnsLayer(s0, id);
      assert !HasChild(s0.snaps, key);
    }
    if id in s0.records && deleteFault && !removeFault {
      assert !OwnsLayer(s2, id);
    } else {
      forall x | x in s2.records ensures OwnsLayer(s2, x) {
        assert OwnsLayer(s0, x);
        SnapshotKeyInjective(x, id);
      }
    }
  }

  /** The snapshot is managed and nothing is built on it. */
  predicate CanDelete(s: Store, name: Key, statFault: bool, removeFault: bool) {
    !statFault && !removeFault && ManagedImage(s, name).Ok? && !HasChild(s.snaps, name)
  }

  /** `delete_snapshot`: only managed snapshots, and only ones nothing is built on. Since no layer is
      managed, no container can lose its own. */
  method DeleteSnapshot(c: Client, name: Key, statFault: bool, removeFault: bool)
    returns (r: OpResult, ghost es: seq<Event>)
    requires WellFormed(c.st)
    modifies c
    ensures Trace(old(c.st), c.st, es, {name}) && WellFormed(c.st)
    ensures r.Ok? <==> CanDelete(old(c.st), name, statFault, removeFault)
    ensures !statFault && ManagedImage(old(c.st), name).Err? ==> r == Err(ManagedImage(old(c.st), name).error)
    ensures c.st == if r.Ok? then old(c.st).(snaps := old(c.st).snaps - {name}) else old(c.st)
    ensures LayersUnmanaged(old(c.st)) && Owned(old(c.st)) ==> Owned(c.st)
  {
    hide WellFormed, Trace;
    es := [];
    ghost var s0 := c.st;
    TraceEmpty(s0, {name});
    if statFault { return Err(Rpc(Unavailable)), es; }
    var managed := ManagedImage(c.st, name);
    if managed.Err? { return Err(managed.error), es; }
    ApplyWellFormed(s0, Remove(name));
    TraceCall(s0, s0, es, {name}, Remove(name), removeFault);
    var code := c.Call(Remove(name), removeFault);
    es := Logged(es, Remove(name), removeFault);
    if LayersUnmanaged(s0) && Owned(s0) { DeleteKeepsOwners(s0, c.st, name); }
    r := if code == Fine then Ok(()) else Err(if code == NotFound then SnapshotNotFound else Rpc(code));
  }

  lemma DeleteKeepsOwners(s: Store, s': Store, name: Key)
    requires Owned(s) && LayersUnmanaged(s) && ManagedImage(s, name).Ok?
    requires s'.records == s.records && (s'.snaps == s.snaps || s'.snaps == s.snaps - {name})
    ensures Owned(s')
  {
    forall id | id in s'.records ensures OwnsLayer(s', id) { assert OwnsLayer(s, id); }
  }

  /** What a snapshot's deletion does is an operation on no container. */
  lemma DeleteIsOperation(s: Store, s': Store, es: seq<Event>, name: Key)
    requires LayersUnmanaged(s) && Trace(s, s', es, {name}) && s'.records == s.records
    requires s'.snaps != s.snaps ==> ManagedImage(s, name).Ok?
    ensures Operation(s, s', {}, {name})
  {
    assert Layers({}) + {name} == {name};
  }
}
