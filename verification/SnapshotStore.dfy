/** The part of containerd the crate relies on: copy-on-write snapshots, container records and tasks.
    A snapshot is Active (writable) or Committed; its view is its own diff laid over its parent's view. */
module SnapshotStore {
  import opened Wrappers

  type Key = string
  type Id = string
  type Path = string
  type Content = string

  datatype Kind = Active | Committed

  /** `diff` maps a path to its new content, or to None where the path was deleted. `seqno` is the
      snapshotter's own increasing number; a parent is always older than its child. */
  datatype Snap = Snap(kind: Kind, parent: Option<Key>, diff: map<Path, Option<Content>>, seqno: nat,
                       labels: map<string, string>)

  datatype Record = Record(image: string, snapshotKey: Key)

  datatype TaskStatus = Running | Stopped | Paused | Unknown

  datatype Store = Store(snaps: map<Key, Snap>, records: map<Id, Record>, tasks: map<Id, TaskStatus>, next: nat)

  type View = map<Path, Content>

  function Overlay(base: View, diff: map<Path, Option<Content>>): View {
    map p | p in base.Keys + diff.Keys && (p in diff ==> diff[p].Some?) ::
      if p in diff then diff[p].value else base[p]
  }

  /** What a mount of `key` shows. */
  function ViewOf(snaps: map<Key, Snap>, key: Key): View
    decreases if key in snaps then snaps[key].seqno else 0
  {
    if key !in snaps then map[]
    else
      var s := snaps[key];
      var base := if s.parent.Some? && s.parent.value in snaps && snaps[s.parent.value].seqno < s.seqno
                  then ViewOf(snaps, s.parent.value) else map[];
      Overlay(base, s.diff)
  }

  /** Every parent exists, is committed, and is older. */
  ghost predicate WellFormed(s: Store) {
    && (forall k | k in s.snaps :: s.snaps[k].seqno < s.next)
    && (forall k | k in s.snaps && s.snaps[k].parent.Some? ::
          var p := s.snaps[k].parent.value;
          p in s.snaps && s.snaps[p].kind.Committed? && s.snaps[p].seqno < s.snaps[k].seqno)
  }

  predicate HasChild(snaps: map<Key, Snap>, key: Key) {
    exists k :: k in snaps && snaps[k].parent == Some(key)
  }

  // ---- the RPCs ----

  datatype Code = Fine | AlreadyExists | NotFound | FailedPrecondition | Unavailable

  /** A request, or a write made through a mounted active snapshot. */
  datatype Event =
    | Commit(name: Key, key: Key, labels: map<string, string>)
    | Prepare(key: Key, parent: Key)
    | Remove(key: Key)
    | WriteFile(key: Key, path: Path, content: Option<Content>)
    | CreateRecord(id: Id, record: Record)
    | DeleteRecord(id: Id)
    | StartTask(id: Id)
    | StopTask(id: Id)
    | DeleteTask(id: Id)

  /** How containerd answers when nothing goes wrong in transit. A taken commit name is reported
      before anything about the active key. */
  function Outcome(s: Store, e: Event): Code {
    match e
    case Commit(name, key, _) =>
      if name in s.snaps then AlreadyExists
      else if key !in s.snaps then NotFound
      else if s.snaps[key].kind.Committed? then FailedPrecondition else Fine
    case Prepare(key, parent) =>
      if key in s.snaps then AlreadyExists
      else if parent !in s.snaps then NotFound
      else if s.snaps[parent].kind.Active? then FailedPrecondition else Fine
    case Remove(key) =>
      if key !in s.snaps then NotFound
      else if HasChild(s.snaps, key) then FailedPrecondition else Fine
    case WriteFile(key, _, _) =>
      if key !in s.snaps then NotFound
      else if s.snaps[key].kind.Committed? then FailedPrecondition else Fine
    case CreateRecord(id, _) => if id in s.records then AlreadyExists else Fine
    case DeleteRecord(id) => if id in s.records then Fine else NotFound
    case StartTask(id) =>
      if id !in s.records || s.records[id].snapshotKey !in s.snaps then NotFound
      else if id in s.tasks then AlreadyExists else Fine
    case StopTask(id) => if id in s.tasks then Fine else NotFound
    case DeleteTask(id) =>
      if id !in s.tasks then NotFound
      else if s.tasks[id].Stopped? then Fine else FailedPrecondition
  }

  /** The store after the request; a refused request changes nothing. */
  function Apply(s: Store, e: Event): Store {
    if Outcome(s, e) != Fine then s
    else match e
      case Commit(name, key, labels) =>
        var committed := s.snaps[key].(kind := Committed, labels := labels);
        s.(snaps := (s.snaps - {key})[name := committed])
      case Prepare(key, parent) =>
        s.(snaps := s.snaps[key := Snap(Active, Some(parent), map[], s.next, map[])], next := s.next + 1)
      case Remove(key) => s.(snaps := s.snaps - {key})
      case WriteFile(key, path, content) =>
        var snap := s.snaps[key];
        s.(snaps := s.snaps[key := snap.(diff := snap.diff[path := content])])
      case CreateRecord(id, record) => s.(records := s.records[id := record])
      case DeleteRecord(id) => s.(records := s.records - {id})
      case StartTask(id) => s.(tasks := s.tasks[id := Running])
      case StopTask(id) => s.(tasks := if s.tasks[id].Running? then s.tasks[id := Stopped] else s.tasks)
      case DeleteTask(id) => s.(tasks := s.tasks - {id})
  }

  function ApplyAll(s: Store, es: seq<Event>): Store
    decreases |es|
  {
    if |es| == 0 then s else ApplyAll(Apply(s, es[0]), es[1..])
  }

  /** Snapshot keys a request is about. */
  function Touches(e: Event): set<Key> {
    match e
    case Commit(name, key, _) => {name, key}
    case Prepare(key, _) => {key}
    case Remove(key) => {key}
    case WriteFile(key, _, _) => {key}
    case _ => {}
  }

  // ---- one request ----

  lemma ApplyWellFormed(s: Store, e: Event)
    requires WellFormed(s)
    ensures WellFormed(Apply(s, e))
  {
    hide ViewOf;
    if Outcome(s, e) == Fine && e.Remove? {
      RemoveWellFormed(s, e.key);
    }
  }

  lemma RemoveWellFormed(s: Store, key: Key)
    requires WellFormed(s) && !HasChild(s.snaps, key)
    ensures WellFormed(s.(snaps := s.snaps - {key}))
  {
  }

  /** A view depends only on the snapshot itself and on committed snapshots that have children. */
  lemma {:induction false} ViewFrame(s: Store, snaps': map<Key, Snap>, gone: set<Key>, k: Key)
    requires WellFormed(s) && k in s.snaps && k in snaps' && snaps'[k] == s.snaps[k]
    requires forall a | a in s.snaps && s.snaps[a].kind.Committed? && a !in gone ::
               a in snaps' && snaps'[a] == s.snaps[a]
    requires forall a | a in gone :: !HasChild(s.snaps, a)
    ensures ViewOf(snaps', k) == ViewOf(s.snaps, k)
    decreases s.snaps[k].seqno
  {
    var snap := s.snaps[k];
    if snap.parent.Some? {
      assert HasChild(s.snaps, snap.parent.value);
      ViewFrame(s, snaps', gone, snap.parent.value);
    }
  }

  /** Isolation of one request: every snapshot it is not about stays, with the same view. */
  lemma StepFrame(s: Store, e: Event, k: Key)
    requires WellFormed(s) && k in s.snaps && k !in Touches(e)
    ensures k in Apply(s, e).snaps && Apply(s, e).snaps[k] == s.snaps[k]
    ensures ViewOf(Apply(s, e).snaps, k) == ViewOf(s.snaps, k)
  {
    hide ViewOf;
    var gone := if e.Remove? && Outcome(s, e) == Fine then {e.key} else {};
    ViewFrame(s, Apply(s, e).snaps, gone, k);
  }

  /** A commit moves the view to the new name; the active key is consumed. */
  lemma CommitMovesView(s: Store, name: Key, key: Key, labels: map<string, string>)
    requires WellFormed(s) && Outcome(s, Commit(name, key, labels)) == Fine
    ensures var s' := Apply(s, Commit(name, key, labels));
            && key !in s'.snaps && name in s'.snaps && s'.snaps[name].kind.Committed?
            && s'.snaps[name].labels == labels
            && ViewOf(s'.snaps, name) == ViewOf(s.snaps, key)
  {
    var s' := Apply(s, Commit(name, key, labels));
    var snap := s.snaps[key];
    if snap.parent.Some? {
      var p := snap.parent.value;
      StepFrame(s, Commit(name, key, labels), p);
    }
  }

  /** A fresh active snapshot starts with its parent's view. */
  lemma PrepareInheritsView(s: Store, key: Key, parent: Key)
    requires WellFormed(s) && Outcome(s, Prepare(key, parent)) == Fine
    ensures var s' := Apply(s, Prepare(key, parent));
            && key in s'.snaps && s'.snaps[key].kind.Active?
            && ViewOf(s'.snaps, key) == ViewOf(s.snaps, parent)
  {
    var s' := Apply(s, Prepare(key, parent));
    StepFrame(s, Prepare(key, parent), parent);
    assert ViewOf(s'.snaps, key) == Overlay(ViewOf(s'.snaps, parent), map[]);
  }

  /** The view after a write to a path. */
  function Edit(v: View, path: Path, content: Option<Content>): View {
    match content case Some(c) => v[path := c] case None => v - {path}
  }

  lemma OverlayEdit(base: View, diff: map<Path, Option<Content>>, path: Path, content: Option<Content>)
    ensures Overlay(base, diff[path := content]) == Edit(Overlay(base, diff), path, content)
  {
  }

  /** A write shows exactly at its path, in its own snapshot. */
  lemma WriteShows(s: Store, key: Key, path: Path, content: Option<Content>)
    requires WellFormed(s) && Outcome(s, WriteFile(key, path, content)) == Fine
    ensures ViewOf(Apply(s, WriteFile(key, path, content)).snaps, key) == Edit(ViewOf(s.snaps, key), path, content)
  {
    hide Overlay, Edit;
    var snap := s.snaps[key];
    if snap.parent.Some? {
      StepFrame(s, WriteFile(key, path, content), snap.parent.value);
      OverlayEdit(ViewOf(s.snaps, snap.parent.value), snap.diff, path, content);
    } else {
      OverlayEdit(map[], snap.diff, path, content);
    }
  }

  // ---- any sequence of requests, by any number of callers ----

  lemma {:induction false} RunWellFormed(s: Store, es: seq<Event>)
    requires WellFormed(s)
    ensures WellFormed(ApplyAll(s, es))
    decreases |es|
  {
    if |es| > 0 {
      ApplyWellFormed(s, es[0]);
      RunWellFormed(Apply(s, es[0]), es[1..]);
    }
  }

  /** Copy-on-write isolation over whole runs: a snapshot that no request is about keeps its view,
      whatever is written, committed, prepared or removed elsewhere. */
  lemma {:induction false} RunIsolation(s: Store, es: seq<Event>, k: Key)
    requires WellFormed(s) && k in s.snaps
    requires forall e | e in es :: k !in Touches(e)
    ensures k in ApplyAll(s, es).snaps && ApplyAll(s, es).snaps[k] == s.snaps[k]
    ensures ViewOf(ApplyAll(s, es).snaps, k) == ViewOf(s.snaps, k)
    decreases |es|
  {
    hide ViewOf, Apply, WellFormed;
    if |es| > 0 {
      assert es[0] in es;
      StepFrame(s, es[0], k);
      ApplyWellFormed(s, es[0]);
      RunIsolation(Apply(s, es[0]), es[1..], k);
    }
  }

  /** The snapshot is in both stores, the same, with the same view. */
  ghost predicate Keeps(s: Store, s': Store, k: Key) {
    k in s.snaps && k in s'.snaps && s'.snaps[k] == s.snaps[k] && ViewOf(s'.snaps, k) == ViewOf(s.snaps, k)
  }

  /** The request takes `k` away. */
  predicate Removes(s: Store, e: Event, k: Key) { e == Remove(k) && Outcome(s, e) == Fine }

  lemma CommittedStep(s: Store, e: Event, k: Key)
    requires WellFormed(s) && k in s.snaps && s.snaps[k].kind.Committed?
    ensures Keeps(s, Apply(s, e), k) <==> !Removes(s, e, k)
  {
    hide ViewOf, HasChild;
    if !Removes(s, e, k) {
      var gone := if e.Remove? && Outcome(s, e) == Fine then {e.key} else {};
      ViewFrame(s, Apply(s, e).snaps, gone, k);
    }
  }

  /** No request of the run takes `k` away. */
  predicate NeverRemoved(s: Store, es: seq<Event>, k: Key)
    decreases |es|
  {
    |es| == 0 || (!Removes(s, es[0], k) && NeverRemoved(Apply(s, es[0]), es[1..], k))
  }

  /** At every moment of the run from `s`, `k` is as it was in `was`. */
  ghost predicate KeptThroughout(was: Store, s: Store, es: seq<Event>, k: Key)
    decreases |es|
  {
    Keeps(was, s, k) && (|es| > 0 ==> KeptThroughout(was, Apply(s, es[0]), es[1..], k))
  }

  /** A committed snapshot is immutable: over any run of requests it stays as it is, view and all, if and
      only if no request takes it away; removing everything else does not touch it. */
  lemma {:induction false} CommittedSurvives(was: Store, s: Store, es: seq<Event>, k: Key)
    requires WellFormed(s) && Keeps(was, s, k) && s.snaps[k].kind.Committed?
    ensures KeptThroughout(was, s, es, k) <==> NeverRemoved(s, es, k)
    ensures NeverRemoved(s, es, k) ==> Keeps(was, ApplyAll(s, es), k)
    decreases |es|
  {
    hide ViewOf, Apply, WellFormed, Removes;
    if |es| > 0 {
      CommittedStep(s, es[0], k);
      ApplyWellFormed(s, es[0]);
      if !Removes(s, es[0], k) { CommittedSurvives(was, Apply(s, es[0]), es[1..], k); }
      else { RemovedIsGone(was, s, es[0], k); }
    }
  }

  lemma RemovedIsGone(was: Store, s: Store, e: Event, k: Key)
    requires Removes(s, e, k)
    ensures !Keeps(was, Apply(s, e), k)
  {
  }

  /** Snapshot round trip: commit, then anything short of removing the snapshot (including removing
      the source), then prepare: the new layer shows the source as it was at the commit. */
  lemma SnapshotRoundTrip(s: Store, name: Key, src: Key, labels: map<string, string>, es: seq<Event>, dst: Key)
    requires WellFormed(s) && Outcome(s, Commit(name, src, labels)) == Fine
    requires NeverRemoved(Apply(s, Commit(name, src, labels)), es, name)
    requires var later := ApplyAll(Apply(s, Commit(name, src, labels)), es); dst !in later.snaps
    ensures var later := ApplyAll(Apply(s, Commit(name, src, labels)), es);
            && Outcome(later, Prepare(dst, name)) == Fine
            && ViewOf(Apply(later, Prepare(dst, name)).snaps, dst) == ViewOf(s.snaps, src)
  {
    hide ViewOf, WellFormed;
    var s1 := Apply(s, Commit(name, src, labels));
    CommitMovesView(s, name, src, labels);
    ApplyWellFormed(s, Commit(name, src, labels));
    CommittedSurvives(s1, s1, es, name);
    RunWellFormed(s1, es);
    PrepareInheritsView(ApplyAll(s1, es), dst, name);
  }
}
