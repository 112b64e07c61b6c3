/** The whole log pipeline as one state machine: the container writing raw output, the tailer's
    passes and file operations, and the follower's polls, interleaved in any order. */
module Pipeline {
  import opened Wrappers
  import opened Bytes
  import opened Codec
  import opened EventParser
  import Tailer
  import opened EventsDir
  import Follower

  /** One value for each raw stream. */
  datatype Both<+T> = Both(out: T, err: T) {
    function At(s: Stream): T { match s case Stdout => out case Stderr => err }
  }

  function Set<T>(b: Both<T>, s: Stream, v: T): (r: Both<T>)
    ensures r.At(s) == v
    ensures forall x | x != s :: r.At(x) == b.At(x)
  {
    match s case Stdout => b.(out := v) case Stderr => b.(err := v)
  }

  /** Where the tailer is: between passes, about to check the size, between rename and recreate, or writing. */
  datatype Phase = Idle | Deciding | Reopening | Writing

  /** `history` is every record the tailer produced; the last `batch` of them are in flight.
      `before` of them went to files older than `events.log`, `prev` to files older than that one's
      predecessor. `start` is where the follower joined. The first `inherited` were there before this
      process, written by earlier ones. These five only record what happened. */
  datatype World = World(
    raw: Both<seq<Byte>>, tail: Both<Tailer.Tail>,
    dir: Dir, pending: seq<Byte>, phase: Phase,
    follow: Follower.Follow, delivered: seq<LogEntry>,
    history: seq<LogEntry>, batch: nat, before: nat, prev: nat, start: Option<nat>, inherited: nat)

  const TAIL0: Tailer.Tail := Tailer.Tail(0, [], false)

  /** How a process starts: nothing read or delivered yet, the raw files in any condition, and whatever chain
      of whole records earlier processes left. */
  ghost predicate Initial(w: World) {
    && w.tail == Both(TAIL0, TAIL0) && w.pending == [] && w.phase == Idle
    && w.follow == Follower.START && w.delivered == [] && w.start == None
    && w.inherited == |w.history| && w.before <= |w.history| && Follower.Small(w.history)
    && Valid(w.dir) && CurBytes(w.dir) == EncodeAll(w.history[w.before..])
    && (w.dir.slots[0].Some? ==> w.dir.slots[0].value.inode < w.dir.nextInode)
  }

  /** The first process of all. */
  const INIT: World := World(
    Both([], []), Both(TAIL0, TAIL0), EMPTY, [], Idle, Follower.START, [], [], 0, 0, 0, None, 0)

  /** One atomic step. `Write` makes a piece of the batch visible; `Drain` is a pass up to its append,
      with `len` the raw length its stat saw. */
  datatype Action =
    | RawWrite(stream: Stream, bytes: seq<Byte>)
    | Drain(stream: Stream, nanos: int, len: nat)
    | Rename
    | Open
    | Write(count: nat)
    | Poll

  function CurBytes(d: Dir): seq<Byte>
    requires Valid(d)
  {
    if d.slots[0].Some? then d.slots[0].value.bytes else []
  }

  function Seen(w: World, a: Action): Tailer.Observation
    requires a.Drain?
  {
    Tailer.Observation(true, a.len, w.raw.At(a.stream), Tailer.NoFault)
  }

  /** The tailer is sequential and rotates exactly when the batch would not fit. */
  predicate Enabled(w: World, a: Action) {
    Valid(w.dir) &&
    match a
    case RawWrite(_, _) => true
    case Drain(s, _, len) => w.phase.Idle? && w.tail.At(s).pos <= len <= |w.raw.At(s)|
    case Rename => w.phase.Deciding? && NeedsRotation(w.dir, |w.pending|) && w.batch <= |w.history|
    case Open => w.phase.Reopening? || (w.phase.Deciding? && !NeedsRotation(w.dir, |w.pending|))
    case Write(n) => w.phase.Writing? && 0 < n <= |w.pending| && w.dir.slots[0].Some?
    case Poll => true
  }

  /** At a rename the follower either has not joined, or is reading the file being renamed with no
      partial record in hand and no more left than the drain cap. This includes that the previous
      rotation has been noticed. */
  predicate HandoverReady(w: World)
    requires Valid(w.dir)
  {
    || w.follow.inode.None?
    || (&& w.dir.slots[0].Some? && w.follow.inode == Some(w.dir.slots[0].value.inode)
        && w.follow.leftover == []
        && |w.dir.slots[0].value.bytes| - w.follow.pos <= Follower.ROTATED_DRAIN_MAX_BYTES)
  }

  predicate Allowed(w: World, a: Action) { Enabled(w, a) && (a.Rename? ==> HandoverReady(w)) }

  function Apply(w: World, a: Action): World
    requires Enabled(w, a)
  {
    match a
    case RawWrite(s, bytes) => w.(raw := Set(w.raw, s, w.raw.At(s) + bytes))
    case Drain(s, nanos, len) =>
      var r := Tailer.Pass(w.tail.At(s), Seen(w, a));
      var es := Tailer.Entries(s, UnixMillis(nanos), r.cut.records);
      w.(tail := Set(w.tail, s, r.state), history := w.history + es, batch := |es|,
         pending := EncodeAll(es), phase := if es == [] then Idle else Deciding)
    case Rename =>
      w.(dir := Renamed(w.dir), phase := Reopening, prev := w.before, before := |w.history| - w.batch)
    case Open => w.(dir := Opened(w.dir), phase := Writing)
    case Write(n) =>
      w.(dir := Written(w.dir, w.pending[..n]), pending := w.pending[n..],
         phase := if n == |w.pending| then Idle else Writing)
    case Poll =>
      var r := Follower.Poll(w.follow, w.dir, []);
      w.(follow := r.state, delivered := w.delivered + r.emitted,
         start := if w.start.None? && w.dir.slots[0].Some? then Some(w.before) else w.start)
  }

  /** The steps of one append, taken without interruption, are `append_batch`: rename if needed, open, write
      the whole batch. */
  lemma StepsAreAppend(w: World)
    requires Valid(w.dir) && w.phase.Deciding? && w.pending != [] && w.batch <= |w.history|
    ensures var w1 := if Enabled(w, Rename) then Apply(w, Rename) else w;
            Enabled(w1, Open) &&
            var w2 := Apply(w1, Open);
            Enabled(w2, Write(|w.pending|)) &&
            var w3 := Apply(w2, Write(|w.pending|));
            w3.dir == Appended(w.dir, w.pending) && w3.phase.Idle? && w3.pending == []
  {
    hide Follower.Poll, Tailer.Pass, EncodeAll;
    assert w.pending[..|w.pending|] == w.pending;
  }

  // ---- the invariant ----

  /** Payloads of one stream, in order. */
  function Payloads(es: seq<LogEntry>, s: Stream): seq<seq<Byte>> {
    if |es| == 0 then []
    else (if es[0].stream == s then [es[0].data] else []) + Payloads(es[1..], s)
  }

  /** The records of this process. */
  function Own(w: World): seq<LogEntry>
    requires w.inherited <= |w.history|
  {
    w.history[w.inherited..]
  }

  ghost predicate TailInv(w: World) {
    && w.inherited <= |w.history|
    && (forall s: Stream :: Tailer.Conserves(w.tail.At(s), Payloads(Own(w), s), w.raw.At(s)))
    && Follower.Small(w.history)
  }

  ghost predicate FileInv(w: World) {
    && Valid(w.dir)
    && w.before <= |w.history|
    && CurBytes(w.dir) + w.pending == EncodeAll(w.history[w.before..])
    && (w.phase.Idle? ==> w.pending == [])
    && (w.phase.Writing? ==> w.dir.slots[0].Some?)
    && (w.phase.Reopening? ==> w.dir.slots[0].None?)
    && (w.phase.Deciding? ==>
          && w.before <= |w.history| - w.batch
          && w.pending == EncodeAll(w.history[|w.history| - w.batch..]))
    && (w.dir.slots[0].Some? ==> w.dir.slots[0].value.inode < w.dir.nextInode)
    && (w.follow.inode.Some? ==> w.follow.inode.value < w.dir.nextInode)
  }

  /** The follower has not joined yet. */
  ghost predicate Absent(w: World) {
    w.follow == Follower.START && w.delivered == [] && w.start == None
  }

  /** The follower is reading the current `events.log`. */
  ghost predicate Reading(w: World)
    requires Valid(w.dir)
  {
    && w.start.Some? && w.start.value <= w.before <= |w.history|
    && w.dir.slots[0].Some?
    && exists got ::
         && Follower.Synced(w.follow, w.dir.slots[0].value, got)
         && w.delivered == w.history[w.start.value..w.before] + got
  }

  /** One rotation has happened that the follower has not noticed; its file is `events.log.1`. */
  ghost predicate Behind(w: World)
    requires Valid(w.dir)
  {
    && w.start.Some? && w.start.value <= w.prev <= w.before <= |w.history|
    && w.dir.slots[1].Some?
    && var f := w.dir.slots[1].value;
       && (w.dir.slots[0].Some? ==> w.dir.slots[0].value.inode != f.inode)
       && f.inode < w.dir.nextInode
       && f.bytes == EncodeAll(w.history[w.prev..w.before])
       && w.follow.leftover == []
       && |f.bytes| - w.follow.pos <= Follower.ROTATED_DRAIN_MAX_BYTES
       && exists got ::
            && Follower.Synced(w.follow, f, got)
            && w.delivered == w.history[w.start.value..w.prev] + got
  }

  ghost predicate Inv(w: World) {
    && TailInv(w) && FileInv(w)
    && (Absent(w) || Reading(w) || Behind(w))
  }

  // ---- tailer side ----

  lemma {:induction false} PayloadsAppend(a: seq<LogEntry>, b: seq<LogEntry>, s: Stream)
    ensures Payloads(a + b, s) == Payloads(a, s) + Payloads(b, s)
  {
    if |a| == 0 {
      assert a + b == b;
    } else {
      assert (a + b)[1..] == a[1..] + b;
      PayloadsAppend(a[1..], b, s);
    }
  }

  lemma {:induction false} PayloadsOfEntries(s: Stream, ms: U64, records: seq<seq<Byte>>, x: Stream)
    ensures Payloads(Tailer.Entries(s, ms, records), x) == if x == s then records else []
  {
    var es := Tailer.Entries(s, ms, records);
    if |records| > 0 {
      assert es[1..] == Tailer.Entries(s, ms, records[1..]);
      PayloadsOfEntries(s, ms, records[1..], x);
      if x == s { assert [records[0]] + records[1..] == records; }
    }
  }

  /** Raw growth disturbs nothing already read. */
  lemma ConservesGrow(st: Tailer.Tail, emitted: seq<seq<Byte>>, raw: seq<Byte>, more: seq<Byte>)
    requires Tailer.Conserves(st, emitted, raw)
    ensures Tailer.Conserves(st, emitted, raw + more)
  {
    assert (raw + more)[..st.pos] == raw[..st.pos];
  }

  lemma GoodPayloadsAreSmall(st: Tailer.Tail, emitted: seq<seq<Byte>>, raw: seq<Byte>,
                             earlier: seq<LogEntry>, es: seq<LogEntry>)
    requires Tailer.Conserves(st, emitted, raw) && Follower.Small(earlier)
    requires forall e | e in es :: e.data in emitted
    ensures Follower.Small(earlier + es)
  {
    forall e | e in earlier + es ensures |e.data| + MAX_HEADER_BYTES + 1 <= MAX_RECORD_BYTES {
      if e in es { assert Tailer.GoodPayload(e.data); }
    }
  }

  /** What a pass adds to the records, and that the stream it reads stays conserved. */
  lemma DrainConserves(w: World, a: Action)
    requires TailInv(w) && Enabled(w, a) && a.Drain?
    ensures var w' := Apply(w, a);
            var records := Tailer.Pass(w.tail.At(a.stream), Seen(w, a)).cut.records;
            && w'.inherited <= |w'.history|
            && Own(w') == Own(w) + Tailer.Entries(a.stream, UnixMillis(a.nanos), records)
            && Tailer.Conserves(w'.tail.At(a.stream), Payloads(Own(w), a.stream) + records, w.raw.At(a.stream))
  {
    hide Tailer.Conserves, Tailer.Pass, EncodeAll, Payloads, Follower.Small, Tailer.Entries;
    var s, o := a.stream, Seen(w, a);
    var records := Tailer.Pass(w.tail.At(s), o).cut.records;
    PassConserves(w.tail.At(s), Payloads(Own(w), s), w.raw.At(s), a.len);
    TailOf(w.history, Tailer.Entries(s, UnixMillis(a.nanos), records), w.inherited);
  }

  /** A pass without faults on a raw file that has only grown. */
  lemma PassConserves(st: Tailer.Tail, emitted: seq<seq<Byte>>, raw: seq<Byte>, len: nat)
    requires Tailer.Conserves(st, emitted, raw) && st.pos <= len <= |raw|
    ensures var r := Tailer.Pass(st, Tailer.Observation(true, len, raw, Tailer.NoFault));
            Tailer.Conserves(r.state, emitted + r.cut.records, raw)
  {
    hide Tailer.Conserves, Tailer.Pass, Tailer.CutBatch, Tailer.Combined;
    var o := Tailer.Observation(true, len, raw, Tailer.NoFault);
    Tailer.PassShape(st, o);
    Tailer.PassConservesIff(st, emitted, raw, o);
  }

  lemma TailOf(h: seq<LogEntry>, es: seq<LogEntry>, i: nat)
    requires i <= |h|
    ensures (h + es)[i..] == h[i..] + es
  {
  }

  lemma DrainStep(w: World, a: Action)
    requires TailInv(w) && Enabled(w, a) && a.Drain?
    ensures TailInv(Apply(w, a))
  {
    hide Tailer.Conserves, Tailer.Pass, EncodeAll, Payloads, Follower.Small, Own;
    DrainConserves(w, a);
    var w', s := Apply(w, a), a.stream;
    var records := Tailer.Pass(w.tail.At(s), Seen(w, a)).cut.records;
    var es := Tailer.Entries(s, UnixMillis(a.nanos), records);
    forall x: Stream ensures Tailer.Conserves(w'.tail.At(x), Payloads(Own(w'), x), w'.raw.At(x)) {
      PayloadsAppend(Own(w), es, x);
      PayloadsOfEntries(s, UnixMillis(a.nanos), records, x);
      assert Payloads(Own(w), x) + [] == Payloads(Own(w), x);
    }
    forall e | e in es ensures e.data in Payloads(Own(w), s) + records { assert e.data in records; }
    GoodPayloadsAreSmall(w'.tail.At(s), Payloads(Own(w), s) + records, w.raw.At(s), w.history, es);
  }

  lemma TailStep(w: World, a: Action)
    requires TailInv(w) && Enabled(w, a)
    ensures TailInv(Apply(w, a))
  {
    hide Tailer.Conserves, Tailer.Pass, EncodeAll, Follower.Poll, Follower.Small, Payloads;
    match a
    case RawWrite(s, bytes) => ConservesGrow(w.tail.At(s), Payloads(Own(w), s), w.raw.At(s), bytes);
    case Drain(_, _, _) => DrainStep(w, a);
    case _ =>
  }

  // ---- file side ----

  lemma FileStep(w: World, a: Action)
    requires FileInv(w) && Enabled(w, a)
    ensures FileInv(Apply(w, a))
  {
    hide EncodeAll, Tailer.Pass;
    var w' := Apply(w, a);
    match a
    case RawWrite(s, bytes) =>
    case Drain(s, nanos, len) =>
      var es := w'.history[|w.history|..];
      assert w'.history == w.history + es;
      assert w'.history[w.before..] == w.history[w.before..] + es;
      EncodeAllAppend(w.history[w.before..], es);
      assert CurBytes(w.dir) + [] == CurBytes(w.dir);
      EncodeAllEmptyIff([]);
    case Rename =>
      assert [] + w.pending == w.pending;
    case Open =>
    case Write(n) =>
      assert w.pending == w.pending[..n] + w.pending[n..];
      assert CurBytes(w'.dir) + w'.pending == CurBytes(w.dir) + w.pending;
    case Poll =>
      hide Parse, KeepLeftover;
  }

  // ---- follower side ----

  lemma SliceStable(h: seq<LogEntry>, es: seq<LogEntry>, a: nat, b: nat)
    requires a <= b <= |h|
    ensures (h + es)[a..b] == h[a..b]
  {
  }

  /** The follower's situation is untouched by the container and by a tailer pass. */
  lemma FollowQuiet(w: World, a: Action)
    requires FileInv(w) && (Absent(w) || Reading(w) || Behind(w))
    requires Enabled(w, a) && (a.RawWrite? || a.Drain?)
    ensures var w' := Apply(w, a); Valid(w'.dir) && (Absent(w') || Reading(w') || Behind(w'))
  {
    hide EncodeAll, Tailer.Pass, Follower.Synced;
    var w' := Apply(w, a);
    var es := w'.history[|w.history|..];
    assert w'.history == w.history + es;
    if Reading(w) {
      SliceStable(w.history, es, w.start.value, w.before);
      assert Reading(w');
    } else if Behind(w) {
      SliceStable(w.history, es, w.start.value, w.prev);
      SliceStable(w.history, es, w.prev, w.before);
      assert Behind(w');
    }
  }

  /** Creating or extending `events.log`. */
  lemma FollowWrite(w: World, a: Action)
    requires FileInv(w) && (Absent(w) || Reading(w) || Behind(w))
    requires Enabled(w, a) && (a.Open? || a.Write?)
    ensures var w' := Apply(w, a); Valid(w'.dir) && (Absent(w') || Reading(w') || Behind(w'))
  {
    hide EncodeAll, Parse;
    var w' := Apply(w, a);
    if Reading(w) {
      var f, f' := w.dir.slots[0].value, w'.dir.slots[0].value;
      var got :| Follower.Synced(w.follow, f, got) && w.delivered == w.history[w.start.value..w.before] + got;
      assert f'.bytes[..w.follow.pos] == f.bytes[..w.follow.pos];
      assert Follower.Synced(w'.follow, f', got);
    } else if Behind(w) {
      var f := w.dir.slots[1].value;
      assert w'.dir.slots[1] == w.dir.slots[1];
      var got :| Follower.Synced(w.follow, f, got) && w.delivered == w.history[w.start.value..w.prev] + got;
      assert Follower.Synced(w'.follow, f, got);
    }
  }

  /** The rename hands the follower's file over to slot 1, complete. */
  lemma FollowRename(w: World)
    requires FileInv(w) && (Absent(w) || Reading(w) || Behind(w))
    requires Allowed(w, Rename)
    ensures var w' := Apply(w, Rename); Valid(w'.dir) && (Absent(w') || Reading(w') || Behind(w'))
  {
    hide EncodeAll, Parse;
    var w' := Apply(w, Rename);
    if Reading(w) {
      var f := w.dir.slots[0].value;
      var got :| Follower.Synced(w.follow, f, got) && w.delivered == w.history[w.start.value..w.before] + got;
      var mid := |w.history| - w.batch;
      assert w.history[w.before..] == w.history[w.before..mid] + w.history[mid..];
      EncodeAllAppend(w.history[w.before..mid], w.history[mid..]);
      CancelRight(f.bytes, EncodeAll(w.history[w.before..mid]), w.pending);
      assert w'.dir.slots[1] == Some(f);
      assert Follower.Synced(w'.follow, f, got);
    }
  }

  lemma CancelRight(a: seq<Byte>, b: seq<Byte>, c: seq<Byte>)
    requires a + c == b + c
    ensures a == b
  {
    assert a == (a + c)[..|a|] && b == (b + c)[..|b|];
  }

  /** A poll of the current file, from a state synced to it. */
  lemma PollCurrent(w: World, st: Follower.Follow, got: seq<LogEntry>)
    requires TailInv(w) && FileInv(w) && w.dir.slots[0].Some?
    requires Follower.Synced(st, w.dir.slots[0].value, got)
    ensures var r := Follower.Poll(st, w.dir, []);
            var es := w.history[w.before..];
            var f := w.dir.slots[0].value;
            && Follower.Synced(r.state, f, got + r.emitted)
            && got + r.emitted == es[..WholeRecords(es, |f.bytes|)]
            && (w.phase.Idle? ==> got + r.emitted == es)
  {
    hide EncodeAll, Parse, Follower.Poll, Tailer.Conserves;
    var es, f := w.history[w.before..], w.dir.slots[0].value;
    assert Follower.Small(es);
    Follower.PollSynced(st, w.dir, f, got, es);
    if w.phase.Idle? {
      assert f.bytes + [] == f.bytes;
      assert f.bytes[..|f.bytes|] == f.bytes;
      ParseEncodedPrefix(es, |f.bytes|);
      ParseEncodeAll(es);
    }
  }

  /** A poll finds the current file joined, being read, or one rotation ahead, and ends up reading it;
      in the gap between rename and recreate it changes nothing. */
  lemma FollowPoll(w: World)
    requires TailInv(w) && FileInv(w) && (Absent(w) || Reading(w) || Behind(w))
    ensures var w' := Apply(w, Poll);
            && Valid(w'.dir) && (Absent(w') || Reading(w') || Behind(w'))
            && (w.dir.slots[0].Some? ==> Reading(w'))
            && (w.dir.slots[0].Some? && w.phase.Idle? ==>
                  w'.start.Some? && w'.start.value <= |w.history| && w'.delivered == w.history[w'.start.value..])
  {
    hide EncodeAll, Parse, TailInv, FileInv;
    FileInvFacts(w);
    var w' := Apply(w, Poll);
    var h := w.history;
    if w.dir.slots[0].None? {
      assert w.delivered + [] == w.delivered;
      if Behind(w) { assert Behind(w'); }
    } else {
      var f := w.dir.slots[0].value;
      if Absent(w) {
        var st := Follower.Follow(0, [], Some(f.inode));
        EmptySynced(f);
        PollCurrent(w, st, []);
        PollAsJoining(w.dir, f);
        Rejoin(w, w', [], Follower.Poll(st, w.dir, []).emitted);
      } else if Reading(w) {
        var got :| Follower.Synced(w.follow, f, got) && w.delivered == h[w.start.value..w.before] + got;
        PollCurrent(w, w.follow, got);
        Rejoin(w, w', got, Follower.Poll(w.follow, w.dir, []).emitted);
      } else {
        PollBehind(w);
      }
    }
  }

  lemma FileInvFacts(w: World)
    requires FileInv(w)
    ensures Valid(w.dir) && w.before <= |w.history|
  {
  }

  lemma EmptySynced(f: File)
    ensures Follower.Synced(Follower.Follow(0, [], Some(f.inode)), f, [])
  {
    assert f.bytes[..0] == [];
    EmptyNeedsMore();
  }

  /** Joining is polling from the start of the file. */
  lemma PollAsJoining(d: Dir, f: File)
    requires Valid(d) && d.slots[0] == Some(f)
    ensures Follower.Poll(Follower.START, d, []) == Follower.Poll(Follower.Follow(0, [], Some(f.inode)), d, [])
  {
    hide Parse;
  }

  /** Bookkeeping after a poll that read the current file. */
  lemma Rejoin(w: World, w': World, got: seq<LogEntry>, emitted: seq<LogEntry>)
    requires Valid(w.dir) && w.before <= |w.history| && w.dir.slots[0].Some?
    requires w'.dir == w.dir && w'.history == w.history && w'.before == w.before
    requires w'.start.Some? && w'.start.value <= w.before
    requires w'.delivered == w.history[w'.start.value..w.before] + (got + emitted)
          || w'.delivered == (w.history[w'.start.value..w.before] + got) + emitted
          || (w'.start.value == w.before && got == [] && w'.delivered == [] + emitted)
    requires Follower.Synced(w'.follow, w.dir.slots[0].value, got + emitted)
    ensures Reading(w')
    ensures w.phase.Idle? && got + emitted == w.history[w.before..] ==> w'.delivered == w.history[w'.start.value..]
  {
    hide Follower.Synced;
    var h, s := w.history, w'.start.value;
    assert w'.delivered == h[s..w.before] + (got + emitted);
    assert h[s..w.before] + h[w.before..] == h[s..];
  }

  /** Noticing a rotation: the drain completes the old file, then the new one is read from its start. */
  lemma PollBehind(w: World)
    requires TailInv(w) && FileInv(w) && Behind(w) && w.dir.slots[0].Some?
    ensures var w' := Apply(w, Poll);
            && Reading(w')
            && (w.phase.Idle? ==>
                  w'.start.Some? && w'.start.value <= |w.history| && w'.delivered == w.history[w'.start.value..])
  {
    hide EncodeAll, Parse, TailInv, FileInv, Follower.Poll, Follower.DrainRotated;
    FileInvFacts(w);
    var w' := Apply(w, Poll);
    var f, earlier, h := w.dir.slots[0].value, w.dir.slots[1].value, w.history;
    var got :| Follower.Synced(w.follow, earlier, got) && w.delivered == h[w.start.value..w.prev] + got;
    HistoryFits(w, w.prev, w.before);
    Follower.HandoverIff(w.follow, earlier, got, h[w.prev..w.before]);
    var drained := Follower.DrainRotated(Some(earlier), earlier.inode, w.follow.pos);
    var st := Follower.Follow(0, [], Some(f.inode));
    EmptySynced(f);
    PollCurrent(w, st, []);
    var created := Follower.Poll(st, w.dir, []);
    PollAcross(w.follow, w.dir, f, drained);
    StitchStretches(h, w.start.value, w.prev, w.before, got, drained, created.emitted);
    assert [] + created.emitted == created.emitted;
    Rejoin(w, w', [], created.emitted);
  }

  lemma StitchStretches(h: seq<LogEntry>, a: nat, b: nat, c: nat,
                        got: seq<LogEntry>, drained: seq<LogEntry>, more: seq<LogEntry>)
    requires a <= b <= c <= |h| && got + drained == h[b..c]
    ensures h[a..b] + got + (drained + more) == h[a..c] + more
  {
    assert h[a..b] + h[b..c] == h[a..c];
    assert h[a..b] + got + (drained + more) == h[a..b] + (got + drained) + more;
  }

  /** A poll that notices a rotation is the drain followed by a poll of the new file from its start. */
  lemma PollAcross(st: Follower.Follow, d: Dir, f: File, drained: seq<LogEntry>)
    requires Valid(d) && d.slots[0] == Some(f) && st.inode.Some? && st.inode.value != f.inode
    requires drained == Follower.DrainRotated(d.slots[1], st.inode.value, st.pos)
    ensures var r := Follower.Poll(Follower.Follow(0, [], Some(f.inode)), d, []);
            Follower.Poll(st, d, []) == Follower.PollResult(r.state, drained + r.emitted)
  {
    hide Parse, Follower.DrainRotated;
    var p := Parse([] + (f.bytes + [])[0..]);
    assert drained + [] == drained;
    assert [] + p.entries == p.entries;
  }

  lemma HistoryFits(w: World, a: nat, b: nat)
    requires TailInv(w) && a <= b <= |w.history|
    ensures Fits(w.history[a..b])
  {
    hide Tailer.Conserves;
  }

  // ---- every run ----

  lemma InvStep(w: World, a: Action)
    requires Inv(w) && Allowed(w, a)
    ensures Inv(Apply(w, a))
  {
    hide TailInv, FileInv, Absent, Reading, Behind, Apply;
    TailStep(w, a);
    FileStep(w, a);
    match a
    case RawWrite(_, _) => FollowQuiet(w, a);
    case Drain(_, _, _) => FollowQuiet(w, a);
    case Open => FollowWrite(w, a);
    case Write(_) => FollowWrite(w, a);
    case Rename => FollowRename(w);
    case Poll => FollowPoll(w);
  }

  /** A run: each world follows from the one before by an allowed step. */
  ghost predicate Run(ws: seq<World>, acts: seq<Action>) {
    && |ws| == |acts| + 1 && Initial(ws[0])
    && forall i | 0 <= i < |acts| :: Allowed(ws[i], acts[i]) && ws[i + 1] == Apply(ws[i], acts[i])
  }

  lemma InitialInv(w: World)
    requires Initial(w)
    ensures Inv(w)
  {
    hide EncodeAll;
    assert Own(w) == [];
    forall s: Stream ensures Tailer.Conserves(w.tail.At(s), Payloads(Own(w), s), w.raw.At(s)) {
      assert Concat([]) == [] && w.raw.At(s)[..0] == [];
    }
    assert CurBytes(w.dir) + [] == CurBytes(w.dir);
  }

  lemma FirstProcess()
    ensures Initial(INIT)
  {
    assert INIT.history[0..] == [];
  }

  lemma {:induction false} RunInv(ws: seq<World>, acts: seq<Action>)
    requires Run(ws, acts)
    ensures Inv(ws[|acts|])
    decreases |acts|
  {
    hide Inv, Enabled, HandoverReady, Apply;
    if |acts| == 0 {
      InitialInv(ws[0]);
    } else {
      var n := |acts| - 1;
      assert Run(ws[..n + 1], acts[..n]);
      RunInv(ws[..n + 1], acts[..n]);
      assert Allowed(ws[n], acts[n]) && ws[n + 1] == Apply(ws[n], acts[n]);
      InvStep(ws[n], acts[n]);
    }
  }

  /** End to end, over every interleaving: what the follower has delivered is an unbroken stretch of
      the records produced, from the record it joined at, each exactly once and in order. */
  lemma DeliveredIsExact(ws: seq<World>, acts: seq<Action>)
    requires Run(ws, acts)
    ensures var w := ws[|acts|];
            && (w.start.None? ==> w.delivered == [])
            && (w.start.Some? ==>
                  && w.start.value + |w.delivered| <= |w.history|
                  && w.delivered == w.history[w.start.value..w.start.value + |w.delivered|])
  {
    RunInv(ws, acts);
    InvDelivers(ws[|acts|]);
  }

  lemma InvDelivers(w: World)
    requires Inv(w)
    ensures w.start.None? ==> w.delivered == []
    ensures w.start.Some? ==>
              && w.start.value + |w.delivered| <= |w.history|
              && w.delivered == w.history[w.start.value..w.start.value + |w.delivered|]
  {
    hide EncodeAll, Parse, TailInv, Follower.Synced;
    FileInvFacts(w);
    if Reading(w) {
      var f := w.dir.slots[0].value;
      var got :| Follower.Synced(w.follow, f, got) && w.delivered == w.history[w.start.value..w.before] + got;
      assert w.history[w.before..|w.history|] == w.history[w.before..];
      assert f.bytes <= f.bytes + w.pending;
      SyncedStretch(w, f, got, w.before, |w.history|);
    } else if Behind(w) {
      var f := w.dir.slots[1].value;
      var got :| Follower.Synced(w.follow, f, got) && w.delivered == w.history[w.start.value..w.prev] + got;
      SyncedStretch(w, f, got, w.prev, w.before);
    }
  }

  /** What was read of a file that holds part of `history[a..b]` is the front of that part. */
  lemma SyncedStretch(w: World, f: File, got: seq<LogEntry>, a: nat, b: nat)
    requires TailInv(w) && w.start.Some? && w.start.value <= a <= b <= |w.history|
    requires Follower.Synced(w.follow, f, got) && f.bytes <= EncodeAll(w.history[a..b])
    requires w.delivered == w.history[w.start.value..a] + got
    ensures w.start.value + |w.delivered| <= |w.history|
    ensures w.delivered == w.history[w.start.value..w.start.value + |w.delivered|]
  {
    hide EncodeAll, Parse, TailInv;
    var h, es := w.history, w.history[a..b];
    assert f.bytes[..w.follow.pos] == EncodeAll(es)[..w.follow.pos];
    HistoryFits(w, a, b);
    ParseEncodedPrefix(es, w.follow.pos);
    assert got == es[..|got|] == h[a..a + |got|];
    assert h[w.start.value..a] + h[a..a + |got|] == h[w.start.value..a + |got|];
  }

  /** Nothing is held back: a poll that finds the file and no batch in flight has delivered every
      record produced since the follower joined. */
  lemma QuiescentPollCompletes(ws: seq<World>, acts: seq<Action>)
    requires Run(ws, acts)
    requires var w := ws[|acts|]; w.phase.Idle? && Valid(w.dir) && w.dir.slots[0].Some?
    ensures var w := Apply(ws[|acts|], Poll);
            w.start.Some? && w.start.value <= |w.history| && w.delivered == w.history[w.start.value..]
  {
    hide TailInv, FileInv, Absent, Reading, Behind;
    RunInv(ws, acts);
    FollowPoll(ws[|acts|]);
  }

  lemma {:induction false} PayloadMember(es: seq<LogEntry>, e: LogEntry)
    requires e in es
    ensures e.data in Payloads(es, e.stream)
  {
    if e != es[0] { PayloadMember(es[1..], e); }
  }

  /** Size fit, over every run: each record of this process carries at most one leftover and one read chunk;
      the decoder accepts every record whatever follows, and no cut of the stream ever trips the
      stuck-leftover guard. */
  lemma RecordsFit(ws: seq<World>, acts: seq<Action>, e: LogEntry, rest: seq<Byte>, p: nat)
    requires Run(ws, acts) && e in ws[|acts|].history && p <= |EncodeAll(ws[|acts|].history)|
    ensures var w := ws[|acts|];
            && w.inherited <= |w.history|
            && (e in Own(w) ==> |e.data| < 5 * 1024 * 1024 && Tailer.LineOrFlush(e.data))
    ensures Decode(Encode(e) + rest) == Record(e, |Encode(e)|)
    ensures !Stuck(Parse(EncodeAll(ws[|acts|].history)[..p]).rest)
  {
    hide FileInv, Absent, Reading, Behind, Decode, Encode, EncodeAll, Parse, Stuck, Payloads, Tailer.LineOrFlush;
    var w := ws[|acts|];
    RunInv(ws, acts);
    if e in Own(w) {
      PayloadMember(Own(w), e);
      assert Tailer.Conserves(w.tail.At(e.stream), Payloads(Own(w), e.stream), w.raw.At(e.stream));
      assert Tailer.GoodPayload(e.data);
    }
    DecodeEncode(e, rest);
    Follower.PrefixNeverStuck(w.history, p);
  }

  lemma {:induction false} ConcatPrefix(a: seq<LogEntry>, b: seq<LogEntry>, s: Stream)
    ensures Concat(Payloads(a, s)) <= Concat(Payloads(a + b, s))
  {
    PayloadsAppend(a, b, s);
    ConcatAppend(Payloads(a, s), Payloads(b, s));
  }

  /** The first record of this process that a follower could still get. */
  function Reach(w: World): nat
    requires w.start.Some?
  {
    if w.start.value < w.inherited then w.inherited else w.start.value
  }

  /** What the follower was delivered of this process. */
  function OwnDelivered(w: World): seq<LogEntry>
    requires w.start.Some?
  {
    var k := Reach(w) - w.start.value;
    if |w.delivered| <= k then [] else w.delivered[k..]
  }

  /** From raw bytes to delivered entries: on each stream, the data of this process's records before the
      follower joined, then the data it was delivered of this process, is a prefix of what the container
      wrote. */
  lemma DeliveredIsRawStretch(ws: seq<World>, acts: seq<Action>, s: Stream)
    requires Run(ws, acts) && ws[|acts|].start.Some?
    ensures var w := ws[|acts|];
            && w.inherited <= Reach(w) <= |w.history|
            && var missed := w.history[w.inherited..Reach(w)];
               Concat(Payloads(missed, s)) + Concat(Payloads(OwnDelivered(w), s)) <= w.raw.At(s)
  {
    hide FileInv, Absent, Reading, Behind, Payloads, OwnDelivered, Reach, Tailer.Conserves, Follower.Small;
    var w := ws[|acts|];
    RunInv(ws, acts);
    DeliveredIsExact(ws, acts);
    OwnSplits(w);
    StretchOfRaw(w, w.history[w.inherited..Reach(w)], OwnDelivered(w), s);
  }

  lemma OwnSplits(w: World)
    requires w.start.Some? && w.inherited <= |w.history| && w.start.value + |w.delivered| <= |w.history|
    requires w.delivered == w.history[w.start.value..w.start.value + |w.delivered|]
    ensures w.inherited <= Reach(w) <= |w.history|
    ensures w.history[w.inherited..Reach(w)] + OwnDelivered(w) <= Own(w)
  {
    var h, end := w.history, w.start.value + |w.delivered|;
    if w.start.value < w.inherited {
      assert h[w.inherited..Reach(w)] + OwnDelivered(w) == OwnDelivered(w);
      if end > w.inherited { SliceOfSlice(h, w.start.value, end, w.inherited); }
    } else {
      SliceOfSlice(h, w.start.value, end, w.start.value);
      Adjacent(h, w.inherited, w.start.value, end);
    }
  }

  lemma SliceOfSlice(h: seq<LogEntry>, a: nat, b: nat, c: nat)
    requires a <= c <= b <= |h|
    ensures h[a..b][c - a..] == h[c..b] && h[c..b] <= h[c..]
  {
  }

  lemma Adjacent(h: seq<LogEntry>, a: nat, b: nat, c: nat)
    requires a <= b <= c <= |h|
    ensures h[a..b] + h[b..c] == h[a..c] && h[a..c] <= h[a..]
  {
  }

  lemma StretchOfRaw(w: World, missed: seq<LogEntry>, own: seq<LogEntry>, s: Stream)
    requires TailInv(w) && missed + own <= Own(w)
    ensures Concat(Payloads(missed, s)) + Concat(Payloads(own, s)) <= w.raw.At(s)
  {
    hide Payloads, Follower.Small;
    var rest := Own(w)[|missed + own|..];
    assert Own(w) == missed + own + rest;
    PayloadsAppend(missed, own, s);
    ConcatAppend(Payloads(missed, s), Payloads(own, s));
    ConcatPrefix(missed + own, rest, s);
    Tailer.ConservesBytes(w.tail.At(s), Payloads(Own(w), s), w.raw.At(s));
    assert w.raw.At(s)[..w.tail.At(s).pos] <= w.raw.At(s);
  }

  /** A follower that joined before the first rotation has been delivered a prefix of the raw bytes. */
  lemma DeliveredIsRawPrefix(ws: seq<World>, acts: seq<Action>, s: Stream)
    requires Run(ws, acts) && ws[|acts|].start.Some? && ws[|acts|].start.value <= ws[|acts|].inherited
    ensures Concat(Payloads(OwnDelivered(ws[|acts|]), s)) <= ws[|acts|].raw.At(s)
  {
    DeliveredIsRawStretch(ws, acts, s);
    var w := ws[|acts|];
    assert w.history[w.inherited..Reach(w)] == [];
    assert Payloads([], s) == [] && Concat([]) == [];
  }
}
