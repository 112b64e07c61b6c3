/** The follower of `events.log`: incremental decoding, rotation detected by inode, and the drain of
    the rotated file. */
module Follower {
  import opened Wrappers
  import opened Bytes
  import opened Codec
  import opened EventParser
  import opened EventsDir
  import opened DecoderState

  /** Most bytes drained from the rotated file. */
  const ROTATED_DRAIN_MAX_BYTES: nat := 16 * 1024 * 1024

  /** `EventsTailState`: position and identity of the file being read, and the partial record. */
  datatype Follow = Follow(pos: nat, leftover: seq<Byte>, inode: Option<nat>)

  const START: Follow := Follow(0, [], None)

  datatype PollResult = PollResult(state: Follow, emitted: seq<LogEntry>)

  function Take(s: seq<Byte>, n: nat): seq<Byte> { if |s| > n then s[..n] else s }

  /** Records left behind in `events.log.1` when that file is the one the follower was reading. */
  function DrainRotated(slot: Option<File>, prevInode: nat, prevPos: nat): seq<LogEntry> {
    if slot.None? || slot.value.inode != prevInode || |slot.value.bytes| <= prevPos then []
    else Parse(Take(slot.value.bytes[prevPos..], ROTATED_DRAIN_MAX_BYTES)).entries
  }

  /** `poll_events_once` on values: `d` is the directory at the stat, `late` the bytes appended to
      `events.log` after the stat and before the end of the read. */
  function Poll(st: Follow, d: Dir, late: seq<Byte>): PollResult
    requires Valid(d)
  {
    match d.slots[0]
    case None => PollResult(if st.inode.None? then START else st, [])
    case Some(f) =>
      var rotated := st.inode.Some? && st.inode.value != f.inode;
      var truncated := |f.bytes| < st.pos;
      var drained := if rotated then DrainRotated(d.slots[1], st.inode.value, st.pos) else [];
      var from := if rotated || truncated then Follow(0, [], Some(f.inode)) else st.(inode := Some(f.inode));
      if |f.bytes| == from.pos then PollResult(from, drained)
      else
        var p := Parse(from.leftover + (f.bytes + late)[from.pos..]);
        PollResult(Follow(|f.bytes|, KeepLeftover(p.rest), Some(f.inode)), drained + p.entries)
  }

  /** The follower's state, updated in place by each poll. */
  class EventsFollower {
    var pos: nat
    var leftover: seq<Byte>
    var inode: Option<nat>

    constructor ()
      ensures Value() == START
    {
      pos, leftover, inode := 0, [], None;
    }

    ghost function Value(): Follow
      reads this
    {
      Follow(pos, leftover, inode)
    }

    method PollOnce(d: Dir, late: seq<Byte>) returns (out: seq<LogEntry>)
      requires Valid(d)
      modifies this
      ensures PollResult(Value(), out) == Poll(old(Value()), d, late)
    {
      hide Parse;
      out := [];
      if d.slots[0].None? {
        if inode.None? { pos, leftover := 0, []; }
        return;
      }
      var f := d.slots[0].value;
      var len := |f.bytes|;
      if inode.Some? && inode.value != f.inode {
        out := DrainRemainder(d.slots[1], inode.value, pos);
        pos, leftover := 0, [];
      } else if len < pos {
        pos, leftover := 0, [];
      }
      inode := Some(f.inode);
      if len == pos { return; }
      var combined := leftover + (f.bytes + late)[pos..];
      leftover := [];
      pos := len;
      var entries, cursor := DecodeLoop(combined);
      out := out + entries;
      var remainder := combined[cursor..];
      leftover := if |remainder| > MAX_RECORD_BYTES && NEWLINE !in remainder then [] else remainder;
    }
  }

  method DrainRemainder(slot: Option<File>, prevInode: nat, prevPos: nat) returns (out: seq<LogEntry>)
    ensures out == DrainRotated(slot, prevInode, prevPos)
    ensures out != [] ==> slot.Some? && slot.value.inode == prevInode && |slot.value.bytes| > prevPos
  {
    hide Parse;
    if slot.None? || slot.value.inode != prevInode { return []; }
    var end := |slot.value.bytes|;
    if end <= prevPos { return []; }
    var want := if end - prevPos < ROTATED_DRAIN_MAX_BYTES then end - prevPos else ROTATED_DRAIN_MAX_BYTES;
    assert slot.value.bytes[prevPos..prevPos + want] == Take(slot.value.bytes[prevPos..], ROTATED_DRAIN_MAX_BYTES);
    out := ParseEventsFile(slot.value.bytes[prevPos..prevPos + want]);
  }

  /** The decode loop of a poll, which also reports where it stopped. */
  method DecodeLoop(bytes: seq<Byte>) returns (out: seq<LogEntry>, cursor: nat)
    ensures cursor <= |bytes|
    ensures Parse(bytes) == Parsed(out, bytes[cursor..])
  {
    hide Decode, Parse, IndexOf;
    out := [];
    cursor := 0;
    assert bytes[0..] == bytes;
    while cursor < |bytes|
      invariant 0 <= cursor <= |bytes|
      invariant Parse(bytes) == Parsed(out + Parse(bytes[cursor..]).entries, Parse(bytes[cursor..]).rest)
      decreases |bytes| - cursor
    {
      var view := bytes[cursor..];
      ParseTurn(bytes, cursor);
      match Decode(view) {
        case Record(entry, consumed) =>
          assert out + ([entry] + Parse(bytes[cursor + consumed..]).entries)
              == (out + [entry]) + Parse(bytes[cursor + consumed..]).entries;
          cursor := cursor + consumed;
          out := out + [entry];
        case NeedMore =>
          assert out + [] == out;
          return;
        case Malformed =>
          match ResyncOffset(view) {
            case Some(skip) => cursor := cursor + skip;
            case None => assert out + [] == out; return;
          }
      }
    }
    ParseTurn(bytes, |bytes|);
    EmptyNeedsMore();
    assert out + [] == out;
  }

  // ---- reading one growing file ----

  /** The follower has read `f` up to its position and delivered the whole records found there. */
  ghost predicate Synced(st: Follow, f: File, got: seq<LogEntry>) {
    && st.inode == Some(f.inode)
    && st.pos <= |f.bytes|
    && Parse(f.bytes[..st.pos]) == Parsed(got, st.leftover)
  }

  /** Records small enough that a partial one is never taken for garbage. */
  predicate Small(es: seq<LogEntry>) {
    forall e | e in es :: |e.data| + MAX_HEADER_BYTES + 1 <= MAX_RECORD_BYTES
  }

  lemma EncodedSize(e: LogEntry)
    requires |e.data| <= U64_MAX
    ensures |Encode(e)| <= |e.data| + MAX_HEADER_BYTES + 1
  {
    HeaderBytes(e.ms, e.stream, |e.data|);
  }

  lemma PrefixNeverStuck(es: seq<LogEntry>, p: nat)
    requires Small(es) && p <= |EncodeAll(es)|
    ensures !Stuck(Parse(EncodeAll(es)[..p]).rest)
  {
    hide Parse, EncodeAll, Encode;
    ParseEncodedPrefix(es, p);
    var k := WholeRecords(es, p);
    if k < |es| { EncodedSize(es[k]); }
  }

  /** A poll of the file it is synced to delivers exactly the records completed since, however the
      appends were cut; a stream of small records never trips the guard. */
  lemma PollSynced(st: Follow, d: Dir, f: File, got: seq<LogEntry>, es: seq<LogEntry>)
    requires Valid(d) && d.slots[0] == Some(f) && Synced(st, f, got)
    requires Small(es) && f.bytes <= EncodeAll(es)
    ensures var r := Poll(st, d, []);
            && Synced(r.state, f, got + r.emitted)
            && r.state.pos == |f.bytes|
            && got + r.emitted == es[..WholeRecords(es, |f.bytes|)]
  {
    hide Parse, EncodeAll, KeepLeftover, Stuck;
    var r := Poll(st, d, []);
    var n := |f.bytes|;
    assert f.bytes == EncodeAll(es)[..n];
    assert f.bytes[..n] == f.bytes;
    ParseEncodedPrefix(es, n);
    assert got + [] == got;
    if n != st.pos {
      assert f.bytes + [] == f.bytes;
      assert f.bytes == f.bytes[..st.pos] + f.bytes[st.pos..];
      ParseIncremental(f.bytes[..st.pos], f.bytes[st.pos..]);
      PrefixNeverStuck(es, n);
      KeptWhenNotStuck(Parse(f.bytes).rest);
      assert [] + Parse(st.leftover + f.bytes[st.pos..]).entries == Parse(st.leftover + f.bytes[st.pos..]).entries;
    }
  }

  lemma KeptWhenNotStuck(rest: seq<Byte>)
    requires !Stuck(rest)
    ensures KeepLeftover(rest) == rest
  {
  }

  /** A truncated file is read again from its start: the partial record is dropped, nothing is drained,
      and what follows is as if the follower had just joined. */
  lemma TruncationRestarts(st: Follow, d: Dir, f: File)
    requires Valid(d) && d.slots[0] == Some(f) && st.inode == Some(f.inode) && |f.bytes| < st.pos
    ensures Poll(st, d, []) == Poll(START, d, [])
    ensures Poll(st, d, []).emitted == Parse(f.bytes).entries
  {
    hide Parse;
    EmptyParse();
    assert [] + (f.bytes + [])[0..] == f.bytes;
    assert [] + Parse(f.bytes).entries == Parse(f.bytes).entries;
    if |f.bytes| == 0 { assert f.bytes == []; }
  }

  lemma EmptyParse()
    ensures Parse([]) == Parsed([], [])
  {
    EmptyNeedsMore();
  }

  // ---- rotation handover ----

  /** Exactly when draining `.1` from the old position completes the old file: the follower must
      hold no partial record, and what is left must fit the drain cap. The other half is a counting
      argument: a parse cannot yield records whose encodings exceed the bytes it was given. */
  lemma HandoverIff(st: Follow, f: File, got: seq<LogEntry>, es: seq<LogEntry>)
    requires Synced(st, f, got) && Fits(es) && f.bytes == EncodeAll(es)
    ensures got + DrainRotated(Some(f), f.inode, st.pos) == es
       <==> (st.leftover == [] && |f.bytes| - st.pos <= 16 * 1024 * 1024)
  {
    hide Parse, EncodeAll, Take;
    var seen, tail := f.bytes[..st.pos], f.bytes[st.pos..];
    assert f.bytes == seen + tail;
    var drained := DrainRotated(Some(f), f.inode, st.pos);
    ParseEncodeAll(es);
    ParseIncremental(seen, tail);
    TakeFacts(tail, ROTATED_DRAIN_MAX_BYTES);
    if st.leftover == [] && |tail| <= ROTATED_DRAIN_MAX_BYTES {
      assert [] + tail == tail;
      if tail == [] { assert seen == f.bytes; assert got + [] == got; }
    } else {
      ParseBudget(seen);
      ParseBudget(Take(tail, ROTATED_DRAIN_MAX_BYTES));
      EncodeAllAppend(got, drained);
      assert |EncodeAll([])| == 0 by { EncodeAllEmptyIff([]); }
      assert |EncodeAll(got + drained)| < |EncodeAll(es)|;
    }
  }

  /** A remainder within the rotation threshold is always drained whole, the cap being above it. */
  lemma ThresholdFitsDrain(st: Follow, f: File, got: seq<LogEntry>, es: seq<LogEntry>)
    requires Synced(st, f, got) && Fits(es) && f.bytes == EncodeAll(es)
    requires st.leftover == [] && |f.bytes| - st.pos <= EVENTS_ROTATE_BYTES
    ensures got + DrainRotated(Some(f), f.inode, st.pos) == es
  {
    hide Parse, EncodeAll, DrainRotated, Synced;
    HandoverIff(st, f, got, es);
  }

  /** From a record boundary the drain yields exactly the records that are whole within the cap. */
  lemma DrainedUpToCap(st: Follow, f: File, got: seq<LogEntry>, es: seq<LogEntry>)
    requires Synced(st, f, got) && Fits(es) && f.bytes == EncodeAll(es) && st.leftover == []
    ensures var end := if |f.bytes| - st.pos > 16 * 1024 * 1024 then st.pos + 16 * 1024 * 1024 else |f.bytes|;
            got + DrainRotated(Some(f), f.inode, st.pos) == es[..WholeRecords(es, end)]
  {
    hide Parse, EncodeAll;
    var cap := 16 * 1024 * 1024;
    var end := if |f.bytes| - st.pos > cap then st.pos + cap else |f.bytes|;
    var seen, taken := f.bytes[..st.pos], f.bytes[st.pos..end];
    assert f.bytes[..end] == seen + taken;
    assert Take(f.bytes[st.pos..], ROTATED_DRAIN_MAX_BYTES) == taken;
    ParseIncremental(seen, taken);
    assert [] + taken == taken;
    ParseEncodedPrefix(es, end);
    if |f.bytes| <= st.pos {
      assert taken == [];
      EmptyParse();
    }
  }

  /** After a second rotation `.1` is the file in between, whose inode is not the follower's, and nothing is
      drained: what the next poll delivers is complete if and only if the old file had been read to its
      end and the file in between held nothing. */
  lemma MissedRotationIff(st: Follow, d: Dir, f: File, got: seq<LogEntry>,
                          es: seq<LogEntry>, between: seq<LogEntry>, current: seq<LogEntry>)
    requires Synced(st, f, got) && Fits(es) && f.bytes == EncodeAll(es)
    requires Valid(d) && d.slots[0].Some? && d.slots[1].Some?
    requires d.slots[1].value.inode != f.inode && d.slots[1].value.bytes == EncodeAll(between)
    requires d.slots[0].value.inode != f.inode && d.slots[0].value.bytes == EncodeAll(current) && Fits(current)
    ensures got + Poll(st, d, []).emitted == es + between + current <==> (st.pos == |f.bytes| && between == [])
  {
    hide Parse, EncodeAll, KeepLeftover, Synced;
    assert Poll(st, d, []).emitted == current by { PollAfterRotations(st, d, f, got, current); }
    CancelBack(got, es + between, current);
    EncodeAllEmptyIff(between);
    EncodeAllAppend(es, between);
    SyncedBudget(st, f, got);
    if st.pos == |f.bytes| && between == [] {
      assert f.bytes[..st.pos] == f.bytes;
      SyncedParse(st, f, got);
      ParseEncodeAll(es);
      assert es + between == es;
    }
  }

  lemma PollAfterRotations(st: Follow, d: Dir, f: File, got: seq<LogEntry>, current: seq<LogEntry>)
    requires Synced(st, f, got) && Valid(d) && d.slots[0].Some? && d.slots[0].value.inode != f.inode
    requires d.slots[1].Some? && d.slots[1].value.inode != f.inode
    requires d.slots[0].value.bytes == EncodeAll(current) && Fits(current)
    ensures Poll(st, d, []).emitted == current
  {
    hide Parse, EncodeAll, KeepLeftover;
    var bytes := EncodeAll(current);
    EncodeAllEmptyIff(current);
    assert [] + (bytes + [])[0..] == bytes;
    ParseEncodeAll(current);
    assert [] + current == current;
  }

  lemma SyncedBudget(st: Follow, f: File, got: seq<LogEntry>)
    requires Synced(st, f, got)
    ensures |EncodeAll(got)| + |st.leftover| <= st.pos <= |f.bytes|
  {
    hide Parse, EncodeAll;
    ParseBudget(f.bytes[..st.pos]);
  }

  lemma SyncedParse(st: Follow, f: File, got: seq<LogEntry>)
    requires Synced(st, f, got)
    ensures st.pos <= |f.bytes| && Parse(f.bytes[..st.pos]).entries == got
  {
    hide Parse;
  }

  lemma CancelBack(a: seq<LogEntry>, b: seq<LogEntry>, c: seq<LogEntry>)
    ensures a + c == b + c <==> a == b
  {
    if a + c == b + c { assert a == (a + c)[..|a|] == (b + c)[..|b|] == b; }
  }

  lemma TakeFacts(s: seq<Byte>, n: nat)
    ensures |Take(s, n)| <= |s| && |Take(s, n)| <= n && (|s| <= n ==> Take(s, n) == s)
  {
  }

  // ---- the stat/read window ----

  /** A poll during which `late` is appended: `read` was read before and left `leftover`, `unread` is there
      at the stat, `late` comes after the stat and before the end of the read. */
  datatype Window = Window(inode: nat, next: nat, older: seq<Option<File>>,
                           read: seq<Byte>, leftover: seq<Byte>, unread: seq<Byte>, late: seq<Byte>)

  predicate ValidWindow(w: Window) { |w.older| == MAX_ROTATED_FILES }

  function AtStat(w: Window): Dir { Dir([Some(File(w.inode, w.read + w.unread))] + w.older, w.next) }

  function Afterwards(w: Window, later: seq<Byte>): Dir {
    Dir([Some(File(w.inode, w.read + w.unread + w.late + later))] + w.older, w.next)
  }

  /** What that poll and the next, undisturbed one deliver once `later` has been appended too. */
  function TwoPolls(w: Window, later: seq<Byte>): seq<LogEntry>
    requires ValidWindow(w)
  {
    var p := Poll(Follow(|w.read|, w.leftover, Some(w.inode)), AtStat(w), w.late);
    p.emitted + Poll(p.state, Afterwards(w, later), []).emitted
  }

  /** What the disturbed poll reads. */
  function Taken(w: Window): seq<Byte> { w.leftover + w.unread + w.late }

  /** For any bytes at all: the position is set from the stat, so the late bytes are read twice, and the two
      polls deliver the parse of the stream with `late` in it twice. */
  lemma LateBytesTwice(w: Window, later: seq<Byte>)
    requires ValidWindow(w) && w.unread != [] && !Stuck(Parse(Taken(w)).rest)
    ensures TwoPolls(w, later) == Parse(Taken(w) + w.late + later).entries
  {
    hide Parse, Stuck, KeepLeftover;
    var x, more := Taken(w), w.late + later;
    assert w.leftover + (w.read + w.unread + w.late)[|w.read|..] == x;
    KeptWhenNotStuck(Parse(x).rest);
    ParseIncremental(x, more);
    assert x + w.late + later == x + more;
    var f := w.read + w.unread + w.late + later;
    assert (f + [])[|w.read + w.unread|..] == more;
    assert [] + Parse(x).entries == Parse(x).entries;
    if more == [] {
      RestWaits(x);
      ParseWaiting(Parse(x).rest);
      assert Parse(x).rest + more == Parse(x).rest;
    } else {
      assert [] + Parse(Parse(x).rest + more).entries == Parse(Parse(x).rest + more).entries;
    }
  }

  /** When the guard fires at the first poll, what it held is gone and the late bytes are read once more
      after nothing. */
  lemma LateAfterDiscard(w: Window, later: seq<Byte>)
    requires ValidWindow(w) && w.unread != [] && Stuck(Parse(Taken(w)).rest)
    ensures TwoPolls(w, later) == Parse(Taken(w)).entries + Parse(w.late + later).entries
  {
    hide Parse, Stuck;
    var x, more := Taken(w), w.late + later;
    assert w.leftover + (w.read + w.unread + w.late)[|w.read|..] == x;
    assert (w.read + w.unread + w.late + later + [])[|w.read + w.unread|..] == more;
    assert [] + Parse(x).entries == Parse(x).entries;
    assert [] + more == more && [] + Parse(more).entries == Parse(more).entries;
    EmptyParse();
  }

  /** How a follower in state `st` comes to the window: it joins, it notices a rotation or a truncation, all
      three of which start the file over with nothing in hand, or it carries on where it was. */
  predicate ComesTo(st: Follow, w: Window) {
    || (st == START && w.read == [] && w.leftover == [])
    || (st.inode.Some? && st.inode != Some(w.inode) && w.read == [] && w.leftover == [])
    || (st.inode == Some(w.inode) && |w.unread| < st.pos && w.read == [] && w.leftover == [])
    || st == Follow(|w.read|, w.leftover, Some(w.inode))
  }

  /** What a rotation leaves behind in `events.log.1`. */
  function LeftBehind(st: Follow, w: Window): seq<LogEntry>
    requires ValidWindow(w)
  {
    if st.inode.Some? && st.inode != Some(w.inode) then DrainRotated(w.older[0], st.inode.value, st.pos) else []
  }

  /** The window for every way of coming to it: whether the follower joins, notices a rotation or a
      truncation, or carries on, the poll reads to the end of the file, the late bytes included, sets its
      position from the stat, and the next poll reads the late bytes again. */
  lemma LateFromAnywhere(st: Follow, w: Window, later: seq<Byte>)
    requires ValidWindow(w) && ComesTo(st, w) && w.unread != [] && !Stuck(Parse(Taken(w)).rest)
    ensures var first := Poll(st, AtStat(w), w.late);
            var second := Poll(first.state, Afterwards(w, later), []);
            && first.state == Follow(|w.read + w.unread|, Parse(Taken(w)).rest, Some(w.inode))
            && first.emitted == LeftBehind(st, w) + Parse(Taken(w)).entries
            && first.emitted + second.emitted == LeftBehind(st, w) + Parse(Taken(w) + w.late + later).entries
  {
    hide Parse, Stuck, KeepLeftover, DrainRotated;
    var x := Taken(w);
    assert w.leftover + (w.read + w.unread + w.late)[|w.read|..] == x;
    KeptWhenNotStuck(Parse(x).rest);
    LateBytesTwice(w, later);
    var first := Poll(st, AtStat(w), w.late);
    var carried := Poll(Follow(|w.read|, w.leftover, Some(w.inode)), AtStat(w), w.late);
    assert [] + Parse(x).entries == Parse(x).entries;
    assert first.state == carried.state && first.emitted == LeftBehind(st, w) + carried.emitted;
    var second := Poll(first.state, Afterwards(w, later), []);
    assert (LeftBehind(st, w) + carried.emitted) + second.emitted
        == LeftBehind(st, w) + (carried.emitted + second.emitted);
  }

  /** A poll that finds nothing new at its stat reads nothing, and late bytes do no harm. */
  lemma LateUnnoticed(w: Window, later: seq<Byte>)
    requires ValidWindow(w) && w.unread == [] && NextStep(w.leftover).Wait?
    ensures TwoPolls(w, later) == Parse(w.leftover + w.late + later).entries
  {
    hide Parse, NextStep, KeepLeftover;
    var more := w.late + later;
    assert w.read + w.unread == w.read;
    assert (w.read + w.unread + w.late + later + [])[|w.read|..] == more;
    assert w.leftover + w.late + later == w.leftover + more;
    assert [] + Parse(w.leftover + more).entries == Parse(w.leftover + more).entries;
    if more == [] {
      ParseWaiting(w.leftover);
      assert w.leftover + more == w.leftover;
    }
  }

  /** Exactly which late bytes do no harm, however the stream goes on: those that, read a second time after
      what the poll left over, yield nothing and leave the decoder in the state it was in. */
  lemma LateHarmlessIff(w: Window)
    requires ValidWindow(w) && w.unread != [] && !Stuck(Parse(Taken(w)).rest)
    ensures var left := Parse(Taken(w)).rest;
            var again := Parse(left + w.late);
            (forall later: seq<Byte> :: TwoPolls(w, later) == Parse(Taken(w) + later).entries)
            <==> (again.entries == [] && StateOf(again.rest) == StateOf(left))
  {
    hide Parse, Stuck, TwoPolls, NextStep, StateOf;
    var left := Parse(Taken(w)).rest;
    var again := Parse(left + w.late);
    RestWaits(Taken(w));
    RestWaits(left + w.late);
    forall later: seq<Byte>
      ensures TwoPolls(w, later) == Parse(Taken(w) + later).entries
         <==> again.entries + Parse(again.rest + later).entries == Parse(left + later).entries
    {
      RereadCancels(w, later);
    }
    SameStateIff(again.rest, left);
    if forall later: seq<Byte> :: TwoPolls(w, later) == Parse(Taken(w) + later).entries {
      assert TwoPolls(w, []) == Parse(Taken(w) + []).entries;
      ParseWaiting(left);
      assert left + [] == left;
      assert again.entries == [];
      forall later: seq<Byte> ensures Parse(again.rest + later).entries == Parse(left + later).entries {
        assert TwoPolls(w, later) == Parse(Taken(w) + later).entries;
        assert [] + Parse(again.rest + later).entries == Parse(again.rest + later).entries;
      }
    } else if again.entries == [] && StateOf(again.rest) == StateOf(left) {
      forall later: seq<Byte> ensures TwoPolls(w, later) == Parse(Taken(w) + later).entries {
        assert Parse(again.rest + later).entries == Parse(left + later).entries;
        assert [] + Parse(again.rest + later).entries == Parse(again.rest + later).entries;
      }
    }
  }

  lemma RereadCancels(w: Window, later: seq<Byte>)
    requires ValidWindow(w) && w.unread != [] && !Stuck(Parse(Taken(w)).rest)
    ensures var left := Parse(Taken(w)).rest;
            var again := Parse(left + w.late);
            TwoPolls(w, later) == Parse(Taken(w) + later).entries
            <==> again.entries + Parse(again.rest + later).entries == Parse(left + later).entries
  {
    hide Parse, Stuck, TwoPolls, Taken;
    var x := Taken(w);
    var left, seen := Parse(x).rest, Parse(x).entries;
    LateBytesTwice(w, later);
    assert x + w.late + later == x + (w.late + later);
    ParseIncremental(x, w.late + later);
    ParseIncremental(x, later);
    ParseIncremental(left + w.late, later);
    assert left + w.late + later == left + (w.late + later);
    CancelFront(seen, Parse(left + (w.late + later)).entries, Parse(left + later).entries);
  }

  lemma CancelFront(a: seq<LogEntry>, b: seq<LogEntry>, c: seq<LogEntry>)
    ensures a + b == a + c <==> b == c
  {
    if a + b == a + c { assert b == (a + b)[|a|..] == (a + c)[|a|..] == c; }
  }

  /** A late piece that ends inside a payload loses its record: for every record without a newline in its
      data and every cut after the header, the next poll misreads the line and skips it. */
  lemma LatePieceLosesRecord(w: Window, us: seq<LogEntry>, e: LogEntry, cut: nat, more: seq<LogEntry>)
    requires ValidWindow(w) && w.leftover == [] && us != [] && w.unread == EncodeAll(us)
    requires Small([e]) && Fits(us + more) && NEWLINE !in e.data
    requires |Header(e.ms, e.stream, |e.data|)| <= cut < |Encode(e)| && w.late == Encode(e)[..cut]
    ensures TwoPolls(w, Encode(e)[cut..] + EncodeAll(more)) == us + more
    ensures Parse(Taken(w) + (Encode(e)[cut..] + EncodeAll(more))).entries == us + [e] + more
  {
    hide Parse, EncodeAll, Encode, Stuck, TwoPolls, Header, Decode;
    var later, s := Encode(e)[cut..] + EncodeAll(more), EncodeAll(us);
    assert Small([e]) ==> |e.data| <= MAX_RECORD_BYTES by { assert e in [e]; }
    EncodeAllEmptyIff(us);
    assert Taken(w) == s + w.late;
    ParseAfterList(us, w.late);
    ParseWaiting(w.late) by { StrictPrefixWaits(e, cut); }
    EncodedSize(e);
    ShortIsNotStuck(w.late);
    LateBytesTwice(w, later);
    assert Encode(e)[..cut] + Encode(e)[cut..] == Encode(e);
    assert Taken(w) + w.late + later == s + (w.late + Encode(e) + EncodeAll(more));
    ParseAfterList(us, w.late + Encode(e) + EncodeAll(more));
    MisreadLine(e, cut, EncodeAll(more));
    ParseEncodeAll(more);
    assert Taken(w) + later == s + (Encode(e) + EncodeAll(more));
    ParseAfterList(us, Encode(e) + EncodeAll(more));
    ParseAfterRecord(e, EncodeAll(more));
    assert us + ([e] + more) == us + [e] + more;
  }

  lemma ShortIsNotStuck(s: seq<Byte>)
    requires |s| <= MAX_RECORD_BYTES
    ensures !Stuck(s)
  {
  }

  lemma ParseAfterList(us: seq<LogEntry>, t: seq<Byte>)
    requires Fits(us)
    ensures Parse(EncodeAll(us) + t) == Parsed(us + Parse(t).entries, Parse(t).rest)
  {
    hide Parse, EncodeAll;
    ParseEncodeAll(us);
    ParseIncremental(EncodeAll(us), t);
    assert [] + t == t;
  }

  /** A record read after part of itself: its header takes the wrong bytes for the payload, and the line goes. */
  lemma MisreadLine(e: LogEntry, cut: nat, t: seq<Byte>)
    requires |e.data| <= MAX_RECORD_BYTES && NEWLINE !in e.data
    requires |Header(e.ms, e.stream, |e.data|)| <= cut < |Encode(e)|
    ensures Parse(Encode(e)[..cut] + Encode(e) + t).entries == Parse(t).entries
  {
    hide Parse, Decode, NextLine, Header;
    var h, n := Header(e.ms, e.stream, |e.data|), |e.data|;
    HeaderBytes(e.ms, e.stream, n);
    var p := e.data[..cut - |h|];
    var x := h + p + h + e.data;
    var s := Encode(e)[..cut] + Encode(e) + t;
    assert Encode(e)[..cut] == h + p;
    assert s == x + ([NEWLINE] + t);
    assert NEWLINE !in x;
    MisreadVerdict(e, p, t);
    assert s == h + (p + h + e.data + [NEWLINE] + t);
    ParseVerdict(s);
    NextLineAfter(x, [NEWLINE] + t);
    FirstNewline(t);
  }

  lemma FirstNewline(t: seq<Byte>)
    ensures NextLine([NEWLINE] + t) == t
  {
    assert IndexOf([NEWLINE] + t, NEWLINE) == 0 by { assert ([NEWLINE] + t)[0] == NEWLINE; }
  }

  lemma MisreadVerdict(e: LogEntry, p: seq<Byte>, t: seq<Byte>)
    requires |e.data| <= MAX_RECORD_BYTES && |p| <= |e.data| && NEWLINE !in e.data
    ensures var h := Header(e.ms, e.stream, |e.data|);
            Decode(h + (p + h + e.data + [NEWLINE] + t)).Malformed?
  {
    hide DecodeHeader, Header;
    var h, n := Header(e.ms, e.stream, |e.data|), |e.data|;
    var body := p + h + e.data + [NEWLINE] + t;
    HeaderBytes(e.ms, e.stream, n);
    DecodeHeaderOfHeader(e.ms, e.stream, n, body);
    assert |h| > 0 by { HeaderNonempty(e.ms, e.stream, n); }
    assert (h + body)[|h| + n] == body[n] == (h + e.data)[n - |p|] != NEWLINE;
  }

  lemma HeaderNonempty(ms: U64, stream: Stream, len: nat)
    ensures |Header(ms, stream, len)| > 0
  {
  }

  /** Whole records landing between the stat and the end of the read are delivered a second time by the
      next poll; delivery is exact if and only if there are none. */
  lemma LateRecordsTwice(st: Follow, inode: nat, next: nat, older: seq<Option<File>>,
                         seen: seq<LogEntry>, unread: seq<LogEntry>, late: seq<LogEntry>, later: seq<LogEntry>)
    requires |older| == MAX_ROTATED_FILES && unread != [] && Fits(seen + unread + late + later)
    requires st == Follow(|EncodeAll(seen)|, [], Some(inode))
    ensures var d1 := Dir([Some(File(inode, EncodeAll(seen + unread)))] + older, next);
            var d2 := Dir([Some(File(inode, EncodeAll(seen + unread + late + later)))] + older, next);
            var p1 := Poll(st, d1, EncodeAll(late));
            var p2 := Poll(p1.state, d2, []);
            && p1.emitted + p2.emitted == unread + late + late + later
            && (p1.emitted + p2.emitted == unread + late + later <==> late == [])
  {
    hide Parse, EncodeAll, Poll;
    var s, n, l := EncodeAll(seen), EncodeAll(unread), EncodeAll(late);
    EncodeAllAppend(seen, unread);
    EncodeAllAppend(unread, late);
    EncodeAllAppend(seen + unread, late + later);
    assert seen + unread + late + later == seen + unread + (late + later);
    EncodeAllEmptyIff(unread);
    PollFromBoundary(Dir([Some(File(inode, EncodeAll(seen + unread)))] + older, next), inode, s, n, l, unread + late);
    var d2 := Dir([Some(File(inode, EncodeAll(seen + unread + late + later)))] + older, next);
    PollFromBoundary(d2, inode, s + n, EncodeAll(late + later), [], late + later);
    assert unread + late + (late + later) == unread + late + late + later;
  }

  /** A poll from a record boundary delivers the records between the boundary and the end of the read. */
  lemma PollFromBoundary(d: Dir, inode: nat, earlier: seq<Byte>, statted: seq<Byte>, late: seq<Byte>, es: seq<LogEntry>)
    requires Valid(d) && d.slots[0] == Some(File(inode, earlier + statted))
    requires Fits(es) && statted + late == EncodeAll(es) && (statted == [] ==> late == [])
    ensures Poll(Follow(|earlier|, [], Some(inode)), d, late)
         == PollResult(Follow(|earlier + statted|, [], Some(inode)), es)
  {
    hide Parse, EncodeAll;
    assert [] + (earlier + statted + late)[|earlier|..] == EncodeAll(es);
    ParseEncodeAll(es);
    assert [] + es == es;
    if statted == [] && es != [] {
      EncodeAllEmptyIff(es);
      assert false;
    }
  }
}
