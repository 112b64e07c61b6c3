/** Exactly when the follower gets everything: over every run of the pipeline, with renames at any moment,
    delivery ends up complete if and only if every rename found the follower ready for it. The half that
    speaks of loss is a counting argument on bytes. */
module Handover {
  import opened Wrappers
  import opened Bytes
  import opened Codec
  import opened EventParser
  import opened EventsDir
  import Follower
  import Tailer
  import opened Pipeline

  /** A run in which renames do not wait for the follower. */
  ghost predicate AnyRun(ws: seq<World>, acts: seq<Action>) {
    && |ws| == |acts| + 1 && Initial(ws[0]) && Filled(ws[0])
    && forall i | 0 <= i < |acts| :: Enabled(ws[i], acts[i]) && ws[i + 1] == Apply(ws[i], acts[i])
  }

  /** The step renames the follower's file away too early. */
  predicate Unready(w: World, a: Action) { a.Rename? && Valid(w.dir) && !HandoverReady(w) }

  /** Between batches `events.log`, if it is there, is not empty: so no rename moves an empty file. */
  predicate Filled(w: World) {
    Valid(w.dir) && ((w.phase.Idle? || w.phase.Deciding?) && w.dir.slots[0].Some? ==> CurBytes(w.dir) != [])
  }

  /** Bytes of the records from `a` to `b`. */
  function Size(h: seq<LogEntry>, a: nat, b: nat): nat
    requires a <= b <= |h|
  {
    |EncodeAll(h[a..b])|
  }

  /** Bytes the follower has accounted for: records delivered, and the part of one it holds. */
  function Held(w: World): nat { |EncodeAll(w.delivered)| + |w.follow.leftover| }

  function Owed(lost: bool): nat { if lost then 1 else 0 }

  /** The follower reads the current file; what was lost, if anything, is missing from the account. */
  ghost predicate OnCurrent(w: World, lost: bool)
    requires Valid(w.dir) && w.start.Some? && w.start.value <= w.before <= |w.history|
  {
    && w.dir.slots[0].Some? && w.follow.inode == Some(w.dir.slots[0].value.inode)
    && w.follow.pos <= |w.dir.slots[0].value.bytes|
    && Held(w) + Owed(lost) <= Size(w.history, w.start.value, w.before) + w.follow.pos
  }

  /** The follower's file is `events.log.1`, complete; a loss is accounted for already or cannot be helped. */
  ghost predicate OneBehind(w: World, lost: bool)
    requires Valid(w.dir) && w.start.Some? && w.start.value <= w.before <= |w.history|
  {
    && w.start.value <= w.prev <= w.before
    && w.dir.slots[1].Some?
    && var f := w.dir.slots[1].value;
       && w.follow.inode == Some(f.inode)
       && (w.dir.slots[0].Some? ==> w.dir.slots[0].value.inode != f.inode)
       && |f.bytes| == Size(w.history, w.prev, w.before)
       && w.follow.pos <= |f.bytes|
       && Held(w) <= Size(w.history, w.start.value, w.prev) + w.follow.pos
       && (lost ==> || Held(w) < Size(w.history, w.start.value, w.prev) + w.follow.pos
                    || w.follow.leftover != []
                    || |f.bytes| - w.follow.pos > Follower.ROTATED_DRAIN_MAX_BYTES)
  }

  /** The follower's file is out of its sight, and a whole file went by unread. */
  ghost predicate FarBehind(w: World)
    requires Valid(w.dir) && w.start.Some? && w.start.value <= w.before <= |w.history|
  {
    && (w.dir.slots[0].Some? ==> w.follow.inode != Some(w.dir.slots[0].value.inode))
    && (w.dir.slots[1].Some? ==> w.follow.inode != Some(w.dir.slots[1].value.inode))
    && Held(w) < Size(w.history, w.start.value, w.before)
  }

  ghost predicate Ledger(w: World, lost: bool) {
    && Valid(w.dir) && w.before <= |w.history|
    && if w.follow.inode.None? then w.follow == Follower.START && w.delivered == [] && w.start.None? && !lost
       else && w.start.Some? && w.start.value <= w.before
            && (w.phase.Reopening? || w.dir.slots[0].Some?)
            && (OnCurrent(w, lost) || OneBehind(w, lost) || FarBehind(w))
  }

  // ---- sizes ----

  lemma SizeSplits(h: seq<LogEntry>, a: nat, b: nat, c: nat)
    requires a <= b <= c <= |h|
    ensures Size(h, a, c) == Size(h, a, b) + Size(h, b, c)
    ensures b < c ==> Size(h, b, c) > 0
  {
    hide EncodeAll;
    assert h[a..b] + h[b..c] == h[a..c];
    EncodeAllAppend(h[a..b], h[b..c]);
    EncodeAllEmptyIff(h[b..c]);
  }

  lemma SizeStable(h: seq<LogEntry>, es: seq<LogEntry>, a: nat, b: nat)
    requires a <= b <= |h|
    ensures Size(h + es, a, b) == Size(h, a, b)
  {
    assert (h + es)[a..b] == h[a..b];
  }

  // ---- polls ----

  /** A poll of the file being read accounts for no more than it reads. */
  lemma PollSameBudget(st: Follower.Follow, d: Dir, f: File)
    requires Valid(d) && d.slots[0] == Some(f) && st.inode == Some(f.inode) && st.pos <= |f.bytes|
    ensures var r := Follower.Poll(st, d, []);
            && r.state.inode == Some(f.inode) && r.state.pos == |f.bytes|
            && |EncodeAll(r.emitted)| + |r.state.leftover| + st.pos <= |st.leftover| + |f.bytes|
  {
    hide Parse, EncodeAll;
    EncodeAllEmptyIff([]);
    if |f.bytes| != st.pos {
      var bytes := st.leftover + (f.bytes + [])[st.pos..];
      ParseBudget(bytes);
      assert [] + Parse(bytes).entries == Parse(bytes).entries;
    }
  }

  /** A poll that notices a rotation drains what it can and reads the new file from its start. */
  lemma PollNewBudget(st: Follower.Follow, d: Dir, f: File)
    requires Valid(d) && d.slots[0] == Some(f) && st.inode.Some? && st.inode.value != f.inode
    ensures var r := Follower.Poll(st, d, []);
            var drained := Follower.DrainRotated(d.slots[1], st.inode.value, st.pos);
            && r.state.inode == Some(f.inode) && r.state.pos == |f.bytes|
            && |EncodeAll(r.emitted)| + |r.state.leftover| <= |EncodeAll(drained)| + |f.bytes|
  {
    hide Parse, EncodeAll, Follower.DrainRotated;
    EncodeAllEmptyIff([]);
    var drained := Follower.DrainRotated(d.slots[1], st.inode.value, st.pos);
    if |f.bytes| != 0 {
      var bytes := [] + (f.bytes + [])[0..];
      ParseBudget(bytes);
      EncodeAllAppend(drained, Parse(bytes).entries);
    }
  }

  lemma DrainBudget(f: File, pos: nat)
    requires pos <= |f.bytes|
    ensures var drained := Follower.DrainRotated(Some(f), f.inode, pos);
            && |EncodeAll(drained)| <= |f.bytes| - pos
            && |EncodeAll(drained)| <= Follower.ROTATED_DRAIN_MAX_BYTES
  {
    hide Parse, EncodeAll;
    EncodeAllEmptyIff([]);
    ParseBudget(Follower.Take(f.bytes[pos..], Follower.ROTATED_DRAIN_MAX_BYTES));
  }

  /** What a poll adds to what was delivered. */
  lemma PollDelivers(w: World)
    requires Valid(w.dir)
    ensures var r := Follower.Poll(w.follow, w.dir, []);
            && Apply(w, Poll).follow == r.state
            && |EncodeAll(Apply(w, Poll).delivered)| == |EncodeAll(w.delivered)| + |EncodeAll(r.emitted)|
  {
    hide EncodeAll, Follower.Poll;
    EncodeAllAppend(w.delivered, Follower.Poll(w.follow, w.dir, []).emitted);
  }

  lemma LedgerPoll(w: World, lost: bool)
    requires Ledger(w, lost)
    ensures Ledger(Apply(w, Poll), lost)
    ensures w.dir.slots[0].Some? ==>
              var w' := Apply(w, Poll);
              && w'.start.Some? && OnCurrent(w', lost)
              && w'.follow.pos == |w.dir.slots[0].value.bytes|
  {
    hide EncodeAll, Follower.Poll, Follower.DrainRotated;
    PollDelivers(w);
    if w.dir.slots[0].None? {
      PollInGap(w);
    } else {
      var f := w.dir.slots[0].value;
      if w.follow.inode.None? {
        JoinBudget(w.dir, f);
        assert w.history[w.before..w.before] == [];
        EncodeAllEmptyIff([]);
      } else if w.follow.inode == Some(f.inode) {
        PollSameBudget(w.follow, w.dir, f);
      } else {
        PollNewBudget(w.follow, w.dir, f);
        if OneBehind(w, lost) {
          DrainBudget(w.dir.slots[1].value, w.follow.pos);
          SizeSplits(w.history, w.start.value, w.prev, w.before);
        } else {
          NothingDrained(w.dir.slots[1], w.follow.inode.value, w.follow.pos);
        }
      }
    }
  }

  lemma NothingDrained(slot: Option<File>, inode: nat, pos: nat)
    requires slot.Some? ==> slot.value.inode != inode
    ensures |EncodeAll(Follower.DrainRotated(slot, inode, pos))| == 0
  {
    hide Parse;
  }

  lemma PollInGap(w: World)
    requires Valid(w.dir) && w.dir.slots[0].None? && (w.follow.inode.None? ==> w.follow == Follower.START)
    ensures Apply(w, Poll) == w
  {
    hide Parse;
    assert w.delivered + [] == w.delivered;
  }

  lemma JoinBudget(d: Dir, f: File)
    requires Valid(d) && d.slots[0] == Some(f)
    ensures var r := Follower.Poll(Follower.START, d, []);
            && r.state.inode == Some(f.inode) && r.state.pos == |f.bytes|
            && |EncodeAll(r.emitted)| + |r.state.leftover| <= |f.bytes|
  {
    hide EncodeAll, Follower.Poll;
    PollAsJoining(d, f);
    PollSameBudget(Follower.Follow(0, [], Some(f.inode)), d, f);
  }

  // ---- the other steps ----

  lemma LedgerQuiet(w: World, a: Action, lost: bool)
    requires Ledger(w, lost) && FileInv(w) && Enabled(w, a) && (a.RawWrite? || a.Drain?)
    ensures Ledger(Apply(w, a), lost)
  {
    hide EncodeAll, Tailer.Pass, Size;
    var w' := Apply(w, a);
    var es := w'.history[|w.history|..];
    assert w'.history == w.history + es;
    if w.start.Some? {
      SizeStable(w.history, es, w.start.value, w.before);
      if w.start.value <= w.prev <= w.before {
        SizeStable(w.history, es, w.start.value, w.prev);
        SizeStable(w.history, es, w.prev, w.before);
      }
    }
  }

  lemma LedgerWrite(w: World, a: Action, lost: bool)
    requires Ledger(w, lost) && FileInv(w) && Enabled(w, a) && (a.Open? || a.Write?)
    ensures Ledger(Apply(w, a), lost)
  {
    hide EncodeAll, Size, Held;
    HeldDepends(w, Apply(w, a));
  }

  lemma LedgerRename(w: World, lost: bool)
    requires Ledger(w, lost) && FileInv(w) && Filled(w) && Enabled(w, Rename)
    ensures Ledger(Apply(w, Rename), lost || !HandoverReady(w))
  {
    hide EncodeAll, Size, Held;
    if w.follow.inode.Some? {
      var mid := |w.history| - w.batch;
      RenamedFile(w);
      SizeSplits(w.history, w.start.value, w.before, mid);
      if OneBehind(w, lost) { SizeSplits(w.history, w.start.value, w.prev, w.before); }
      HeldDepends(w, Apply(w, Rename));
    }
  }

  lemma HeldDepends(w: World, w': World)
    requires w'.delivered == w.delivered && w'.follow == w.follow
    ensures Held(w') == Held(w)
  {
  }

  /** The file a rename moves holds the records up to the batch in flight, and at least one. */
  lemma RenamedFile(w: World)
    requires FileInv(w) && Filled(w) && w.phase.Deciding? && w.dir.slots[0].Some?
    ensures w.before < |w.history| - w.batch
    ensures |w.dir.slots[0].value.bytes| == Size(w.history, w.before, |w.history| - w.batch)
  {
    hide EncodeAll;
    var mid := |w.history| - w.batch;
    assert w.history[w.before..] == w.history[w.before..mid] + w.history[mid..];
    EncodeAllAppend(w.history[w.before..mid], w.history[mid..]);
    EncodeAllEmptyIff(w.history[w.before..mid]);
  }

  lemma FilledStep(w: World, a: Action)
    requires Filled(w) && Enabled(w, a)
    ensures Filled(Apply(w, a))
  {
    hide EncodeAll, Tailer.Pass, Follower.Poll;
  }

  lemma LedgerStep(w: World, a: Action, lost: bool)
    requires Ledger(w, lost) && FileInv(w) && Filled(w) && Enabled(w, a)
    ensures Ledger(Apply(w, a), lost || Unready(w, a))
  {
    hide Ledger, FileInv, Filled, Apply;
    match a
    case RawWrite(_, _) => LedgerQuiet(w, a, lost);
    case Drain(_, _, _) => LedgerQuiet(w, a, lost);
    case Open => LedgerWrite(w, a, lost);
    case Write(_) => LedgerWrite(w, a, lost);
    case Rename => LedgerRename(w, lost);
    case Poll => LedgerPoll(w, lost);
  }

  // ---- every run ----

  /** Some rename before step `n` came too early. */
  ghost predicate Lost(ws: seq<World>, acts: seq<Action>, n: nat)
    requires n <= |acts| < |ws|
  {
    exists i: nat :: i < n && Unready(ws[i], acts[i])
  }

  lemma {:induction false} RunLedger(ws: seq<World>, acts: seq<Action>, n: nat)
    requires AnyRun(ws, acts) && n <= |acts|
    ensures TailInv(ws[n]) && FileInv(ws[n]) && Filled(ws[n]) && Ledger(ws[n], Lost(ws, acts, n))
  {
    hide TailInv, FileInv, Filled, Apply, Ledger, Unready, Enabled;
    if n == 0 {
      InitialInv(ws[0]);
      InitialLedger(ws[0]);
      assert !Lost(ws, acts, 0);
    } else {
      var m := n - 1;
      RunLedger(ws, acts, m);
      assert Enabled(ws[m], acts[m]) && ws[n] == Apply(ws[m], acts[m]);
      TailStep(ws[m], acts[m]);
      FileStep(ws[m], acts[m]);
      FilledStep(ws[m], acts[m]);
      LedgerStep(ws[m], acts[m], Lost(ws, acts, m));
      assert Lost(ws, acts, n) <==> Lost(ws, acts, m) || Unready(ws[m], acts[m]);
    }
  }

  lemma InitialLedger(w: World)
    requires Initial(w)
    ensures Ledger(w, false)
  {
    hide EncodeAll;
  }

  /** Over every run that comes to rest with `events.log` in place, one more poll has delivered every record
      since the follower joined if and only if every rename found the follower ready: not joined, or
      reading the file being renamed with no partial record in hand and no more left than the drain cap. */
  lemma CompleteIff(ws: seq<World>, acts: seq<Action>)
    requires AnyRun(ws, acts)
    requires var w := ws[|acts|]; w.phase.Idle? && Valid(w.dir) && w.dir.slots[0].Some?
    ensures var w := Apply(ws[|acts|], Poll);
            && w.start.Some? && w.start.value <= |w.history|
            && (w.delivered == w.history[w.start.value..]
                <==> forall i | 0 <= i < |acts| && acts[i].Rename? :: Valid(ws[i].dir) && HandoverReady(ws[i]))
  {
    hide TailInv, FileInv, Ledger, Apply, HandoverReady, Enabled, Initial, Filled;
    var n := |acts|;
    RunLedger(ws, acts, n);
    if Lost(ws, acts, n) {
      LossShows(ws[n]);
    } else {
      forall i | 0 <= i < |acts| && acts[i].Rename? ensures Valid(ws[i].dir) && HandoverReady(ws[i]) {
        assert !Unready(ws[i], acts[i]);
        RunLedger(ws, acts, i);
        FileInvFacts(ws[i]);
      }
      assert Run(ws, acts);
      QuiescentPollCompletes(ws, acts);
    }
  }

  /** A loss shows in the bytes: less was delivered than was produced. */
  lemma LossShows(w: World)
    requires FileInv(w) && Ledger(w, true) && w.phase.Idle? && w.dir.slots[0].Some?
    ensures var w' := Apply(w, Poll);
            w'.start.Some? && w'.start.value <= |w'.history| && w'.delivered != w'.history[w'.start.value..]
  {
    hide EncodeAll, Follower.Poll;
    LedgerPoll(w, true);
    var w' := Apply(w, Poll);
    var h, s := w.history, w'.start.value;
    SizeSplits(h, s, w.before, |h|);
    assert h[w.before..|h|] == h[w.before..] && h[s..|h|] == h[s..];
    assert CurBytes(w.dir) + [] == CurBytes(w.dir);
  }
}
