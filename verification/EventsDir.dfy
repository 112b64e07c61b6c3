/** `events.log` with its rotated history `.1` .. `.5`: appending, rotating, and reading back. */
module EventsDir {
  import opened Wrappers
  import opened Bytes
  import opened Codec
  import opened EventParser

  /** Size past which the next batch goes to a new file. */
  const EVENTS_ROTATE_BYTES: nat := 10 * 1024 * 1024
  const MAX_ROTATED_FILES: nat := 5

  datatype File = File(inode: nat, bytes: seq<Byte>)

  /** Slot 0 is `events.log`, slot n is `events.log.n`; inodes are handed out once. */
  datatype Dir = Dir(slots: seq<Option<File>>, nextInode: nat)

  predicate Valid(d: Dir) { |d.slots| == MAX_ROTATED_FILES + 1 }

  function LengthAt(d: Dir, n: nat): nat
    requires Valid(d) && n <= MAX_ROTATED_FILES
  {
    match d.slots[n] case Some(f) => |f.bytes| case None => 0
  }

  predicate NeedsRotation(d: Dir, incoming: nat)
    requires Valid(d)
  {
    LengthAt(d, 0) + incoming > EVENTS_ROTATE_BYTES
  }

  /** After the renames: the oldest file is gone, every other one is a slot older, `events.log` is missing. */
  function Renamed(d: Dir): (r: Dir)
    requires Valid(d)
    ensures Valid(r)
  {
    d.(slots := [None] + d.slots[..MAX_ROTATED_FILES])
  }

  /** `open(create, append)`: an existing file is kept, a missing one is created empty. */
  function Opened(d: Dir): (r: Dir)
    requires Valid(d)
    ensures Valid(r) && r.slots[0].Some?
  {
    if d.slots[0].Some? then d
    else Dir(d.slots[0 := Some(File(d.nextInode, []))], d.nextInode + 1)
  }

  function Written(d: Dir, bytes: seq<Byte>): (r: Dir)
    requires Valid(d) && d.slots[0].Some?
    ensures Valid(r)
  {
    var f := d.slots[0].value;
    d.(slots := d.slots[0 := Some(File(f.inode, f.bytes + bytes))])
  }

  function Rotated(d: Dir, incoming: nat): (r: Dir)
    requires Valid(d)
    ensures Valid(r)
  {
    if NeedsRotation(d, incoming) then Opened(Renamed(d)) else d
  }

  function Appended(d: Dir, batch: seq<Byte>): (r: Dir)
    requires Valid(d)
    ensures Valid(r)
  {
    Written(Opened(Rotated(d, |batch|)), batch)
  }

  /** The directory as the tailer changes it, one file operation at a time. */
  class EventsFiles {
    const slots: array<Option<File>>
    var nextInode: nat

    constructor ()
      ensures Value() == EMPTY
      ensures fresh(slots) && slots.Length == MAX_ROTATED_FILES + 1
    {
      slots := new Option<File>[MAX_ROTATED_FILES + 1](_ => None);
      nextInode := 0;
    }

    ghost function Value(): Dir
      reads this, slots
    {
      Dir(slots[..], nextInode)
    }

    /** Prunes the oldest file, renames n to n+1 from the top down, then `events.log` to `.1`. */
    method RenameChain()
      requires slots.Length == MAX_ROTATED_FILES + 1
      modifies slots
      ensures Value() == Renamed(old(Value()))
    {
      slots[MAX_ROTATED_FILES] := None;
      var n := MAX_ROTATED_FILES - 1;
      while n > 0
        invariant 0 <= n < MAX_ROTATED_FILES
        invariant slots[n + 1] == None
        invariant forall i | n + 1 < i <= MAX_ROTATED_FILES :: slots[i] == old(slots[i - 1])
        invariant forall i | 0 <= i <= n :: slots[i] == old(slots[i])
      {
        if slots[n].Some? {
          slots[n + 1], slots[n] := slots[n], None;
        }
        n := n - 1;
      }
      if slots[0].Some? {
        slots[1], slots[0] := slots[0], None;
      }
      assert forall i | 0 <= i <= MAX_ROTATED_FILES :: slots[..][i] == Renamed(old(Value())).slots[i];
    }

    method Open()
      requires slots.Length == MAX_ROTATED_FILES + 1
      modifies this, slots
      ensures Value() == Opened(old(Value()))
    {
      if slots[0].None? {
        slots[0] := Some(File(nextInode, []));
        nextInode := nextInode + 1;
      }
    }

    method RotateIfNeeded(incoming: nat)
      requires slots.Length == MAX_ROTATED_FILES + 1
      modifies this, slots
      ensures Value() == Rotated(old(Value()), incoming)
    {
      var currentLen := if slots[0].Some? then |slots[0].value.bytes| else 0;
      if currentLen + incoming <= EVENTS_ROTATE_BYTES { return; }
      RenameChain();
      Open();
    }

    method AppendBatch(batch: seq<Byte>)
      requires slots.Length == MAX_ROTATED_FILES + 1
      modifies this, slots
      ensures Value() == Appended(old(Value()), batch)
    {
      RotateIfNeeded(|batch|);
      Open();
      slots[0] := Some(File(slots[0].value.inode, slots[0].value.bytes + batch));
    }
  }

  // ---- what a run of appends leaves on disk ----

  type Batch = seq<LogEntry>

  function Flatten(batches: seq<Batch>): seq<LogEntry> {
    if |batches| == 0 then [] else batches[0] + Flatten(batches[1..])
  }

  const EMPTY: Dir := Dir([None, None, None, None, None, None], 0)

  /** The directory after appending `batches` in order, starting from no files. */
  function AfterAppends(batches: seq<Batch>): (d: Dir)
    ensures Valid(d)
  {
    if |batches| == 0 then EMPTY
    else Appended(AfterAppends(batches[..|batches| - 1]), EncodeAll(batches[|batches| - 1]))
  }

  /** Batches held by each file, newest file first: the abstract view of the chain. */
  function Groups(batches: seq<Batch>): (gs: seq<seq<Batch>>)
  {
    if |batches| == 0 then []
    else
      var gs := Groups(batches[..|batches| - 1]);
      var b := batches[|batches| - 1];
      if |gs| > 0 && |EncodeAll(Flatten(gs[0]))| + |EncodeAll(b)| <= EVENTS_ROTATE_BYTES
      then gs[0 := gs[0] + [b]]
      else ([[b]] + gs)[..if |gs| < MAX_ROTATED_FILES then |gs| + 1 else MAX_ROTATED_FILES + 1]
  }

  function OldestFirst(gs: seq<seq<Batch>>): seq<Batch> {
    if |gs| == 0 then [] else OldestFirst(gs[1..]) + gs[0]
  }

  /** The chain holds exactly these groups: no gaps, nothing beyond them. */
  ghost predicate Holds(d: Dir, gs: seq<seq<Batch>>) {
    && Valid(d) && |gs| <= MAX_ROTATED_FILES + 1
    && (forall n | 0 <= n < |gs| :: d.slots[n].Some? && d.slots[n].value.bytes == EncodeAll(Flatten(gs[n])))
    && (forall n | |gs| <= n <= MAX_ROTATED_FILES :: d.slots[n].None?)
  }

  /** A file is within the limit, or holds the single batch that is larger than it. */
  predicate FileFits(g: seq<Batch>) {
    |g| > 0 && (|EncodeAll(Flatten(g))| <= EVENTS_ROTATE_BYTES || |g| == 1)
  }

  lemma {:induction false} FlattenAppend(a: seq<Batch>, b: seq<Batch>)
    ensures Flatten(a + b) == Flatten(a) + Flatten(b)
  {
    if |a| == 0 {
      assert a + b == b;
    } else {
      assert (a + b)[1..] == a[1..] + b;
      FlattenAppend(a[1..], b);
    }
  }

  lemma FlattenOne(b: Batch)
    ensures Flatten([b]) == b
  {
    assert [b][1..] == [];
    assert b + [] == b;
  }

  lemma EncodeOneMore(g: seq<Batch>, b: Batch)
    ensures EncodeAll(Flatten(g + [b])) == EncodeAll(Flatten(g)) + EncodeAll(b)
  {
    hide EncodeAll;
    FlattenAppend(g, [b]);
    FlattenOne(b);
    EncodeAllAppend(Flatten(g), b);
  }

  lemma {:induction false} OldestFirstTruncated(gs: seq<seq<Batch>>, k: nat)
    requires k <= |gs|
    ensures exists earlier: seq<Batch> :: OldestFirst(gs) == earlier + OldestFirst(gs[..k])
  {
    if k == 0 {
      assert OldestFirst(gs) == OldestFirst(gs) + [];
    } else {
      OldestFirstTruncated(gs[1..], k - 1);
      var earlier :| OldestFirst(gs[1..]) == earlier + OldestFirst(gs[1..][..k - 1]);
      assert gs[..k][1..] == gs[1..][..k - 1];
      assert OldestFirst(gs) == earlier + OldestFirst(gs[..k]);
    }
  }

  /** One append moves the directory and its abstract view together. */
  lemma AppendHolds(d: Dir, batches: seq<Batch>, b: Batch)
    requires Holds(d, Groups(batches))
    ensures Holds(Appended(d, EncodeAll(b)), Groups(batches + [b]))
  {
    hide EncodeAll, Flatten, Appended, Holds;
    var gs := Groups(batches);
    assert (batches + [b])[..|batches|] == batches;
    if |gs| > 0 && |EncodeAll(Flatten(gs[0]))| + |EncodeAll(b)| <= EVENTS_ROTATE_BYTES {
      HoldsInPlace(d, gs, b);
    } else {
      HoldsInNewFile(d, gs, b);
    }
  }

  lemma HoldsInPlace(d: Dir, gs: seq<seq<Batch>>, b: Batch)
    requires Holds(d, gs) && |gs| > 0 && |EncodeAll(Flatten(gs[0]))| + |EncodeAll(b)| <= EVENTS_ROTATE_BYTES
    ensures Holds(Appended(d, EncodeAll(b)), gs[0 := gs[0] + [b]])
  {
    hide EncodeAll, Flatten, Appended;
    EncodeOneMore(gs[0], b);
    AppendInPlace(d, EncodeAll(b));
  }

  lemma HoldsInNewFile(d: Dir, gs: seq<seq<Batch>>, b: Batch)
    requires Holds(d, gs)
    requires |gs| == 0 || |EncodeAll(Flatten(gs[0]))| + |EncodeAll(b)| > EVENTS_ROTATE_BYTES
    ensures Holds(Appended(d, EncodeAll(b)),
                  ([[b]] + gs)[..if |gs| < MAX_ROTATED_FILES then |gs| + 1 else MAX_ROTATED_FILES + 1])
  {
    hide EncodeAll, Flatten, Appended;
    var bytes := EncodeAll(b);
    FlattenOne(b);
    assert [] + bytes == bytes;
    if |gs| == 0 { NoFilesYet(d, bytes); } else { AppendAfterRotation(d, bytes); }
  }

  lemma AppendInPlace(d: Dir, bytes: seq<Byte>)
    requires Valid(d) && d.slots[0].Some? && !NeedsRotation(d, |bytes|)
    ensures var f := d.slots[0].value;
            Appended(d, bytes).slots == d.slots[0 := Some(File(f.inode, f.bytes + bytes))]
  {
  }

  lemma AppendAfterRotation(d: Dir, bytes: seq<Byte>)
    requires Valid(d) && NeedsRotation(d, |bytes|)
    ensures Appended(d, bytes).slots == [Some(File(d.nextInode, [] + bytes))] + d.slots[..MAX_ROTATED_FILES]
  {
  }

  lemma NoFilesYet(d: Dir, bytes: seq<Byte>)
    requires Valid(d) && forall n | 0 <= n <= MAX_ROTATED_FILES :: d.slots[n].None?
    ensures Appended(d, bytes).slots == [Some(File(d.nextInode, [] + bytes))] + d.slots[..MAX_ROTATED_FILES]
  {
    if !NeedsRotation(d, |bytes|) {
      assert d.slots[0 := Some(File(d.nextInode, [] + bytes))]
          == [Some(File(d.nextInode, [] + bytes))] + d.slots[..MAX_ROTATED_FILES];
    }
  }

  /** Over every run of appends the chain has no gaps and every file is within the limit or one batch. */
  lemma {:induction false} ChainHolds(batches: seq<Batch>)
    ensures Holds(AfterAppends(batches), Groups(batches))
    ensures forall n | 0 <= n < |Groups(batches)| :: FileFits(Groups(batches)[n])
  {
    hide EncodeAll, Appended;
    if |batches| > 0 {
      var init, b := batches[..|batches| - 1], batches[|batches| - 1];
      ChainHolds(init);
      assert init + [b] == batches;
      AppendHolds(AfterAppends(init), init, b);
      var gs := Groups(init);
      if |gs| > 0 { EncodeOneMore(gs[0], b); }
    }
  }

  /** One append adds the batch at the new end and may prune whole batches at the old end. */
  lemma GroupsStep(batches: seq<Batch>, b: Batch)
    ensures |Groups(batches)| <= |Groups(batches + [b])|
    ensures exists earlier: seq<Batch> ::
              && OldestFirst(Groups(batches)) + [b] == earlier + OldestFirst(Groups(batches + [b]))
              && (earlier != [] ==> |Groups(batches + [b])| == 6)
  {
    hide EncodeAll, Flatten;
    assert (batches + [b])[..|batches|] == batches;
    var gs, gs' := Groups(batches), Groups(batches + [b]);
    if |gs| > 0 && |EncodeAll(Flatten(gs[0]))| + |EncodeAll(b)| <= EVENTS_ROTATE_BYTES {
      assert gs'[1..] == gs[1..];
      assert OldestFirst(gs) + [b] == [] + OldestFirst(gs');
    } else {
      GroupsAtMost(batches);
      var all := [[b]] + gs;
      assert all[1..] == gs;
      if |gs'| == |all| {
        assert gs' == all;
        assert OldestFirst(gs) + [b] == [] + OldestFirst(gs');
      } else {
        OldestFirstTruncated(all, |gs'|);
        assert gs' == all[..|gs'|];
      }
    }
  }

  lemma {:induction false} GroupsAtMost(batches: seq<Batch>)
    ensures |Groups(batches)| <= 6
  {
    hide EncodeAll, Flatten;
    if |batches| > 0 { GroupsAtMost(batches[..|batches| - 1]); }
  }

  /** Files are as few as the threshold allows: each is within ten mebibytes or a single batch, and a newer
      one was started only because its first batch would not have fitted in the one before. */
  lemma {:induction false} FilesAreFull(batches: seq<Batch>)
    ensures forall n | 0 <= n < |Groups(batches)| ::
              var g := Groups(batches)[n];
              |g| > 0 && (|g| == 1 || |EncodeAll(Flatten(g))| <= 10 * 1024 * 1024)
    ensures forall n | 0 < n < |Groups(batches)| ::
              var older, newer := Groups(batches)[n], Groups(batches)[n - 1];
              |newer| > 0 && |EncodeAll(Flatten(older))| + |EncodeAll(newer[0])| > 10 * 1024 * 1024
  {
    hide EncodeAll, Flatten;
    ChainHolds(batches);
    if |batches| > 0 {
      var init, b := batches[..|batches| - 1], batches[|batches| - 1];
      FilesAreFull(init);
      FirstGroupNonempty(init);
      assert init + [b] == batches;
    }
  }

  lemma FirstGroupNonempty(batches: seq<Batch>)
    ensures forall n | 0 <= n < |Groups(batches)| :: |Groups(batches)[n]| > 0
  {
    hide EncodeAll, Flatten, AfterAppends;
    ChainHolds(batches);
  }

  /** The files read oldest first hold a suffix of everything ever appended, cut between batches; nothing is
      pruned before there are six files. */
  lemma {:induction false} ChainIsSuffix(batches: seq<Batch>)
    ensures exists pruned: seq<Batch> ::
              batches == pruned + OldestFirst(Groups(batches)) && (pruned != [] ==> |Groups(batches)| == 6)
  {
    hide Groups, OldestFirst;
    if |batches| == 0 {
      NoBatches();
      assert batches == [] + OldestFirst(Groups(batches));
    } else {
      var init, b := batches[..|batches| - 1], batches[|batches| - 1];
      ChainIsSuffix(init);
      var pruned :| init == pruned + OldestFirst(Groups(init)) && (pruned != [] ==> |Groups(init)| == 6);
      GroupsStep(init, b);
      GroupsAtMost(batches);
      assert batches == init + [b];
      var earlier :| && OldestFirst(Groups(init)) + [b] == earlier + OldestFirst(Groups(batches))
                     && (earlier != [] ==> |Groups(batches)| == 6);
      assert batches == pruned + (OldestFirst(Groups(init)) + [b]);
      assert batches == (pruned + earlier) + OldestFirst(Groups(batches));
    }
  }

  lemma NoBatches()
    ensures OldestFirst(Groups([])) == []
  {
  }

  // ---- reading back ----

  datatype LogsFilter = LogsFilter(tail: Option<nat>, since: Option<int>, until: Option<int>)

  /** Entries whose timestamp, in nanoseconds since the epoch, lies within the bounds given. */
  predicate Within(e: LogEntry, since: Option<int>, until: Option<int>) {
    && (since.Some? ==> e.ms * 1_000_000 >= since.value)
    && (until.Some? ==> e.ms * 1_000_000 <= until.value)
  }

  function Retain(es: seq<LogEntry>, since: Option<int>, until: Option<int>): (r: seq<LogEntry>)
  {
    if |es| == 0 then []
    else if Within(es[0], since, until) then [es[0]] + Retain(es[1..], since, until)
    else Retain(es[1..], since, until)
  }

  function LastN(es: seq<LogEntry>, n: nat): seq<LogEntry> {
    if |es| > n then es[|es| - n..] else es
  }

  function Filtered(es: seq<LogEntry>, f: LogsFilter): seq<LogEntry> {
    var kept := Retain(es, f.since, f.until);
    if f.tail.Some? then LastN(kept, f.tail.value) else kept
  }

  /** Entries of slots `n` down to 0, oldest file first; a missing file reads as empty. */
  function EntriesFrom(d: Dir, n: nat): seq<LogEntry>
    requires Valid(d) && n <= MAX_ROTATED_FILES
  {
    SlotEntries(d.slots[n]) + (if n == 0 then [] else EntriesFrom(d, n - 1))
  }

  function SlotEntries(slot: Option<File>): seq<LogEntry> {
    if slot.Some? then Parse(slot.value.bytes).entries else []
  }

  lemma EntriesTurn(d: Dir, n: nat)
    requires Valid(d) && n <= MAX_ROTATED_FILES
    ensures EntriesFrom(d, n) == SlotEntries(d.slots[n]) + (if n == 0 then [] else EntriesFrom(d, n - 1))
  {
  }

  /** Reads and parses the chain, oldest file first. */
  method ReadChain(d: Dir) returns (all: seq<LogEntry>)
    requires Valid(d)
    ensures all == EntriesFrom(d, MAX_ROTATED_FILES)
  {
    hide Parse, EntriesFrom;
    all := [];
    var n := MAX_ROTATED_FILES;
    while n > 0
      invariant 0 <= n <= MAX_ROTATED_FILES
      invariant all + EntriesFrom(d, n) == EntriesFrom(d, MAX_ROTATED_FILES)
    {
      EntriesTurn(d, n);
      if d.slots[n].Some? {
        var es := ParseEventsFile(d.slots[n].value.bytes);
        all := all + es;
      }
      n := n - 1;
    }
    EntriesTurn(d, 0);
    if d.slots[0].Some? {
      var es := ParseEventsFile(d.slots[0].value.bytes);
      all := all + es;
    }
  }

  /** Reads everything, drops by `since`, then by `until`, and keeps the tail. */
  method ContainerLogsFiltered(d: Dir, f: LogsFilter) returns (all: seq<LogEntry>)
    requires Valid(d)
    ensures all == Filtered(EntriesFrom(d, MAX_ROTATED_FILES), f)
    ensures f.tail.None? ==> all == Retain(EntriesFrom(d, 5), f.since, f.until)
    // a tail keeps the newest entries, as many as there are up to its number
    ensures f.tail.Some? ==>
              exists dropped: seq<LogEntry> ::
                && Retain(EntriesFrom(d, 5), f.since, f.until) == dropped + all
                && |all| <= f.tail.value && (dropped != [] ==> |all| == f.tail.value)
    // both bounds are inclusive
    ensures forall e | e in all ::
              && (f.since.Some? ==> f.since.value <= e.ms * 1_000_000)
              && (f.until.Some? ==> e.ms * 1_000_000 <= f.until.value)
  {
    hide EntriesFrom, Retain;
    all := ReadChain(d);
    ghost var read := all;
    RetainAll(read);
    if f.since.Some? { all := Retain(all, f.since, None); }
    RetainAll(all);
    if f.until.Some? { all := Retain(all, None, f.until); }
    RetainTwice(read, f.since, f.until);
    RetainWithin(read, f.since, f.until);
    all := KeepTail(all, f.tail);
  }

  /** The newest entries, up to a number. */
  method KeepTail(kept: seq<LogEntry>, tail: Option<nat>) returns (all: seq<LogEntry>)
    ensures all == if tail.Some? then LastN(kept, tail.value) else kept
    ensures tail.Some? ==>
              exists dropped: seq<LogEntry> ::
                kept == dropped + all && |all| <= tail.value && (dropped != [] ==> |all| == tail.value)
    ensures forall e | e in all :: e in kept
  {
    all := kept;
    if tail.Some? && |all| > tail.value { all := all[|all| - tail.value..]; }
    assert kept == kept[..|kept| - |all|] + all;
  }

  lemma RetainWithin(es: seq<LogEntry>, since: Option<int>, until: Option<int>)
    ensures forall e | e in Retain(es, since, until) ::
              && (since.Some? ==> since.value <= e.ms * 1_000_000)
              && (until.Some? ==> e.ms * 1_000_000 <= until.value)
  {
    hide Retain;
    forall e | e in Retain(es, since, until) ensures Within(e, since, until) { RetainCounts(es, since, until, e); }
  }

  lemma {:induction false} RetainAll(es: seq<LogEntry>)
    ensures Retain(es, None, None) == es
  {
    if |es| > 0 { RetainAll(es[1..]); }
  }

  lemma {:induction false} RetainTwice(es: seq<LogEntry>, since: Option<int>, until: Option<int>)
    ensures Retain(Retain(es, since, None), None, until) == Retain(es, since, until)
  {
    if |es| > 0 {
      RetainTwice(es[1..], since, until);
      if Within(es[0], since, None) {
        assert ([es[0]] + Retain(es[1..], since, None))[1..] == Retain(es[1..], since, None);
      }
    }
  }

  /** The filter keeps every occurrence of an entry from `since` to `until`, both included, and no other. */
  lemma {:induction false} RetainCounts(es: seq<LogEntry>, since: Option<int>, until: Option<int>, e: LogEntry)
    ensures multiset(Retain(es, since, until))[e]
         == if && (since.Some? ==> since.value <= e.ms * 1_000_000)
               && (until.Some? ==> e.ms * 1_000_000 <= until.value)
            then multiset(es)[e] else 0
  {
    if |es| > 0 {
      RetainCounts(es[1..], since, until, e);
      assert es == [es[0]] + es[1..];
    }
  }

  /** The filter acts piece by piece, so it keeps the order. */
  lemma {:induction false} RetainAppend(a: seq<LogEntry>, b: seq<LogEntry>, since: Option<int>, until: Option<int>)
    ensures Retain(a + b, since, until) == Retain(a, since, until) + Retain(b, since, until)
  {
    if |a| == 0 {
      assert a + b == b;
    } else {
      assert (a + b)[1..] == a[1..] + b;
      RetainAppend(a[1..], b, since, until);
    }
  }

  lemma {:induction false} EntriesOfChain(d: Dir, gs: seq<seq<Batch>>, n: nat)
    requires Holds(d, gs) && n <= MAX_ROTATED_FILES
    requires forall g | g in gs :: Fits(Flatten(g))
    ensures EntriesFrom(d, n) == Flatten(OldestFirst(gs[..if n < |gs| then n + 1 else |gs|]))
  {
    hide Parse, EncodeAll, EntriesFrom, OldestFirst, Flatten, Fits;
    EntriesTurn(d, n);
    if n < |gs| {
      assert gs[n] in gs;
      ParseEncodeAll(Flatten(gs[n]));
      OldestOfTake(gs, n);
    }
    if n == 0 {
      NoGroups();
      assert gs[..0] == [];
      if |gs| > 0 { assert Flatten(gs[0]) + [] == Flatten(gs[0]); }
    } else {
      EntriesOfChain(d, gs, n - 1);
    }
  }

  lemma NoGroups()
    ensures Flatten(OldestFirst([])) == []
  {
  }

  /** Taking one more group puts it in front of the older end. */
  lemma {:induction false} OldestOfTake(gs: seq<seq<Batch>>, n: nat)
    requires n < |gs|
    ensures Flatten(OldestFirst(gs[..n + 1])) == Flatten(gs[n]) + Flatten(OldestFirst(gs[..n]))
  {
    hide Flatten;
    var newest := gs[0];
    if n == 0 {
      NoGroups();
      assert gs[..0] == [];
      assert gs[..1][1..] == [];
      assert OldestFirst(gs[..1]) == [] + newest == newest;
      assert Flatten(newest) + [] == Flatten(newest);
    } else {
      var older := gs[1..];
      OldestOfTake(older, n - 1);
      assert gs[..n + 1][1..] == older[..n];
      assert gs[..n][1..] == older[..n - 1];
      FlattenAppend(OldestFirst(older[..n]), newest);
      FlattenAppend(OldestFirst(older[..n - 1]), newest);
    }
  }

  /** What a reader gets after any run of appends: the filter applied to a suffix of all records
      ever appended, that suffix being whole batches. */
  lemma LogsAreFilteredSuffix(batches: seq<Batch>, f: LogsFilter)
    requires forall b | b in batches :: Fits(b)
    ensures exists pruned: seq<Batch>, kept: seq<Batch> ::
              && batches == pruned + kept
              && Filtered(EntriesFrom(AfterAppends(batches), MAX_ROTATED_FILES), f) == Filtered(Flatten(kept), f)
  {
    hide EntriesFrom, AfterAppends, Flatten, Filtered, Fits;
    ChainReadsSuffix(batches);
    var pruned: seq<Batch>, kept: seq<Batch> :|
      batches == pruned + kept && EntriesFrom(AfterAppends(batches), MAX_ROTATED_FILES) == Flatten(kept);
    assert batches == pruned + kept;
  }

  /** Reading the whole chain gives back exactly the batches it still holds, the last ones appended. */
  lemma ChainReadsSuffix(batches: seq<Batch>)
    requires forall b | b in batches :: Fits(b)
    ensures exists pruned: seq<Batch>, kept: seq<Batch> ::
              batches == pruned + kept && EntriesFrom(AfterAppends(batches), MAX_ROTATED_FILES) == Flatten(kept)
  {
    hide EntriesFrom, AfterAppends, Groups, OldestFirst, Flatten, Holds, FileFits, Fits;
    ChainHolds(batches);
    ChainIsSuffix(batches);
    var gs, d := Groups(batches), AfterAppends(batches);
    var kept := OldestFirst(gs);
    var pruned :| batches == pruned + kept;
    forall g | g in gs ensures Fits(Flatten(g)) {
      GroupIsInOldest(gs, g);
      FlattenFits(g);
    }
    WholeChain(d, gs);
    assert batches == pruned + kept && EntriesFrom(d, MAX_ROTATED_FILES) == Flatten(kept);
  }

  lemma WholeChain(d: Dir, gs: seq<seq<Batch>>)
    requires Holds(d, gs) && forall g | g in gs :: Fits(Flatten(g))
    ensures EntriesFrom(d, MAX_ROTATED_FILES) == Flatten(OldestFirst(gs))
  {
    hide EntriesFrom, OldestFirst, Flatten, Fits;
    EntriesOfChain(d, gs, MAX_ROTATED_FILES);
    assert gs[..|gs|] == gs;
  }

  lemma {:induction false} GroupIsInOldest(gs: seq<seq<Batch>>, g: seq<Batch>)
    requires g in gs
    ensures forall b | b in g :: b in OldestFirst(gs)
  {
    if g != gs[0] { GroupIsInOldest(gs[1..], g); }
  }

  lemma {:induction false} FlattenFits(g: seq<Batch>)
    requires forall b | b in g :: Fits(b)
    ensures Fits(Flatten(g))
  {
    if |g| > 0 {
      assert g[0] in g;
      FlattenFits(g[1..]);
    }
  }
}
