/** One raw stream of the log tailer: line splitting with a bounded leftover, one drain pass, and
    what any number of passes conserve. */
module Tailer {
  import opened Bytes
  import opened Codec

  /** A partial line this long is flushed as a record of its own. */
  const MAX_LEFTOVER_BYTES: nat := 1024 * 1024
  /** Most bytes read from a raw file in one pass. */
  const MAX_READ_CHUNK: nat := 4 * 1024 * 1024
  /** Largest payload the tailer can emit. */
  const MAX_EMITTED_BYTES: nat := MAX_LEFTOVER_BYTES - 1 + MAX_READ_CHUNK

  datatype Split = Split(lines: seq<seq<Byte>>, rest: seq<Byte>)

  /** Newline-terminated lines, and what follows the last newline. */
  function SplitLines(s: seq<Byte>): (r: Split)
    decreases |s|
  {
    var nl := IndexOf(s, NEWLINE);
    if nl == |s| then Split([], s)
    else
      var r := SplitLines(s[nl + 1..]);
      Split([s[..nl + 1]] + r.lines, r.rest)
  }

  datatype Cut = Cut(records: seq<seq<Byte>>, leftover: seq<Byte>)

  /** Payloads one pass emits, and the leftover it keeps. */
  function CutBatch(combined: seq<Byte>): Cut {
    var sp := SplitLines(combined);
    if |sp.rest| >= MAX_LEFTOVER_BYTES then Cut(sp.lines + [sp.rest], [])
    else Cut(sp.lines, sp.rest)
  }

  function Entries(stream: Stream, ms: U64, records: seq<seq<Byte>>): (es: seq<LogEntry>)
    ensures |es| == |records|
    ensures forall i | 0 <= i < |es| :: es[i] == LogEntry(stream, ms, records[i])
  {
    seq(|records|, i requires 0 <= i < |records| => LogEntry(stream, ms, records[i]))
  }

  lemma SplitTurn(s: seq<Byte>, start: nat)
    requires start <= |s|
    ensures var nl := start + IndexOf(s[start..], NEWLINE);
            && start <= nl <= |s|
            && (nl == |s| ==> SplitLines(s[start..]) == Split([], s[start..]))
            && (nl < |s| ==>
                  SplitLines(s[start..])
                  == Split([s[start..nl + 1]] + SplitLines(s[nl + 1..]).lines, SplitLines(s[nl + 1..]).rest))
  {
    hide IndexOf;
    var t := s[start..];
    var i := IndexOf(t, NEWLINE);
    if i < |t| {
      assert t[i + 1..] == s[start + i + 1..];
      assert t[..i + 1] == s[start..start + i + 1];
    }
  }

  /** The bytes a batch of payloads is written as. */
  function BatchBytes(stream: Stream, ms: U64, records: seq<seq<Byte>>): seq<Byte> {
    EncodeAll(Entries(stream, ms, records))
  }

  lemma BatchAppend(stream: Stream, ms: U64, records: seq<seq<Byte>>, r: seq<Byte>)
    ensures BatchBytes(stream, ms, records + [r]) == BatchBytes(stream, ms, records) + Encode(LogEntry(stream, ms, r))
  {
    hide Encode;
    assert Entries(stream, ms, records + [r]) == Entries(stream, ms, records) + [LogEntry(stream, ms, r)];
    EncodeAllAppend(Entries(stream, ms, records), [LogEntry(stream, ms, r)]);
    EncodeAllOne(LogEntry(stream, ms, r));
  }

  /** The batch loop of a pass: one encoded record for each newline found, then the rule for what is left. */
  method BuildBatch(combined: seq<Byte>, nanos: int, stream: Stream)
    returns (batch: seq<Byte>, leftover: seq<Byte>)
    ensures batch == BatchBytes(stream, UnixMillis(nanos), CutBatch(combined).records)
    ensures leftover == CutBatch(combined).leftover
  {
    hide SplitLines, IndexOf, Encode, BatchBytes;
    batch := [];
    var start := 0;
    ghost var done: seq<seq<Byte>> := [];
    assert combined[0..] == combined;
    EmptyBatch(stream, UnixMillis(nanos));
    while true
      invariant 0 <= start <= |combined|
      invariant batch == BatchBytes(stream, UnixMillis(nanos), done)
      invariant done + SplitLines(combined[start..]).lines == SplitLines(combined).lines
      invariant SplitLines(combined[start..]).rest == SplitLines(combined).rest
      decreases |combined| - start
    {
      SplitTurn(combined, start);
      var nl := start + IndexOf(combined[start..], NEWLINE);
      if nl == |combined| { break; }
      BatchAppend(stream, UnixMillis(nanos), done, combined[start..nl + 1]);
      batch := EncodeRecordInto(batch, nanos, stream, combined[start..nl + 1]);
      done := done + [combined[start..nl + 1]];
      start := nl + 1;
    }
    SplitTurn(combined, start);
    assert done == SplitLines(combined).lines by { assert done + [] == done; }
    if start < |combined| && |combined| - start >= MAX_LEFTOVER_BYTES {
      BatchAppend(stream, UnixMillis(nanos), done, combined[start..]);
      batch := EncodeRecordInto(batch, nanos, stream, combined[start..]);
      leftover := [];
    } else if start < |combined| {
      leftover := combined[start..];
    } else {
      leftover := [];
    }
  }

  lemma EmptyBatch(stream: Stream, ms: U64)
    ensures BatchBytes(stream, ms, []) == []
  {
  }

  // ---- what splitting keeps ----

  /** A payload is one line with its newline, or a newline-free flush of at least the cap. */
  predicate LineOrFlush(r: seq<Byte>) {
    || (|r| > 0 && r[|r| - 1] == NEWLINE && NEWLINE !in r[..|r| - 1])
    || (|r| >= MAX_LEFTOVER_BYTES && NEWLINE !in r)
  }

  predicate GoodPayload(r: seq<Byte>) { LineOrFlush(r) && |r| <= MAX_EMITTED_BYTES }

  lemma {:induction false} SplitKeepsBytes(s: seq<Byte>)
    ensures Concat(SplitLines(s).lines) + SplitLines(s).rest == s
    ensures NEWLINE !in SplitLines(s).rest
    ensures forall r | r in SplitLines(s).lines :: LineOrFlush(r) && |r| <= |s|
    decreases |s|
  {
    hide IndexOf, LineOrFlush, SplitLines;
    SplitTurn(s, 0);
    assert s[0..] == s;
    var nl := IndexOf(s, NEWLINE);
    if nl < |s| {
      var t, line := s[nl + 1..], s[..nl + 1];
      SplitKeepsBytes(t);
      LineShape(s);
      var lines := SplitLines(t).lines;
      assert Concat([line] + lines) == line + Concat(lines) by { assert ([line] + lines)[1..] == lines; }
      assert s == line + t;
      assert forall x | x in [line] + lines :: x == line || x in lines;
    } else {
      assert Concat([]) + s == s;
    }
  }

  lemma LineShape(s: seq<Byte>)
    requires IndexOf(s, NEWLINE) < |s|
    ensures LineOrFlush(s[..IndexOf(s, NEWLINE) + 1])
  {
  }

  lemma {:induction false} SplitIncremental(s: seq<Byte>, t: seq<Byte>)
    ensures SplitLines(s + t)
         == Split(SplitLines(s).lines + SplitLines(SplitLines(s).rest + t).lines,
                  SplitLines(SplitLines(s).rest + t).rest)
    decreases |s|
  {
    hide IndexOf, SplitLines;
    var nl := IndexOf(s, NEWLINE);
    SplitTurn(s, 0);
    assert s[0..] == s;
    if nl == |s| {
      assert [] + SplitLines(s + t).lines == SplitLines(s + t).lines;
    } else {
      SplitTurn(s + t, 0);
      assert (s + t)[0..] == s + t;
      IndexOfAppend(s, t, NEWLINE);
      assert (s + t)[nl + 1..] == s[nl + 1..] + t;
      assert (s + t)[..nl + 1] == s[..nl + 1];
      SplitIncremental(s[nl + 1..], t);
      SplitAssoc([s[..nl + 1]], s[nl + 1..], t);
    }
  }

  lemma SplitAssoc(a: seq<seq<Byte>>, s: seq<Byte>, t: seq<Byte>)
    ensures a + (SplitLines(s).lines + SplitLines(SplitLines(s).rest + t).lines)
         == (a + SplitLines(s).lines) + SplitLines(SplitLines(s).rest + t).lines
  {
    hide SplitLines;
  }

  lemma CutKeepsBytes(combined: seq<Byte>)
    ensures var c := CutBatch(combined);
            && Concat(c.records) + c.leftover == combined
            && NEWLINE !in c.leftover && |c.leftover| < 1024 * 1024
            && (forall r | r in c.records :: LineOrFlush(r) && |r| <= |combined|)
            && (forall r | r in c.records && NEWLINE !in r :: |r| >= 1024 * 1024)
  {
    SplitKeepsBytes(combined);
    var sp := SplitLines(combined);
    ConcatAppend(sp.lines, [sp.rest]);
    assert Concat([sp.rest]) == sp.rest by { assert [sp.rest][1..] == []; assert Concat([]) == []; }
  }

  // ---- one pass ----

  /** `TailState`: read position, partial line, and whether the raw file is held open. */
  datatype Tail = Tail(pos: nat, leftover: seq<Byte>, open: bool)

  /** The step of a pass that fails, if any. */
  datatype Fault = NoFault | OpenFault | StatFault | SeekFault | ReadFault | AppendFault

  /** What one pass sees: whether the raw path exists, the length its stat reports, the raw bytes at its read. */
  datatype Observation = Observation(present: bool, len: nat, raw: seq<Byte>, fault: Fault)

  /** `appended` is false when the batch was lost to a failed append. */
  datatype PassResult = PassResult(state: Tail, ok: bool, cut: Cut, appended: bool)

  const NOTHING: Cut := Cut([], [])

  function Min(a: nat, b: nat): nat { if a < b then a else b }

  /** Bytes a read of at most `want` returns at `pos`. */
  function ReadAt(raw: seq<Byte>, pos: nat, want: nat): seq<Byte> {
    if pos >= |raw| then [] else raw[pos..Min(pos + want, |raw|)]
  }

  /** `drain_into_events` on values. */
  function Pass(st: Tail, o: Observation): PassResult {
    if !st.open && o.fault.OpenFault? then PassResult(st, false, NOTHING, true)
    else if !st.open && !o.present then PassResult(st, true, NOTHING, true)
    else
      var held := st.(open := true);
      if o.fault.StatFault? then PassResult(held, false, NOTHING, true)
      else if o.len < st.pos then PassResult(Tail(0, [], false), true, NOTHING, true)
      else if o.len == st.pos then PassResult(held, true, NOTHING, true)
      else if o.fault.SeekFault? then PassResult(held, false, NOTHING, true)
      else if o.fault.ReadFault? then PassResult(held.(leftover := []), false, NOTHING, true)
      else
        var chunk := ReadAt(o.raw, st.pos, Min(o.len - st.pos, MAX_READ_CHUNK));
        var cut := CutBatch(st.leftover + chunk);
        var next := Tail(st.pos + |chunk|, cut.leftover, true);
        var lost := cut.records != [] && o.fault.AppendFault?;
        PassResult(next, !lost, cut, !lost)
  }

  /** Payloads that reached events.log. */
  function Emitted(r: PassResult): seq<seq<Byte>> { if r.appended then r.cut.records else [] }

  /** The tailer's state for one raw stream, updated in place by each pass. */
  class TailState {
    var pos: nat
    var leftover: seq<Byte>
    var open: bool

    constructor ()
      ensures Value() == Tail(0, [], false)
    {
      pos, leftover, open := 0, [], false;
    }

    ghost function Value(): Tail
      reads this
    {
      Tail(pos, leftover, open)
    }

    /** One pass up to the append: `batch` is what it hands to `append_batch`, and the state is
        final whether or not that append then succeeds. */
    method Drain(o: Observation, nanos: int, stream: Stream) returns (ok: bool, batch: seq<Byte>)
      modifies this
      ensures Value() == Pass(old(Value()), o).state
      ensures batch == BatchBytes(stream, UnixMillis(nanos), Pass(old(Value()), o).cut.records)
      ensures ok == Pass(old(Value()), o.(fault := if o.fault.AppendFault? then NoFault else o.fault)).ok
    {
      hide CutBatch, BatchBytes, ReadAt;
      EmptyBatch(stream, UnixMillis(nanos));
      batch := [];
      if !open {
        if o.fault.OpenFault? { return false, []; }
        if !o.present { return true, []; }
        open := true;
      }
      if o.fault.StatFault? { return false, []; }
      if o.len < pos {
        pos, leftover, open := 0, [], false;
        return true, [];
      }
      if o.len == pos { return true, []; }
      if o.fault.SeekFault? { return false, []; }
      var want := Min(o.len - pos, MAX_READ_CHUNK);
      var combined := leftover;
      leftover := [];
      if o.fault.ReadFault? { return false, []; }
      var chunk := ReadAt(o.raw, pos, want);
      combined := combined + chunk;
      pos := pos + |chunk|;
      batch, leftover := BuildBatch(combined, nanos, stream);
      ok := true;
    }
  }

  // ---- what passes conserve ----

  /** Everything read so far is either in an emitted payload or in the leftover, in order. */
  ghost predicate Conserves(st: Tail, emitted: seq<seq<Byte>>, raw: seq<Byte>) {
    && st.pos <= |raw|
    && Concat(emitted) + st.leftover == raw[..st.pos]
    && NEWLINE !in st.leftover && |st.leftover| < MAX_LEFTOVER_BYTES
    && forall r | r in emitted :: GoodPayload(r)
  }

  /** A pass that finds the raw file extending what it has read before. */
  predicate Growing(st: Tail, o: Observation) { st.pos <= o.len <= |o.raw| }

  lemma ReadExtends(raw: seq<Byte>, pos: nat, want: nat)
    requires pos + want <= |raw|
    ensures raw[..pos] + ReadAt(raw, pos, want) == raw[..pos + want]
    ensures |ReadAt(raw, pos, want)| == want
  {
  }

  /** The pass gets as far as its read. */
  predicate Reads(st: Tail, o: Observation) { (st.open || o.present) && o.len > st.pos }

  /** What the pass would split if its read succeeds. */
  function Combined(st: Tail, o: Observation): seq<Byte>
    requires st.pos <= o.len
  {
    st.leftover + ReadAt(o.raw, st.pos, Min(o.len - st.pos, MAX_READ_CHUNK))
  }

  /** Exactly when a pass conserves: a failed read is harmless only on an empty leftover, a failed
      append only on an empty batch; open, stat and seek failures never lose anything. */
  lemma PassConservesIff(st: Tail, emitted: seq<seq<Byte>>, raw: seq<Byte>, o: Observation)
    requires Conserves(st, emitted, raw) && raw <= o.raw && Growing(st, o)
    ensures Conserves(Pass(st, o).state, emitted + Emitted(Pass(st, o)), o.raw)
       <==> (&& (Reads(st, o) && o.fault.ReadFault? ==> st.leftover == [])
             && (Reads(st, o) && o.fault.AppendFault? ==> CutBatch(Combined(st, o)).records == []))
  {
    hide CutBatch, ReadAt, IndexOf, GoodPayload, Pass, Concat;
    var r := Pass(st, o);
    PassShape(st, o);
    assert o.raw[..st.pos] == raw[..st.pos];
    assert emitted + [] == emitted;
    if Splits(st, o) {
      var want := Min(o.len - st.pos, MAX_READ_CHUNK);
      ReadExtends(o.raw, st.pos, want);
      CutConserves(st, emitted, o.raw, Combined(st, o), want, r);
    } else if Reads(st, o) && o.fault.ReadFault? {
      assert |Concat(emitted)| + |st.leftover| == st.pos;
      assert Concat(emitted) + [] == Concat(emitted);
    }
  }

  /** The pass gets as far as splitting what it read. */
  predicate Splits(st: Tail, o: Observation) {
    && Reads(st, o)
    && !(o.fault.StatFault? || o.fault.SeekFault? || o.fault.ReadFault? || (o.fault.OpenFault? && !st.open))
  }

  lemma PassShape(st: Tail, o: Observation)
    requires Growing(st, o)
    ensures var r := Pass(st, o);
            if Splits(st, o) then
              && r.cut == CutBatch(Combined(st, o)) && r.state.leftover == r.cut.leftover
              && r.state.pos == (if o.len - st.pos > 4 * 1024 * 1024 then st.pos + 4 * 1024 * 1024 else o.len)
              && r.appended == !(r.cut.records != [] && o.fault.AppendFault?)
            else
              && r.state.pos == st.pos && r.cut == NOTHING && r.appended
              && r.state.leftover == if Reads(st, o) && o.fault.ReadFault? then [] else st.leftover
  {
    hide CutBatch, ReadAt;
    if Splits(st, o) { ReadExtends(o.raw, st.pos, Min(o.len - st.pos, MAX_READ_CHUNK)); }
  }

  /** The step that fails is one the pass gets to. */
  predicate Fails(st: Tail, o: Observation) {
    var reached := st.open || o.present;
    match o.fault
    case NoFault => false
    case OpenFault => !st.open
    case StatFault => reached
    case SeekFault => reached && o.len > st.pos
    case ReadFault => reached && o.len > st.pos
    case AppendFault => reached && o.len > st.pos && CutBatch(Combined(st, o)).records != []
  }

  /** A pass reports an error exactly when a step it gets to fails, and holds the raw file open afterwards
      unless it could not be opened or was found truncated. */
  lemma PassReports(st: Tail, o: Observation)
    ensures Pass(st, o).ok <==> !Fails(st, o)
    ensures Pass(st, o).state.open
       <==> (&& (st.open || (o.present && !o.fault.OpenFault?))
             && (o.fault.StatFault? || o.len >= st.pos))
  {
    hide CutBatch, ReadAt;
  }

  // ---- the error counters of the loop ----

  const MAX_CONSECUTIVE_ERRORS: nat := 50

  /** Failures in a row at the end of the first `n` passes. */
  function Failures(oks: seq<bool>, n: nat): nat
    requires n <= |oks|
  {
    if n == 0 || oks[n - 1] then 0 else 1 + Failures(oks, n - 1)
  }

  lemma {:induction false} FailuresCount(oks: seq<bool>, n: nat, k: nat)
    requires n <= |oks|
    ensures Failures(oks, n) >= k <==> (k <= n && forall i | n - k <= i < n :: !oks[i])
    decreases k
  {
    if k > 0 && n > 0 { FailuresCount(oks, n - 1, k - 1); }
  }

  /** The last fifty of the first `n` passes failed. */
  predicate FiftyFailed(oks: seq<bool>, n: nat)
    requires n <= |oks|
  {
    50 <= n && forall i | n - 50 <= i < n :: !oks[i]
  }

  /** The turns of the tailer's loop, given how the passes of each stream went: it gives up after the first
      turn at which fifty passes in a row of one stream have failed, and not before. */
  method TailerLoop(out: seq<bool>, err: seq<bool>) returns (aborted: bool, turns: nat)
    requires |out| == |err|
    ensures turns <= |out| && (!aborted ==> turns == |out|)
    ensures aborted ==> FiftyFailed(out, turns) || FiftyFailed(err, turns)
    ensures forall n | 0 <= n < turns || (n == turns && !aborted) :: !FiftyFailed(out, n) && !FiftyFailed(err, n)
  {
    forall n | 0 <= n <= |out|
      ensures Failures(out, n) >= 50 <==> FiftyFailed(out, n)
      ensures Failures(err, n) >= 50 <==> FiftyFailed(err, n)
    {
      FailuresCount(out, n, 50);
      FailuresCount(err, n, 50);
    }
    aborted, turns := false, 0;
    var outErrors, errErrors := 0, 0;
    while turns < |out|
      invariant turns <= |out| && !aborted
      invariant outErrors == Failures(out, turns) && errErrors == Failures(err, turns)
      invariant forall n | 0 <= n <= turns :: !FiftyFailed(out, n) && !FiftyFailed(err, n)
    {
      outErrors := if out[turns] then 0 else outErrors + 1;
      errErrors := if err[turns] then 0 else errErrors + 1;
      turns := turns + 1;
      if outErrors >= MAX_CONSECUTIVE_ERRORS || errErrors >= MAX_CONSECUTIVE_ERRORS {
        aborted := true;
        return;
      }
    }
  }

  lemma CutConserves(st: Tail, emitted: seq<seq<Byte>>, raw: seq<Byte>, combined: seq<Byte>, want: nat, r: PassResult)
    requires Conserves(st, emitted, raw) && st.pos + want <= |raw| && want <= MAX_READ_CHUNK
    requires combined == st.leftover + ReadAt(raw, st.pos, want)
    requires r.cut == CutBatch(combined)
    requires r.state.pos == st.pos + want && r.state.leftover == r.cut.leftover
    requires !r.appended ==> r.cut.records != []
    ensures Conserves(r.state, emitted + Emitted(r), raw) <==> r.appended
  {
    hide CutBatch, ReadAt, IndexOf, LineOrFlush, Concat;
    ReadExtends(raw, st.pos, want);
    CutAccount(emitted, st.leftover + ReadAt(raw, st.pos, want), r.cut);
    var read := raw[..st.pos + want];
    assert Concat(emitted) + combined == read;
    if r.appended {
      CutPayloads(emitted, combined, r.cut);
    } else {
      assert emitted + Emitted(r) == emitted;
      assert |Concat(emitted) + r.cut.leftover| < |read|;
    }
  }

  /** Cutting moves bytes from what was read to payloads, and to none only if there are no payloads. */
  lemma CutAccount(emitted: seq<seq<Byte>>, combined: seq<Byte>, cut: Cut)
    requires cut == CutBatch(combined)
    ensures Concat(emitted + cut.records) + cut.leftover == Concat(emitted) + combined
    ensures NEWLINE !in cut.leftover && |cut.leftover| < MAX_LEFTOVER_BYTES
    ensures cut.records != [] ==> |cut.leftover| < |combined|
  {
    hide CutBatch, IndexOf, LineOrFlush;
    CutKeepsBytes(combined);
    ConcatAppend(emitted, cut.records);
    if cut.records != [] {
      assert cut.records[0] in cut.records;
      PayloadNonempty(cut.records[0]);
      assert |Concat(cut.records)| > 0;
    }
  }

  lemma CutPayloads(emitted: seq<seq<Byte>>, combined: seq<Byte>, cut: Cut)
    requires cut == CutBatch(combined) && |combined| <= MAX_EMITTED_BYTES && forall x | x in emitted :: GoodPayload(x)
    ensures forall x | x in emitted + cut.records :: GoodPayload(x)
  {
    hide CutBatch, IndexOf, LineOrFlush;
    CutKeepsBytes(combined);
    assert forall x | x in emitted + cut.records :: x in emitted || x in cut.records;
  }

  lemma PayloadNonempty(r: seq<Byte>)
    requires LineOrFlush(r)
    ensures |r| > 0
  {
  }

  /** A truncated raw file starts a new account: the partial line is dropped, nothing is emitted, and from
      here on the payloads are those of the new contents. */
  lemma TruncationRestarts(st: Tail, o: Observation)
    requires o.len < st.pos && (st.open || o.present) && o.fault.NoFault?
    ensures Emitted(Pass(st, o)) == [] && Pass(st, o).ok
    ensures Conserves(Pass(st, o).state, [], o.raw) && !Pass(st, o).state.open
  {
    assert Concat([]) + [] == [];
    assert o.raw[..0] == [];
  }

  // ---- runs of passes ----

  /** The raw file only grows, every pass sees it whole, and nothing fails. */
  predicate QuietRun(st: Tail, raw: seq<Byte>, obs: seq<Observation>)
    decreases |obs|
  {
    |obs| == 0 ||
    (&& raw <= obs[0].raw && Growing(st, obs[0]) && obs[0].fault.NoFault?
     && QuietRun(Pass(st, obs[0]).state, obs[0].raw, obs[1..]))
  }

  function RunState(st: Tail, obs: seq<Observation>): Tail
    decreases |obs|
  {
    if |obs| == 0 then st else RunState(Pass(st, obs[0]).state, obs[1..])
  }

  function RunEmitted(st: Tail, obs: seq<Observation>): seq<seq<Byte>>
    decreases |obs|
  {
    if |obs| == 0 then []
    else Emitted(Pass(st, obs[0])) + RunEmitted(Pass(st, obs[0]).state, obs[1..])
  }

  function LastRaw(raw: seq<Byte>, obs: seq<Observation>): seq<Byte> {
    if |obs| == 0 then raw else obs[|obs| - 1].raw
  }

  /** Over every run without faults or truncation, payloads plus leftover are the raw bytes read. */
  lemma {:induction false} RunConserves(st: Tail, emitted: seq<seq<Byte>>, raw: seq<Byte>, obs: seq<Observation>)
    requires Conserves(st, emitted, raw) && QuietRun(st, raw, obs)
    ensures Conserves(RunState(st, obs), emitted + RunEmitted(st, obs), LastRaw(raw, obs))
    decreases |obs|
  {
    hide Conserves, Pass;
    if |obs| == 0 {
      assert emitted + [] == emitted;
    } else {
      var r := Pass(st, obs[0]);
      PassConservesIff(st, emitted, raw, obs[0]);
      RunConserves(r.state, emitted + Emitted(r), obs[0].raw, obs[1..]);
      assert emitted + Emitted(r) + RunEmitted(r.state, obs[1..]) == emitted + RunEmitted(st, obs);
      assert LastRaw(obs[0].raw, obs[1..]) == LastRaw(raw, obs);
    }
  }

  // ---- poll timing ----

  /** No newline-free stretch of the raw file reaches the flush cap. */
  ghost predicate LinesStayShort(raw: seq<Byte>) {
    forall p | 0 <= p <= |raw| :: |SplitLines(raw[..p]).rest| < MAX_LEFTOVER_BYTES
  }

  /** The state any timing of passes leads to. */
  ghost predicate Canonical(st: Tail, emitted: seq<seq<Byte>>, raw: seq<Byte>) {
    && st.pos <= |raw|
    && Split(emitted, st.leftover) == SplitLines(raw[..st.pos])
  }

  lemma PassCanonical(st: Tail, emitted: seq<seq<Byte>>, raw: seq<Byte>, o: Observation)
    requires Canonical(st, emitted, raw) && raw <= o.raw && Growing(st, o) && o.fault.NoFault?
    requires LinesStayShort(o.raw)
    ensures Canonical(Pass(st, o).state, emitted + Emitted(Pass(st, o)), o.raw)
  {
    hide SplitLines, ReadAt, IndexOf;
    hide Pass;
    assert o.raw[..st.pos] == raw[..st.pos];
    assert emitted + [] == emitted;
    PassShape(st, o);
    if Splits(st, o) {
      var want := Min(o.len - st.pos, MAX_READ_CHUNK);
      ReadExtends(o.raw, st.pos, want);
      SplitIncremental(o.raw[..st.pos], ReadAt(o.raw, st.pos, want));
    }
  }

  /** If no line reaches the cap, the payloads do not depend on when the passes happen: they are the
      lines of the bytes read. */
  lemma {:induction false} TimingIndependence(st: Tail, emitted: seq<seq<Byte>>, raw: seq<Byte>, obs: seq<Observation>)
    requires Canonical(st, emitted, raw) && QuietRun(st, raw, obs)
    requires LinesStayShort(LastRaw(raw, obs))
    ensures var s := RunState(st, obs);
            && s.pos <= |LastRaw(raw, obs)|
            && emitted + RunEmitted(st, obs) == SplitLines(LastRaw(raw, obs)[..s.pos]).lines
            && s.leftover == SplitLines(LastRaw(raw, obs)[..s.pos]).rest
    decreases |obs|
  {
    hide Pass, SplitLines, LinesStayShort, Emitted;
    if |obs| == 0 {
      assert emitted + [] == emitted;
    } else {
      var r := Pass(st, obs[0]);
      GrowsToLast(st, raw, obs);
      ShortBefore(obs[0].raw, LastRaw(raw, obs));
      PassCanonical(st, emitted, raw, obs[0]);
      assert LastRaw(obs[0].raw, obs[1..]) == LastRaw(raw, obs);
      TimingIndependence(r.state, emitted + Emitted(r), obs[0].raw, obs[1..]);
      assert emitted + Emitted(r) + RunEmitted(r.state, obs[1..]) == emitted + RunEmitted(st, obs);
    }
  }

  lemma ShortBefore(raw: seq<Byte>, later: seq<Byte>)
    requires raw <= later && LinesStayShort(later)
    ensures LinesStayShort(raw)
  {
    hide SplitLines;
    forall p | 0 <= p <= |raw| ensures |SplitLines(raw[..p]).rest| < MAX_LEFTOVER_BYTES {
      assert raw[..p] == later[..p];
    }
  }

  lemma {:induction false} GrowsToLast(st: Tail, raw: seq<Byte>, obs: seq<Observation>)
    requires QuietRun(st, raw, obs)
    ensures raw <= LastRaw(raw, obs)
    ensures |obs| > 0 ==> obs[0].raw <= LastRaw(raw, obs)
    decreases |obs|
  {
    hide Pass;
    if |obs| > 0 {
      GrowsToLast(Pass(st, obs[0]).state, obs[0].raw, obs[1..]);
      assert LastRaw(obs[0].raw, obs[1..]) == LastRaw(raw, obs);
    }
  }

  // ---- the final drain ----

  /** The single pass made on stop carries the whole raw file over if and only if at most one read
      chunk is outstanding and what follows the last newline is nothing, or long enough to be flushed. */
  lemma FinalDrainIff(st: Tail, emitted: seq<seq<Byte>>, raw: seq<Byte>, o: Observation)
    requires Conserves(st, emitted, raw) && raw <= o.raw && Growing(st, o) && o.fault.NoFault?
    requires o.len == |o.raw| && (st.open || o.present)
    ensures Concat(emitted + Emitted(Pass(st, o))) == o.raw
       <==> (&& |o.raw| - st.pos <= 4 * 1024 * 1024
             && var last := SplitLines(st.leftover + o.raw[st.pos..]).rest;
                last == [] || |last| >= 1024 * 1024)
  {
    hide SplitLines, Conserves, Pass;
    PassConservesIff(st, emitted, raw, o);
    PassShape(st, o);
    var r := Pass(st, o);
    ConservesBytes(r.state, emitted + Emitted(r), o.raw);
    assert o.raw[..|o.raw|] == o.raw;
    assert Concat(emitted + Emitted(r)) + [] == Concat(emitted + Emitted(r));
    if |o.raw| == st.pos {
      assert st.leftover + o.raw[st.pos..] == st.leftover;
      NoLines(st, emitted, raw);
    }
  }

  lemma NoLines(st: Tail, emitted: seq<seq<Byte>>, raw: seq<Byte>)
    requires Conserves(st, emitted, raw)
    ensures SplitLines(st.leftover).rest == st.leftover && |st.leftover| < MAX_LEFTOVER_BYTES
  {
  }

  lemma ConservesBytes(st: Tail, emitted: seq<seq<Byte>>, raw: seq<Byte>)
    requires Conserves(st, emitted, raw)
    ensures st.pos <= |raw| && Concat(emitted) + st.leftover == raw[..st.pos]
  {
  }
}
