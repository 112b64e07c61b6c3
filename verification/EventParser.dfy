/** The parse loop shared by the file reader and the follower: decode, wait, or resync past the
    next newline. `Parse` is the reference semantics; the loops are proved against it. */
module EventParser {
  import opened Wrappers
  import opened Bytes
  import opened Codec

  /** What one turn of the loop does at its cursor. */
  datatype Step = Emit(entry: LogEntry, size: nat) | Skip(size: nat) | Wait

  /** Bytes to skip to get past the next newline. */
  function ResyncOffset(s: seq<Byte>): Option<nat> {
    var i := IndexOf(s, NEWLINE);
    if i < |s| then Some(i + 1) else None
  }

  function NextStep(s: seq<Byte>): (r: Step)
    ensures !r.Wait? ==> 0 < r.size <= |s|
  {
    match Decode(s)
    case Record(e, n) => Emit(e, n)
    case NeedMore => Wait
    case Malformed =>
      match ResyncOffset(s)
      case Some(n) => Skip(n)
      case None => Wait
  }

  datatype Parsed = Parsed(entries: seq<LogEntry>, rest: seq<Byte>)

  /** Entries of a byte stream, and the bytes no verdict has been reached on yet. */
  function Parse(s: seq<Byte>): (p: Parsed)
    ensures |p.rest| <= |s|
    decreases |s|
  {
    match NextStep(s)
    case Wait => Parsed([], s)
    case Skip(n) => Parse(s[n..])
    case Emit(e, n) =>
      var q := Parse(s[n..]);
      Parsed([e] + q.entries, q.rest)
  }

  /** One turn of the loop at `cursor`. */
  lemma ParseTurn(bytes: seq<Byte>, cursor: nat)
    requires cursor <= |bytes|
    ensures var step := NextStep(bytes[cursor..]);
            var p := Parse(bytes[cursor..]);
            && (step.Wait? ==> p == Parsed([], bytes[cursor..]))
            && (step.Skip? ==> p == Parse(bytes[cursor + step.size..]))
            && (step.Emit? ==>
                  var q := Parse(bytes[cursor + step.size..]);
                  p == Parsed([step.entry] + q.entries, q.rest))
  {
    hide NextStep, Parse;
    var step := NextStep(bytes[cursor..]);
    ParseStep(bytes[cursor..]);
    if !step.Wait? { assert bytes[cursor + step.size..] == bytes[cursor..][step.size..]; }
  }

  /** Reads a whole events file: the cursor loop of `parse_events_file`. */
  method ParseEventsFile(bytes: seq<Byte>) returns (out: seq<LogEntry>)
    ensures out == Parse(bytes).entries
  {
    hide Decode, Parse, IndexOf;
    out := [];
    var cursor := 0;
    assert bytes[0..] == bytes;
    while cursor < |bytes|
      invariant 0 <= cursor <= |bytes|
      invariant out + Parse(bytes[cursor..]).entries == Parse(bytes).entries
      decreases |bytes| - cursor
    {
      var view := bytes[cursor..];
      ParseTurn(bytes, cursor);
      match Decode(view) {
        case Record(entry, consumed) =>
          cursor := cursor + consumed;
          out := out + [entry];
        case NeedMore =>
          return;
        case Malformed =>
          match ResyncOffset(view) {
            case Some(skip) => cursor := cursor + skip;
            case None => return;
          }
      }
    }
    ParseTurn(bytes, |bytes|);
    EmptyNeedsMore();
  }

  // ---- poll independence ----

  lemma NextStepStable(s: seq<Byte>, t: seq<Byte>)
    requires !NextStep(s).Wait?
    ensures NextStep(s + t) == NextStep(s)
  {
    DecodeStable(s, t);
    IndexOfAppend(s, t, NEWLINE);
  }

  /** Parsing in two pieces, carrying the leftover, is parsing at once. No assumption on the bytes. */
  lemma {:induction false} ParseIncremental(s: seq<Byte>, t: seq<Byte>)
    ensures Parse(s + t)
         == Parsed(Parse(s).entries + Parse(Parse(s).rest + t).entries, Parse(Parse(s).rest + t).rest)
    decreases |s|
  {
    hide NextStep, Parse;
    var step := NextStep(s);
    ParseStep(s);
    if step.Wait? {
      assert [] + Parse(s + t).entries == Parse(s + t).entries;
    } else {
      var u := s[step.size..];
      NextStepStable(s, t);
      ParseStep(s + t);
      assert (s + t)[step.size..] == u + t;
      ParseIncremental(u, t);
      if step.Emit? {
        var p, q := Parse(u).entries, Parse(Parse(u).rest + t).entries;
        assert [step.entry] + (p + q) == ([step.entry] + p) + q;
      }
    }
  }

  lemma ParseStep(s: seq<Byte>)
    ensures var step := NextStep(s);
            && (step.Wait? ==> Parse(s) == Parsed([], s))
            && (step.Skip? ==> Parse(s) == Parse(s[step.size..]))
            && (step.Emit? ==>
                  Parse(s) == Parsed([step.entry] + Parse(s[step.size..]).entries, Parse(s[step.size..]).rest))
  {
    hide NextStep;
  }

  lemma {:induction false} RestWaits(s: seq<Byte>)
    ensures NextStep(Parse(s).rest).Wait?
    decreases |s|
  {
    hide NextStep;
    var step := NextStep(s);
    if !step.Wait? { RestWaits(s[step.size..]); }
  }

  /** The follower discards a leftover that is oversize and holds no newline. */
  predicate Stuck(rest: seq<Byte>) { |rest| > MAX_RECORD_BYTES && NEWLINE !in rest }

  function KeepLeftover(rest: seq<Byte>): seq<Byte> { if Stuck(rest) then [] else rest }

  /** Successive polls that read `chunks`, carrying the kept leftover from one to the next. */
  function Polls(leftover: seq<Byte>, chunks: seq<seq<Byte>>): Parsed
    decreases |chunks|
  {
    if |chunks| == 0 then Parsed([], leftover)
    else
      var p := Parse(leftover + chunks[0]);
      var q := Polls(KeepLeftover(p.rest), chunks[1..]);
      Parsed(p.entries + q.entries, q.rest)
  }

  /** The guard has nothing to discard at any of the polls made. */
  predicate SilentAtPolls(leftover: seq<Byte>, chunks: seq<seq<Byte>>)
    decreases |chunks|
  {
    |chunks| == 0 ||
    var rest := Parse(leftover + chunks[0]).rest;
    !Stuck(rest) && SilentAtPolls(rest, chunks[1..])
  }

  /** For any bytes and any split into polls, the follower's entries and leftover are those of one
      whole-stream parse, as long as the stuck-leftover guard does not fire at one of those polls. */
  lemma {:induction false} PollIndependence(done: seq<Byte>, chunks: seq<seq<Byte>>)
    requires SilentAtPolls(Parse(done).rest, chunks)
    ensures Parse(done + Concat(chunks))
         == Parsed(Parse(done).entries + Polls(Parse(done).rest, chunks).entries,
                   Polls(Parse(done).rest, chunks).rest)
    decreases |chunks|
  {
    hide Decode, NextStep, Parse;
    if |chunks| == 0 {
      assert done + Concat(chunks) == done;
    } else {
      var next := done + chunks[0];
      assert done + Concat(chunks) == next + Concat(chunks[1..]);
      ParseIncremental(done, chunks[0]);
      PollIndependence(next, chunks[1..]);
    }
  }

  // ---- well-formed streams ----

  predicate Fits(es: seq<LogEntry>) { forall e | e in es :: |e.data| <= MAX_RECORD_BYTES }

  /** Number of whole records in the first `p` bytes of an encoded list. */
  function WholeRecords(es: seq<LogEntry>, p: nat): (k: nat)
    ensures k <= |es|
  {
    if |es| == 0 || p < |Encode(es[0])| then 0
    else 1 + WholeRecords(es[1..], p - |Encode(es[0])|)
  }

  /** Any prefix of an encoded list parses to its whole records; what is left over is a strict
      prefix of the next record, or nothing. */
  lemma {:induction false} ParseEncodedPrefix(es: seq<LogEntry>, p: nat)
    requires Fits(es) && p <= |EncodeAll(es)|
    ensures var k := WholeRecords(es, p);
            var r := Parse(EncodeAll(es)[..p]);
            && r.entries == es[..k]
            && EncodeAll(es)[..p] == EncodeAll(es[..k]) + r.rest
            && (r.rest == [] || (k < |es| && |r.rest| < |Encode(es[k])| && r.rest == Encode(es[k])[..|r.rest|]))
  {
    hide Decode, NextStep, Encode, Parse;
    var s := EncodeAll(es)[..p];
    if |es| == 0 {
      assert s == [];
      ParseWaiting([]) by { EmptyNeedsMore(); }
    } else {
      var e, first := es[0], Encode(es[0]);
      if p < |first| {
        assert s == first[..p];
        ParseWaiting(s) by { StrictPrefixWaits(e, p); }
        assert es[..0] == [];
      } else {
        var tail := EncodeAll(es[1..])[..p - |first|];
        assert s == first + tail;
        ParseAfterRecord(e, tail);
        ParseEncodedPrefix(es[1..], p - |first|);
        EncodeAllCons(es, WholeRecords(es, p));
      }
    }
  }

  lemma EncodeAllCons(es: seq<LogEntry>, k: nat)
    requires 0 < k <= |es|
    ensures es[..k] == [es[0]] + es[1..][..k - 1]
    ensures EncodeAll(es[..k]) == Encode(es[0]) + EncodeAll(es[1..][..k - 1])
    ensures k < |es| ==> es[1..][k - 1] == es[k]
  {
    assert es[..k][1..] == es[1..][..k - 1];
  }

  lemma ParseWaiting(s: seq<Byte>)
    requires NextStep(s).Wait?
    ensures Parse(s) == Parsed([], s)
  {
  }

  lemma EmptyNeedsMore()
    ensures Decode([]) == NeedMore && NextStep([]).Wait?
  {
  }

  lemma ParseAfterRecord(e: LogEntry, tail: seq<Byte>)
    requires |e.data| <= MAX_RECORD_BYTES
    ensures Parse(Encode(e) + tail) == Parsed([e] + Parse(tail).entries, Parse(tail).rest)
  {
    hide Decode, Encode;
    DecodeEncode(e, tail);
    assert Encode(e) != [] by { EncodeNonempty(e); }
    assert (Encode(e) + tail)[|Encode(e)|..] == tail;
  }

  lemma StrictPrefixWaits(e: LogEntry, k: nat)
    requires |e.data| <= MAX_RECORD_BYTES && k < |Encode(e)|
    ensures NextStep(Encode(e)[..k]).Wait?
  {
    hide Decode, Encode;
    DecodeStrictPrefix(e, k);
  }

  lemma EncodeNonempty(e: LogEntry)
    ensures |Encode(e)| > 0
  {
  }

  /** Parsing a concatenation of encodings returns the list. */
  lemma ParseEncodeAll(es: seq<LogEntry>)
    requires Fits(es)
    ensures Parse(EncodeAll(es)) == Parsed(es, [])
  {
    var s := EncodeAll(es);
    assert s[..|s|] == s;
    ParseEncodedPrefix(es, |s|);
    var k := WholeRecords(es, |s|);
    EncodeAllAppend(es[..k], es[k..]);
    assert es == es[..k] + es[k..];
    assert k == |es|;
    assert es[..|es|] == es;
  }

  /** Parsing cannot produce entries whose encodings would not fit in what it consumed. */
  lemma {:induction false} ParseBudget(s: seq<Byte>)
    ensures |EncodeAll(Parse(s).entries)| + |Parse(s).rest| <= |s|
    decreases |s|
  {
    hide Decode, Encode;
    match NextStep(s)
    case Wait =>
    case Skip(n) => ParseBudget(s[n..]);
    case Emit(e, n) =>
      ParseBudget(s[n..]);
      DecodedIsAtLeastEncoding(s);
      var q := Parse(s[n..]).entries;
      assert ([e] + q)[1..] == q;
  }

  // ---- resync ----

  /** A garbage line is skipped and every record after it recovered: either the line with its
      newline is already judged malformed, or it has no space and the verdict comes with the next record. */
  lemma ResyncRecovers(garbage: seq<Byte>, es: seq<LogEntry>)
    requires NEWLINE !in garbage && Fits(es)
    requires Decode(garbage + [NEWLINE]) == Malformed || SPACE !in garbage
    ensures Parse(garbage + [NEWLINE] + EncodeAll(es)).entries == es
  {
    hide Decode, EncodeAll;
    var line := garbage + [NEWLINE];
    var s := line + EncodeAll(es);
    assert IndexOf(line, NEWLINE) == |garbage| by { assert line[|garbage|] == NEWLINE; }
    IndexOfAppend(line, EncodeAll(es), NEWLINE);
    assert s[|line|..] == EncodeAll(es);
    ParseEncodeAll(es);
    if Decode(line) == Malformed {
      DecodeStable(line, EncodeAll(es));
    } else if |es| > 0 {
      NewlineBeforeSpace(garbage, es);
    } else {
      LineWithoutSpace(garbage);
    }
  }

  lemma LineWithoutSpace(garbage: seq<Byte>)
    requires SPACE !in garbage
    ensures Decode(garbage + [NEWLINE] + EncodeAll([])) == NeedMore
  {
    var line := garbage + [NEWLINE];
    assert line + EncodeAll([]) == line;
    assert IndexOf(line, SPACE) == |line|;
  }

  lemma NewlineBeforeSpace(garbage: seq<Byte>, es: seq<LogEntry>)
    requires SPACE !in garbage && |es| > 0
    ensures Decode(garbage + [NEWLINE] + EncodeAll(es)) == Malformed
  {
    hide ParseU64, Decimal;
    var s := garbage + [NEWLINE] + EncodeAll(es);
    var space := IndexOf(s, SPACE);
    assert space < |s| by { RecordHasSpace(es, garbage + [NEWLINE]); }
    assert space > |garbage| by {
      assert forall j | 0 <= j < |garbage| :: s[j] == garbage[j];
      assert s[|garbage|] == NEWLINE;
    }
    NewlineIsNoNumber(s[..space], |garbage|);
  }

  lemma RecordHasSpace(es: seq<LogEntry>, front: seq<Byte>)
    requires |es| > 0
    ensures IndexOf(front + EncodeAll(es), SPACE) < |front + EncodeAll(es)|
  {
    hide Decimal;
    var k := |Decimal(es[0].ms)|;
    assert (front + EncodeAll(es))[|front| + k] == Encode(es[0])[k] == SPACE;
  }

  lemma NewlineIsNoNumber(field: seq<Byte>, i: nat)
    requires i < |field| && field[i] == NEWLINE
    ensures ParseU64(field) == None
  {
    hide DigitsValue;
    if i > 0 { assert field[1..][i - 1] == NEWLINE; }
  }

  // ---- the stuck-leftover guard ----

  /** Exactly which records the guard can cut in half: it leaves every partial read of `e` alone if
      and only if no strict prefix of the encoding exceeds the cap, or a newline comes early enough. */
  lemma GuardSparesIff(e: LogEntry)
    requires |e.data| <= MAX_RECORD_BYTES
    ensures (forall k | 0 <= k < |Encode(e)| :: KeepLeftover(Encode(e)[..k]) == Encode(e)[..k])
       <==> (|Encode(e)| <= 16 * 1024 * 1024 + 1 || NEWLINE in Encode(e)[..16 * 1024 * 1024 + 1])
  {
    var s := Encode(e);
    if |s| > MAX_RECORD_BYTES + 1 && NEWLINE !in s[..MAX_RECORD_BYTES + 1] {
      assert KeepLeftover(s[..MAX_RECORD_BYTES + 1]) != s[..MAX_RECORD_BYTES + 1];
    } else {
      forall k | 0 <= k < |s| ensures KeepLeftover(s[..k]) == s[..k] {
        if k > MAX_RECORD_BYTES {
          assert s[..k][..MAX_RECORD_BYTES + 1] == s[..MAX_RECORD_BYTES + 1];
        }
      }
    }
  }
}
