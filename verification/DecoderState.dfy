/** How much a follower's leftover matters: the state the decoder is in after a stretch of bytes it has
    reached no verdict on. Two such stretches are interchangeable for every continuation if and only if
    they leave the decoder in the same state. */
module DecoderState {
  import opened Wrappers
  import opened Bytes
  import opened Codec
  import opened EventParser

  /** A decimal field read so far. */
  datatype Digits = Blank | Signed | Value(n: nat)

  /** What the decoder is waiting for: the time, the stream character, the space after it, the length, the
      payload; or, once no record can come of the line, its end. */
  datatype State =
    | LineEnd
    | Time(t: Digits)
    | Source(ms: U64)
    | Gap(ms: U64, stream: Stream)
    | Length(ms: U64, stream: Stream, l: Digits)
    | Payload(ms: U64, stream: Stream, len: U64, data: seq<Byte>)

  /** None when no further bytes can make the field a number. */
  function DigitsOf(f: seq<Byte>): Option<Digits> {
    if f == [] then Some(Blank)
    else if f == [PLUS] then Some(Signed)
    else match ParseU64(f)
      case None => None
      case Some(n) => Some(Value(n))
  }

  function LengthOf(ms: U64, stream: Stream, f: seq<Byte>): State {
    match DigitsOf(f)
    case None => LineEnd
    case Some(l) => if l.Value? && l.n > MAX_RECORD_BYTES then LineEnd else Length(ms, stream, l)
  }

  /** What follows the first newline. */
  function NextLine(s: seq<Byte>): seq<Byte> {
    var nl := IndexOf(s, NEWLINE);
    if nl < |s| then s[nl + 1..] else []
  }

  /** The state after bytes without a space: a line that has ended can hold no record and is forgotten. */
  function TimeState(w: seq<Byte>): State
    decreases |w|
  {
    if NEWLINE in w then TimeState(NextLine(w))
    else match DigitsOf(w)
      case None => LineEnd
      case Some(t) => Time(t)
  }

  function LengthState(ms: U64, stream: Stream, g: seq<Byte>): State {
    match DecodeField(g)
    case BadField => LineEnd
    case Number(len, k) => Payload(ms, stream, len, g[k..])
    case ShortField => if NEWLINE in g then TimeState(NextLine(g)) else LengthOf(ms, stream, g)
  }

  function SourceState(ms: U64, r: seq<Byte>): State {
    if r == [] then Source(ms)
    else match StreamOfChar(r[0])
      case None => if r[0] == NEWLINE then TimeState([]) else LineEnd
      case Some(stream) => if |r| == 1 then Gap(ms, stream) else LengthState(ms, stream, r[2..])
  }

  /** The state after `w`, for a `w` the decoder waits on. */
  function StateOf(w: seq<Byte>): State {
    if Decode(w).Malformed? then LineEnd
    else match DecodeField(w)
      case BadField => LineEnd
      case ShortField => TimeState(w)
      case Number(ms, k) => SourceState(ms, w[k..])
  }

  function DigitBytes(d: Digits): seq<Byte> {
    match d
    case Blank => []
    case Signed => [PLUS]
    case Value(n) => Decimal(n)
  }

  /** The shortest bytes that lead to a state. */
  function Rep(s: State): seq<Byte> {
    match s
    case LineEnd => [SPACE]
    case Time(t) => DigitBytes(t)
    case Source(ms) => Decimal(ms) + [SPACE]
    case Gap(ms, stream) => Decimal(ms) + [SPACE, StreamChar(stream)]
    case Length(ms, stream, l) => Decimal(ms) + [SPACE, StreamChar(stream), SPACE] + DigitBytes(l)
    case Payload(ms, stream, len, data) => Header(ms, stream, len) + data
  }

  // ---- decoding in stages ----

  function Shift(d: Decoded, k: nat): Decoded { if d.Record? then Record(d.entry, d.consumed + k) else d }

  /** The verdict on what follows a complete header. */
  function AfterHeader(ms: U64, stream: Stream, len: nat, r: seq<Byte>): Decoded {
    if |r| < len + 1 then NeedMore
    else if r[len] != NEWLINE then Malformed
    else Record(LogEntry(stream, ms, r[..len]), len + 1)
  }

  /** The verdict on what follows the stream character and its space. */
  function AfterStream(ms: U64, stream: Stream, r: seq<Byte>): Decoded {
    match DecodeField(r)
    case ShortField => NeedMore
    case BadField => Malformed
    case Number(len, k) => if len > MAX_RECORD_BYTES then Malformed else Shift(AfterHeader(ms, stream, len, r[k..]), k)
  }

  /** The verdict on what follows the time and its space. */
  function AfterTime(ms: U64, r: seq<Byte>): Decoded {
    if |r| < 2 then NeedMore
    else if r[1] != SPACE then Malformed
    else match StreamOfChar(r[0])
      case None => Malformed
      case Some(stream) => Shift(AfterStream(ms, stream, r[2..]), 2)
  }

  function Staged(s: seq<Byte>): Decoded {
    match DecodeField(s)
    case ShortField => NeedMore
    case BadField => Malformed
    case Number(ms, k) => Shift(AfterTime(ms, s[k..]), k)
  }

  lemma DecodeStaged(s: seq<Byte>)
    ensures Decode(s) == Staged(s)
  {
    hide DecodeField;
    var f := DecodeField(s);
    if f.Number? {
      var r := s[f.size..];
      if |r| >= 2 {
        assert s[f.size + 2..] == r[2..];
        var g := DecodeField(r[2..]);
        if g.Number? {
          var start := f.size + 2 + g.size;
          assert r[2..][g.size..] == s[start..];
          if |s| > start + g.n { assert s[start..][..g.n] == s[start..start + g.n]; }
        }
      }
    }
  }

  // ---- fields ----

  lemma DigitsValueGrows(a: seq<Byte>, g: seq<Byte>)
    requires AllDigits(a) && AllDigits(g)
    ensures DigitsValue(a + g) >= DigitsValue(a)
  {
    if g == [] {
      assert a + g == a;
    } else {
      var h := g[..|g| - 1];
      assert (a + g)[..|a + g| - 1] == a + h;
      DigitsValueGrows(a, h);
    }
  }

  /** The digits behind an optional plus sign. */
  function Unsigned(f: seq<Byte>): seq<Byte> { if |f| > 0 && f[0] == PLUS then f[1..] else f }

  lemma UnsignedAppend(f: seq<Byte>, g: seq<Byte>)
    requires f != []
    ensures Unsigned(f + g) == Unsigned(f) + g
  {
  }

  lemma AllDigitsSplit(a: seq<Byte>, g: seq<Byte>)
    ensures AllDigits(a + g) <==> AllDigits(a) && AllDigits(g)
  {
    if AllDigits(a + g) {
      assert forall i | 0 <= i < |a| :: a[i] == (a + g)[i];
      assert forall i | 0 <= i < |g| :: g[i] == (a + g)[|a| + i];
    }
  }

  /** Fields of the same value stay of the same value. */
  lemma SameNumber(f: seq<Byte>, f': seq<Byte>, g: seq<Byte>)
    requires ParseU64(f).Some? && ParseU64(f') == ParseU64(f)
    ensures ParseU64(f + g) == ParseU64(f' + g)
  {
    var a, b := Unsigned(f), Unsigned(f');
    UnsignedAppend(f, g);
    UnsignedAppend(f', g);
    AllDigitsSplit(a, g);
    AllDigitsSplit(b, g);
    if AllDigits(g) { DigitsValueSame(a, b, g); }
  }

  /** A field that is no start of a number stays one; a number only grows. */
  lemma DeadNumber(f: seq<Byte>, g: seq<Byte>)
    ensures DigitsOf(f) == None ==> ParseU64(f + g) == None
    ensures ParseU64(f).Some? && ParseU64(f + g).Some? ==> ParseU64(f + g).value >= ParseU64(f).value
  {
    if f != [] {
      var a := Unsigned(f);
      UnsignedAppend(f, g);
      AllDigitsSplit(a, g);
      if AllDigits(a) && AllDigits(g) { DigitsValueGrows(a, g); }
      if a == [] { assert f == [PLUS]; }
    }
  }

  /** A field with no space of its own, continued. */
  lemma FieldContinued(f: seq<Byte>, u: seq<Byte>)
    requires SPACE !in f
    ensures var j := IndexOf(u, SPACE);
            DecodeField(f + u)
            == if j == |u| then ShortField
               else if ParseU64(f + u[..j]).None? then BadField
               else Number(ParseU64(f + u[..j]).value, |f| + j + 1)
  {
    hide ParseU64, IndexOf, DecodeField;
    IndexOfAppend(f, u, SPACE);
    assert IndexOf(f, SPACE) == |f|;
    var j := IndexOf(u, SPACE);
    FieldAt(f + u, |f| + j);
    if j < |u| { assert (f + u)[..|f| + j] == f + u[..j]; }
  }

  lemma FieldAt(s: seq<Byte>, k: nat)
    requires IndexOf(s, SPACE) == k
    ensures DecodeField(s)
         == if k == |s| then ShortField
            else if ParseU64(s[..k]).None? then BadField else Number(ParseU64(s[..k]).value, k + 1)
  {
    hide ParseU64, IndexOf;
  }

  /** A complete time field, then the rest. */
  lemma AfterTimeField(f: seq<Byte>, ms: U64, r: seq<Byte>)
    requires ParseU64(f) == Some(ms)
    ensures Decode(f + [SPACE] + r) == Shift(AfterTime(ms, r), |f| + 1)
  {
    hide ParseU64, DecodeField, Decode, AfterTime;
    NumberBytes(f);
    var u := [SPACE] + r;
    assert f + [SPACE] + r == f + u;
    FieldContinued(f, u);
    assert u[..0] == [] && f + [] == f;
    assert (f + u)[|f| + 1..] == r;
    DecodeStaged(f + u);
  }

  /** A complete time field, stream character and space, then the rest. */
  lemma AfterStreamChar(f: seq<Byte>, ms: U64, stream: Stream, r: seq<Byte>)
    requires ParseU64(f) == Some(ms)
    ensures Decode(f + [SPACE, StreamChar(stream), SPACE] + r) == Shift(AfterStream(ms, stream, r), |f| + 3)
  {
    hide ParseU64, DecodeField, Decode, AfterStream;
    var u := [StreamChar(stream), SPACE] + r;
    assert f + [SPACE, StreamChar(stream), SPACE] + r == f + [SPACE] + u;
    AfterTimeField(f, ms, u);
    assert u[2..] == r;
  }

  /** A complete length field, then the rest. */
  lemma AfterLengthField(ms: U64, stream: Stream, g: seq<Byte>, len: U64, r: seq<Byte>)
    requires ParseU64(g) == Some(len)
    ensures AfterStream(ms, stream, g + [SPACE] + r)
         == if len > MAX_RECORD_BYTES then Malformed else Shift(AfterHeader(ms, stream, len, r), |g| + 1)
  {
    hide ParseU64, DecodeField, AfterHeader;
    NumberBytes(g);
    var u := [SPACE] + r;
    assert g + [SPACE] + r == g + u;
    FieldContinued(g, u);
    assert u[..0] == [] && g + [] == g;
    assert (g + u)[|g| + 1..] == r;
  }

  /** The bytes of a record in any notation the decoder takes: numbers with a plus sign or leading zeros too. */
  function Written(f: seq<Byte>, e: LogEntry, g: seq<Byte>): seq<Byte> {
    f + [SPACE, if e.stream.Stdout? then 111 else 101, SPACE] + (g + [SPACE] + (e.data + [NEWLINE]))
  }

  /** What the decoder accepts: exactly a time and a length that parse as u64, an `o` or an `e`, single spaces
      after each, as many bytes as the length says, at most sixteen mebibytes, and a newline. */
  lemma RecordIff(s: seq<Byte>, e: LogEntry, n: nat)
    ensures Decode(s) == Record(e, n)
       <==> exists f: seq<Byte>, g: seq<Byte> ::
              && ParseU64(f) == Some(e.ms) && |e.data| <= 16 * 1024 * 1024 && ParseU64(g) == Some(|e.data|)
              && Written(f, e, g) <= s && n == |Written(f, e, g)|
  {
    hide Decode, ParseU64, DecodeField, Written;
    if Decode(s) == Record(e, n) { RecordIsWritten(s); }
    if f: seq<Byte>, g: seq<Byte> :|
      && ParseU64(f) == Some(e.ms) && |e.data| <= 16 * 1024 * 1024 && ParseU64(g) == Some(|e.data|)
      && Written(f, e, g) <= s && n == |Written(f, e, g)|
    {
      WrittenDecodes(f, e, g, s[n..]);
      assert s == Written(f, e, g) + s[n..];
    }
  }

  lemma WrittenDecodes(f: seq<Byte>, e: LogEntry, g: seq<Byte>, t: seq<Byte>)
    requires ParseU64(f) == Some(e.ms) && |e.data| <= MAX_RECORD_BYTES && ParseU64(g) == Some(|e.data|)
    ensures Decode(Written(f, e, g) + t) == Record(e, |Written(f, e, g)|)
  {
    hide Decode, ParseU64, DecodeField, AfterStream;
    var body := e.data + [NEWLINE] + t;
    AfterStreamChar(f, e.ms, e.stream, g + [SPACE] + body);
    AfterLengthField(e.ms, e.stream, g, |e.data|, body);
    assert Written(f, e, g) + t == f + [SPACE, StreamChar(e.stream), SPACE] + (g + [SPACE] + body);
    assert body[..|e.data|] == e.data;
  }

  lemma RecordIsWritten(s: seq<Byte>)
    requires Decode(s).Record?
    ensures var e := Decode(s).entry;
            exists f: seq<Byte>, g: seq<Byte> ::
              && ParseU64(f) == Some(e.ms) && |e.data| <= MAX_RECORD_BYTES && ParseU64(g) == Some(|e.data|)
              && Written(f, e, g) <= s && Decode(s).consumed == |Written(f, e, g)|
  {
    hide Decode, ParseU64, DecodeField, AfterStream;
    DecodeStaged(s);
    FieldBytes(s);
    var d := DecodeField(s);
    var f, r, e := s[..d.size - 1], s[d.size..], Decode(s).entry;
    StreamRecord(d.n, StreamOfChar(r[0]).value, r[2..]);
    var g: seq<Byte> :| && ParseU64(g) == Some(|e.data|) && g + [SPACE] + (e.data + [NEWLINE]) <= r[2..]
                        && Decode(s).consumed == d.size + 2 + |g + [SPACE] + (e.data + [NEWLINE])|;
    WrittenPrefix(s, f, r, e, g);
  }

  lemma WrittenPrefix(s: seq<Byte>, f: seq<Byte>, r: seq<Byte>, e: LogEntry, g: seq<Byte>)
    requires s == f + [SPACE] + r && |r| >= 2 && r[0] == StreamChar(e.stream) && r[1] == SPACE
    requires g + [SPACE] + (e.data + [NEWLINE]) <= r[2..]
    ensures Written(f, e, g) <= s
  {
    var body := g + [SPACE] + (e.data + [NEWLINE]);
    assert r == [r[0], r[1]] + r[2..];
    assert r[2..] == body + r[2..][|body|..];
    assert s == Written(f, e, g) + r[2..][|body|..];
  }

  lemma StreamRecord(ms: U64, stream: Stream, q: seq<Byte>)
    requires AfterStream(ms, stream, q).Record?
    ensures var d := AfterStream(ms, stream, q);
            && d.entry.ms == ms && d.entry.stream == stream && |d.entry.data| <= MAX_RECORD_BYTES
            && exists g: seq<Byte> ::
                 && ParseU64(g) == Some(|d.entry.data|) && g + [SPACE] + (d.entry.data + [NEWLINE]) <= q
                 && d.consumed == |g + [SPACE] + (d.entry.data + [NEWLINE])|
  {
    hide ParseU64, DecodeField;
    FieldBytes(q);
    var l := DecodeField(q);
    var g, p, data := q[..l.size - 1], q[l.size..], AfterStream(ms, stream, q).entry.data;
    assert p == data + [NEWLINE] + p[|data| + 1..];
    assert q == g + [SPACE] + (data + [NEWLINE]) + p[|data| + 1..];
  }

  /** What the decoder waits on: bytes that could still become a record, or whose first field has not ended. */
  ghost predicate AwaitsLength(q: seq<Byte>) {
    || SPACE !in q
    || exists g: seq<Byte>, p: seq<Byte> ::
         && q == g + [SPACE] + p && ParseU64(g).Some?
         && |p| <= ParseU64(g).value <= 16 * 1024 * 1024
  }

  ghost predicate AwaitsStream(r: seq<Byte>) {
    |r| < 2 || (r[1] == SPACE && (r[0] == 111 || r[0] == 101) && AwaitsLength(r[2..]))
  }

  lemma NeedMoreIff(s: seq<Byte>)
    ensures Decode(s) == NeedMore
       <==> (|| SPACE !in s
             || exists f: seq<Byte>, r: seq<Byte> :: s == f + [SPACE] + r && ParseU64(f).Some? && AwaitsStream(r))
  {
    hide Decode, ParseU64, DecodeField, AwaitsLength, AfterStream;
    DecodeStaged(s);
    FieldBytes(s);
    var d := DecodeField(s);
    if d.Number? {
      var f, r := s[..d.size - 1], s[d.size..];
      StreamWaitsIff(d.n, r);
      assert s == f + [SPACE] + r;
      forall f': seq<Byte>, r': seq<Byte> | s == f' + [SPACE] + r' && ParseU64(f').Some?
        ensures AwaitsStream(r') <==> Decode(s) == NeedMore
      {
        AfterTimeField(f', ParseU64(f').value, r');
        StreamWaitsIff(ParseU64(f').value, r');
      }
    } else if d.BadField? {
      forall f': seq<Byte>, r': seq<Byte> | s == f' + [SPACE] + r' ensures ParseU64(f').None? {
        if ParseU64(f').Some? {
          NumberBytes(f');
          FieldContinued(f', [SPACE] + r');
          assert s == f' + ([SPACE] + r');
          assert ([SPACE] + r')[0] == SPACE;
          assert f' + ([SPACE] + r')[..0] == f';
        }
      }
    }
  }

  lemma StreamWaitsIff(ms: U64, r: seq<Byte>)
    ensures AfterTime(ms, r) == NeedMore <==> AwaitsStream(r)
  {
    hide AfterStream, AwaitsLength;
    if |r| >= 2 && StreamOfChar(r[0]).Some? { LengthWaitsIff(ms, StreamOfChar(r[0]).value, r[2..]); }
  }

  lemma LengthWaitsIff(ms: U64, stream: Stream, q: seq<Byte>)
    ensures AfterStream(ms, stream, q) == NeedMore <==> AwaitsLength(q)
  {
    hide ParseU64, DecodeField;
    FieldBytes(q);
    var l := DecodeField(q);
    if l.Number? { assert q == q[..l.size - 1] + [SPACE] + q[l.size..]; }
    forall g: seq<Byte>, p: seq<Byte> | q == g + [SPACE] + p && ParseU64(g).Some?
      ensures AfterStream(ms, stream, q) == NeedMore <==> |p| <= ParseU64(g).value <= 16 * 1024 * 1024
    {
      AfterLengthField(ms, stream, g, ParseU64(g).value, p);
    }
  }

  lemma NumberBytes(f: seq<Byte>)
    requires ParseU64(f).Some?
    ensures SPACE !in f && NEWLINE !in f
  {
    hide DigitsValue;
    var t := Unsigned(f);
    assert AllDigits(t);
    if t != f { assert f == [PLUS] + t; }
  }

  // ---- lines that can hold no record ----

  /** Whatever follows, no record starts at the front of `w`, and the verdict waits for no more than a space. */
  ghost predicate Broken(w: seq<Byte>) {
    forall t: seq<Byte> :: !Decode(w + t).Record? && (Decode(w + t).NeedMore? ==> SPACE !in t)
  }

  lemma NoSpaceNoEntries(s: seq<Byte>)
    requires SPACE !in s
    ensures Decode(s) == NeedMore && Parse(s) == Parsed([], s)
  {
    assert IndexOf(s, SPACE) == |s|;
  }

  lemma BrokenSkips(w: seq<Byte>, t: seq<Byte>)
    requires Broken(w) && SPACE !in NextLine(w)
    ensures Parse(w + t).entries == Parse(NextLine(w + t)).entries
  {
    hide Decode, Parse, IndexOf;
    var s := w + t;
    ParseVerdict(s);
    IndexOfAppend(w, t, NEWLINE);
    if Decode(s).NeedMore? { NoSpaceNoEntries(NextLine(s)); }
  }

  /** A broken line without a newline yet is skipped to the next one. */
  lemma BrokenLine(w: seq<Byte>, t: seq<Byte>)
    requires Broken(w) && NEWLINE !in w
    ensures Parse(w + t).entries == Parse(Rep(LineEnd) + t).entries
  {
    hide Decode, Parse, Broken, NextLine;
    SpaceIsBroken();
    NoNextLine(w);
    NoNextLine([SPACE]);
    BrokenSkips(w, t);
    BrokenSkips([SPACE], t);
    NextLineAfter(w, t);
    NextLineAfter([SPACE], t);
  }

  lemma SpaceIsBroken()
    ensures Broken([SPACE])
  {
    hide Decode;
    forall t: seq<Byte> ensures Decode([SPACE] + t).Malformed? { SpaceIsMalformed(t); }
  }

  lemma NoNextLine(w: seq<Byte>)
    requires NEWLINE !in w
    ensures NextLine(w) == []
  {
  }

  /** A broken line with its newline is forgotten. */
  lemma BrokenForgotten(w: seq<Byte>, t: seq<Byte>)
    requires Broken(w) && NEWLINE in w && SPACE !in NextLine(w)
    ensures Parse(w + t).entries == Parse(NextLine(w) + t).entries
  {
    hide Decode, Parse, IndexOf, Broken;
    BrokenSkips(w, t);
    IndexOfAppend(w, t, NEWLINE);
    var nl := IndexOf(w, NEWLINE);
    assert (w + t)[nl + 1..] == w[nl + 1..] + t;
  }

  lemma BrokenByVerdict(w: seq<Byte>)
    requires Decode(w).Malformed?
    ensures Broken(w)
  {
    hide Decode;
    forall t: seq<Byte> ensures Decode(w + t).Malformed? { DecodeStable(w, t); }
  }

  /** No continuation makes the field a number. */
  predicate DeadField(f: seq<Byte>) { DigitsOf(f) == None || NEWLINE in f }

  lemma DeadFieldStays(f: seq<Byte>, g: seq<Byte>)
    requires DeadField(f)
    ensures ParseU64(f + g) == None
  {
    hide ParseU64;
    DeadNumber(f, g);
    if NEWLINE in f {
      var i :| 0 <= i < |f| && f[i] == NEWLINE;
      NewlineIsNoNumber(f + g, i);
    }
  }

  lemma BrokenTime(w: seq<Byte>)
    requires SPACE !in w && DeadField(w)
    ensures Broken(w)
  {
    hide Decode, ParseU64, DecodeField, AfterTime, DeadField;
    forall t: seq<Byte> ensures !Decode(w + t).Record? && (Decode(w + t).NeedMore? ==> SPACE !in t) {
      DecodeStaged(w + t);
      FieldContinued(w, t);
      DeadFieldStays(w, t[..IndexOf(t, SPACE)]);
    }
  }

  lemma BrokenStream(w: seq<Byte>, f: seq<Byte>, ms: U64, c: Byte)
    requires w == f + [SPACE, c] && ParseU64(f) == Some(ms) && StreamOfChar(c) == None
    ensures Broken(w)
  {
    hide Decode, ParseU64, AfterStream;
    forall t: seq<Byte> ensures !Decode(w + t).Record? && (Decode(w + t).NeedMore? ==> SPACE !in t) {
      assert w + t == f + [SPACE] + ([c] + t);
      AfterTimeField(f, ms, [c] + t);
    }
  }

  lemma BrokenLength(w: seq<Byte>, f: seq<Byte>, ms: U64, stream: Stream, g: seq<Byte>)
    requires w == f + [SPACE, StreamChar(stream), SPACE] + g && ParseU64(f) == Some(ms) && SPACE !in g
    requires DeadField(g) || LengthOf(ms, stream, g) == LineEnd
    ensures Broken(w)
  {
    hide Decode, ParseU64, AfterHeader, DecodeField;
    forall t: seq<Byte> ensures !Decode(w + t).Record? && (Decode(w + t).NeedMore? ==> SPACE !in t) {
      assert w + t == f + [SPACE, StreamChar(stream), SPACE] + (g + t);
      AfterStreamChar(f, ms, stream, g + t);
      FieldContinued(g, t);
      var more := t[..IndexOf(t, SPACE)];
      if DeadField(g) { DeadFieldStays(g, more); } else { DeadNumber(g, more); }
    }
  }

  // ---- notation does not matter ----

  /** The same verdict after `a` bytes and after `b`. */
  predicate Matches(d: Decoded, a: nat, e: Decoded, b: nat) {
    && (d.NeedMore? <==> e.NeedMore?) && (d.Malformed? <==> e.Malformed?)
    && (d.Record? ==> e.Record? && d.entry == e.entry && d.consumed >= a && d.consumed - a == e.consumed - b)
  }

  lemma MatchesParse(h: seq<Byte>, h': seq<Byte>, u: seq<Byte>)
    requires NEWLINE !in h && NEWLINE !in h'
    requires Matches(Decode(h + u), |h|, Decode(h' + u), |h'|)
    ensures Parse(h + u).entries == Parse(h' + u).entries
  {
    hide Decode, Parse, NextLine;
    ParseVerdict(h + u);
    ParseVerdict(h' + u);
    var d, e := Decode(h + u), Decode(h' + u);
    if d.Record? {
      assert (h + u)[d.consumed..] == u[d.consumed - |h|..] == (h' + u)[e.consumed..];
    }
    NextLineAfter(h, u);
    NextLineAfter(h', u);
  }

  /** What each verdict means for the entries. */
  lemma ParseVerdict(s: seq<Byte>)
    ensures var d := Decode(s);
            && (d.NeedMore? ==> Parse(s).entries == [])
            && (d.Malformed? ==> Parse(s).entries == Parse(NextLine(s)).entries)
            && (d.Record? ==> Parse(s).entries == [d.entry] + Parse(s[d.consumed..]).entries)
  {
    hide Decode, Parse, IndexOf;
    ParseStep(s);
    NoSpaceNoEntries([]);
  }

  /** Another notation of the time. */
  lemma TwinTime(f: seq<Byte>, f': seq<Byte>, u: seq<Byte>)
    requires ParseU64(f).Some? && ParseU64(f') == ParseU64(f)
    ensures Parse(f + u).entries == Parse(f' + u).entries
  {
    hide ParseU64, DecodeField, Decode, AfterTime, Parse;
    NumberBytes(f);
    NumberBytes(f');
    FieldContinued(f, u);
    FieldContinued(f', u);
    var j := IndexOf(u, SPACE);
    SameNumber(f, f', u[..j]);
    DecodeStaged(f + u);
    DecodeStaged(f' + u);
    if j < |u| { assert (f + u)[|f| + j + 1..] == u[j + 1..] == (f' + u)[|f'| + j + 1..]; }
    MatchesParse(f, f', u);
  }

  /** Another notation of the length. */
  lemma TwinLength(f: seq<Byte>, ms: U64, stream: Stream, g: seq<Byte>, g': seq<Byte>, u: seq<Byte>)
    requires ParseU64(f) == Some(ms) && ParseU64(g).Some? && ParseU64(g') == ParseU64(g)
    ensures var front := f + [SPACE, StreamChar(stream), SPACE];
            Parse(front + g + u).entries == Parse(front + g' + u).entries
  {
    hide ParseU64, DecodeField, Decode, AfterHeader, Parse;
    var front := f + [SPACE, StreamChar(stream), SPACE];
    NumberBytes(f);
    NumberBytes(g);
    NumberBytes(g');
    AfterStreamChar(f, ms, stream, g + u);
    AfterStreamChar(f, ms, stream, g' + u);
    assert front + g + u == front + (g + u) && front + g' + u == front + (g' + u);
    FieldContinued(g, u);
    FieldContinued(g', u);
    var j := IndexOf(u, SPACE);
    SameNumber(g, g', u[..j]);
    if j < |u| { assert (g + u)[|g| + j + 1..] == u[j + 1..] == (g' + u)[|g'| + j + 1..]; }
    MatchesParse(front + g, front + g', u);
  }

  // ---- a state is all that matters ----

  /** The bytes of a field that has been decided. */
  lemma FieldBytes(w: seq<Byte>)
    ensures var d := DecodeField(w);
            && (d.ShortField? <==> SPACE !in w)
            && (d.Number? ==>
                  && 0 < d.size <= |w| && ParseU64(w[..d.size - 1]) == Some(d.n)
                  && w == w[..d.size - 1] + [SPACE] + w[d.size..])
  {
    hide ParseU64;
    if SPACE in w { assert IndexOf(w, SPACE) < |w|; }
  }

  lemma {:induction false} ResumesTime(w: seq<Byte>, t: seq<Byte>)
    requires SPACE !in w
    ensures Parse(w + t).entries == Parse(Rep(TimeState(w)) + t).entries
    decreases |w|
  {
    hide Decode, Parse, IndexOf, ParseU64, Broken;
    if NEWLINE in w {
      BrokenTime(w);
      BrokenForgotten(w, t);
      ResumesTime(NextLine(w), t);
    } else if DigitsOf(w) == None {
      BrokenTime(w);
      BrokenLine(w, t);
    } else if ParseU64(w).Some? && w != [] && w != [PLUS] {
      ParseDecimal(ParseU64(w).value);
      TwinTime(w, Decimal(ParseU64(w).value), t);
    }
  }

  lemma NextLineAfter(front: seq<Byte>, g: seq<Byte>)
    requires NEWLINE !in front
    ensures NextLine(front + g) == NextLine(g)
  {
    hide IndexOf;
    IndexOfAppend(front, g, NEWLINE);
    var i := IndexOf(g, NEWLINE);
    if i < |g| { assert (front + g)[|front| + i + 1..] == g[i + 1..]; }
  }

  lemma ResumesLength(f: seq<Byte>, ms: U64, stream: Stream, g: seq<Byte>, t: seq<Byte>)
    requires ParseU64(f) == Some(ms)
    requires !Decode(f + [SPACE, StreamChar(stream), SPACE] + g).Malformed?
    ensures Parse(f + [SPACE, StreamChar(stream), SPACE] + g + t).entries
         == Parse(Rep(LengthState(ms, stream, g)) + t).entries
  {
    hide Decode, Parse, IndexOf, ParseU64, Broken, DecodeField, AfterHeader, TimeState, Decimal, NextLine;
    var front := f + [SPACE, StreamChar(stream), SPACE];
    NumberBytes(f);
    AfterStreamChar(f, ms, stream, g);
    FieldBytes(g);
    var d := DecodeField(g);
    if d.Number? {
      ResumesPayload(f, ms, stream, g[..d.size - 1], d.n, g[d.size..], t);
    } else if NEWLINE in g {
      BrokenLength(front + g, f, ms, stream, g);
      NextLineAfter(front, g);
      NextLineNoSpace(g);
      BrokenForgotten(front + g, t);
      ResumesTime(NextLine(g), t);
    } else if LengthOf(ms, stream, g) == LineEnd {
      BrokenLength(front + g, f, ms, stream, g);
      BrokenLine(front + g, t);
    } else {
      ResumesDigits(f, ms, stream, g, t);
    }
  }

  lemma NextLineNoSpace(g: seq<Byte>)
    requires SPACE !in g
    ensures SPACE !in NextLine(g)
  {
  }

  lemma ResumesPayload(f: seq<Byte>, ms: U64, stream: Stream, g: seq<Byte>, len: U64, data: seq<Byte>, t: seq<Byte>)
    requires ParseU64(f) == Some(ms) && ParseU64(g) == Some(len)
    ensures Parse(f + [SPACE, StreamChar(stream), SPACE] + (g + [SPACE] + data) + t).entries
         == Parse(Rep(Payload(ms, stream, len, data)) + t).entries
  {
    hide Parse, ParseU64, Decimal;
    var mid, u := [SPACE, StreamChar(stream), SPACE], [SPACE] + data + t;
    ParseDecimal(ms);
    ParseDecimal(len);
    TwinLength(f, ms, stream, g, Decimal(len), u);
    TwinTime(f, Decimal(ms), mid + Decimal(len) + u);
    assert f + mid + (g + [SPACE] + data) + t == f + mid + g + u;
    assert f + mid + Decimal(len) + u == f + (mid + Decimal(len) + u);
    assert Rep(Payload(ms, stream, len, data)) + t == Decimal(ms) + (mid + Decimal(len) + u);
  }

  lemma ResumesDigits(f: seq<Byte>, ms: U64, stream: Stream, g: seq<Byte>, t: seq<Byte>)
    requires ParseU64(f) == Some(ms) && LengthOf(ms, stream, g).Length?
    ensures Parse(f + [SPACE, StreamChar(stream), SPACE] + g + t).entries
         == Parse(Rep(LengthOf(ms, stream, g)) + t).entries
  {
    hide Parse, ParseU64, Decimal;
    var mid, g' := [SPACE, StreamChar(stream), SPACE], DigitBytes(DigitsOf(g).value);
    ParseDecimal(ms);
    if g != [] && g != [PLUS] {
      ParseDecimal(ParseU64(g).value);
      TwinLength(f, ms, stream, g, g', t);
    }
    TwinTime(f, Decimal(ms), mid + g' + t);
    assert f + mid + g' + t == f + (mid + g' + t);
    assert Rep(LengthOf(ms, stream, g)) + t == Decimal(ms) + (mid + g' + t);
  }

  lemma ResumesSource(f: seq<Byte>, ms: U64, r: seq<Byte>, t: seq<Byte>)
    requires ParseU64(f) == Some(ms) && !Decode(f + [SPACE] + r).Malformed?
    ensures Parse(f + [SPACE] + r + t).entries == Parse(Rep(SourceState(ms, r)) + t).entries
  {
    hide Decode, Parse, IndexOf, ParseU64, Broken, LengthState, AfterStream, Decimal;
    AfterTimeField(f, ms, r);
    NumberBytes(f);
    ParseDecimal(ms);
    TwinTime(f, Decimal(ms), [SPACE] + r + t);
    assert f + [SPACE] + r + t == f + ([SPACE] + r + t);
    if |r| >= 2 {
      var stream := StreamOfChar(r[0]).value;
      assert f + [SPACE] + r == f + [SPACE, StreamChar(stream), SPACE] + r[2..];
      ResumesLength(f, ms, stream, r[2..], t);
    } else if |r| == 1 && StreamOfChar(r[0]) == None {
      var w := f + [SPACE, r[0]];
      assert f + [SPACE] + r == w;
      BrokenStream(w, f, ms, r[0]);
      if r[0] == NEWLINE {
        NextLineAfter(f + [SPACE], [NEWLINE]);
        assert w == f + [SPACE] + [NEWLINE];
        assert NextLine([NEWLINE]) == [];
        BrokenForgotten(w, t);
        ResumesTime([], t);
      } else {
        BrokenLine(w, t);
      }
    } else {
      assert Rep(SourceState(ms, r)) + t == Decimal(ms) + ([SPACE] + r + t);
    }
  }

  /** Nothing but the state of the decoder matters for what a continuation yields. */
  lemma Resumes(w: seq<Byte>, t: seq<Byte>)
    requires NextStep(w).Wait?
    ensures Parse(w + t).entries == Parse(Rep(StateOf(w)) + t).entries
  {
    hide Decode, DecodeField, Parse, IndexOf, Rep, TimeState, SourceState, Broken, ParseU64;
    if Decode(w).Malformed? {
      BrokenByVerdict(w);
      BrokenLine(w, t);
    } else {
      FieldBytes(w);
      DecodeStaged(w);
      var d := DecodeField(w);
      if d.ShortField? { ResumesTime(w, t); } else { ResumesSource(w[..d.size - 1], d.n, w[d.size..], t); }
    }
  }

  // ---- different states can be told apart ----

  /** States that bytes can lead to. */
  predicate Proper(s: State) {
    && (s.Time? && s.t.Value? ==> s.t.n <= U64_MAX)
    && (s.Length? && s.l.Value? ==> s.l.n <= MAX_RECORD_BYTES)
    && (s.Payload? ==> |s.data| <= s.len <= MAX_RECORD_BYTES)
  }

  lemma {:induction false} TimeStateProper(w: seq<Byte>)
    ensures Proper(TimeState(w))
    decreases |w|
  {
    hide IndexOf, ParseU64;
    if NEWLINE in w { TimeStateProper(NextLine(w)); }
  }

  lemma StateProper(w: seq<Byte>)
    requires NextStep(w).Wait?
    ensures Proper(StateOf(w))
  {
    hide Decode, DecodeField, IndexOf, ParseU64, TimeState;
    DecodeStaged(w);
    TimeStateProper(w);
    TimeStateProper([]);
    var d := DecodeField(w);
    if !Decode(w).Malformed? && d.Number? {
      var r := w[d.size..];
      if |r| >= 2 { TimeStateProper(NextLine(r[2..])); }
    }
  }

  /** Bytes that are neither digits, spaces nor newlines. */
  function Fill(n: nat): (s: seq<Byte>)
    ensures |s| == n && forall i | 0 <= i < n :: s[i] == 97
  {
    if n == 0 then [] else Fill(n - 1) + [97]
  }

  /** An empty length field and its record's end. */
  const NO_DATA: seq<Byte> := [ZERO, SPACE, NEWLINE]
  const REST: seq<Byte> := [StreamChar(Stdout), SPACE] + NO_DATA

  /** Bytes that complete a record from a state. */
  function Finish(s: State): seq<Byte>
    requires Proper(s)
  {
    match s
    case LineEnd => [NEWLINE]
    case Time(t) => (if t.Value? then [] else [ZERO]) + [SPACE] + REST
    case Source(_) => REST
    case Gap(_, _) => [SPACE] + NO_DATA
    case Length(_, _, l) => if l.Value? then [SPACE] + Fill(l.n) + [NEWLINE] else NO_DATA
    case Payload(_, _, len, data) => Fill(len - |data|) + [NEWLINE]
  }

  /** The record that `Finish` completes. */
  function Finished(s: State): LogEntry
    requires Proper(s) && !s.LineEnd?
  {
    match s
    case Time(t) => LogEntry(Stdout, if t.Value? then t.n else 0, [])
    case Source(ms) => LogEntry(Stdout, ms, [])
    case Gap(ms, stream) => LogEntry(stream, ms, [])
    case Length(ms, stream, l) => LogEntry(stream, ms, if l.Value? then Fill(l.n) else [])
    case Payload(ms, stream, len, data) => LogEntry(stream, ms, data + Fill(len - |data|))
  }

  lemma ZeroIsDecimal()
    ensures Decimal(0) == [ZERO] && ParseU64([ZERO]) == Some(0) && ParseU64([PLUS, ZERO]) == Some(0)
  {
    ParseDecimal(0);
    assert [PLUS, ZERO][1..] == [ZERO];
  }

  /** Only a plus sign sets the completed bytes apart from the record's own encoding. */
  lemma FinishEncodes(s: State)
    requires Proper(s) && !s.LineEnd? && s != Time(Signed) && !(s.Length? && s.l.Signed?)
    ensures Rep(s) + Finish(s) == Encode(Finished(s))
  {
    hide Decimal, ParseU64, Encode, Rep, Finish;
    match s
    case Time(t) => TimeEncodes(t);
    case Source(ms) => SourceEncodes(ms);
    case Gap(ms, stream) => GapEncodes(ms, stream);
    case Length(ms, stream, l) => LengthEncodes(ms, stream, l);
    case Payload(ms, stream, len, data) => PayloadEncodes(ms, stream, len, data);
  }

  lemma EmptyEncodes(ms: U64, stream: Stream)
    ensures Encode(LogEntry(stream, ms, [])) == Decimal(ms) + [SPACE, StreamChar(stream), SPACE, ZERO, SPACE, NEWLINE]
  {
    hide Decimal, ParseU64, Encode;
    ZeroIsDecimal();
    EncodedBytes(LogEntry(stream, ms, []));
  }

  lemma TimeEncodes(t: Digits)
    requires Proper(Time(t)) && !t.Signed?
    ensures Rep(Time(t)) + Finish(Time(t)) == Encode(Finished(Time(t)))
  {
    hide Decimal, ParseU64, Encode;
    ZeroIsDecimal();
    EmptyEncodes(Finished(Time(t)).ms, Stdout);
    assert REST == [StreamChar(Stdout), SPACE, ZERO, SPACE, NEWLINE];
  }

  lemma SourceEncodes(ms: U64)
    ensures Rep(Source(ms)) + Finish(Source(ms)) == Encode(Finished(Source(ms)))
  {
    hide Decimal, ParseU64, Encode;
    EmptyEncodes(ms, Stdout);
  }

  lemma GapEncodes(ms: U64, stream: Stream)
    ensures Rep(Gap(ms, stream)) + Finish(Gap(ms, stream)) == Encode(Finished(Gap(ms, stream)))
  {
    hide Decimal, ParseU64, Encode;
    EmptyEncodes(ms, stream);
  }

  lemma LengthEncodes(ms: U64, stream: Stream, l: Digits)
    requires Proper(Length(ms, stream, l)) && !l.Signed?
    ensures var s := Length(ms, stream, l); Rep(s) + Finish(s) == Encode(Finished(s))
  {
    hide Decimal, ParseU64, Encode;
    if l.Value? { EncodedBytes(LogEntry(stream, ms, Fill(l.n))); } else { EmptyEncodes(ms, stream); }
  }

  lemma PayloadEncodes(ms: U64, stream: Stream, len: U64, data: seq<Byte>)
    requires Proper(Payload(ms, stream, len, data))
    ensures var s := Payload(ms, stream, len, data); Rep(s) + Finish(s) == Encode(Finished(s))
  {
    hide Decimal, ParseU64, Header;
  }

  lemma EncodedBytes(e: LogEntry)
    ensures Encode(e)
         == Decimal(e.ms) + [SPACE, StreamChar(e.stream), SPACE] + Decimal(|e.data|) + [SPACE] + e.data + [NEWLINE]
  {
    hide Decimal;
  }

  lemma FinishGives(s: State)
    requires Proper(s) && !s.LineEnd?
    ensures Parse(Rep(s) + Finish(s)).entries == [Finished(s)]
  {
    hide Decode, Parse, Decimal, ParseU64, Encode, Rep, Finish;
    var e := Finished(s);
    assert Parse(Encode(e)).entries == [e] by {
      EncodeAllOne(e);
      ParseEncodeAll([e]);
    }
    if s == Time(Signed) {
      SignedTime();
    } else if s.Length? && s.l.Signed? {
      SignedLength(s.ms, s.stream);
    } else {
      FinishEncodes(s);
    }
  }

  lemma SignedTime()
    ensures Parse(Rep(Time(Signed)) + Finish(Time(Signed))).entries == [LogEntry(Stdout, 0, [])]
  {
    hide Decode, Parse, ParseU64;
    ZeroIsDecimal();
    var u := [SPACE] + REST;
    TwinTime([PLUS, ZERO], [ZERO], u);
    assert Rep(Time(Signed)) + Finish(Time(Signed)) == [PLUS, ZERO] + u;
    assert [ZERO] + u == Rep(Time(Blank)) + Finish(Time(Blank));
    FinishEncodes(Time(Blank));
    EncodeAllOne(LogEntry(Stdout, 0, []));
    ParseEncodeAll([LogEntry(Stdout, 0, [])]);
  }

  lemma SignedLength(ms: U64, stream: Stream)
    ensures var s := Length(ms, stream, Signed);
            Parse(Rep(s) + Finish(s)).entries == [LogEntry(stream, ms, [])]
  {
    hide Decode, Parse, ParseU64, Decimal;
    ZeroIsDecimal();
    ParseDecimal(ms);
    var s, b, u := Length(ms, stream, Signed), Length(ms, stream, Blank), [SPACE, NEWLINE];
    TwinLength(Decimal(ms), ms, stream, [PLUS, ZERO], [ZERO], u);
    var front := Decimal(ms) + [SPACE, StreamChar(stream), SPACE];
    assert Rep(s) + Finish(s) == front + [PLUS, ZERO] + u;
    assert Rep(b) + Finish(b) == front + [ZERO] + u;
    FinishEncodes(b);
    EncodeAllOne(LogEntry(stream, ms, []));
    ParseEncodeAll([LogEntry(stream, ms, [])]);
  }

  /** One line that is no record yields nothing. */
  lemma NoRecordInLine(x: seq<Byte>)
    requires NEWLINE !in x && !Decode(x + [NEWLINE]).Record?
    ensures Parse(x + [NEWLINE]).entries == []
  {
    hide Decode, Parse, NextLine;
    ParseVerdict(x + [NEWLINE]);
    NextLineAfter(x, [NEWLINE]);
    assert NextLine([NEWLINE]) == [] by { NewlineAlone(); }
    NoSpaceNoEntries([]);
  }

  lemma NewlineAlone()
    ensures NextLine([NEWLINE]) == []
  {
  }

  /** The verdict from a state short of the payload, by stages. */
  lemma Verdicts(b: State, t: seq<Byte>)
    requires Proper(b) && !b.Payload?
    ensures b.LineEnd? ==> Decode(Rep(b) + t).Malformed?
    ensures b.Time? ==> SPACE !in Rep(b)
    ensures b.Source? ==> Decode(Rep(b) + t) == Shift(AfterTime(b.ms, t), |Rep(b)|)
    ensures b.Gap? ==> Decode(Rep(b) + t) == Shift(AfterTime(b.ms, [StreamChar(b.stream)] + t), |Rep(b)| - 1)
    ensures b.Length? ==>
              Decode(Rep(b) + t) == Shift(AfterStream(b.ms, b.stream, DigitBytes(b.l) + t), |Decimal(b.ms)| + 3)
  {
    hide Decode, AfterTime, AfterStream, ParseU64, Decimal;
    DigitBytesPlain(if b.Time? then b.t else if b.Length? then b.l else Blank);
    match b
    case LineEnd => SpaceIsMalformed(t);
    case Time(_) =>
    case Source(ms) =>
      ParseDecimal(ms);
      NumberBytes(Decimal(ms));
      AfterTimeField(Decimal(ms), ms, t);
    case Gap(ms, stream) =>
      ParseDecimal(ms);
      NumberBytes(Decimal(ms));
      AfterTimeField(Decimal(ms), ms, [StreamChar(stream)] + t);
      assert Rep(b) + t == Decimal(ms) + [SPACE] + ([StreamChar(stream)] + t);
    case Length(ms, stream, l) =>
      ParseDecimal(ms);
      NumberBytes(Decimal(ms));
      AfterStreamChar(Decimal(ms), ms, stream, DigitBytes(l) + t);
      assert Rep(b) + t == Decimal(ms) + [SPACE, StreamChar(stream), SPACE] + (DigitBytes(l) + t);
  }

  lemma RepIsOneLine(b: State)
    requires Proper(b) && !b.Payload?
    ensures NEWLINE !in Rep(b)
  {
    hide ParseU64, Decimal;
    DigitBytesPlain(if b.Time? then b.t else if b.Length? then b.l else Blank);
    if b.Source? || b.Gap? || b.Length? { DigitBytesPlain(Value(b.ms)); }
  }

  lemma DigitBytesPlain(d: Digits)
    requires d.Value? ==> d.n <= U64_MAX
    ensures SPACE !in DigitBytes(d) && NEWLINE !in DigitBytes(d)
    ensures ParseU64(DigitBytes(d)) == if d.Value? then Some(d.n) else None
  {
    if d.Value? {
      hide ParseU64;
      ParseDecimal(d.n);
      NumberBytes(Decimal(d.n));
    }
  }

  lemma SpaceIsMalformed(t: seq<Byte>)
    ensures Decode([SPACE] + t).Malformed?
  {
    hide Decode;
    FieldContinued([], [SPACE] + t);
    assert [] + ([SPACE] + t) == [SPACE] + t && [] + ([SPACE] + t)[..0] == [];
    DecodeStaged([SPACE] + t);
  }

  /** The time field of a continued state. */
  lemma TimeVerdict(b: State, t: seq<Byte>)
    requires Proper(b) && b.Time?
    ensures SPACE !in t ==> Decode(Rep(b) + t).NeedMore?
    ensures SPACE in t ==>
              var j := IndexOf(t, SPACE);
              var f := ParseU64(Rep(b) + t[..j]);
              Decode(Rep(b) + t)
              == if f.None? then Malformed else Shift(AfterTime(f.value, t[j + 1..]), |Rep(b)| + j + 1)
  {
    hide Decode, ParseU64, AfterTime, DecodeField, IndexOf;
    DigitBytesPlain(b.t);
    FieldContinued(Rep(b), t);
    DecodeStaged(Rep(b) + t);
    var j := IndexOf(t, SPACE);
    if j < |t| { assert (Rep(b) + t)[|Rep(b)| + j + 1..] == t[j + 1..]; }
  }

  /** The end of a payload completes nothing from an earlier state. */
  lemma PayloadEndFails(b: State, n: nat)
    requires Proper(b) && !b.Payload?
    ensures !Decode(Rep(b) + (Fill(n) + [NEWLINE])).Record?
  {
    hide Decode, ParseU64, DecodeField, IndexOf, Rep;
    var t := Fill(n) + [NEWLINE];
    Verdicts(b, t);
    if b.Time? { TimeVerdict(b, t); }
    if b.Length? {
      DigitBytesPlain(b.l);
      FieldBytes(DigitBytes(b.l) + t);
    }
  }

  /** Nor does the end of a length field, from before the stream's space. */
  lemma LengthEndFails(b: State, n: nat)
    requires Proper(b) && !b.Payload? && !b.Length?
    ensures !Decode(Rep(b) + ([SPACE] + Fill(n) + [NEWLINE])).Record?
  {
    hide Decode, ParseU64, DecodeField, IndexOf, Rep;
    var t := [SPACE] + Fill(n) + [NEWLINE];
    Verdicts(b, t);
    if b.Time? {
      assert IndexOf(t, SPACE) == 0 by { assert t[0] == SPACE; }
      TimeVerdict(b, t);
    }
    if b.Gap? {
      assert ([StreamChar(b.stream)] + t)[2..] == Fill(n) + [NEWLINE];
      FieldBytes(Fill(n) + [NEWLINE]);
    }
  }

  lemma NoDataFails(b: State)
    requires Proper(b) && !b.Payload? && !b.Length?
    ensures !Decode(Rep(b) + NO_DATA).Record?
  {
    hide Decode, ParseU64, DecodeField, IndexOf, Rep;
    Verdicts(b, NO_DATA);
    if b.Time? {
      assert IndexOf(NO_DATA, SPACE) == 1 by { assert NO_DATA[0] == ZERO && NO_DATA[1] == SPACE; }
      TimeVerdict(b, NO_DATA);
    }
  }

  lemma GapEndFails(b: State)
    requires Proper(b) && (b.LineEnd? || b.Time? || b.Source?)
    ensures !Decode(Rep(b) + ([SPACE] + NO_DATA)).Record?
  {
    hide Decode, ParseU64, DecodeField, IndexOf, Rep;
    var t := [SPACE] + NO_DATA;
    Verdicts(b, t);
    if b.Time? {
      assert IndexOf(t, SPACE) == 0 by { assert t[0] == SPACE; }
      TimeVerdict(b, t);
      assert t[1..] == NO_DATA;
    }
  }

  lemma SourceEndFails(b: State)
    requires Proper(b) && (b.LineEnd? || b.Time?)
    ensures !Decode(Rep(b) + REST).Record?
  {
    hide Decode, ParseU64, DecodeField, IndexOf, Rep;
    Verdicts(b, REST);
    if b.Time? {
      assert IndexOf(REST, SPACE) == 1 by { assert REST[0] == 111 && REST[1] == SPACE; }
      TimeVerdict(b, REST);
      LetterIsNoNumber(Rep(b));
      assert REST[..1] == [111];
    }
  }

  lemma LetterIsNoNumber(f: seq<Byte>)
    ensures ParseU64(f + [111]) == None
  {
    hide DigitsValue;
    var s := f + [111];
    assert s[|s| - 1] == 111;
    if |f| > 0 { assert s[1..][|s| - 2] == 111; }
  }

  function Rank(s: State): nat {
    match s
    case LineEnd => 0
    case Time(_) => 1
    case Source(_) => 2
    case Gap(_, _) => 3
    case Length(_, _, _) => 4
    case Payload(_, _, _, _) => 5
  }

  lemma FinishIsOneLine(s: State)
    requires Proper(s)
    ensures |Finish(s)| > 0 && Finish(s)[|Finish(s)| - 1] == NEWLINE
    ensures NEWLINE !in Finish(s)[..|Finish(s)| - 1]
  {
  }

  /** What completes a record from one state completes none from a state before it. */
  lemma FinishFails(a: State, b: State)
    requires Proper(a) && Proper(b) && Rank(b) < Rank(a)
    ensures !Decode(Rep(b) + Finish(a)).Record?
  {
    hide Decode, Rep;
    match a
    case Payload(_, _, len, data) => PayloadEndFails(b, len - |data|);
    case Length(_, _, l) => if l.Value? { LengthEndFails(b, l.n); } else { NoDataFails(b); }
    case Gap(_, _) => GapEndFails(b);
    case Source(_) => SourceEndFails(b);
    case Time(_) => Verdicts(b, Finish(a));
    case LineEnd =>
  }

  lemma OneLineYieldsNothing(r: seq<Byte>, y: seq<Byte>, t: seq<Byte>)
    requires t == y + [NEWLINE] && NEWLINE !in r && NEWLINE !in y && !Decode(r + t).Record?
    ensures Parse(r + t).entries == []
  {
    hide Decode, Parse;
    assert r + t == r + y + [NEWLINE];
    NoRecordInLine(r + y);
  }

  lemma FailsYieldsNothing(b: State, t: seq<Byte>)
    requires Proper(b) && !b.Payload? && |t| > 0 && t[|t| - 1] == NEWLINE && NEWLINE !in t[..|t| - 1]
    requires !Decode(Rep(b) + t).Record?
    ensures Parse(Rep(b) + t).entries == []
  {
    hide Decode, Parse, Rep, Proper;
    RepIsOneLine(b);
    OneLineYieldsNothing(Rep(b), t[..|t| - 1], t);
  }

  lemma FinishSeparates(a: State, b: State)
    requires Proper(a) && Proper(b) && !a.LineEnd? && !b.LineEnd?
    requires Finish(a) == Finish(b) && Finished(a) != Finished(b)
    ensures Parse(Rep(a) + Finish(a)).entries != Parse(Rep(b) + Finish(a)).entries
  {
    hide Parse, Rep, Finish, Finished;
    FinishGives(a);
    FinishGives(b);
  }

  lemma OnlyFirstFinishes(a: State, b: State, t: seq<Byte>)
    requires Proper(a) && Proper(b) && !a.LineEnd? && !b.Payload? && t == Finish(a) && !Decode(Rep(b) + t).Record?
    ensures Parse(Rep(a) + t).entries != Parse(Rep(b) + t).entries
  {
    hide Parse, Rep, Finish, Finished, Decode;
    FinishGives(a);
    FinishIsOneLine(a);
    FailsYieldsNothing(b, t);
  }

  lemma TwoSigns()
    ensures ParseU64([PLUS] + [PLUS, ZERO]) == None
  {
    var f := [PLUS] + [PLUS, ZERO];
    assert f[1..] == [PLUS, ZERO];
    assert !IsDigit(f[1..][0]);
  }

  lemma SeparateTimes(x: Digits, y: Digits) returns (t: seq<Byte>)
    requires Proper(Time(x)) && Proper(Time(y)) && x != y
    ensures Parse(Rep(Time(x)) + t).entries != Parse(Rep(Time(y)) + t).entries
  {
    hide Parse, Decode, ParseU64, IndexOf;
    DigitBytesPlain(x);
    DigitBytesPlain(y);
    if x.Value? && y.Value? {
      FinishSeparates(Time(x), Time(y));
      t := Finish(Time(x));
    } else if x.Value? {
      NumberOnly(x, y);
      t := Finish(Time(x));
    } else if y.Value? {
      NumberOnly(y, x);
      t := Finish(Time(y));
    } else {
      PlusTellsTimes();
      t := [PLUS] + Finish(Time(Signed));
    }
  }

  lemma NumberOnly(x: Digits, y: Digits)
    requires Proper(Time(x)) && x.Value? && !y.Value?
    ensures Parse(Rep(Time(x)) + Finish(Time(x))).entries != Parse(Rep(Time(y)) + Finish(Time(x))).entries
  {
    hide Parse, Decode, ParseU64, IndexOf;
    var t := Finish(Time(x));
    DigitBytesPlain(y);
    assert t[0] == SPACE;
    assert IndexOf(t, SPACE) == 0;
    TimeVerdict(Time(y), t);
    assert Rep(Time(y)) + t[..0] == Rep(Time(y));
    OnlyFirstFinishes(Time(x), Time(y), t);
  }

  lemma PlusTellsTimes()
    ensures var t := [PLUS] + Finish(Time(Signed));
            Parse(Rep(Time(Blank)) + t).entries != Parse(Rep(Time(Signed)) + t).entries
  {
    hide Parse, Decode, ParseU64, IndexOf;
    var t := [PLUS] + Finish(Time(Signed));
    assert Rep(Time(Blank)) + t == Rep(Time(Signed)) + Finish(Time(Signed));
    FinishGives(Time(Signed));
    SecondSignFails(t);
    FinishIsOneLine(Time(Signed));
    FailsYieldsNothing(Time(Signed), t);
  }

  lemma SecondSignFails(t: seq<Byte>)
    requires t == [PLUS] + Finish(Time(Signed))
    ensures !Decode(Rep(Time(Signed)) + t).Record?
  {
    hide Parse, Decode, ParseU64, IndexOf, AfterTime;
    assert t[0] == PLUS && t[1] == ZERO && t[2] == SPACE;
    assert IndexOf(t, SPACE) == 2;
    TimeVerdict(Time(Signed), t);
    assert t[..2] == [PLUS, ZERO];
    TwoSigns();
  }

  /** A length field that ends, from a state within it. */
  lemma LengthVerdict(b: State, f: seq<Byte>, r: seq<Byte>)
    requires Proper(b) && b.Length? && SPACE !in f
    ensures var n := ParseU64(DigitBytes(b.l) + f);
            && (n.None? ==> Decode(Rep(b) + (f + [SPACE] + r)).Malformed?)
            && (n.Some? && n.value <= MAX_RECORD_BYTES && |r| <= n.value ==>
                  Decode(Rep(b) + (f + [SPACE] + r)).NeedMore?)
  {
    hide Decode, ParseU64, DecodeField, Rep, IndexOf;
    var t, field := f + [SPACE] + r, DigitBytes(b.l) + f;
    Verdicts(b, t);
    DigitBytesPlain(b.l);
    assert DigitBytes(b.l) + t == field + ([SPACE] + r);
    assert SPACE !in field;
    FieldContinued(field, [SPACE] + r);
    assert IndexOf([SPACE] + r, SPACE) == 0 by { assert ([SPACE] + r)[0] == SPACE; }
    assert field + ([SPACE] + r)[..0] == field;
    assert (field + ([SPACE] + r))[|field| + 1..] == r;
  }

  lemma SeparateLengths(a: State, b: State) returns (t: seq<Byte>)
    requires Proper(a) && Proper(b) && a.Length? && b.Length? && a != b
    ensures Parse(Rep(a) + t).entries != Parse(Rep(b) + t).entries
  {
    hide Parse, Decode, ParseU64, Rep;
    if a.l == b.l {
      FinishSeparates(a, b);
      t := Finish(a);
    } else if a.l.Value? && (!b.l.Value? || a.l.n < b.l.n) {
      LengthOnly(a, b);
      t := Finish(a);
    } else if b.l.Value? {
      LengthOnly(b, a);
      t := Finish(b);
    } else if a.l.Blank? {
      PlusTellsLengths(a, b);
      t := [PLUS] + NO_DATA;
    } else {
      PlusTellsLengths(b, a);
      t := [PLUS] + NO_DATA;
    }
  }

  lemma LengthOnly(a: State, b: State)
    requires Proper(a) && Proper(b) && a.Length? && b.Length? && a.l.Value? && (!b.l.Value? || a.l.n < b.l.n)
    ensures Parse(Rep(a) + Finish(a)).entries != Parse(Rep(b) + Finish(a)).entries
  {
    hide Parse, Decode, ParseU64, Rep;
    var r := Fill(a.l.n) + [NEWLINE];
    assert Finish(a) == [] + [SPACE] + r;
    DigitBytesPlain(b.l);
    assert DigitBytes(b.l) + [] == DigitBytes(b.l);
    LengthVerdict(b, [], r);
    OnlyFirstFinishes(a, b, Finish(a));
  }

  lemma PlusTellsLengths(a: State, b: State)
    requires Proper(a) && Proper(b) && a.Length? && b.Length? && a.l.Blank? && b.l.Signed?
    ensures Parse(Rep(a) + ([PLUS] + NO_DATA)).entries != Parse(Rep(b) + ([PLUS] + NO_DATA)).entries
  {
    hide Parse, Decode, ParseU64, Decimal;
    var t, s := [PLUS] + NO_DATA, Length(a.ms, a.stream, Signed);
    assert Rep(a) + t == Rep(s) + Finish(s);
    FinishGives(s);
    assert t == [PLUS, ZERO] + [SPACE] + [NEWLINE];
    TwoSigns();
    LengthVerdict(b, [PLUS, ZERO], [NEWLINE]);
    FailsYieldsNothing(b, t);
  }

  lemma PayloadWaits(b: State, r: seq<Byte>)
    requires Proper(b) && b.Payload? && |b.data| + |r| <= b.len
    ensures Parse(Rep(b) + r).entries == []
  {
    hide Decode, Parse, ParseU64, Decimal, AfterStream;
    ParseDecimal(b.ms);
    ParseDecimal(b.len);
    var rest := Decimal(b.len) + [SPACE] + (b.data + r);
    AfterStreamChar(Decimal(b.ms), b.ms, b.stream, rest);
    AfterLengthField(b.ms, b.stream, Decimal(b.len), b.len, b.data + r);
    assert Rep(b) + r == Decimal(b.ms) + [SPACE, StreamChar(b.stream), SPACE] + rest;
    ParseStep(Rep(b) + r);
  }

  lemma SeparatePayloads(a: State, b: State) returns (t: seq<Byte>)
    requires Proper(a) && Proper(b) && a.Payload? && b.Payload? && a != b
    ensures Parse(Rep(a) + t).entries != Parse(Rep(b) + t).entries
  {
    hide Parse, Rep;
    var n, m := a.len - |a.data|, b.len - |b.data|;
    if n == m {
      if a.data + Fill(n) == b.data + Fill(n) {
        assert a.data == (a.data + Fill(n))[..|a.data|] && b.data == (b.data + Fill(n))[..|b.data|];
      }
      FinishSeparates(a, b);
      t := Finish(a);
    } else if n < m {
      FinishGives(a);
      t := Finish(a);
      PayloadWaits(b, t);
    } else {
      FinishGives(b);
      t := Finish(b);
      PayloadWaits(a, t);
    }
  }

  /** Some continuation tells two different states apart. */
  lemma Separate(a: State, b: State) returns (t: seq<Byte>)
    requires Proper(a) && Proper(b) && a != b
    ensures Parse(Rep(a) + t).entries != Parse(Rep(b) + t).entries
  {
    hide Parse, Decode, Rep, Proper;
    if Rank(b) < Rank(a) {
      FinishFails(a, b);
      OnlyFirstFinishes(a, b, Finish(a));
      t := Finish(a);
    } else if Rank(a) < Rank(b) {
      FinishFails(b, a);
      OnlyFirstFinishes(b, a, Finish(b));
      t := Finish(b);
    } else if a.Time? {
      t := SeparateTimes(a.t, b.t);
    } else if a.Length? {
      t := SeparateLengths(a, b);
    } else if a.Payload? {
      t := SeparatePayloads(a, b);
    } else {
      FinishSeparates(a, b);
      t := Finish(a);
    }
  }

  /** Two leftovers yield the same entries whatever follows if and only if they leave the decoder in the
      same state. */
  lemma SameStateIff(v: seq<Byte>, w: seq<Byte>)
    requires NextStep(v).Wait? && NextStep(w).Wait?
    ensures StateOf(v) == StateOf(w) <==> forall t: seq<Byte> :: Parse(v + t).entries == Parse(w + t).entries
  {
    hide NextStep, Parse, StateOf, Rep, Proper;
    if StateOf(v) == StateOf(w) {
      forall t: seq<Byte> ensures Parse(v + t).entries == Parse(w + t).entries {
        Resumes(v, t);
        Resumes(w, t);
      }
    } else {
      StateProper(v);
      StateProper(w);
      var t := Separate(StateOf(v), StateOf(w));
      Resumes(v, t);
      Resumes(w, t);
    }
  }
}
