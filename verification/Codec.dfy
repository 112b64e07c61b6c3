/** The length-prefixed record format of `events.log`: `<unix_ms> <o|e> <len> <data>\n`. */
module Codec {
  import opened Wrappers
  import opened Bytes

  /** Hard cap on a decoded payload. */
  const MAX_RECORD_BYTES: nat := 16 * 1024 * 1024
  /** Longest possible header: two u64 decimals, three spaces, one stream character. */
  const MAX_HEADER_BYTES: nat := 44

  datatype Stream = Stdout | Stderr

  datatype LogEntry = LogEntry(stream: Stream, ms: U64, data: seq<Byte>)

  /** Milliseconds stored for a wall-clock reading in nanoseconds since the Unix epoch:
      a reading before the epoch is stored as 0, one past u64 saturates. */
  function UnixMillis(nanos: int): (ms: U64)
    ensures nanos < 0 ==> ms == 0
    ensures 0 <= nanos ==> ms * 1_000_000 <= nanos
    ensures 0 <= nanos < (U64_MAX + 1) * 1_000_000 ==> nanos < (ms + 1) * 1_000_000
    ensures nanos >= U64_MAX * 1_000_000 ==> ms == U64_MAX
  {
    if nanos < 0 then 0
    else if nanos / 1_000_000 > U64_MAX then U64_MAX
    else nanos / 1_000_000
  }

  function StreamChar(s: Stream): Byte {
    match s case Stdout => 111 case Stderr => 101
  }

  function StreamOfChar(b: Byte): Option<Stream> {
    if b == 111 then Some(Stdout) else if b == 101 then Some(Stderr) else None
  }

  function Header(ms: U64, stream: Stream, len: nat): seq<Byte> {
    Decimal(ms) + [SPACE, StreamChar(stream), SPACE] + Decimal(len) + [SPACE]
  }

  function Encode(e: LogEntry): (s: seq<Byte>) {
    Header(e.ms, e.stream, |e.data|) + e.data + [NEWLINE]
  }

  function EncodeAll(es: seq<LogEntry>): seq<Byte> {
    if |es| == 0 then [] else Encode(es[0]) + EncodeAll(es[1..])
  }

  /** Appends one record to a batch buffer, field by field. */
  method EncodeRecordInto(buf: seq<Byte>, nanos: int, stream: Stream, data: seq<Byte>)
    returns (out: seq<Byte>)
    ensures out == buf + Encode(LogEntry(stream, UnixMillis(nanos), data))
  {
    var ms := UnixMillis(nanos);
    out := buf + Decimal(ms);
    out := out + [SPACE];
    out := out + [StreamChar(stream)];
    out := out + [SPACE];
    out := out + Decimal(|data|);
    out := out + [SPACE];
    out := out + data;
    out := out + [NEWLINE];
  }

  datatype Decoded = Record(entry: LogEntry, consumed: nat) | NeedMore | Malformed

  /** Verdict on a decimal field that a space must end. */
  datatype Field = Number(n: U64, size: nat) | ShortField | BadField

  function DecodeField(s: seq<Byte>): (f: Field)
    ensures f.Number? ==> f.size <= |s|
  {
    var space := IndexOf(s, SPACE);
    if space == |s| then ShortField
    else match ParseU64(s[..space])
      case None => BadField
      case Some(n) => Number(n, space + 1)
  }

  /** Verdict on the bytes before the payload. */
  datatype HeaderVerdict = Head(ms: U64, stream: Stream, len: U64, size: nat) | Short | Bad

  function DecodeHeader(s: seq<Byte>): (h: HeaderVerdict)
    ensures h.Head? ==> h.size <= |s| && h.len <= MAX_RECORD_BYTES
  {
    match DecodeField(s)
    case ShortField => Short
    case BadField => Bad
    case Number(ms, k) =>
      if |s| < k + 2 then Short
      else if s[k + 1] != SPACE then Bad
      else match StreamOfChar(s[k])
        case None => Bad
        case Some(stream) =>
          match DecodeField(s[k + 2..])
          case ShortField => Short
          case BadField => Bad
          case Number(len, k2) =>
            if len > MAX_RECORD_BYTES then Bad
            else Head(ms, stream, len, k + 2 + k2)
  }

  /** Decodes one record at the start of `s`. */
  function Decode(s: seq<Byte>): (d: Decoded)
    ensures d.Record? ==> 0 < d.consumed <= |s|
  {
    match DecodeHeader(s)
    case Short => NeedMore
    case Bad => Malformed
    case Head(ms, stream, len, start) =>
      var end := start + len;
      if |s| < end + 1 then NeedMore
      else if s[end] != NEWLINE then Malformed
      else Record(LogEntry(stream, ms, s[start..end]), end + 1)
  }

  // ---- verdicts are not revised by later bytes ----

  lemma FieldStable(s: seq<Byte>, t: seq<Byte>)
    requires !DecodeField(s).ShortField?
    ensures DecodeField(s + t) == DecodeField(s)
  {
    hide ParseU64;
    IndexOfAppend(s, t, SPACE);
    assert (s + t)[..IndexOf(s, SPACE)] == s[..IndexOf(s, SPACE)];
  }

  lemma HeaderStable(s: seq<Byte>, t: seq<Byte>)
    requires !DecodeHeader(s).Short?
    ensures DecodeHeader(s + t) == DecodeHeader(s)
  {
    hide DecodeField, ParseU64, IndexOf;
    FieldStable(s, t);
    var f := DecodeField(s);
    if f.Number? {
      var u := s[f.size + 2..];
      assert (s + t)[f.size + 2..] == u + t;
      if !DecodeField(u).ShortField? { FieldStable(u, t); }
    }
  }

  /** A Record or Malformed verdict stands whatever is appended. */
  lemma DecodeStable(s: seq<Byte>, t: seq<Byte>)
    requires !Decode(s).NeedMore?
    ensures Decode(s + t) == Decode(s)
  {
    hide DecodeHeader, DecodeField;
    HeaderStable(s, t);
    var h := DecodeHeader(s);
    if h.Head? {
      var end := h.size + h.len;
      var u := s + t;
      assert u[end] == s[end];
      assert u[h.size..end] == s[h.size..end];
    }
  }

  // ---- encoding, then decoding ----

  lemma HeaderBytes(ms: U64, stream: Stream, len: U64)
    ensures |Header(ms, stream, len)| <= MAX_HEADER_BYTES
    ensures forall i | 0 <= i < |Header(ms, stream, len)| :: Header(ms, stream, len)[i] != NEWLINE
  {
    U64Length(ms);
    U64Length(len);
    assert forall i | 0 <= i < |Decimal(ms)| :: IsDigit(Decimal(ms)[i]);
    assert forall i | 0 <= i < |Decimal(len)| :: IsDigit(Decimal(len)[i]);
  }

  lemma FieldOfDecimal(n: U64, t: seq<Byte>)
    ensures DecodeField(Decimal(n) + [SPACE] + t) == Number(n, |Decimal(n)| + 1)
  {
    hide ParseU64, Decimal;
    var d := Decimal(n);
    DigitsHaveNoSpace(d);
    IndexOfAppend(d, [SPACE] + t, SPACE);
    assert d + [SPACE] + t == d + ([SPACE] + t);
    assert (d + [SPACE] + t)[..|d|] == d;
    ParseDecimal(n);
  }

  lemma DigitsHaveNoSpace(d: seq<Byte>)
    requires AllDigits(d)
    ensures IndexOf(d, SPACE) == |d|
    ensures DecodeField(d).ShortField?
  {
  }

  lemma DecodeHeaderOfHeader(ms: U64, stream: Stream, len: U64, t: seq<Byte>)
    ensures DecodeHeader(Header(ms, stream, len) + t)
         == if len > MAX_RECORD_BYTES then Bad
            else Head(ms, stream, len, |Header(ms, stream, len)|)
  {
    hide DecodeHeader, DecodeField, Decimal;
    var s := Header(ms, stream, len) + t;
    var k := |Decimal(ms)| + 1;
    var rest := Decimal(len) + [SPACE] + t;
    HeaderLayout(ms, stream, len, t);
    FieldOfDecimal(ms, [StreamChar(stream), SPACE] + rest);
    FieldOfDecimal(len, t);
    HeaderFromFields(s, ms, k, stream, len, |Decimal(len)| + 1);
  }

  lemma HeaderFromFields(s: seq<Byte>, ms: U64, k: nat, stream: Stream, len: U64, k2: nat)
    requires DecodeField(s) == Number(ms, k)
    requires |s| >= k + 2 && s[k] == StreamChar(stream) && s[k + 1] == SPACE
    requires DecodeField(s[k + 2..]) == Number(len, k2)
    ensures DecodeHeader(s)
         == if len > MAX_RECORD_BYTES then Bad else Head(ms, stream, len, k + 2 + k2)
  {
    hide DecodeField;
  }

  lemma HeaderLayout(ms: U64, stream: Stream, len: U64, t: seq<Byte>)
    ensures var s := Header(ms, stream, len) + t;
            var k := |Decimal(ms)| + 1;
            var rest := Decimal(len) + [SPACE] + t;
            && s == Decimal(ms) + [SPACE] + ([StreamChar(stream), SPACE] + rest)
            && s[k] == StreamChar(stream) && s[k + 1] == SPACE
            && s[k + 2..] == rest
  {
    hide Decimal;
    var s := Header(ms, stream, len) + t;
    var rest := Decimal(len) + [SPACE] + t;
    assert s == Decimal(ms) + [SPACE] + ([StreamChar(stream), SPACE] + rest);
  }

  /** Decoding an encoding followed by any bytes gives back the record and its exact length;
      a payload above the cap is the one thing the decoder refuses. */
  lemma DecodeEncode(e: LogEntry, t: seq<Byte>)
    requires |e.data| <= U64_MAX
    ensures Decode(Encode(e) + t)
         == if |e.data| > MAX_RECORD_BYTES then Malformed else Record(e, |Encode(e)|)
  {
    hide DecodeHeader, Header;
    var h := Header(e.ms, e.stream, |e.data|);
    var body := e.data + [NEWLINE] + t;
    var s := Encode(e) + t;
    assert s == h + body;
    DecodeHeaderOfHeader(e.ms, e.stream, |e.data|, body);
    if |e.data| <= MAX_RECORD_BYTES {
      assert s[|h|..|h| + |e.data|] == body[..|e.data|] == e.data;
      assert s[|h| + |e.data|] == body[|e.data|] == NEWLINE;
    }
  }

  lemma HeaderPrefixShort(ms: U64, stream: Stream, len: U64, k: nat)
    requires k < |Header(ms, stream, len)|
    ensures DecodeHeader(Header(ms, stream, len)[..k]).Short?
  {
    hide DecodeField, Decimal;
    var full := Header(ms, stream, len);
    var s := full[..k];
    var d1, d2 := Decimal(ms), Decimal(len);
    if k <= |d1| {
      assert s == d1[..k];
      DigitsHaveNoSpace(s);
    } else {
      assert s == d1 + [SPACE] + full[|d1| + 1..k];
      FieldOfDecimal(ms, full[|d1| + 1..k]);
      if k >= |d1| + 3 {
        assert s[|d1| + 1] == full[|d1| + 1] == StreamChar(stream);
        assert s[|d1| + 2] == full[|d1| + 2] == SPACE;
        assert s[|d1| + 3..] == d2[..k - |d1| - 3];
        DigitsHaveNoSpace(s[|d1| + 3..]);
      }
    }
  }

  /** Every strict prefix of an encoded record is reported as incomplete, never as garbage. */
  lemma DecodeStrictPrefix(e: LogEntry, k: nat)
    requires |e.data| <= MAX_RECORD_BYTES
    requires k < |Encode(e)|
    ensures Decode(Encode(e)[..k]) == NeedMore
  {
    hide DecodeHeader, Header;
    var h := Header(e.ms, e.stream, |e.data|);
    var s := Encode(e)[..k];
    if k < |h| {
      assert s == h[..k];
      HeaderPrefixShort(e.ms, e.stream, |e.data|, k);
    } else {
      var t := Encode(e)[|h|..k];
      assert s == h + t;
      DecodeHeaderOfHeader(e.ms, e.stream, |e.data|, t);
    }
  }

  /** No byte string decodes to a record in fewer bytes than its canonical encoding. */
  lemma DecodedIsAtLeastEncoding(s: seq<Byte>)
    requires Decode(s).Record?
    ensures |Encode(Decode(s).entry)| <= Decode(s).consumed
  {
    hide DecodeField, Decimal;
    var h := DecodeHeader(s);
    var f := DecodeField(s);
    FieldIsAtLeastDecimal(s);
    FieldIsAtLeastDecimal(s[f.size + 2..]);
    assert |s[h.size..h.size + h.len]| == h.len;
  }

  lemma FieldIsAtLeastDecimal(s: seq<Byte>)
    requires DecodeField(s).Number?
    ensures |Decimal(DecodeField(s).n)| + 1 <= DecodeField(s).size
  {
    ParsedIsShortest(s[..IndexOf(s, SPACE)]);
  }

  /** Encodings concatenate. */
  lemma {:induction false} EncodeAllAppend(a: seq<LogEntry>, b: seq<LogEntry>)
    ensures EncodeAll(a + b) == EncodeAll(a) + EncodeAll(b)
  {
    if |a| == 0 {
      assert a + b == b;
    } else {
      assert (a + b)[1..] == a[1..] + b;
      EncodeAllAppend(a[1..], b);
    }
  }

  /** Only the empty list has an empty encoding. */
  lemma EncodeAllEmptyIff(es: seq<LogEntry>)
    ensures EncodeAll(es) == [] <==> es == []
  {
    if es != [] { assert |Encode(es[0])| > 0; }
  }

  lemma EncodeAllOne(e: LogEntry)
    ensures EncodeAll([e]) == Encode(e)
  {
    assert [e][1..] == [];
    assert EncodeAll([]) == [];
  }
}
