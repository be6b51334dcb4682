/**
 * FL Studio project events: a type byte whose top two bits (`Type & 0xC0`)
 * select the payload — one byte, a little-endian u16, a little-endian u32,
 * or a VLQ length followed by that many bytes.
 */
module Events {
  import opened Wire
  import opened Vlq

  /** The payload of a byte event: the declared length and the bytes. */
  datatype EventBytes = EventBytes(len: u64, data: seq<byte>)

  /**
   * One event, with every field of the record; only the field its type
   * selects is on the wire, the others stay zero.
   */
  datatype Event = Event(typ: byte, int8: byte, int16: u16, int32: u32, bytes: EventBytes)

  const NO_BYTES := EventBytes(0, [])

  const KIND_INT8: byte := 0x00
  const KIND_INT16: byte := 0x40
  const KIND_INT32: byte := 0x80
  const KIND_BYTES: byte := 0xC0

  /** `typ & 0xC0`: the two top bits of the type, in place. */
  function Kind(typ: byte): (k: byte)
    ensures k == KIND_INT8 || k == KIND_INT16 || k == KIND_INT32 || k == KIND_BYTES
    ensures k <= typ < k + 64
  {
    typ / 64 * 64
  }

  /**
   * The fields the type does not select are zero, and a byte event's
   * length is the number of its bytes.  Every decoded event is well formed.
   */
  predicate WellFormedEvent(e: Event)
  {
    var k := Kind(e.typ);
    (k == KIND_INT8 || e.int8 == 0)
    && (k == KIND_INT16 || e.int16 == 0)
    && (k == KIND_INT32 || e.int32 == 0)
    && (if k == KIND_BYTES then e.bytes.len == |e.bytes.data| else e.bytes == NO_BYTES)
  }

  predicate EventsWellFormed(es: seq<Event>)
  {
    forall k :: 0 <= k < |es| ==> WellFormedEvent(es[k])
  }

  /** The bytes after the type byte. */
  function EncodePayload(e: Event): seq<byte>
  {
    var k := Kind(e.typ);
    if k == KIND_INT8 then [e.int8]
    else if k == KIND_INT16 then LE16(e.int16)
    else if k == KIND_INT32 then LE32(e.int32)
    else VlqBytes(e.bytes.len) + e.bytes.data
  }

  function EncodeEvent(e: Event): seq<byte>
  {
    [e.typ] + EncodePayload(e)
  }

  /** Size on the wire of the payload of `e`, as the type dictates. */
  function PayloadSize(e: Event): nat
  {
    var k := Kind(e.typ);
    if k == KIND_INT8 then 1
    else if k == KIND_INT16 then 2
    else if k == KIND_INT32 then 4
    else |VlqBytes(e.bytes.len)| + |e.bytes.data|
  }

  /**
   * Reads one event off the front of `s`: the event and the bytes after it.
   * A field that runs past the end of `s` is `TruncatedInput`.
   */
  function DecodeEvent(s: seq<byte>): (r: Result<(Event, seq<byte>)>)
    ensures r.Ok? ==> WellFormedEvent(r.value.0)
    ensures r.Ok? ==> |r.value.1| < |s| && r.value.1 == s[|s| - |r.value.1|..]
    ensures r.Ok? ==> r.value.0.typ == s[0]
  {
    if s == [] then Err(TruncatedInput)
    else
      var typ := s[0];
      var rest := s[1..];
      var k := Kind(typ);
      if k == KIND_INT8 then
        if rest == [] then Err(TruncatedInput)
        else Ok((Event(typ, rest[0], 0, 0, NO_BYTES), rest[1..]))
      else if k == KIND_INT16 then
        match ReadU16(rest)
        case Err(err) => Err(err)
        case Ok((x, tail)) => Ok((Event(typ, 0, x, 0, NO_BYTES), tail))
      else if k == KIND_INT32 then
        match ReadU32(rest)
        case Err(err) => Err(err)
        case Ok((x, tail)) => Ok((Event(typ, 0, 0, x, NO_BYTES), tail))
      else
        match VlqRead(rest)
        case Err(err) => Err(err)
        case Ok((len, tail)) =>
          if |tail| < len then Err(TruncatedInput)
          else Ok((Event(typ, 0, 0, 0, EventBytes(len, tail[..len])), tail[len..]))
  }

  function EncodeEvents(es: seq<Event>): (r: seq<byte>)
  {
    if es == [] then [] else EncodeEvent(es[0]) + EncodeEvents(es[1..])
  }

  /** Events until the end of `s`, every one of which must be whole. */
  function DecodeEvents(s: seq<byte>): (r: Result<seq<Event>>)
    ensures r.Ok? ==> EventsWellFormed(r.value)
    decreases |s|
  {
    if s == [] then Ok([])
    else
      match DecodeEvent(s)
      case Err(err) => Err(err)
      case Ok((e, rest)) =>
        match DecodeEvents(rest)
        case Err(err) => Err(err)
        case Ok(es) => Ok([e] + es)
  }

  /**
   * Every byte event read off `s`, up to the end or the first event that
   * does not decode, has a minimal VLQ length.
   */
  predicate VlqsMinimal(s: seq<byte>)
    decreases |s|
  {
    s == [] ||
    match DecodeEvent(s)
    case Err(_) => true
    case Ok((_, rest)) => (Kind(s[0]) == KIND_BYTES ==> MinimalVlq(s[1..])) && VlqsMinimal(rest)
  }

  // ---------------------------------------------------------------------
  // Properties

  /** The payload occupies 1, 2 or 4 bytes, or a VLQ length plus the data. */
  lemma EventSize(e: Event)
    ensures |EncodeEvent(e)| == 1 + PayloadSize(e)
    ensures EncodeEvent(e)[0] == e.typ
  {
  }

  /** Round trip: a well-formed event reads back from its encoding, whatever follows. */
  lemma EventRoundTrip(e: Event, rest: seq<byte>)
    requires WellFormedEvent(e)
    ensures DecodeEvent(EncodeEvent(e) + rest) == Ok((e, rest))
  {
    var s := EncodeEvent(e) + rest;
    var p := EncodePayload(e);
    assert s[1..] == p + rest;
    var k := Kind(e.typ);
    if k == KIND_INT8 {
      assert (p + rest)[1..] == rest;
    } else if k == KIND_INT16 {
      U16RoundTrip(e.int16, rest);
    } else if k == KIND_INT32 {
      U32RoundTrip(e.int32, rest);
    } else {
      var data := e.bytes.data;
      assert p + rest == VlqBytes(e.bytes.len) + (data + rest);
      VlqRoundTrip(e.bytes.len, data + rest);
      assert (data + rest)[..|data|] == data;
      assert (data + rest)[|data|..] == rest;
    }
  }

  /** Round trip for a run of well-formed events. */
  lemma {:induction false} EventsRoundTrip(es: seq<Event>)
    requires EventsWellFormed(es)
    ensures DecodeEvents(EncodeEvents(es)) == Ok(es)
  {
    if es != [] {
      var s := EncodeEvents(es);
      EventRoundTrip(es[0], EncodeEvents(es[1..]));
      EventsRoundTrip(es[1..]);
      assert [es[0]] + es[1..] == es;
    }
  }

  /** The encoding of a run of events is the encodings of its parts, back to back. */
  lemma {:induction false} EncodeEventsAppend(a: seq<Event>, b: seq<Event>)
    ensures EncodeEvents(a + b) == EncodeEvents(a) + EncodeEvents(b)
  {
    if a != [] {
      assert (a + b)[1..] == a[1..] + b;
      EncodeEventsAppend(a[1..], b);
    } else {
      assert a + b == b;
    }
  }

  /**
   * Round trip from bytes: an event read off `s` and written back gives the
   * bytes it was read from, provided its VLQ length (if any) is minimal.
   */
  lemma EventCanonical(s: seq<byte>)
    requires DecodeEvent(s).Ok?
    requires Kind(s[0]) == KIND_BYTES ==> MinimalVlq(s[1..])
    ensures EncodeEvent(DecodeEvent(s).value.0) + DecodeEvent(s).value.1 == s
  {
    var k := Kind(s[0]);
    if k == KIND_BYTES {
      VlqCanonical(s[1..]);
      BytesEventCanonical(s);
    } else if k == KIND_INT8 {
      var r := s[1..];
      assert DecodeEvent(s) == Ok((Event(s[0], r[0], 0, 0, NO_BYTES), r[1..]));
      assert s == [s[0]] + [r[0]] + r[1..];
    } else {
      FieldEventCanonical(s);
    }
  }

  lemma FieldEventCanonical(s: seq<byte>)
    requires DecodeEvent(s).Ok?
    requires Kind(s[0]) == KIND_INT16 || Kind(s[0]) == KIND_INT32
    ensures EncodeEvent(DecodeEvent(s).value.0) + DecodeEvent(s).value.1 == s
  {
    var r := s[1..];
    if Kind(s[0]) == KIND_INT16 {
      var x := U16At(r, 0);
      assert DecodeEvent(s) == Ok((Event(s[0], 0, x, 0, NO_BYTES), r[2..]));
      U16Canonical(r, 0);
      assert s == [s[0]] + r[..2] + r[2..];
    } else {
      var x := U32At(r, 0);
      assert DecodeEvent(s) == Ok((Event(s[0], 0, 0, x, NO_BYTES), r[4..]));
      U32Canonical(r, 0);
      assert s == [s[0]] + r[..4] + r[4..];
    }
  }

  lemma BytesEventCanonical(s: seq<byte>)
    requires DecodeEvent(s).Ok? && Kind(s[0]) == KIND_BYTES && VlqRead(s[1..]).Ok?
    requires VlqBytes(VlqRead(s[1..]).value.0) + VlqRead(s[1..]).value.1 == s[1..]
    ensures EncodeEvent(DecodeEvent(s).value.0) + DecodeEvent(s).value.1 == s
  {
    BytesEventShape(s);
    var r := s[1..];
    var len := VlqRead(r).value.0;
    var tail := VlqRead(r).value.1;
    EncodeBytesEvent(s[0], len, tail[..len]);
    Reassemble(s, VlqBytes(len), tail, len);
  }

  lemma EncodeBytesEvent(typ: byte, len: u64, data: seq<byte>)
    requires Kind(typ) == KIND_BYTES
    ensures EncodeEvent(Event(typ, 0, 0, 0, EventBytes(len, data))) == [typ] + VlqBytes(len) + data
  {
  }

  /** `s` is its first byte, a prefix `v` and a tail cut at `n`, put back together. */
  lemma Reassemble(s: seq<byte>, v: seq<byte>, tail: seq<byte>, n: nat)
    requires |s| >= 1 && v + tail == s[1..] && n <= |tail|
    ensures [s[0]] + v + tail[..n] + tail[n..] == s
  {
    assert tail[..n] + tail[n..] == tail;
    assert [s[0]] + s[1..] == s;
  }

  /** What a byte event decodes to: the VLQ length, that many bytes, and the rest. */
  lemma BytesEventShape(s: seq<byte>)
    requires DecodeEvent(s).Ok? && Kind(s[0]) == KIND_BYTES
    ensures VlqRead(s[1..]).Ok?
    ensures var len := VlqRead(s[1..]).value.0;
      var tail := VlqRead(s[1..]).value.1;
      len <= |tail|
      && DecodeEvent(s).value == (Event(s[0], 0, 0, 0, EventBytes(len, tail[..len])), tail[len..])
  {
  }

  /**
   * Round trip from bytes for a run of events: when every VLQ length is
   * minimal, re-encoding what was read gives the input back.
   */
  lemma {:induction false} EventsCanonical(s: seq<byte>)
    requires DecodeEvents(s).Ok? && VlqsMinimal(s)
    ensures EncodeEvents(DecodeEvents(s).value) == s
    decreases |s|
  {
    if s != [] {
      var (e, rest) := DecodeEvent(s).value;
      EventCanonical(s);
      EventsCanonical(rest);
      var es := DecodeEvents(s).value;
      assert es == [e] + DecodeEvents(rest).value;
      assert es[1..] == DecodeEvents(rest).value;
    }
  }

  /** Every run of well-formed events, once encoded, has minimal VLQ lengths. */
  lemma {:induction false} EncodedVlqsMinimal(es: seq<Event>)
    requires EventsWellFormed(es)
    ensures VlqsMinimal(EncodeEvents(es))
  {
    if es != [] {
      var tail := EncodeEvents(es[1..]);
      var s := EncodeEvents(es);
      assert s == EncodeEvent(es[0]) + tail;
      EncodedEventMinimal(es[0], tail);
      EncodedVlqsMinimal(es[1..]);
      VlqsMinimalCons(s);
    }
  }

  /** A well-formed event decodes back from its encoding, and its VLQ length is minimal. */
  lemma EncodedEventMinimal(e: Event, tail: seq<byte>)
    requires WellFormedEvent(e)
    ensures var s := EncodeEvent(e) + tail;
      DecodeEvent(s) == Ok((e, tail)) && s[0] == e.typ
      && (Kind(s[0]) == KIND_BYTES ==> MinimalVlq(s[1..]))
  {
    EventRoundTrip(e, tail);
    if Kind(e.typ) == KIND_BYTES {
      ByteEventVlqMinimal(e, tail);
    }
  }

  lemma ByteEventVlqMinimal(e: Event, tail: seq<byte>)
    requires Kind(e.typ) == KIND_BYTES
    ensures MinimalVlq((EncodeEvent(e) + tail)[1..])
  {
    var v := VlqBytes(e.bytes.len);
    var rest := e.bytes.data + tail;
    assert EncodeEvent(e) + tail == [e.typ] + (v + rest);
    assert (EncodeEvent(e) + tail)[1..] == v + rest;
    VlqBytesMinimal(e.bytes.len, rest);
  }

  /** The walk of `VlqsMinimal`, one event at a time. */
  lemma VlqsMinimalCons(s: seq<byte>)
    requires DecodeEvent(s).Ok?
    requires Kind(s[0]) == KIND_BYTES ==> MinimalVlq(s[1..])
    requires VlqsMinimal(DecodeEvent(s).value.1)
    ensures VlqsMinimal(s)
  {
  }
}
