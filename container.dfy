/**
 * The IFF-style container of an FL Studio project: a run of chunks, each a
 * four-byte tag, a little-endian u32 length and a payload chosen by the tag.
 */
module Container {
  import opened Wire
  import opened Events

  type Tag = s: seq<byte> | |s| == 4 witness [0, 0, 0, 0]

  /** "FLhd" */
  const FLHD: Tag := [0x46, 0x4C, 0x68, 0x64]
  /** "FLdt" */
  const FLDT: Tag := [0x46, 0x4C, 0x64, 0x74]

  const HEADER_SIZE: nat := 8
  const FLHD_SIZE: nat := 6

  /** The payload of a chunk, chosen by its tag. */
  datatype ChunkData =
    | FLhd(format: u16, channelCount: u16, timebase: u16)   // global project settings
    | FLdt(events: seq<Event>)                              // the project as events
    | Unknown(data: seq<byte>)                              // any other tag, kept as bytes

  datatype Chunk = Chunk(typ: Tag, len: u32, data: ChunkData)

  datatype Project = Project(chunks: seq<Chunk>)

  /**
   * What every decoded chunk satisfies: the payload is the one its tag
   * selects, its events are well formed, and opaque bytes fill `len`.
   */
  predicate ValidChunk(c: Chunk)
  {
    match c.data
    case FLhd(_, _, _) => c.typ == FLHD
    case FLdt(es) => c.typ == FLDT && EventsWellFormed(es)
    case Unknown(d) => c.typ != FLHD && c.typ != FLDT && c.len == |d|
  }

  /** A valid chunk whose length field is the size of its events on the wire. */
  predicate WellFormedChunk(c: Chunk)
  {
    ValidChunk(c) && (c.data.FLdt? ==> c.len == |EncodeEvents(c.data.events)|)
  }

  predicate ValidProject(p: Project)
  {
    forall k :: 0 <= k < |p.chunks| ==> ValidChunk(p.chunks[k])
  }

  predicate WellFormedProject(p: Project)
  {
    forall k :: 0 <= k < |p.chunks| ==> WellFormedChunk(p.chunks[k])
  }

  function EncodeChunkData(d: ChunkData): seq<byte>
  {
    match d
    case FLhd(format, channelCount, timebase) => LE16(format) + LE16(channelCount) + LE16(timebase)
    case FLdt(es) => EncodeEvents(es)
    case Unknown(data) => data
  }

  function EncodeChunk(c: Chunk): (r: seq<byte>)
    ensures |r| == HEADER_SIZE + |EncodeChunkData(c.data)|
  {
    c.typ + LE32(c.len) + EncodeChunkData(c.data)
  }

  /**
   * Reads one chunk off the front of `s`.  An FLhd payload is its three
   * fields whatever `len` says; any other payload is the next `len` bytes,
   * which must be there.  An FLdt payload must be whole events.
   */
  function DecodeChunk(s: seq<byte>): (r: Result<(Chunk, seq<byte>)>)
    ensures r.Ok? ==> ValidChunk(r.value.0)
    ensures r.Ok? ==> |r.value.1| < |s| && r.value.1 == s[|s| - |r.value.1|..]
  {
    if |s| < HEADER_SIZE then Err(TruncatedInput)
    else
      var typ: Tag := s[..4];
      var len := U32At(s, 4);
      var body := s[HEADER_SIZE..];
      if typ == FLHD then
        if |body| < FLHD_SIZE then Err(TruncatedInput)
        else Ok((Chunk(typ, len, FLhd(U16At(body, 0), U16At(body, 2), U16At(body, 4))), body[FLHD_SIZE..]))
      else if |body| < len then Err(MalformedContainer)
      else if typ == FLDT then
        match DecodeEvents(body[..len])
        case Err(err) => Err(err)
        case Ok(es) => Ok((Chunk(typ, len, FLdt(es)), body[len..]))
      else Ok((Chunk(typ, len, Unknown(body[..len])), body[len..]))
  }

  function EncodeChunks(cs: seq<Chunk>): seq<byte>
  {
    if cs == [] then [] else EncodeChunk(cs[0]) + EncodeChunks(cs[1..])
  }

  function EncodeProject(p: Project): seq<byte>
  {
    EncodeChunks(p.chunks)
  }

  /** Chunks until the end of the input. */
  function DecodeChunks(s: seq<byte>): (r: Result<seq<Chunk>>)
    ensures r.Ok? ==> forall k :: 0 <= k < |r.value| ==> ValidChunk(r.value[k])
    decreases |s|
  {
    if s == [] then Ok([])
    else
      match DecodeChunk(s)
      case Err(err) => Err(err)
      case Ok((c, rest)) =>
        match DecodeChunks(rest)
        case Err(err) => Err(err)
        case Ok(cs) => Ok([c] + cs)
  }

  function DecodeProject(s: seq<byte>): (r: Result<Project>)
    ensures r.Ok? ==> ValidProject(r.value)
  {
    match DecodeChunks(s)
    case Err(err) => Err(err)
    case Ok(cs) => Ok(Project(cs))
  }

  /**
   * When `s` starts with an FLdt header whose length fits, the events of
   * that payload have minimal VLQ lengths.
   */
  predicate ChunkVlqsMinimal(s: seq<byte>)
  {
    (|s| >= HEADER_SIZE && s[..4] == FLDT && HEADER_SIZE + U32At(s, 4) <= |s|)
      ==> VlqsMinimal(s[HEADER_SIZE..HEADER_SIZE + U32At(s, 4)])
  }

  /**
   * Every FLdt chunk read off `s`, up to the end or the first chunk that
   * does not decode, has minimal VLQ lengths in its events.
   */
  predicate ChunksVlqsMinimal(s: seq<byte>)
    decreases |s|
  {
    s == [] ||
    match DecodeChunk(s)
    case Err(_) => true
    case Ok((_, rest)) => ChunkVlqsMinimal(s) && ChunksVlqsMinimal(rest)
  }

  // ---------------------------------------------------------------------
  // Properties

  /** Round trip: a well-formed chunk reads back from its encoding, whatever follows. */
  lemma ChunkRoundTrip(c: Chunk, rest: seq<byte>)
    requires WellFormedChunk(c)
    ensures DecodeChunk(EncodeChunk(c) + rest) == Ok((c, rest))
  {
    var payload := EncodeChunkData(c.data);
    var s := EncodeChunk(c) + rest;
    assert s[..4] == c.typ;
    U32AtLE(c.typ, c.len, payload + rest);
    assert s == c.typ + LE32(c.len) + (payload + rest);
    var body := s[HEADER_SIZE..];
    assert body == payload + rest;
    match c.data {
      case FLhd(format, channelCount, timebase) =>
        FlhdFields(format, channelCount, timebase, rest);
      case FLdt(es) =>
        assert body[..c.len] == payload;
        assert body[c.len..] == rest;
        EventsRoundTrip(es);
      case Unknown(d) =>
        assert body[..c.len] == payload;
        assert body[c.len..] == rest;
    }
  }

  /** The three FLhd fields read back from their encoding. */
  lemma FlhdFields(format: u16, channelCount: u16, timebase: u16, rest: seq<byte>)
    ensures var b := LE16(format) + LE16(channelCount) + LE16(timebase) + rest;
      U16At(b, 0) == format && U16At(b, 2) == channelCount && U16At(b, 4) == timebase
      && b[FLHD_SIZE..] == rest
  {
  }

  /** Round trip for a whole project of well-formed chunks. */
  lemma {:induction false} ChunksRoundTrip(cs: seq<Chunk>)
    requires forall k :: 0 <= k < |cs| ==> WellFormedChunk(cs[k])
    ensures DecodeChunks(EncodeChunks(cs)) == Ok(cs)
  {
    if cs != [] {
      ChunkRoundTrip(cs[0], EncodeChunks(cs[1..]));
      ChunksRoundTrip(cs[1..]);
      assert [cs[0]] + cs[1..] == cs;
    }
  }

  lemma ProjectRoundTrip(p: Project)
    requires WellFormedProject(p)
    ensures DecodeProject(EncodeProject(p)) == Ok(p)
  {
    ChunksRoundTrip(p.chunks);
  }

  /** The tag and length field written back give the header that was read. */
  lemma HeaderCanonical(s: seq<byte>)
    requires |s| >= HEADER_SIZE
    ensures s[..4] + LE32(U32At(s, 4)) + s[HEADER_SIZE..] == s
  {
    U32Canonical(s, 4);
  }

  /**
   * Round trip from bytes for an FLhd chunk: the chunk read and written back
   * gives the bytes it was read from, whatever its length field says.
   */
  lemma FlhdCanonical(s: seq<byte>)
    requires DecodeChunk(s).Ok? && DecodeChunk(s).value.0.data.FLhd?
    ensures EncodeChunk(DecodeChunk(s).value.0) + DecodeChunk(s).value.1 == s
    ensures WellFormedChunk(DecodeChunk(s).value.0)
  {
    var body := s[HEADER_SIZE..];
    var c := Chunk(s[..4], U32At(s, 4), FLhd(U16At(body, 0), U16At(body, 2), U16At(body, 4)));
    assert DecodeChunk(s) == Ok((c, body[FLHD_SIZE..]));
    U16Canonical(body, 0);
    U16Canonical(body, 2);
    U16Canonical(body, 4);
    assert body == body[0..2] + body[2..4] + body[4..6] + body[FLHD_SIZE..];
    HeaderCanonical(s);
  }

  /**
   * Round trip from bytes for a chunk of any other tag: its `len` bytes pass
   * through unchanged.
   */
  lemma UnknownCanonical(s: seq<byte>)
    requires DecodeChunk(s).Ok? && DecodeChunk(s).value.0.data.Unknown?
    ensures EncodeChunk(DecodeChunk(s).value.0) + DecodeChunk(s).value.1 == s
    ensures WellFormedChunk(DecodeChunk(s).value.0)
  {
    var body := s[HEADER_SIZE..];
    var len := U32At(s, 4);
    assert DecodeChunk(s) == Ok((Chunk(s[..4], len, Unknown(body[..len])), body[len..]));
    assert body[..len] + body[len..] == body;
    HeaderCanonical(s);
  }

  /** What `DecodeChunk` returns for an FLdt chunk, in terms of the input. */
  lemma FldtShape(s: seq<byte>)
    requires DecodeChunk(s).Ok? && DecodeChunk(s).value.0.data.FLdt?
    ensures |s| >= HEADER_SIZE && s[..4] == FLDT && HEADER_SIZE + U32At(s, 4) <= |s|
    ensures var payload := s[HEADER_SIZE..HEADER_SIZE + U32At(s, 4)];
      DecodeEvents(payload).Ok? &&
      DecodeChunk(s).value == (Chunk(s[..4], U32At(s, 4), FLdt(DecodeEvents(payload).value)), s[HEADER_SIZE + U32At(s, 4)..])
  {
    var body := s[HEADER_SIZE..];
    var len := U32At(s, 4);
    assert body[..len] == s[HEADER_SIZE..HEADER_SIZE + len];
    assert body[len..] == s[HEADER_SIZE + len..];
  }

  /** Header, payload and what follows put back together. */
  lemma SplitAtPayload(s: seq<byte>, len: nat)
    requires HEADER_SIZE + len <= |s| && len == U32At(s, 4)
    ensures s[..4] + LE32(len) + s[HEADER_SIZE..HEADER_SIZE + len] + s[HEADER_SIZE + len..] == s
  {
    HeaderCanonical(s);
    assert s[HEADER_SIZE..] == s[HEADER_SIZE..HEADER_SIZE + len] + s[HEADER_SIZE + len..];
  }

  /**
   * Round trip from bytes for an FLdt chunk whose events have minimal VLQ
   * lengths; its length field is then the size of its events on the wire.
   */
  lemma FldtCanonical(s: seq<byte>)
    requires DecodeChunk(s).Ok? && DecodeChunk(s).value.0.data.FLdt? && ChunkVlqsMinimal(s)
    ensures EncodeChunk(DecodeChunk(s).value.0) + DecodeChunk(s).value.1 == s
    ensures WellFormedChunk(DecodeChunk(s).value.0)
  {
    FldtShape(s);
    var len := U32At(s, 4);
    var payload := s[HEADER_SIZE..HEADER_SIZE + len];
    EventsCanonical(payload);
    SplitAtPayload(s, len);
  }

  lemma ChunkCanonical(s: seq<byte>)
    requires DecodeChunk(s).Ok? && ChunkVlqsMinimal(s)
    ensures EncodeChunk(DecodeChunk(s).value.0) + DecodeChunk(s).value.1 == s
    ensures WellFormedChunk(DecodeChunk(s).value.0)
  {
    match DecodeChunk(s).value.0.data {
      case FLhd(_, _, _) => FlhdCanonical(s);
      case FLdt(_) => FldtCanonical(s);
      case Unknown(_) => UnknownCanonical(s);
    }
  }

  /**
   * Round trip from bytes for a whole file: when every VLQ length in its
   * FLdt chunks is minimal, the project read from it is well formed and
   * writes back to exactly the same bytes.
   */
  lemma {:induction false} ChunksCanonical(s: seq<byte>)
    requires DecodeChunks(s).Ok? && ChunksVlqsMinimal(s)
    ensures EncodeChunks(DecodeChunks(s).value) == s
    ensures forall k :: 0 <= k < |DecodeChunks(s).value| ==> WellFormedChunk(DecodeChunks(s).value[k])
    decreases |s|
  {
    if s != [] {
      var (c, rest) := DecodeChunk(s).value;
      ChunkCanonical(s);
      ChunksCanonical(rest);
      var cs := DecodeChunks(s).value;
      assert cs == [c] + DecodeChunks(rest).value;
      assert cs[1..] == DecodeChunks(rest).value;
    }
  }

  lemma ProjectCanonical(s: seq<byte>)
    requires DecodeProject(s).Ok? && ChunksVlqsMinimal(s)
    ensures WellFormedProject(DecodeProject(s).value)
    ensures EncodeProject(DecodeProject(s).value) == s
  {
    ChunksCanonical(s);
  }

  /**
   * The converse: what a well-formed chunk writes meets the minimal-VLQ
   * condition, so every file this model writes is read back canonically.
   */
  lemma EncodedChunkMinimal(c: Chunk, tail: seq<byte>)
    requires WellFormedChunk(c)
    ensures ChunkVlqsMinimal(EncodeChunk(c) + tail)
  {
    var s := EncodeChunk(c) + tail;
    assert s[..4] == c.typ;
    if c.data.FLdt? {
      U32Canonical(LE32(c.len), 0);
      assert s[4..8] == LE32(c.len);
      assert U32At(s, 4) == U32At(LE32(c.len), 0);
      assert s[HEADER_SIZE..HEADER_SIZE + c.len] == EncodeEvents(c.data.events);
      EncodedVlqsMinimal(c.data.events);
    }
  }

  lemma {:induction false} EncodedChunksMinimal(cs: seq<Chunk>)
    requires forall k :: 0 <= k < |cs| ==> WellFormedChunk(cs[k])
    ensures ChunksVlqsMinimal(EncodeChunks(cs))
  {
    if cs != [] {
      var tail := EncodeChunks(cs[1..]);
      EncodedChunkMinimal(cs[0], tail);
      ChunkRoundTrip(cs[0], tail);
      EncodedChunksMinimal(cs[1..]);
    }
  }

  lemma EncodedProjectMinimal(p: Project)
    requires WellFormedProject(p)
    ensures ChunksVlqsMinimal(EncodeProject(p))
  {
    EncodedChunksMinimal(p.chunks);
  }
}
