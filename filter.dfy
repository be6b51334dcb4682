/**
 * `filterwrite`: the project kept to one playlist track.  Every playlist
 * event (type 233) keeps only the items on the track, its length is set to
 * its new size, and every FLdt chunk's length is recomputed.
 */
module Filter {
  import opened Wire
  import opened Vlq
  import opened Playlist
  import opened Events
  import opened Container

  /** The playlist items event; 0xE9, a byte event. */
  const PLAYLIST_EVENT: byte := 233

  /** `uint64(n)`: a length as Go converts it, kept to 64 bits. */
  function Uint64(n: nat): (r: u64)
    ensures n < TWO64 ==> r == n
  {
    n % TWO64
  }

  /** `uint32(size) - 8`: the length field of a chunk of `size` bytes, in 32-bit arithmetic. */
  function FixedLen(size: nat): (r: u32)
    ensures size < TWO32 && size >= HEADER_SIZE ==> r == size - HEADER_SIZE
  {
    (size % TWO32 - HEADER_SIZE) % TWO32
  }

  /**
   * A playlist event keeps the items on `track` and its length becomes the
   * size of what is left; any other event is left alone.  A playlist payload
   * that is not whole items is an error.
   */
  function FilterEvent(e: Event, track: u32): (r: Result<Event>)
    ensures r.Err? <==> e.typ == PLAYLIST_EVENT && |e.bytes.data| % ITEM_SIZE != 0
    ensures r.Ok? ==> r.value == e.(bytes := r.value.bytes)
  {
    if e.typ != PLAYLIST_EVENT then Ok(e)
    else
      match DecodeItems(e.bytes.data)
      case Err(err) => Err(err)
      case Ok(items) =>
        var data := EncodeItems(KeepTrack(items, track));
        Ok(e.(bytes := EventBytes(Uint64(|data|), data)))
  }

  /** The events filtered one by one, in place; the first failure stops the run. */
  function FilterEvents(es: seq<Event>, track: u32): (r: Result<seq<Event>>)
    ensures r.Ok? ==> |r.value| == |es|
  {
    if es == [] then Ok([])
    else
      var init := es[..|es| - 1];
      match FilterEvents(init, track)
      case Err(err) => Err(err)
      case Ok(fs) =>
        match FilterEvent(es[|es| - 1], track)
        case Err(err) => Err(err)
        case Ok(f) => Ok(fs + [f])
  }

  /**
   * An FLdt chunk with its events filtered and its length set from its new
   * size; any other chunk is left alone.
   */
  function FilterChunk(c: Chunk, track: u32): (r: Result<Chunk>)
    ensures r.Ok? ==> r.value.typ == c.typ
  {
    if !c.data.FLdt? then Ok(c)
    else
      match FilterEvents(c.data.events, track)
      case Err(err) => Err(err)
      case Ok(es) =>
        var filtered := c.(data := FLdt(es));
        Ok(filtered.(len := FixedLen(|EncodeChunk(filtered)|)))
  }

  function FilterChunks(cs: seq<Chunk>, track: u32): (r: Result<seq<Chunk>>)
    ensures r.Ok? ==> |r.value| == |cs|
  {
    if cs == [] then Ok([])
    else
      var init := cs[..|cs| - 1];
      match FilterChunks(init, track)
      case Err(err) => Err(err)
      case Ok(fs) =>
        match FilterChunk(cs[|cs| - 1], track)
        case Err(err) => Err(err)
        case Ok(f) => Ok(fs + [f])
  }

  /** The project for one raw track. */
  function FilterProject(p: Project, track: u32): (r: Result<Project>)
    ensures r.Ok? ==> |r.value.chunks| == |p.chunks|
  {
    match FilterChunks(p.chunks, track)
    case Err(err) => Err(err)
    case Ok(cs) => Ok(Project(cs))
  }

  // ---------------------------------------------------------------------
  // The imperative filter

  /** The loop over a playlist event's items: the items on `track`, appended in order (main.go:183-189). */
  method KeepItems(items: seq<PlaylistItem>, track: u32) returns (kept: seq<PlaylistItem>)
    ensures kept == KeepTrack(items, track)
  {
    kept := [];
    var k := 0;
    while k < |items|
      invariant k <= |items|
      invariant kept == KeepTrack(items[..k], track)
    {
      var item := items[k];
      assert items[..k + 1][..k] == items[..k];
      if item.track == track {
        kept := kept + [item];
      }
      k := k + 1;
    }
    assert items[..k] == items;
  }

  /**
   * The body of the event loop of `filterwrite`: a playlist event has its
   * items unpacked, filtered, repacked and its length fixed; any other event
   * is left as it is.
   */
  method FilterOneEvent(e: Event, track: u32) returns (r: Result<Event>)
    ensures r == FilterEvent(e, track)
  {
    if e.typ != PLAYLIST_EVENT {
      return Ok(e);
    }
    var decoded := DecodeItems(e.bytes.data);
    if decoded.Err? {
      return Err(decoded.error);
    }
    var kept := KeepItems(decoded.value, track);
    var data := EncodeItems(kept);
    r := Ok(e.(bytes := EventBytes(Uint64(|data|), data)));
  }

  /**
   * The inner loop of `filterwrite` over the events of one FLdt chunk,
   * filtering each event in place in a copy of the event slice.
   */
  method FilterChunkEvents(orig: seq<Event>, track: u32) returns (r: Result<seq<Event>>)
    ensures r == FilterEvents(orig, track)
  {
    var events := orig;
    var j := 0;
    while j < |events|
      invariant j <= |events| == |orig|
      invariant FilterEvents(orig[..j], track) == Ok(events[..j])
      invariant forall k :: j <= k < |events| ==> events[k] == orig[k]
    {
      var e := FilterOneEvent(events[j], track);
      if e.Err? {
        FilterEventsSnocErr(orig, j, track);
        FilterEventsFails(orig, j + 1, track);
        assert orig[..|orig|] == orig;
        return Err(e.error);
      }
      ghost var done := events[..j];
      FilterEventsSnoc(orig, j, track, done, e.value);
      events := events[j := e.value];
      assert events[..j + 1] == done + [e.value];
      j := j + 1;
    }
    assert orig[..j] == orig && events[..j] == events;
    r := Ok(events);
  }

  /**
   * The body of the chunk loop of `filterwrite`: an FLdt chunk gets its
   * events filtered, then its length set from its new size
   * (`uint32(size) - 8`); any other chunk is left as it is.
   */
  method FilterOneChunk(c: Chunk, track: u32) returns (r: Result<Chunk>)
    ensures r == FilterChunk(c, track)
  {
    if !c.data.FLdt? {
      return Ok(c);
    }
    var events := FilterChunkEvents(c.data.events, track);
    if events.Err? {
      return Err(events.error);
    }
    var filtered := c.(data := FLdt(events.value));
    var size := |EncodeChunk(filtered)|;
    r := Ok(filtered.(len := FixedLen(size)));
  }

  /**
   * `filterwrite` up to writing the output file: filters the chunks of the
   * caller's project, which is a value and so is never changed, and returns
   * the bytes of the result.
   */
  method FilterWrite(p: Project, track: u32) returns (r: Result<seq<byte>>)
    ensures r.Ok? <==> FilterProject(p, track).Ok?
    ensures r.Ok? ==> r.value == EncodeProject(FilterProject(p, track).value)
  {
    var chunks := p.chunks;
    var i := 0;
    while i < |chunks|
      invariant i <= |chunks| == |p.chunks|
      invariant FilterChunks(p.chunks[..i], track) == Ok(chunks[..i])
      invariant forall k :: i <= k < |chunks| ==> chunks[k] == p.chunks[k]
    {
      assert chunks[i] == p.chunks[i];
      var c := FilterOneChunk(chunks[i], track);
      if c.Err? {
        FilterChunksSnocErr(p.chunks, i, track);
        FilterChunksFails(p.chunks, i + 1, track);
        assert p.chunks[..|p.chunks|] == p.chunks;
        return Err(c.error);
      }
      ghost var done := chunks[..i];
      FilterChunksSnoc(p.chunks, i, track, done, c.value);
      chunks := chunks[i := c.value];
      assert chunks[..i + 1] == done + [c.value];
      i := i + 1;
    }
    assert p.chunks[..i] == p.chunks && chunks[..i] == chunks;
    r := Ok(EncodeProject(Project(chunks)));
  }

  // ---------------------------------------------------------------------
  // Properties

  lemma {:induction false} KeepTrackLength(items: seq<PlaylistItem>, track: u32)
    ensures |KeepTrack(items, track)| <= |items|
  {
    if items != [] {
      KeepTrackLength(items[..|items| - 1], track);
    }
  }

  /** Once a prefix of the events fails, the whole run fails the same way. */
  lemma {:induction false} FilterEventsFails(es: seq<Event>, k: nat, track: u32)
    requires k <= |es|
    requires FilterEvents(es[..k], track).Err?
    ensures FilterEvents(es, track) == FilterEvents(es[..k], track)
    decreases |es| - k
  {
    if k < |es| {
      assert es[..k + 1][..k] == es[..k];
      FilterEventsFails(es, k + 1, track);
    } else {
      assert es[..k] == es;
    }
  }

  lemma {:induction false} FilterChunksFails(cs: seq<Chunk>, k: nat, track: u32)
    requires k <= |cs| && FilterChunks(cs[..k], track).Err?
    ensures FilterChunks(cs, track) == FilterChunks(cs[..k], track)
    decreases |cs| - k
  {
    if k < |cs| {
      assert cs[..k + 1][..k] == cs[..k];
      FilterChunksFails(cs, k + 1, track);
    } else {
      assert cs[..k] == cs;
    }
  }

  /** One more event filtered extends the filtered prefix by its result. */
  lemma FilterEventsSnoc(es: seq<Event>, j: nat, track: u32, done: seq<Event>, e: Event)
    requires j < |es|
    requires FilterEvents(es[..j], track) == Ok(done)
    requires FilterEvent(es[j], track) == Ok(e)
    ensures FilterEvents(es[..j + 1], track) == Ok(done + [e])
  {
    assert es[..j + 1][..j] == es[..j];
  }

  /** An event that fails to filter fails the prefix that ends with it. */
  lemma FilterEventsSnocErr(es: seq<Event>, j: nat, track: u32)
    requires j < |es|
    requires FilterEvents(es[..j], track).Ok? && FilterEvent(es[j], track).Err?
    ensures FilterEvents(es[..j + 1], track) == Err(FilterEvent(es[j], track).error)
  {
    assert es[..j + 1][..j] == es[..j];
  }

  lemma FilterChunksSnoc(cs: seq<Chunk>, i: nat, track: u32, done: seq<Chunk>, c: Chunk)
    requires i < |cs|
    requires FilterChunks(cs[..i], track) == Ok(done)
    requires FilterChunk(cs[i], track) == Ok(c)
    ensures FilterChunks(cs[..i + 1], track) == Ok(done + [c])
  {
    assert cs[..i + 1][..i] == cs[..i];
  }

  lemma FilterChunksSnocErr(cs: seq<Chunk>, i: nat, track: u32)
    requires i < |cs|
    requires FilterChunks(cs[..i], track).Ok? && FilterChunk(cs[i], track).Err?
    ensures FilterChunks(cs[..i + 1], track) == Err(FilterChunk(cs[i], track).error)
  {
    assert cs[..i + 1][..i] == cs[..i];
  }

  /**
   * A playlist event whose payload is whole items keeps exactly the items
   * on `track`, in order; its length is the size of the new payload, 32
   * bytes per item left, and a well-formed event stays well formed.
   */
  lemma FilterPlaylistEvent(e: Event, track: u32)
    requires e.typ == PLAYLIST_EVENT && DecodeItems(e.bytes.data).Ok?
    ensures var kept := KeepTrack(DecodeItems(e.bytes.data).value, track);
      var f := FilterEvent(e, track).value;
      && DecodeItems(f.bytes.data) == Ok(kept)
      && |f.bytes.data| == ITEM_SIZE * |kept|
      && (WellFormedEvent(e) ==> WellFormedEvent(f) && f.bytes.len == |f.bytes.data| <= |e.bytes.data|)
  {
    var items := DecodeItems(e.bytes.data).value;
    var kept := KeepTrack(items, track);
    ItemsRoundTrip(kept);
    KeepTrackLength(items, track);
  }

  /** Any other event passes through unchanged. */
  lemma FilterOtherEvent(e: Event, track: u32)
    requires e.typ != PLAYLIST_EVENT
    ensures FilterEvent(e, track) == Ok(e)
  {
  }

  /**
   * Events are filtered in place: the run succeeds exactly when every
   * event does, and each slot holds its own event filtered, even a
   * playlist event left with no items.
   */
  lemma {:induction false} FilterEventsInPlace(es: seq<Event>, track: u32)
    ensures FilterEvents(es, track).Ok? <==> forall k :: 0 <= k < |es| ==> FilterEvent(es[k], track).Ok?
    ensures FilterEvents(es, track).Ok? ==>
      forall k :: 0 <= k < |es| ==> FilterEvents(es, track).value[k] == FilterEvent(es[k], track).value
  {
    if es != [] {
      var init := es[..|es| - 1];
      FilterEventsInPlace(init, track);
      assert forall k :: 0 <= k < |init| ==> init[k] == es[k];
    }
  }

  /** Chunks are filtered in place in the same way. */
  lemma {:induction false} FilterChunksInPlace(cs: seq<Chunk>, track: u32)
    ensures FilterChunks(cs, track).Ok? <==> forall k :: 0 <= k < |cs| ==> FilterChunk(cs[k], track).Ok?
    ensures FilterChunks(cs, track).Ok? ==>
      forall k :: 0 <= k < |cs| ==> FilterChunks(cs, track).value[k] == FilterChunk(cs[k], track).value
  {
    if cs != [] {
      var init := cs[..|cs| - 1];
      FilterChunksInPlace(init, track);
      assert forall k :: 0 <= k < |init| ==> init[k] == cs[k];
    }
  }

  /**
   * A filtered FLdt chunk keeps its tag and its length field is the size
   * of its events on the wire, in 32 bits; any other chunk is unchanged.
   */
  lemma FilterChunkLen(c: Chunk, track: u32)
    requires FilterChunk(c, track).Ok?
    ensures var f := FilterChunk(c, track).value;
      && f.typ == c.typ
      && (c.data.FLdt? ==> f.data.FLdt? && f.len == |EncodeEvents(f.data.events)| % TWO32)
      && (!c.data.FLdt? ==> f == c)
  {
    if c.data.FLdt? {
      var f := FilterChunk(c, track).value;
      var n := |EncodeEvents(f.data.events)|;
      assert |EncodeChunk(f)| == HEADER_SIZE + n;
      ModShift(n);
    }
  }

  lemma ModShift(n: nat)
    ensures ((HEADER_SIZE + n) % TWO32 - HEADER_SIZE) % TWO32 == n % TWO32
  {
  }

  /** Filtering never makes an event longer on the wire. */
  lemma FilterEventShrinks(e: Event, track: u32)
    requires WellFormedEvent(e) && FilterEvent(e, track).Ok?
    ensures |EncodeEvent(FilterEvent(e, track).value)| <= |EncodeEvent(e)|
  {
    if e.typ == PLAYLIST_EVENT {
      var f := FilterEvent(e, track).value;
      FilterPlaylistEvent(e, track);
      VlqSizeMonotone(f.bytes.len, e.bytes.len);
      EventSize(e);
      EventSize(f);
    }
  }

  lemma {:induction false} EncodeEventsShrinks(a: seq<Event>, b: seq<Event>)
    requires |a| == |b|
    requires forall k :: 0 <= k < |a| ==> |EncodeEvent(a[k])| <= |EncodeEvent(b[k])|
    ensures |EncodeEvents(a)| <= |EncodeEvents(b)|
  {
    if a != [] {
      assert forall k :: 0 <= k < |a| - 1 ==> a[1..][k] == a[k + 1] && b[1..][k] == b[k + 1];
      EncodeEventsShrinks(a[1..], b[1..]);
    }
  }

  /** A well-formed chunk stays well formed: its fixed-up length is exact. */
  lemma FilterChunkWellFormed(c: Chunk, track: u32)
    requires WellFormedChunk(c) && FilterChunk(c, track).Ok?
    ensures WellFormedChunk(FilterChunk(c, track).value)
  {
    if c.data.FLdt? {
      var es := c.data.events;
      var f := FilterChunk(c, track).value;
      var fs := f.data.events;
      assert EventsWellFormed(fs) && |EncodeEvents(fs)| <= |EncodeEvents(es)| by {
        FilterEventsShrink(es, track);
      }
      FilterChunkLen(c, track);
      SmallMod(|EncodeEvents(fs)|);
    }
  }

  lemma SmallMod(n: nat)
    requires n < TWO32
    ensures n % TWO32 == n
  {
  }

  /** Filtering a run of well-formed events keeps them well formed and never lengthens it. */
  lemma FilterEventsShrink(es: seq<Event>, track: u32)
    requires EventsWellFormed(es) && FilterEvents(es, track).Ok?
    ensures EventsWellFormed(FilterEvents(es, track).value)
    ensures |EncodeEvents(FilterEvents(es, track).value)| <= |EncodeEvents(es)|
  {
    var fs := FilterEvents(es, track).value;
    FilterEventsInPlace(es, track);
    forall k | 0 <= k < |es|
      ensures WellFormedEvent(fs[k]) && |EncodeEvent(fs[k])| <= |EncodeEvent(es[k])|
    {
      FilterEventShrinks(es[k], track);
      if es[k].typ == PLAYLIST_EVENT {
        FilterPlaylistEvent(es[k], track);
      }
    }
    EncodeEventsShrinks(fs, es);
  }

  /**
   * The bytes `filterwrite` writes for a well-formed project read back as
   * the filtered project.
   */
  lemma FilterOutputReadsBack(p: Project, track: u32)
    requires WellFormedProject(p) && FilterProject(p, track).Ok?
    ensures WellFormedProject(FilterProject(p, track).value)
    ensures DecodeProject(EncodeProject(FilterProject(p, track).value)) == FilterProject(p, track)
  {
    var q := FilterProject(p, track).value;
    FilterChunksInPlace(p.chunks, track);
    forall k | 0 <= k < |q.chunks|
      ensures WellFormedChunk(q.chunks[k])
    {
      FilterChunkWellFormed(p.chunks[k], track);
    }
    ProjectRoundTrip(q);
  }

  /** Filtering a playlist event again for the same track changes nothing. */
  lemma FilterEventIdempotent(e: Event, track: u32)
    requires FilterEvent(e, track).Ok?
    ensures FilterEvent(FilterEvent(e, track).value, track) == FilterEvent(e, track)
  {
    if e.typ == PLAYLIST_EVENT {
      var items := DecodeItems(e.bytes.data).value;
      ItemsRoundTrip(KeepTrack(items, track));
      KeepTrackIdempotent(items, track);
    }
  }

  /** Filtering the filtered project for the same track gives it back unchanged. */
  lemma FilterProjectIdempotent(p: Project, track: u32)
    requires FilterProject(p, track).Ok?
    ensures FilterProject(FilterProject(p, track).value, track) == FilterProject(p, track)
  {
    var q := FilterProject(p, track).value;
    FilterChunksInPlace(p.chunks, track);
    forall k | 0 <= k < |q.chunks|
      ensures FilterChunk(q.chunks[k], track) == Ok(q.chunks[k])
    {
      FilterChunkIdempotent(p.chunks[k], track);
    }
    FilterChunksInPlace(q.chunks, track);
    assert FilterChunks(q.chunks, track).value == q.chunks;
  }

  lemma FilterChunkIdempotent(c: Chunk, track: u32)
    requires FilterChunk(c, track).Ok?
    ensures FilterChunk(FilterChunk(c, track).value, track) == FilterChunk(c, track)
  {
    if c.data.FLdt? {
      var es := c.data.events;
      var f := FilterChunk(c, track).value;
      var fs := f.data.events;
      FilterEventsInPlace(es, track);
      forall k | 0 <= k < |fs|
        ensures FilterEvent(fs[k], track) == Ok(fs[k])
      {
        FilterEventIdempotent(es[k], track);
      }
      FilterEventsInPlace(fs, track);
      assert FilterEvents(fs, track).value == fs;
    }
  }
}
