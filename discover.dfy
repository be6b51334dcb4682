/**
 * Track discovery in `main`: every FLdt event is scanned; an old-style
 * playlist event (type 129) stops the run, and the items of every playlist
 * event (type 233) contribute their user-facing track number 500 - Track.
 * The distinct tracks are sorted and one filtered project is made per
 * track.
 */
module Discover {
  import opened Wire
  import opened Playlist
  import opened Events
  import opened Container
  import opened Filter

  /** The pre-item playlist event (0x81) of old project versions. */
  const OLD_PLAYLIST_EVENT: byte := 129

  /** Playlist tracks are stored counting down from this. */
  const TRACK_BASE: int := 500

  /** The track number, 500 less the stored track, of every item. */
  function ItemTracks(items: seq<PlaylistItem>): set<int>
  {
    if items == [] then {}
    else ItemTracks(items[..|items| - 1]) + {TRACK_BASE - items[|items| - 1].track}
  }

  function AddTracks(acc: set<int>, r: Result<set<int>>): Result<set<int>>
  {
    match r
    case Err(err) => Err(err)
    case Ok(ts) => Ok(acc + ts)
  }

  /**
   * What event `j` of chunk `chunk` contributes: type 129 stops the scan,
   * a playlist event adds the tracks of its items, any other event nothing.
   */
  function ScanEvent(e: Event, chunk: nat, j: nat): Result<set<int>>
  {
    if e.typ == OLD_PLAYLIST_EVENT then Err(UnsupportedFormat(chunk, j))
    else if e.typ == PLAYLIST_EVENT then
      match DecodeItems(e.bytes.data)
      case Err(err) => Err(err)
      case Ok(items) => Ok(ItemTracks(items))
    else Ok({})
  }

  /** The tracks the events of chunk `chunk` contribute, scanning in order; the first failure stops the scan. */
  function ScanEvents(es: seq<Event>, chunk: nat): Result<set<int>>
  {
    if es == [] then Ok({})
    else
      var j := |es| - 1;
      match ScanEvents(es[..j], chunk)
      case Err(err) => Err(err)
      case Ok(ts) => AddTracks(ts, ScanEvent(es[j], chunk, j))
  }

  /** The tracks of all FLdt chunks, scanning chunks in order. */
  function ScanChunks(cs: seq<Chunk>): Result<set<int>>
  {
    if cs == [] then Ok({})
    else
      var i := |cs| - 1;
      match ScanChunks(cs[..i])
      case Err(err) => Err(err)
      case Ok(ts) =>
        if cs[i].data.FLdt? then AddTracks(ts, ScanEvents(cs[i].data.events, i)) else Ok(ts)
  }

  /** An event the scan passes: not type 129, and whole items if a playlist event. */
  predicate ScanPasses(e: Event)
  {
    e.typ != OLD_PLAYLIST_EVENT && (e.typ == PLAYLIST_EVENT ==> |e.bytes.data| % ITEM_SIZE == 0)
  }

  predicate ChunkScanPasses(c: Chunk)
  {
    c.data.FLdt? ==> forall j :: 0 <= j < |c.data.events| ==> ScanPasses(c.data.events[j])
  }

  /** `t` is 500 - Track of an item of playlist event `e`. */
  predicate TrackInEvent(e: Event, t: int)
  {
    e.typ == PLAYLIST_EVENT && DecodeItems(e.bytes.data).Ok?
    && exists it :: it in DecodeItems(e.bytes.data).value && it.track == TRACK_BASE - t
  }

  predicate TrackInChunk(c: Chunk, t: int)
  {
    c.data.FLdt? && TrackInEvents(c.data.events, t)
  }

  predicate Sorted(s: seq<int>)
  {
    forall i, j :: 0 <= i < j < |s| ==> s[i] <= s[j]
  }

  predicate StrictlySorted(s: seq<int>)
  {
    forall i, j :: 0 <= i < j < |s| ==> s[i] < s[j]
  }

  ghost predicate NoDuplicates(s: seq<int>)
  {
    forall x :: multiset(s)[x] <= 1
  }

  /** `uint32(x)`: Go's conversion of an int, two's complement wrap-around. */
  function Uint32(x: int): (r: u32)
    ensures 0 <= x < TWO32 ==> r == x
  {
    x % TWO32
  }

  // ---------------------------------------------------------------------
  // The imperative scan

  /** The loop over a playlist event's items that records each item's track number (main.go:299-301). */
  method AddItemTracks(items: seq<PlaylistItem>, trackMap: set<int>) returns (m: set<int>)
    ensures m == trackMap + ItemTracks(items)
  {
    m := trackMap;
    var k := 0;
    while k < |items|
      invariant k <= |items|
      invariant m == trackMap + ItemTracks(items[..k])
    {
      assert items[..k + 1][..k] == items[..k];
      m := m + {TRACK_BASE - items[k].track};
      k := k + 1;
    }
    assert items[..k] == items;
  }

  /** The body of the event loop of the scan: event `j` of chunk `chunk` against `trackMap`. */
  method ScanOneEvent(e: Event, chunk: nat, j: nat, trackMap: set<int>) returns (r: Result<set<int>>)
    ensures r == AddTracks(trackMap, ScanEvent(e, chunk, j))
  {
    if e.typ == OLD_PLAYLIST_EVENT {
      return Err(UnsupportedFormat(chunk, j));
    }
    assert trackMap + {} == trackMap;
    r := Ok(trackMap);
    if e.typ == PLAYLIST_EVENT {
      var decoded := DecodeItems(e.bytes.data);
      if decoded.Err? {
        return Err(decoded.error);
      }
      var m := AddItemTracks(decoded.value, trackMap);
      r := Ok(m);
    }
  }

  /** The event loop of the scan for chunk `chunk`, adding to `trackMap`. */
  method ScanChunkEvents(es: seq<Event>, chunk: nat, trackMap: set<int>) returns (r: Result<set<int>>)
    ensures r == AddTracks(trackMap, ScanEvents(es, chunk))
  {
    var m := trackMap;
    var j := 0;
    assert es[..0] == [];
    while j < |es|
      invariant j <= |es|
      invariant ScanEvents(es[..j], chunk).Ok?
      invariant m == trackMap + ScanEvents(es[..j], chunk).value
    {
      assert es[..j + 1][..j] == es[..j];
      var step := ScanOneEvent(es[j], chunk, j, m);
      if step.Err? {
        ScanEventsFails(es, j + 1, chunk);
        assert es[..|es|] == es;
        return Err(step.error);
      }
      m := step.value;
      j := j + 1;
    }
    assert es[..j] == es;
    r := Ok(m);
  }

  /**
   * The discovery loop of `main`: the set of tracks of the project, or the
   * error that stops it; then the list of those tracks, taken from the set
   * in any order and sorted.
   */
  method DiscoverTracks(p: Project) returns (r: Result<seq<int>>)
    ensures r.Ok? <==> ScanChunks(p.chunks).Ok?
    ensures r.Err? ==> r.error == ScanChunks(p.chunks).error
    ensures r.Ok? ==> StrictlySorted(r.value)
    ensures r.Ok? ==> forall t :: t in r.value <==> t in ScanChunks(p.chunks).value
  {
    var cs := p.chunks;
    var trackMap: set<int> := {};
    var i := 0;
    while i < |cs|
      invariant i <= |cs|
      invariant ScanChunks(cs[..i]) == Ok(trackMap)
    {
      assert cs[..i + 1][..i] == cs[..i];
      if cs[i].data.FLdt? {
        var scanned := ScanChunkEvents(cs[i].data.events, i, trackMap);
        if scanned.Err? {
          ScanChunksFails(cs, i + 1);
          assert cs[..|cs|] == cs;
          return Err(scanned.error);
        }
        trackMap := scanned.value;
      }
      i := i + 1;
    }
    assert cs[..i] == cs;
    var trackList := ListOf(trackMap);
    var sorted := SortInts(trackList);
    assert forall t :: t in sorted <==> t in multiset(sorted);
    assert forall t :: t in trackList <==> t in multiset(trackList);
    SortedDistinct(sorted);
    r := Ok(sorted);
  }

  /** The loop that lists the keys of the track map, in whatever order the map yields them (main.go:311-313). */
  method ListOf(trackMap: set<int>) returns (trackList: seq<int>)
    ensures NoDuplicates(trackList)
    ensures forall t :: t in trackList <==> t in trackMap
  {
    trackList := [];
    var rest := trackMap;
    while rest != {}
      invariant rest <= trackMap
      invariant NoDuplicates(trackList)
      invariant forall x :: x in trackList <==> x in trackMap && x !in rest
      decreases |rest|
    {
      HasMember(rest);
      var t: int :| t in rest;
      assert t !in trackList;
      assert multiset(trackList)[t] == 0;
      trackList := trackList + [t];
      rest := rest - {t};
    }
  }

  /** `sort.Ints`, as an insertion sort on a copy. */
  method SortInts(a: seq<int>) returns (s: seq<int>)
    ensures Sorted(s) && multiset(s) == multiset(a)
  {
    s := [];
    var i := 0;
    while i < |a|
      invariant i <= |a|
      invariant Sorted(s) && multiset(s) == multiset(a[..i])
    {
      var x := a[i];
      var k := 0;
      while k < |s| && s[k] < x
        invariant k <= |s|
        invariant forall m :: 0 <= m < k ==> s[m] < x
      {
        k := k + 1;
      }
      InsertSorted(s, k, x);
      s := s[..k] + [x] + s[k..];
      assert a[..i + 1] == a[..i] + [x];
      i := i + 1;
    }
    assert a[..i] == a;
  }

  /** The output for track `o.0` is the filtered project for its raw track, written out. */
  predicate IsOutput(p: Project, o: (int, seq<byte>))
  {
    var filtered := FilterProject(p, Uint32(TRACK_BASE - o.0));
    filtered.Ok? && o.1 == EncodeProject(filtered.value)
  }

  function TracksOf(outputs: seq<(int, seq<byte>)>): seq<int>
  {
    seq(|outputs|, k requires 0 <= k < |outputs| => outputs[k].0)
  }

  /**
   * The whole run after parsing: one filtered project per discovered track,
   * in ascending track order, each for the raw track `uint32(500 - track)`.
   * Nothing is produced when the scan stops.
   */
  method SplitProject(p: Project) returns (r: Result<seq<(int, seq<byte>)>>)
    ensures r.Ok? <==> ScanChunks(p.chunks).Ok?
    ensures r.Err? ==> r.error == ScanChunks(p.chunks).error
    ensures r.Ok? ==> StrictlySorted(TracksOf(r.value))
    ensures r.Ok? ==> forall t :: t in TracksOf(r.value) <==> t in ScanChunks(p.chunks).value
    ensures r.Ok? ==> forall k :: 0 <= k < |r.value| ==> IsOutput(p, r.value[k])
  {
    var tracks := DiscoverTracks(p);
    if tracks.Err? {
      return Err(tracks.error);
    }
    var outputs: seq<(int, seq<byte>)> := [];
    var n := 0;
    while n < |tracks.value|
      invariant n <= |tracks.value|
      invariant TracksOf(outputs) == tracks.value[..n]
      invariant forall k :: 0 <= k < |outputs| ==> IsOutput(p, outputs[k])
    {
      var track := tracks.value[n];
      var raw := Uint32(TRACK_BASE - track);
      ScanChunksFilters(p.chunks, raw);
      var data := FilterWrite(p, raw);
      outputs := outputs + [(track, data.value)];
      assert TracksOf(outputs) == tracks.value[..n + 1];
      n := n + 1;
    }
    assert tracks.value[..n] == tracks.value;
    r := Ok(outputs);
  }

  // ---------------------------------------------------------------------
  // Properties

  lemma HasMember(s: set<int>)
    requires s != {}
    ensures exists x :: x in s
  {
    if forall x :: x !in s {
      assert false;
    }
  }

  /** A failed prefix of the event scan fails the whole scan the same way. */
  lemma {:induction false} ScanEventsFails(es: seq<Event>, j: nat, chunk: nat)
    requires j <= |es| && ScanEvents(es[..j], chunk).Err?
    ensures ScanEvents(es, chunk) == ScanEvents(es[..j], chunk)
    decreases |es| - j
  {
    if j < |es| {
      assert es[..j + 1][..j] == es[..j];
      ScanEventsFails(es, j + 1, chunk);
    } else {
      assert es[..j] == es;
    }
  }

  lemma {:induction false} ScanChunksFails(cs: seq<Chunk>, i: nat)
    requires i <= |cs| && ScanChunks(cs[..i]).Err?
    ensures ScanChunks(cs) == ScanChunks(cs[..i])
    decreases |cs| - i
  {
    if i < |cs| {
      assert cs[..i + 1][..i] == cs[..i];
      ScanChunksFails(cs, i + 1);
    } else {
      assert cs[..i] == cs;
    }
  }

  /** Inserting `x` at the first position whose element is not below it keeps a list sorted. */
  lemma InsertSorted(s: seq<int>, k: nat, x: int)
    requires Sorted(s) && k <= |s|
    requires forall m :: 0 <= m < k ==> s[m] < x
    requires k < |s| ==> x <= s[k]
    ensures Sorted(s[..k] + [x] + s[k..])
    ensures multiset(s[..k] + [x] + s[k..]) == multiset(s) + multiset{x}
  {
    assert s[..k] + s[k..] == s;
  }

  /** A sorted list with no element twice is strictly increasing. */
  lemma SortedDistinct(s: seq<int>)
    requires Sorted(s) && NoDuplicates(s)
    ensures StrictlySorted(s)
  {
    forall i, j | 0 <= i < j < |s|
      ensures s[i] < s[j]
    {
      var x := s[j];
      assert s == s[..j] + s[j..];
      assert s[j..][0] == x;
      assert multiset(s)[x] == multiset(s[..j])[x] + multiset(s[j..])[x];
      assert multiset(s[..j])[x] == 0;
      assert s[..j][i] == s[i];
    }
  }

  /** The items contribute exactly 500 - Track of each, and each such number converts back to its Track. */
  lemma {:induction false} ItemTracksMembers(items: seq<PlaylistItem>)
    ensures forall t :: t in ItemTracks(items) <==> exists it :: it in items && it.track == TRACK_BASE - t
    ensures forall t :: t in ItemTracks(items) ==> Uint32(TRACK_BASE - t) == TRACK_BASE - t
  {
    if items != [] {
      var init := items[..|items| - 1];
      ItemTracksMembers(init);
      assert items == init + [items[|items| - 1]];
    }
  }

  /** The event scan succeeds exactly when every event passes. */
  lemma {:induction false} ScanEventsOk(es: seq<Event>, chunk: nat)
    ensures ScanEvents(es, chunk).Ok? <==> forall j :: 0 <= j < |es| ==> ScanPasses(es[j])
  {
    if es != [] {
      var init := es[..|es| - 1];
      ScanEventsOk(init, chunk);
      assert forall j :: 0 <= j < |init| ==> init[j] == es[j];
    }
  }

  /** The whole scan succeeds exactly when every event of every FLdt chunk passes. */
  lemma {:induction false} ScanChunksOk(cs: seq<Chunk>)
    ensures ScanChunks(cs).Ok? <==> forall i :: 0 <= i < |cs| ==> ChunkScanPasses(cs[i])
  {
    if cs != [] {
      var i := |cs| - 1;
      var init := cs[..i];
      ScanChunksOk(init);
      assert forall k :: 0 <= k < |init| ==> init[k] == cs[k];
      if cs[i].data.FLdt? {
        ScanEventsOk(cs[i].data.events, i);
      }
    }
  }

  /** An event of type 129 in any FLdt chunk stops the scan, so no project is written. */
  lemma OldPlaylistRejected(cs: seq<Chunk>, i: nat, j: nat)
    requires i < |cs| && cs[i].data.FLdt? && j < |cs[i].data.events|
    requires cs[i].data.events[j].typ == OLD_PLAYLIST_EVENT
    ensures ScanChunks(cs).Err?
  {
    ScanChunksOk(cs);
    assert !ChunkScanPasses(cs[i]);
  }

  /** What one event contributes is the tracks of its items. */
  lemma ScanEventMembers(e: Event, chunk: nat, j: nat)
    requires ScanEvent(e, chunk, j).Ok?
    ensures forall t :: t in ScanEvent(e, chunk, j).value <==> TrackInEvent(e, t)
  {
    if e.typ == PLAYLIST_EVENT {
      ItemTracksMembers(DecodeItems(e.bytes.data).value);
    }
  }

  /** A successful scan of a non-empty sequence adds the last event's tracks to those of the others. */
  lemma ScanEventsLast(es: seq<Event>, chunk: nat)
    requires es != [] && ScanEvents(es, chunk).Ok?
    ensures ScanEvents(es[..|es| - 1], chunk).Ok? && ScanEvent(es[|es| - 1], chunk, |es| - 1).Ok?
    ensures ScanEvents(es, chunk).value
         == ScanEvents(es[..|es| - 1], chunk).value + ScanEvent(es[|es| - 1], chunk, |es| - 1).value
  {
  }

  /** Some event of `es` is a playlist event with an item on track `t`. */
  predicate TrackInEvents(es: seq<Event>, t: int)
  {
    exists j :: 0 <= j < |es| && TrackInEvent(es[j], t)
  }

  lemma TrackInEventsSnoc(es: seq<Event>, t: int)
    requires es != []
    ensures TrackInEvents(es, t) <==> TrackInEvents(es[..|es| - 1], t) || TrackInEvent(es[|es| - 1], t)
  {
    var init := es[..|es| - 1];
    if TrackInEvents(es, t) {
      var j :| 0 <= j < |es| && TrackInEvent(es[j], t);
      if j < |init| {
        assert init[j] == es[j];
      }
    }
    if TrackInEvents(init, t) {
      var j :| 0 <= j < |init| && TrackInEvent(init[j], t);
      assert es[j] == init[j];
    }
  }

  /** A track is in a successful event scan exactly when some playlist item of the events has it. */
  lemma {:induction false} ScanEventsMember(es: seq<Event>, chunk: nat, t: int)
    requires ScanEvents(es, chunk).Ok?
    ensures t in ScanEvents(es, chunk).value <==> TrackInEvents(es, t)
  {
    if es != [] {
      var last := |es| - 1;
      ScanEventsLast(es, chunk);
      ScanEventsMember(es[..last], chunk, t);
      ScanEventMembers(es[last], chunk, last);
      TrackInEventsSnoc(es, t);
    }
  }

  /** The tracks of a successful event scan are those of its playlist items. */
  lemma ScanEventsMembers(es: seq<Event>, chunk: nat)
    requires ScanEvents(es, chunk).Ok?
    ensures forall t :: t in ScanEvents(es, chunk).value <==> TrackInEvents(es, t)
  {
    forall t {
      ScanEventsMember(es, chunk, t);
    }
  }

  /** The tracks of a successful scan are exactly those of the playlist items of FLdt chunks. */
  lemma {:induction false} ScanChunksMembers(cs: seq<Chunk>)
    requires ScanChunks(cs).Ok?
    ensures forall t :: t in ScanChunks(cs).value <==> exists i :: 0 <= i < |cs| && TrackInChunk(cs[i], t)
  {
    if cs != [] {
      var i := |cs| - 1;
      var init := cs[..i];
      ScanChunksMembers(init);
      assert forall k :: 0 <= k < |init| ==> init[k] == cs[k];
      if cs[i].data.FLdt? {
        ScanEventsMembers(cs[i].data.events, i);
      }
      forall t | t in ScanChunks(cs).value
        ensures exists k :: 0 <= k < |cs| && TrackInChunk(cs[k], t)
      {
        if t !in ScanChunks(init).value {
          assert TrackInChunk(cs[i], t);
        }
      }
    }
  }

  /**
   * Every discovered track converts back to a raw track that is the Track
   * field of an item it came from.
   */
  lemma TrackRaw(cs: seq<Chunk>, t: int)
    requires ScanChunks(cs).Ok? && t in ScanChunks(cs).value
    ensures exists i, j, it :: (0 <= i < |cs| && cs[i].data.FLdt? && 0 <= j < |cs[i].data.events|
      && TrackInEvent(cs[i].data.events[j], t) && it in DecodeItems(cs[i].data.events[j].bytes.data).value
      && it.track == Uint32(TRACK_BASE - t))
  {
    ScanChunksMembers(cs);
    var i :| 0 <= i < |cs| && TrackInChunk(cs[i], t);
    var es := cs[i].data.events;
    var j :| 0 <= j < |es| && TrackInEvent(es[j], t);
    var it := TrackItem(es[j], t);
    assert cs[i].data.events[j] == es[j];
  }

  /** An item of a playlist event on track `t`, with its raw track `uint32(500 - t)`. */
  lemma TrackItem(e: Event, t: int) returns (it: PlaylistItem)
    requires TrackInEvent(e, t)
    ensures it in DecodeItems(e.bytes.data).value && it.track == Uint32(TRACK_BASE - t)
  {
    it :| it in DecodeItems(e.bytes.data).value && it.track == TRACK_BASE - t;
  }

  /** Once the scan has passed, filtering for any track cannot fail. */
  lemma ScanChunksFilters(cs: seq<Chunk>, track: u32)
    requires ScanChunks(cs).Ok?
    ensures FilterChunks(cs, track).Ok?
  {
    ScanChunksOk(cs);
    forall i | 0 <= i < |cs|
      ensures FilterChunk(cs[i], track).Ok?
    {
      if cs[i].data.FLdt? {
        var es := cs[i].data.events;
        assert ChunkScanPasses(cs[i]);
        FilterEventsInPlace(es, track);
        forall j | 0 <= j < |es|
          ensures FilterEvent(es[j], track).Ok?
        {
          assert ScanPasses(es[j]);
        }
      }
    }
    FilterChunksInPlace(cs, track);
  }
}
