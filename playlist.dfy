/**
 * The payload of a playlist event (event type 233): a packed array of
 * 32-byte playlist items, every field little-endian.
 */
module Playlist {
  import opened Wire

  const ITEM_SIZE: nat := 32

  /** One clip on the playlist.  `track` is stored inverted: the track shown to the user is 500 - track. */
  datatype PlaylistItem = PlaylistItem(
    startTime: u32,
    patternBase: u16,
    patternId: u16,
    length: u32,
    track: u32,
    unknown1: u16,
    unknown2: u16,
    unknown3: u32,
    unknown4: u32,
    unknown5: u32)

  function EncodeItem(it: PlaylistItem): (r: seq<byte>)
    ensures |r| == ITEM_SIZE
  {
    ItemHead(it) + ItemTail(it)
  }

  /** Bytes 0-15 of an item: start time, pattern base, pattern id, length, track. */
  function ItemHead(it: PlaylistItem): (r: seq<byte>)
    ensures |r| == 16
  {
    LE32(it.startTime) + LE16(it.patternBase) + LE16(it.patternId) + LE32(it.length) + LE32(it.track)
  }

  /** Bytes 16-31 of an item: the five fields the tool does not interpret. */
  function ItemTail(it: PlaylistItem): (r: seq<byte>)
    ensures |r| == 16
  {
    LE16(it.unknown1) + LE16(it.unknown2) + LE32(it.unknown3) + LE32(it.unknown4) + LE32(it.unknown5)
  }

  /** The item in the first 32 bytes of `s`. */
  function DecodeItem(s: seq<byte>): PlaylistItem
    requires |s| >= ITEM_SIZE
  {
    PlaylistItem(U32At(s, 0), U16At(s, 4), U16At(s, 6), U32At(s, 8), U32At(s, 12),
                 U16At(s, 16), U16At(s, 18), U32At(s, 20), U32At(s, 24), U32At(s, 28))
  }

  /** The items packed back to back, in order, with no padding. */
  function EncodeItems(items: seq<PlaylistItem>): (r: seq<byte>)
    ensures |r| == ITEM_SIZE * |items|
  {
    if items == [] then [] else EncodeItem(items[0]) + EncodeItems(items[1..])
  }

  /** Items until the end of the payload; a partial trailing item is an error. */
  function DecodeItems(s: seq<byte>): (r: Result<seq<PlaylistItem>>)
    ensures r.Ok? <==> |s| % ITEM_SIZE == 0
    ensures r.Ok? ==> ITEM_SIZE * |r.value| == |s|
    decreases |s|
  {
    if |s| % ITEM_SIZE != 0 then Err(MalformedRecordArray)
    else if s == [] then Ok([])
    else
      var tail := DecodeItems(s[ITEM_SIZE..]);
      Ok([DecodeItem(s)] + tail.value)
  }

  /**
   * The items whose raw track is `track`, in their original order: the spec
   * of the filtering loop in filterwrite.
   */
  function KeepTrack(items: seq<PlaylistItem>, track: u32): seq<PlaylistItem>
  {
    if items == [] then []
    else
      var last := items[|items| - 1];
      KeepTrack(items[..|items| - 1], track) + (if last.track == track then [last] else [])
  }

  // ---------------------------------------------------------------------
  // Properties

  lemma ItemRoundTrip(it: PlaylistItem)
    ensures DecodeItem(EncodeItem(it)) == it
  {
    var h := ItemHead(it);
    var t := ItemTail(it);
    HeadFields(it);
    TailFields(it);
    U32AtConcat(h, t, 0);
    U16AtConcat(h, t, 4);
    U16AtConcat(h, t, 6);
    U32AtConcat(h, t, 8);
    U32AtConcat(h, t, 12);
    U16AtConcat(h, t, 16);
    U16AtConcat(h, t, 18);
    U32AtConcat(h, t, 20);
    U32AtConcat(h, t, 24);
    U32AtConcat(h, t, 28);
  }

  /** The first five fields read back from the head of an item. */
  lemma HeadFields(it: PlaylistItem)
    ensures var s := ItemHead(it);
      U32At(s, 0) == it.startTime && U16At(s, 4) == it.patternBase && U16At(s, 6) == it.patternId
      && U32At(s, 8) == it.length && U32At(s, 12) == it.track
  {
    var p0 := LE32(it.startTime);
    var p1 := p0 + LE16(it.patternBase);
    var p2 := p1 + LE16(it.patternId);
    var p3 := p2 + LE32(it.length);
    var l4 := LE32(it.track);
    U32AtEnd([], it.startTime);
    assert [] + p0 == p0;
    U32AtConcat(p0, LE16(it.patternBase), 0);
    U32AtConcat(p1, LE16(it.patternId), 0);
    U32AtConcat(p2, LE32(it.length), 0);
    U32AtConcat(p3, l4, 0);
    U16AtEnd(p0, it.patternBase);
    U16AtConcat(p1, LE16(it.patternId), 4);
    U16AtConcat(p2, LE32(it.length), 4);
    U16AtConcat(p3, l4, 4);
    U16AtEnd(p1, it.patternId);
    U16AtConcat(p2, LE32(it.length), 6);
    U16AtConcat(p3, l4, 6);
    U32AtEnd(p2, it.length);
    U32AtConcat(p3, l4, 8);
    U32AtEnd(p3, it.track);
  }

  /** The last five fields read back from the tail of an item. */
  lemma TailFields(it: PlaylistItem)
    ensures var s := ItemTail(it);
      U16At(s, 0) == it.unknown1 && U16At(s, 2) == it.unknown2 && U32At(s, 4) == it.unknown3
      && U32At(s, 8) == it.unknown4 && U32At(s, 12) == it.unknown5
  {
    var p0 := LE16(it.unknown1);
    var p1 := p0 + LE16(it.unknown2);
    var p2 := p1 + LE32(it.unknown3);
    var p3 := p2 + LE32(it.unknown4);
    var l4 := LE32(it.unknown5);
    U16AtEnd([], it.unknown1);
    assert [] + p0 == p0;
    U16AtConcat(p0, LE16(it.unknown2), 0);
    U16AtConcat(p1, LE32(it.unknown3), 0);
    U16AtConcat(p2, LE32(it.unknown4), 0);
    U16AtConcat(p3, l4, 0);
    U16AtEnd(p0, it.unknown2);
    U16AtConcat(p1, LE32(it.unknown3), 2);
    U16AtConcat(p2, LE32(it.unknown4), 2);
    U16AtConcat(p3, l4, 2);
    U32AtEnd(p1, it.unknown3);
    U32AtConcat(p2, LE32(it.unknown4), 4);
    U32AtConcat(p3, l4, 4);
    U32AtEnd(p2, it.unknown4);
    U32AtConcat(p3, l4, 8);
    U32AtEnd(p3, it.unknown5);
  }

  /** Round trip: the payload written for a list of items reads back as that list. */
  lemma {:induction false} ItemsRoundTrip(items: seq<PlaylistItem>)
    ensures DecodeItems(EncodeItems(items)) == Ok(items)
  {
    if items != [] {
      var s := EncodeItems(items);
      EncodeItemsSplit(items);
      DecodeItemsFirst(s);
      ItemRoundTrip(items[0]);
      ItemsRoundTrip(items[1..]);
      assert [items[0]] + items[1..] == items;
    }
  }

  /** The first block of a non-empty payload is its first item. */
  lemma EncodeItemsSplit(items: seq<PlaylistItem>)
    requires items != []
    ensures EncodeItems(items)[..ITEM_SIZE] == EncodeItem(items[0])
    ensures EncodeItems(items)[ITEM_SIZE..] == EncodeItems(items[1..])
  {
  }

  /** A non-empty whole payload reads as its first block, then the rest. */
  lemma DecodeItemsFirst(s: seq<byte>)
    requires |s| >= ITEM_SIZE && |s| % ITEM_SIZE == 0
    ensures DecodeItems(s) == Ok([DecodeItem(s[..ITEM_SIZE])] + DecodeItems(s[ITEM_SIZE..]).value)
  {
    DecodeItemPrefix(s);
  }

  /** Only the first 32 bytes matter to `DecodeItem`. */
  lemma DecodeItemPrefix(s: seq<byte>)
    requires |s| >= ITEM_SIZE
    ensures DecodeItem(s) == DecodeItem(s[..ITEM_SIZE])
  {
  }

  /** A 32-byte block decoded and re-encoded gives the same bytes. */
  lemma ItemCanonical(s: seq<byte>)
    requires |s| == ITEM_SIZE
    ensures EncodeItem(DecodeItem(s)) == s
  {
    HeadCanonical(s);
    TailCanonical(s);
    assert s == s[..16] + s[16..];
  }

  lemma HeadCanonical(s: seq<byte>)
    requires |s| == ITEM_SIZE
    ensures ItemHead(DecodeItem(s)) == s[..16]
  {
    U32Canonical(s, 0);
    U16Canonical(s, 4);
    U16Canonical(s, 6);
    U32Canonical(s, 8);
    U32Canonical(s, 12);
    assert s[..16] == s[0..4] + s[4..6] + s[6..8] + s[8..12] + s[12..16];
  }

  lemma TailCanonical(s: seq<byte>)
    requires |s| == ITEM_SIZE
    ensures ItemTail(DecodeItem(s)) == s[16..]
  {
    U16Canonical(s, 16);
    U16Canonical(s, 18);
    U32Canonical(s, 20);
    U32Canonical(s, 24);
    U32Canonical(s, 28);
    assert s[16..] == s[16..18] + s[18..20] + s[20..24] + s[24..28] + s[28..32];
  }

  /** Decoding loses nothing: the items of a payload re-encode to exactly that payload. */
  lemma {:induction false} ItemsCanonical(s: seq<byte>)
    requires DecodeItems(s).Ok?
    ensures EncodeItems(DecodeItems(s).value) == s
    decreases |s|
  {
    if s != [] {
      ItemsCanonical(s[ITEM_SIZE..]);
      DecodeItemPrefix(s);
      ItemCanonical(s[..ITEM_SIZE]);
      assert s == s[..ITEM_SIZE] + s[ITEM_SIZE..];
    }
  }

  /**
   * Exactly the items on `track` survive, each as often as it occurs in
   * `items`; no other item does.
   */
  lemma {:induction false} KeepTrackCounts(items: seq<PlaylistItem>, track: u32, x: PlaylistItem)
    ensures multiset(KeepTrack(items, track))[x] == if x.track == track then multiset(items)[x] else 0
  {
    if items != [] {
      var init := items[..|items| - 1];
      KeepTrackCounts(init, track, x);
      assert items == init + [items[|items| - 1]];
    }
  }

  /** Every surviving item is on `track`, and every item on `track` survives. */
  lemma KeepTrackMembers(items: seq<PlaylistItem>, track: u32)
    ensures forall x :: x in KeepTrack(items, track) <==> x in items && x.track == track
  {
    forall x
      ensures x in KeepTrack(items, track) <==> x in items && x.track == track
    {
      KeepTrackCounts(items, track, x);
      assert x in KeepTrack(items, track) <==> x in multiset(KeepTrack(items, track));
      assert x in items <==> x in multiset(items);
    }
  }

  /** Filtering keeps the original order: it distributes over concatenation. */
  lemma {:induction false} KeepTrackAppend(a: seq<PlaylistItem>, b: seq<PlaylistItem>, track: u32)
    ensures KeepTrack(a + b, track) == KeepTrack(a, track) + KeepTrack(b, track)
    decreases |b|
  {
    if b != [] {
      var init := b[..|b| - 1];
      assert (a + b)[..|a + b| - 1] == a + init;
      KeepTrackAppend(a, init, track);
    } else {
      assert a + b == a;
    }
  }

  /** Filtering for a track twice is filtering once. */
  lemma {:induction false} KeepTrackIdempotent(items: seq<PlaylistItem>, track: u32)
    ensures KeepTrack(KeepTrack(items, track), track) == KeepTrack(items, track)
  {
    if items != [] {
      var init := items[..|items| - 1];
      var last := items[|items| - 1];
      KeepTrackIdempotent(init, track);
      var tail := if last.track == track then [last] else [];
      KeepTrackAppend(KeepTrack(init, track), tail, track);
      if last.track == track {
        assert tail[..0] == [];
      }
    }
  }
}
