# flsplit, modelled in Dafny

flsplit takes an FL Studio project file (`.flp`) and writes one copy of it per
playlist track. Each copy keeps only the playlist items on that track.

The model covers the parts of `main.go` that do the work:

- the file format as restruct reads and writes it:
  - the VLQ length prefix (`SizeOf`, `Pack`, `Unpack`);
  - IFF-style chunks `FLhd`, `FLdt` and unknown;
  - events in four size classes picked by the top two bits of the type byte;
  - 32-byte little-endian playlist items;
- `stripext`, which drops the extension of the input path;
- the track discovery loop of `main`;
- `filterwrite`, up to the bytes it would write.

The modules are:

- `Wire`: bytes, u16/u32/u64, little-endian fields, the error kinds and the `Result` type.
- `Vlq`: the variable-length quantity. `SizeOf`, `Pack` (in place, on an array) and `Unpack` are loops, proved against the spec functions `VlqBytes` and `VlqRead`.
- `Playlist`: the playlist item record, its encoding, and the "keep the items of one track" filter `KeepTrack`.
- `Events`: the event record with its four payload classes.
- `Container`: chunks and the project.
- `Filter`: `filterwrite`. The spec functions `FilterEvent` … `FilterProject` state what it computes. The methods `FilterOneEvent`, `FilterChunkEvents`, `FilterOneChunk` and `FilterWrite` carry the source's loops and are proved equal to those functions.
- `Discover`: the scan that collects the tracks (`ScanEvents`, `ScanChunks` and their loops), the list and sort steps, and the whole run, `SplitProject`.
- `Paths`: `stripext`.

A failed `log.Fatal` becomes an `Err` result. Type 129 ("project too old") becomes `UnsupportedFormat(chunk, event)`.

### Lengths after filtering

`filterwrite` recomputes `Len` for every `FLdt` chunk, whether or not any of its events changed (main.go:206-212). The model does the same (`Filter.FilterChunk`, `Filter.FilterChunkLen`).

## Model

| member | source | states |
|---|---|---|
| Vlq.SizeOf | main.go:21-33 | The count equals the number of bytes of the VLQ encoding. It is minimal: the value fits in 7 bits per byte, and needs all of them unless the count is 1. |
| Vlq.VlqMinimal | main.go:22-33 | The VLQ encoding has the fewest 7-bit groups that hold the value. |
| Vlq.VlqSizeMonotone | main.go:22-33 | A larger value never has a shorter encoding. |
| Vlq.Pack | main.go:35-50 | Writes exactly the VLQ bytes of the value at the front of the buffer. It returns their count and leaves every byte after them untouched. |
| Vlq.VlqContinues | main.go:43-48 | Every byte but the last has the continuation bit 0x80 set. |
| Vlq.VlqLast | main.go:40-48 | The last byte has the continuation bit clear, and is not zero unless it is the only byte. |
| Vlq.Unpack | main.go:52-68 | Returns the value and the remaining buffer exactly as `VlqRead` defines them: 7-bit groups least significant first, truncated to 64 bits. A buffer that ends before a byte with the top bit clear is an error. |
| Vlq.VlqTerminator | main.go:57-65 | On an encoding followed by anything, the read stops at the encoding's last byte. |
| Vlq.VlqRoundTrip | main.go:36-68 | Unpacking packed bytes gives back the 64-bit value and exactly the bytes that followed. |
| Vlq.GroupsOfVlq | main.go:36-68 | The 7-bit groups of the encoding, weighted by position, sum to the value. |
| Vlq.VlqBytesMinimal | main.go:36-50 | Every packed VLQ is minimal: the read stops at its last byte, that byte is zero only when it is the only one, and its groups fit in 64 bits. |
| Vlq.GroupsCanonical | main.go:53-68 | Groups of 7 bits with the continuation bit on all but a last, non-zero byte are exactly the encoding of the value they add up to. |
| Vlq.VlqCanonical | main.go:53-68 | A minimal VLQ at the front of a buffer unpacks, and packing the value again gives back exactly the bytes it was read from. |
| Wire.ReadU16 | main.go:113 | A u16 is read exactly when two bytes remain, and consumes exactly two. |
| Wire.ReadU32 | main.go:114 | A u32 is read exactly when four bytes remain, and consumes exactly four. |
| Wire.U16RoundTrip | main.go:113 | A little-endian u16 reads back as itself, followed by the rest. |
| Wire.U32RoundTrip | main.go:114 | A little-endian u32 reads back as itself, followed by the rest. |
| Wire.U32Canonical | main.go:124-135 | Writing back a u32 that was read gives the bytes it was read from. |
| Playlist.EncodeItem | main.go:124-135 | A playlist item is 32 bytes. |
| Playlist.ItemRoundTrip | main.go:124-135 | Decoding an encoded item gives every field of the item back. |
| Playlist.ItemCanonical | main.go:124-135 | Encoding a decoded 32-byte block gives the block back. |
| Playlist.DecodeItems | main.go:137-139 | The payload decodes exactly when its length is a multiple of 32, into length/32 items. |
| Playlist.ItemsRoundTrip | main.go:137-139 | Decoding encoded items gives the same item list. |
| Playlist.ItemsCanonical | main.go:137-139 | Re-encoding decoded items gives the payload back unchanged. |
| Playlist.KeepTrackCounts | main.go:183-189 | The filter keeps every item on the track as often as it occurs, and nothing else. |
| Playlist.KeepTrackMembers | main.go:183-189 | An item is kept exactly when it is in the input and on the track. |
| Playlist.KeepTrackAppend | main.go:183-189 | The filter works item by item and keeps order: filtering `a + b` gives filtered `a` then filtered `b`. |
| Playlist.KeepTrackIdempotent | main.go:183-189 | Filtering twice for the same track changes nothing more. |
| Events.Kind | main.go:112-115 | The class is one of 0x00, 0x40, 0x80, 0xC0, the type rounded down to a multiple of 64. |
| Events.DecodeEvent | main.go:110-122 | A decoded event is well formed: only the field its class selects is set, and a bytes event's `Len` equals its data length. The type is the first byte, and at least one byte is consumed. |
| Events.EventSize | main.go:110-122 | An encoded event is the type byte followed by its payload. |
| Events.EventRoundTrip | main.go:110-122 | A well-formed event (bytes events with `Len == len(Data)`) decodes back from its encoding, followed by the rest. |
| Events.EventsRoundTrip | main.go:98-101 | A sequence of well-formed events decodes back from its encoding. |
| Events.EncodeEventsAppend | main.go:98-101 | The encoding of events is the concatenation of their encodings. |
| Events.EventCanonical | main.go:110-122 | An event read off a buffer, whose length prefix is minimal if it has one, writes back to exactly the bytes it was read from, followed by the rest. |
| Events.EventsCanonical | main.go:98-101 | Events read off a payload in which every length prefix is minimal write back to exactly that payload. |
| Events.EncodedVlqsMinimal | main.go:98-122 | Every length prefix in the encoding of well-formed events is minimal, so the bytes-first round trip applies to everything this model writes. |
| Container.EncodeChunk | main.go:75-84 | A chunk is an 8-byte header followed by its payload. |
| Container.DecodeChunk | main.go:75-107 | A decoded chunk's payload variant matches its tag, and its events are well formed. At least one byte is consumed. |
| Container.DecodeProject | main.go:70-73 | A decoded project has only valid chunks. |
| Container.ChunkRoundTrip | main.go:75-107 | A well-formed chunk decodes back from its encoding: an FLhd chunk's three u16 fields, an FLdt chunk's events over `Len` bytes, or an unknown chunk's `Len` bytes. |
| Container.ChunksRoundTrip | main.go:71-73 | A sequence of well-formed chunks decodes back from its encoding. |
| Container.ProjectRoundTrip | main.go:70-73 | A well-formed project decodes back from its encoding. |
| Container.HeaderCanonical | main.go:76-78 | The tag and the length field written back give the 8 header bytes they were read from. |
| Container.FlhdCanonical | main.go:88-94 | An FLhd chunk read off a buffer writes back to exactly the bytes it was read from, whatever its `Len` says, and is well formed. |
| Container.UnknownCanonical | main.go:104-107 | A chunk with any other tag passes its `Len` bytes through: written back, it gives exactly the bytes it was read from. |
| Container.FldtCanonical | main.go:98-101 | An FLdt chunk whose events have minimal length prefixes writes back to exactly the bytes it was read from, and its `Len` is the size of its events. |
| Container.ChunkCanonical | main.go:75-107 | Any chunk read off a buffer, under the minimal-prefix condition for FLdt, writes back to the bytes it was read from and is well formed. |
| Container.ChunksCanonical | main.go:71-73 | Chunks read from a file whose length prefixes are all minimal write back to the whole file, and every one is well formed. |
| Container.ProjectCanonical | main.go:70-73 | A project read from a file whose length prefixes are all minimal is well formed and writes back to exactly that file. |
| Container.EncodedChunkMinimal | main.go:75-107 | A well-formed chunk's encoding meets the minimal-prefix condition. |
| Container.EncodedChunksMinimal | main.go:71-73 | The encoding of well-formed chunks meets the minimal-prefix condition at every chunk. |
| Container.EncodedProjectMinimal | main.go:70-73 | Every file written from a well-formed project meets the minimal-prefix condition, so reading it back and writing it again is exact. |
| Filter.FilterEvent | main.go:175-202 | Filtering an event fails exactly for a playlist event whose payload is not whole items. Otherwise only the bytes of the event can change. |
| Filter.FilterPlaylistEvent | main.go:175-202 | A filtered playlist event holds exactly the kept items, in order. Its data is 32 bytes per kept item, its `Len` equals its data length, and it is no longer than before. |
| Filter.FilterOtherEvent | main.go:174-175 | Events other than type 233 are left as they are. |
| Filter.KeepItems | main.go:177-190 | The item loop returns exactly `KeepTrack` of the decoded items. |
| Filter.KeepTrackLength | main.go:183-189 | Filtering never adds items. |
| Filter.FilterOneEvent | main.go:175-202 | The body of the event loop computes `FilterEvent`. |
| Filter.FilterChunkEvents | main.go:168-203 | The event loop over a copy of the slice computes `FilterEvents`. The first failure stops it. |
| Filter.FilterEventsInPlace | main.go:174-203 | The events are filtered one by one, each in its own slot: success exactly when every event filters, and then slot k holds filtered event k. |
| Filter.FilterOneChunk | main.go:167-215 | The body of the chunk loop computes `FilterChunk`. |
| Filter.FilterChunk | main.go:165-215 | A filtered chunk keeps its type. |
| Filter.FilterChunkLen | main.go:206-212 | A filtered FLdt chunk's `Len` is `uint32(size) - 8`, which is its new event bytes mod 2^32. Every other chunk is unchanged. |
| Filter.FilterChunksInPlace | main.go:165-216 | Success exactly when every chunk filters, and then slot k holds filtered chunk k. |
| Filter.FilterChunkWellFormed | main.go:192-212 | Filtering keeps a well-formed chunk well formed, with `Len` equal to its new payload size. |
| Filter.FilterEventsShrink | main.go:183-199 | Filtering keeps events well formed and never makes their encoding longer. |
| Filter.FilterWrite | main.go:160-224 | Succeeds exactly when filtering the project succeeds, and returns the encoding of the filtered project. The caller's project is a value and stays unchanged. |
| Filter.FilterOutputReadsBack | main.go:160-224 | For a well-formed input, the written bytes decode back to exactly the filtered project, which is well formed. |
| Filter.FilterProjectIdempotent | main.go:160-216 | Filtering a filtered project for the same track changes nothing. |
| Filter.FilterEventIdempotent | main.go:175-202 | Filtering a filtered event for the same track changes nothing. |
| Filter.FilterChunkIdempotent | main.go:165-215 | Filtering a filtered chunk for the same track changes nothing. |
| Discover.AddItemTracks | main.go:299-301 | The item loop adds `500 - Track` of every item to the set. |
| Discover.ScanOneEvent | main.go:287-302 | The body of the event loop computes `ScanEvent` added to the set so far. |
| Discover.ScanChunkEvents | main.go:287-303 | The event loop of one chunk computes `ScanEvents` added to the set so far. |
| Discover.DiscoverTracks | main.go:281-314 | Succeeds exactly when the scan does, with the scan's error otherwise. The list is strictly ascending and holds exactly the scanned tracks. |
| Discover.ListOf | main.go:310-313 | The list has no duplicates and holds exactly the members of the set. |
| Discover.SortInts | main.go:314 | The result is sorted and a permutation of the input. |
| Discover.SortedDistinct | main.go:310-314 | A sorted list without duplicates is strictly ascending. |
| Discover.InsertSorted | main.go:314 | Inserting at the first position whose element is not smaller keeps the list sorted, and adds exactly that element. |
| Discover.ScanEventsOk | main.go:287-303 | The scan of a chunk's events succeeds exactly when no event is type 129 and every playlist event holds whole items. |
| Discover.ScanChunksOk | main.go:283-306 | The whole scan succeeds exactly when every event of every FLdt chunk passes. |
| Discover.OldPlaylistRejected | main.go:288-290 | Any type-129 event in an FLdt chunk stops the scan. |
| Discover.ItemTracksMembers | main.go:299-301 | A track is collected exactly when some item has `Track == 500 - track`, and `uint32(500 - track)` is that `Track`. |
| Discover.ScanEventsMember | main.go:287-302 | One track is in a chunk's scanned set exactly when some playlist event holds an item on it. |
| Discover.ScanEventsMembers | main.go:287-302 | The scanned set of a chunk's events holds exactly the tracks of its playlist items. |
| Discover.ScanChunksMembers | main.go:281-306 | The scanned set holds exactly the tracks of the playlist items of all FLdt chunks. |
| Discover.TrackRaw | main.go:299-301 | Every discovered track converts back with `uint32(500 - track)` to the `Track` of an item it came from. |
| Discover.ScanChunksFilters | main.go:179-182 | Once the scan passes, filtering for any track cannot fail. |
| Discover.SplitProject | main.go:281-317 | On a passing scan, yields one output per discovered track, in strictly ascending order. Each output is the filtered project for raw track `uint32(500 - track)`, written out. A failed scan (type 129 or a broken playlist payload) yields no output and carries the scan's error. |
| Paths.StripExt | main.go:151-158 | The backward loop returns `Stem(path)`. |
| Paths.StemDefinition | main.go:151-158 | The result is the path up to the last dot that has no dot or separator after it, or "" when there is no such dot. |
| Paths.StemPrefix | main.go:151-158 | The result is a prefix of the path, followed there by a '.', unless it is empty. |

## Left out

- File I/O (opening, reading and writing files), the file dialog, the command-line flag, the press-enter prompts and all logging: these are effects around the model, not part of it. `FilterWrite` returns the bytes that `filterwrite` would write.
- The output file name `fmt.Sprintf("%s-%03d.flp", stripext(...), 500-track)`: only `stripext` is modelled; decimal formatting is out of scope.
- `log.Fatal` ends the process; the model returns an `Err` instead, and the run stops there.
- restruct itself is not part of this model: the wire layout is written out by hand from the struct tags in main.go:70-139.
- The FLhd payload is read as its three u16 fields right after the header; its `Len` is not consulted, as the struct gives that case no size.
- Playlist payloads that are not a multiple of 32 bytes are modelled as the error `MalformedRecordArray`; what restruct does with a trailing partial item is not modelled.
- Vlq.VlqRoundTrip: stated from values to bytes and back. The bytes-first direction is `Vlq.VlqCanonical`, for minimal prefixes only: a VLQ with trailing empty groups, or one whose groups overflow 64 bits, unpacks but packs back to different bytes.
- Container.DecodeProject: the bytes-first round trip (`Container.ProjectCanonical`) needs every event length prefix to be minimal. A file with a non-minimal prefix reads, but would be written back with different, shorter or truncated, prefixes; this case is not modelled further.
- Events.DecodeEvent: its bytes-first round trip (`Events.EventCanonical`) holds for events whose length prefix is minimal; other bytes events are read but not written back to the same bytes.
- Container.DecodeChunk: an FLdt chunk's events are read from exactly `Len` bytes, while main.go:100 reads events until the end of the input and never looks at the FLdt `Len`. The two readings agree only when FLdt is the last chunk of the file and its `Len` equals the number of bytes after its header. If the FLdt `Len` is too large, the model rejects the file. If it is too small, the model reads the bytes after it as further chunks, so it either rejects the file or reads a different project than the tool does. The tool itself writes the corrected `Len` on output (main.go:206-212).
- Discover.AddItemTracks: Go's `int` is taken to be 64 bits, so `500 - int(Track)` (main.go:300) never overflows. On a 32-bit build a Track of 2^31 or more would wrap and change the discovered track numbers and their order; that is not modelled.
- Vlq.Unpack: Go indexes past the end of a buffer with no terminating byte and panics; the model returns `TruncatedInput` instead.
- Events.EventRoundTrip: stated only for events whose `Len` equals their data length and whose unused fields are zero; an event read from a file always is.
- Filter.FilterWrite: slices are values here, so the clone of the chunk and event slices (main.go:161-171) is implicit, and aliasing between the caller's project and the copy is not modelled.
- Discover.SortInts: `sort.Ints` is modelled by an insertion sort with the same result; its algorithm and cost are not modelled.
- Discover.ListOf: Go's map iteration order is unspecified; the model takes members in an arbitrary order, and only the set of members matters.
- os.IsPathSeparator is taken to be Windows' ('\\' or '/'), the platform the tool's file dialog targets; strings are sequences of characters, not bytes.
