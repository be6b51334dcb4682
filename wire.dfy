/**
 * Fixed-width little-endian integers, the error kinds of the codec and the
 * result type every decoder returns.  Every multi-byte field of an FL Studio
 * project file is little-endian.
 */
module Wire {

  const TWO16: int := 0x1_0000
  const TWO32: int := 0x1_0000_0000
  const TWO64: int := 0x1_0000_0000_0000_0000

  type byte = x: int | 0 <= x < 256
  type u16 = x: int | 0 <= x < TWO16
  type u32 = x: int | 0 <= x < TWO32
  type u64 = x: int | 0 <= x < TWO64

  /** What can go wrong while reading or filtering a project. */
  datatype Error =
    | TruncatedInput                                // a field runs past the end of its buffer
    | MalformedContainer                            // a chunk length runs past the end of the file
    | MalformedRecordArray                          // a playlist payload is not a whole number of items
    | UnsupportedFormat(chunk: nat, event: nat)     // event 129 found at this chunk and event index

  datatype Result<T> = Ok(value: T) | Err(error: Error)

  /** The two bytes of a u16, low byte first. */
  function LE16(x: u16): (r: seq<byte>)
    ensures |r| == 2
  {
    [x % 256, x / 256]
  }

  /** The four bytes of a u32, low byte first. */
  function LE32(x: u32): (r: seq<byte>)
    ensures |r| == 4
  {
    LE16(x % TWO16) + LE16(x / TWO16)
  }

  /** The little-endian u16 at offset `k` of `s`. */
  function U16At(s: seq<byte>, k: nat): u16
    requires k + 2 <= |s|
  {
    s[k] as int + 256 * (s[k + 1] as int)
  }

  /** The little-endian u32 at offset `k` of `s`: a low u16 then a high u16. */
  function U32At(s: seq<byte>, k: nat): u32
    requires k + 4 <= |s|
  {
    U16At(s, k) + TWO16 * U16At(s, k + 2)
  }

  /** Reads a little-endian u16 off the front of `s`. */
  function ReadU16(s: seq<byte>): (r: Result<(u16, seq<byte>)>)
    ensures r.Ok? <==> |s| >= 2
    ensures r.Ok? ==> r.value.1 == s[2..]
  {
    if |s| < 2 then Err(TruncatedInput) else Ok((U16At(s, 0), s[2..]))
  }

  /** Reads a little-endian u32 off the front of `s`. */
  function ReadU32(s: seq<byte>): (r: Result<(u32, seq<byte>)>)
    ensures r.Ok? <==> |s| >= 4
    ensures r.Ok? ==> r.value.1 == s[4..]
  {
    if |s| < 4 then Err(TruncatedInput) else Ok((U32At(s, 0), s[4..]))
  }

  lemma U16RoundTrip(x: u16, rest: seq<byte>)
    ensures ReadU16(LE16(x) + rest) == Ok((x, rest))
  {
    assert (LE16(x) + rest)[2..] == rest;
  }

  lemma U32RoundTrip(x: u32, rest: seq<byte>)
    ensures ReadU32(LE32(x) + rest) == Ok((x, rest))
  {
    var s := LE32(x) + rest;
    assert s[4..] == rest;
    assert U16At(s, 0) == x % TWO16;
    assert U16At(s, 2) == x / TWO16;
  }

  /** A u16 written at offset |a| reads back from there. */
  lemma U16AtLE(a: seq<byte>, x: u16, b: seq<byte>)
    ensures U16At(a + LE16(x) + b, |a|) == x
  {
    var s := a + LE16(x) + b;
    assert s[|a|] == x % 256 && s[|a| + 1] == x / 256;
  }

  /** A u32 written at offset |a| reads back from there. */
  lemma U32AtLE(a: seq<byte>, x: u32, b: seq<byte>)
    ensures U32At(a + LE32(x) + b, |a|) == x
  {
    var s := a + LE32(x) + b;
    U16AtLE(a, x % TWO16, LE16(x / TWO16) + b);
    assert s == a + LE16(x % TWO16) + (LE16(x / TWO16) + b);
    U16AtLE(a + LE16(x % TWO16), x / TWO16, b);
    assert s == a + LE16(x % TWO16) + LE16(x / TWO16) + b;
  }

  /** A u16 read from a concatenation comes from the part that holds it. */
  lemma U16AtConcat(a: seq<byte>, b: seq<byte>, k: nat)
    requires k + 2 <= |a| || (|a| <= k && k + 2 <= |a| + |b|)
    ensures k + 2 <= |a| ==> U16At(a + b, k) == U16At(a, k)
    ensures |a| <= k ==> U16At(a + b, k) == U16At(b, k - |a|)
  {
  }

  /** A u32 read from a concatenation comes from the part that holds it. */
  lemma U32AtConcat(a: seq<byte>, b: seq<byte>, k: nat)
    requires k + 4 <= |a| || (|a| <= k && k + 4 <= |a| + |b|)
    ensures k + 4 <= |a| ==> U32At(a + b, k) == U32At(a, k)
    ensures |a| <= k ==> U32At(a + b, k) == U32At(b, k - |a|)
  {
    U16AtConcat(a, b, k);
    U16AtConcat(a, b, k + 2);
  }

  /** The last two bytes of `a + LE16(x)` read back as x. */
  lemma U16AtEnd(a: seq<byte>, x: u16)
    ensures U16At(a + LE16(x), |a|) == x
  {
  }

  /** The last four bytes of `a + LE32(x)` read back as x. */
  lemma U32AtEnd(a: seq<byte>, x: u32)
    ensures U32At(a + LE32(x), |a|) == x
  {
    var s := a + LE32(x);
    assert s[|a|..] == LE32(x);
    U16AtConcat(a, LE32(x), |a|);
    U16AtConcat(a, LE32(x), |a| + 2);
    assert U16At(LE32(x), 0) == x % TWO16;
    assert U16At(LE32(x), 2) == x / TWO16;
  }

  /** Reading a u16 and writing it back gives the bytes that were read. */
  lemma U16Canonical(s: seq<byte>, k: nat)
    requires k + 2 <= |s|
    ensures LE16(U16At(s, k)) == s[k..k + 2]
  {
  }

  /** Reading a u32 and writing it back gives the bytes that were read. */
  lemma U32Canonical(s: seq<byte>, k: nat)
    requires k + 4 <= |s|
    ensures LE32(U32At(s, k)) == s[k..k + 4]
  {
    var x := U32At(s, k);
    assert x % TWO16 == U16At(s, k) && x / TWO16 == U16At(s, k + 2);
    U16Canonical(s, k);
    U16Canonical(s, k + 2);
  }
}
