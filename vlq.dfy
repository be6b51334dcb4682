/**
 * The variable-length quantity used for the length of a byte event: 7-bit
 * groups, least significant first, with 0x80 set on every byte that is
 * followed by another.  This is the byte form of unsigned LEB128 (DWARF 4,
 * section 7.6).
 *
 * The bit operations of the Go code are written arithmetically on bytes:
 * `b & 0x7F` is `b % 128`, `b & 0x80 == 0` is `b < 128`, `n >>= 7` is
 * `n / 128`.
 */
module Vlq {
  import opened Wire

  /** The minimal encoding of `v`. */
  function VlqBytes(v: nat): (r: seq<byte>)
    ensures 1 <= |r|
    decreases v
  {
    if v < 128 then [v] else [v % 128 + 128] + VlqBytes(v / 128)
  }

  function Pow2(n: nat): (r: nat)
    ensures r >= 1
  {
    if n == 0 then 1 else 2 * Pow2(n - 1)
  }

  /**
   * The number the low 7 bits of the bytes of `s` spell, least significant
   * group first (group k sits at bit 7k).
   */
  function Groups(s: seq<byte>): nat
  {
    if s == [] then 0 else s[0] % 128 + 128 * Groups(s[1..])
  }

  /** Index of the first byte with the high bit clear, or |s| if there is none. */
  function FirstClear(s: seq<byte>): (t: nat)
    ensures t <= |s|
    ensures t < |s| ==> s[t] < 128
    ensures forall k :: 0 <= k < t ==> s[k] >= 128
  {
    if s == [] then 0 else if s[0] < 128 then 0 else 1 + FirstClear(s[1..])
  }

  /**
   * What `Unpack` reads off the front of `s`: the value, kept to 64 bits as
   * a `uint64` accumulator keeps it, and the bytes after the terminating one.
   * Running out of bytes before a terminator is an error.
   */
  function VlqRead(s: seq<byte>): (r: Result<(u64, seq<byte>)>)
    ensures r.Ok? ==> |r.value.1| < |s| && r.value.1 == s[|s| - |r.value.1|..]
  {
    var t := FirstClear(s);
    if t == |s| then Err(TruncatedInput) else Ok((Groups(s[..t + 1]) % TWO64, s[t + 1..]))
  }

  /** `b | 0x80` */
  function SetContinue(b: byte): (r: byte)
  {
    if b >= 128 then b else b + 128
  }

  /** Number of bytes `Pack` writes for `v`: one per non-empty 7-bit group, at least one. */
  method SizeOf(v: u64) returns (size: nat)
    ensures size == |VlqBytes(v)|
    ensures v < Pow2(7 * size)
    ensures size == 1 || Pow2(7 * (size - 1)) <= v
  {
    var n: nat := v;
    size := 1;
    while true
      invariant |VlqBytes(v)| == size - 1 + |VlqBytes(n)|
      decreases n
    {
      var next := n / 128;
      if next > 0 {
        size := size + 1;
        n := next;
      } else {
        VlqMinimal(v);
        return;
      }
    }
  }

  /**
   * Writes the encoding of `v` at the front of `buf` and returns how many
   * bytes it wrote (Go returns the unwritten tail `buf[written:]`).  The
   * caller sizes `buf` with `SizeOf`.
   */
  method Pack(v: u64, buf: array<byte>) returns (written: nat)
    requires buf.Length >= |VlqBytes(v)|
    modifies buf
    ensures written == |VlqBytes(v)|
    ensures buf[..written] == VlqBytes(v)
    ensures buf[written..] == old(buf[written..])
  {
    ghost var orig := buf[..];
    ghost var e := VlqBytes(v);
    var i := 1;
    var n: nat := v;
    buf[0] := n % 128;
    n := n / 128;
    ghost var m: nat := v;  // the value whose low group is in buf[i - 1]
    PackStart(orig, e, v);
    while n != 0
      invariant Packing(buf[..], orig, e, i, m) && n == m / 128
      decreases n
    {
      PackStep(buf[..], orig, e, i, m);
      ghost var next := buf[..][i - 1 := m % 128 + 128][i := n % 128];
      buf[i - 1] := SetContinue(buf[i - 1]);
      buf[i] := n % 128;
      assert buf[..] == next;
      m := n;
      n := n / 128;
      i := i + 1;
    }
    PackDone(buf[..], orig, e, i, m);
    written := i;
  }

  /**
   * Reads a quantity off the front of `buf`: the value and the unread tail.
   * Go indexes past the end of a buffer with no terminator and panics; that
   * is the `TruncatedInput` error here.
   */
  method Unpack(buf: seq<byte>) returns (r: Result<(u64, seq<byte>)>)
    ensures r == VlqRead(buf)
  {
    var n: u64 := 0;
    var shift: nat := 0;
    var i: nat := 0;
    while true
      invariant i <= |buf|
      invariant shift == 7 * i
      invariant forall k :: 0 <= k < i ==> buf[k] >= 128
      invariant n == Groups(buf[..i]) % TWO64
      decreases |buf| - i
    {
      if i == |buf| {
        return Err(TruncatedInput);
      }
      var b := buf[i];
      // n |= uint64(b & 0x7F) << shift: the group lands on bits n does not
      // use yet, and bits at 64 and above are dropped, as Go drops them.
      ModAddMod(Groups(buf[..i]), (b % 128) * Pow2(shift));
      assert buf[..i + 1] == buf[..i] + [b];
      GroupsSnoc(buf[..i], b);
      n := (n + (b % 128) * Pow2(shift)) % TWO64;
      shift := shift + 7;
      i := i + 1;
      if b < 128 {
        break;
      }
    }
    r := Ok((n, buf[i..]));
  }

  /**
   * The state of `Pack` before writing byte `i`: `cur` holds the finished
   * encoding bytes below `i - 1`, the unflagged low group of `m` at
   * `i - 1`, and the caller's bytes from `i` on; `e[i - 1..]` encodes `m`.
   */
  ghost predicate Packing(cur: seq<byte>, orig: seq<byte>, e: seq<byte>, i: nat, m: nat)
  {
    1 <= i <= |e| <= |cur| == |orig|
    && cur[i - 1] == m % 128
    && e[i - 1..] == VlqBytes(m)
    && cur[..i - 1] == e[..i - 1]
    && cur[i..] == orig[i..]
  }

  lemma PackStart(orig: seq<byte>, e: seq<byte>, v: nat)
    requires e == VlqBytes(v) && |orig| >= |e|
    ensures Packing(orig[0 := v % 128], orig, e, 1, v)
  {
    assert orig[0 := v % 128][1..] == orig[1..];
  }

  /** Flagging byte `i - 1` and writing the next group at `i` moves the state one byte on. */
  lemma PackStep(cur: seq<byte>, orig: seq<byte>, e: seq<byte>, i: nat, m: nat)
    requires Packing(cur, orig, e, i, m) && m / 128 != 0
    ensures i < |cur| && SetContinue(cur[i - 1]) == m % 128 + 128
    ensures Packing(cur[i - 1 := m % 128 + 128][i := m / 128 % 128], orig, e, i + 1, m / 128)
  {
    var next := cur[i - 1 := m % 128 + 128][i := m / 128 % 128];
    VlqUnfold(m);
    assert e[i - 1] == m % 128 + 128;
    assert e[i..] == e[i - 1..][1..];
    assert next[..i] == e[..i - 1] + [e[i - 1]] == e[..i];
    assert next[i + 1..] == cur[i + 1..];
  }

  /** When no group is left the encoding is complete and the rest of the buffer untouched. */
  lemma PackDone(cur: seq<byte>, orig: seq<byte>, e: seq<byte>, i: nat, m: nat)
    requires Packing(cur, orig, e, i, m) && m / 128 == 0
    ensures i == |e| && cur[..i] == e && cur[i..] == orig[i..]
  {
    assert e[i - 1..] == [m];
    assert cur[..i] == cur[..i - 1] + [cur[i - 1]];
  }

  // ---------------------------------------------------------------------
  // Properties

  /** `SizeOf` is minimal: `v` needs all of its groups and no more. */
  lemma {:induction false} VlqMinimal(v: nat)
    ensures v < Pow2(7 * |VlqBytes(v)|)
    ensures |VlqBytes(v)| == 1 || Pow2(7 * (|VlqBytes(v)| - 1)) <= v
    decreases v
  {
    Pow2Seven();
    if v >= 128 {
      var L := |VlqBytes(v / 128)|;
      VlqMinimal(v / 128);
      Pow2Add(7, 7 * L);
      assert 7 * |VlqBytes(v)| == 7 + 7 * L;
      if L > 1 {
        Pow2Add(7, 7 * (L - 1));
        assert 7 * (|VlqBytes(v)| - 1) == 7 + 7 * (L - 1);
      }
    }
  }

  /** The bytes `VlqBytes` writes spell `v` back. */
  lemma {:induction false} GroupsOfVlq(v: nat)
    ensures Groups(VlqBytes(v)) == v
    decreases v
  {
    if v >= 128 {
      GroupsOfVlq(v / 128);
    }
  }

  /** A value of two or more groups is its low group, flagged, then the rest. */
  lemma VlqUnfold(m: nat)
    requires m >= 128
    ensures VlqBytes(m) == [m % 128 + 128] + VlqBytes(m / 128)
  {
  }

  /**
   * The last byte of an encoding has the continuation bit clear, and is not
   * a redundant zero group unless it is the only byte.
   */
  lemma {:induction false} VlqLast(v: nat)
    ensures VlqBytes(v)[|VlqBytes(v)| - 1] < 128
    ensures |VlqBytes(v)| > 1 ==> VlqBytes(v)[|VlqBytes(v)| - 1] != 0
    decreases v
  {
    if v >= 128 {
      VlqLast(v / 128);
    }
  }

  /** Every byte of an encoding but the last has the continuation bit set. */
  lemma {:induction false} VlqContinues(v: nat, k: nat)
    requires k < |VlqBytes(v)| - 1
    ensures VlqBytes(v)[k] >= 128
    decreases v
  {
    if k > 0 {
      VlqContinues(v / 128, k - 1);
    }
  }

  /** Round trip: reading the encoding of a 64-bit value gives it back and stops after it. */
  lemma VlqRoundTrip(v: u64, rest: seq<byte>)
    ensures VlqRead(VlqBytes(v) + rest) == Ok((v, rest))
  {
    var e := VlqBytes(v);
    var s := e + rest;
    VlqTerminator(v, rest);
    assert s[..|e|] == e;
    assert s[|e|..] == rest;
    GroupsOfVlq(v);
    Below64(v);
  }

  /**
   * The bytes at the front of `s` are a minimal encoding of a 64-bit value:
   * they end in a terminator, the last group is not a redundant zero, and
   * the groups fit in 64 bits.
   */
  predicate MinimalVlq(s: seq<byte>)
  {
    var t := FirstClear(s);
    t < |s| && (t == 0 || s[t] != 0) && Groups(s[..t + 1]) < TWO64
  }

  /** Every encoding `Pack` writes is minimal, whatever follows it. */
  lemma VlqBytesMinimal(v: u64, rest: seq<byte>)
    ensures FirstClear(VlqBytes(v) + rest) == |VlqBytes(v)| - 1
    ensures MinimalVlq(VlqBytes(v) + rest)
  {
    var e := VlqBytes(v);
    var s := e + rest;
    VlqTerminator(v, rest);
    VlqLast(v);
    assert s[..|e|] == e;
    GroupsOfVlq(v);
  }

  /**
   * Round trip from bytes: a minimal encoding read and written back gives
   * the bytes that were read, followed by the unread tail.
   */
  lemma VlqCanonical(s: seq<byte>)
    requires MinimalVlq(s)
    ensures VlqRead(s).Ok?
    ensures VlqBytes(VlqRead(s).value.0) + VlqRead(s).value.1 == s
  {
    var t := FirstClear(s);
    var p := s[..t + 1];
    assert p[|p| - 1] == s[t];
    assert forall k :: 0 <= k < |p| - 1 ==> p[k] == s[k];
    GroupsCanonical(p);
    var g := Groups(p);
    Below64(g);
    assert p + s[t + 1..] == s;
    assert VlqRead(s) == Ok((g % TWO64, s[t + 1..]));
  }

  /**
   * Continuation bits set on all but the last byte, a terminator that is
   * not a redundant zero group: the groups re-encode to the same bytes.
   */
  lemma {:induction false} GroupsCanonical(p: seq<byte>)
    requires |p| >= 1 && p[|p| - 1] < 128
    requires forall k :: 0 <= k < |p| - 1 ==> p[k] >= 128
    requires |p| == 1 || p[|p| - 1] != 0
    ensures VlqBytes(Groups(p)) == p
    ensures |p| > 1 ==> Groups(p) >= 128
    decreases |p|
  {
    if |p| == 1 {
      assert p[1..] == [];
      assert Groups(p) == p[0];
    } else {
      var q := p[1..];
      assert q[|q| - 1] == p[|p| - 1];
      assert forall k :: 0 <= k < |q| - 1 ==> q[k] == p[k + 1];
      GroupsCanonical(q);
      if |q| == 1 {
        assert q[1..] == [];
        assert Groups(q) == q[0];
      }
      assert Groups(q) >= 1;
      assert [p[0]] + q == p;
      GroupsCons(p[0], q);
    }
  }

  /** A flagged byte in front of the encoding of a non-zero value encodes one more group. */
  lemma GroupsCons(b: byte, q: seq<byte>)
    requires b >= 128 && Groups(q) >= 1 && VlqBytes(Groups(q)) == q
    ensures VlqBytes(Groups([b] + q)) == [b] + q
    ensures Groups([b] + q) >= 128
  {
    var gq := Groups(q);
    var g := Groups([b] + q);
    assert ([b] + q)[1..] == q;
    assert g == b - 128 + 128 * gq;
    SplitGroup(b - 128, gq);
    VlqUnfold(g);
  }

  lemma SplitGroup(a: nat, g: nat)
    requires a < 128 && g >= 1
    ensures (a + 128 * g) % 128 == a && (a + 128 * g) / 128 == g && a + 128 * g >= 128
  {
  }

  /** A larger value never has a shorter encoding. */
  lemma {:induction false} VlqSizeMonotone(a: nat, b: nat)
    requires a <= b
    ensures |VlqBytes(a)| <= |VlqBytes(b)|
    decreases b
  {
    if a >= 128 {
      VlqSizeMonotone(a / 128, b / 128);
    }
  }

  /** Reading stops at the last byte of an encoding, whatever follows it. */
  lemma VlqTerminator(v: nat, rest: seq<byte>)
    ensures FirstClear(VlqBytes(v) + rest) == |VlqBytes(v)| - 1
  {
    var e := VlqBytes(v);
    var s := e + rest;
    forall k | 0 <= k < |e| - 1
      ensures s[k] >= 128
    {
      VlqContinues(v, k);
    }
    VlqLast(v);
    FirstClearIs(s, |e| - 1);
  }

  lemma Below64(v: u64)
    ensures v % TWO64 == v
  {
  }

  /** The terminator is the first byte with the high bit clear. */
  lemma {:induction false} FirstClearIs(s: seq<byte>, t: nat)
    requires t < |s| && s[t] < 128
    requires forall k :: 0 <= k < t ==> s[k] >= 128
    ensures FirstClear(s) == t
  {
    if t > 0 {
      FirstClearIs(s[1..], t - 1);
    }
  }

  // ---------------------------------------------------------------------
  // Arithmetic helpers

  lemma Pow2Seven()
    ensures Pow2(7) == 128
  {
  }

  lemma {:induction false} Pow2Add(a: nat, b: nat)
    ensures Pow2(a + b) == Pow2(a) * Pow2(b)
    decreases a
  {
    if a > 0 {
      Pow2Add(a - 1, b);
    }
  }

  lemma ModAddMod(a: nat, b: nat)
    ensures (a % TWO64 + b) % TWO64 == (a + b) % TWO64
  {
  }

  /** Appending a byte puts its group above all the groups already there. */
  lemma {:induction false} GroupsSnoc(s: seq<byte>, b: byte)
    ensures Groups(s + [b]) == Groups(s) + (b % 128) * Pow2(7 * |s|)
    decreases |s|
  {
    if s == [] {
      assert [b][1..] == [];
    } else {
      var tail := s[1..];
      assert (s + [b])[1..] == tail + [b];
      GroupsSnoc(tail, b);
      Pow2Add(7, 7 * |tail|);
      Pow2Seven();
      assert 7 * |s| == 7 + 7 * |tail|;
      Distribute(Groups(tail), b % 128, Pow2(7 * |tail|));
    }
  }

  lemma Distribute(x: int, g: int, p: int)
    ensures 128 * (x + g * p) == 128 * x + g * (128 * p)
  {
  }
}
