/** Machine words as the program uses them: unsigned integers with explicit
    wrap-around, and their little-endian byte strings. */
module Words {

  const TWO8: int := 0x100
  const TWO16: int := 0x1_0000
  const TWO24: int := 0x100_0000
  const TWO32: int := 0x1_0000_0000
  const TWO31: int := 0x8000_0000
  const TWO64: int := 0x1_0000_0000_0000_0000
  const TWO63: int := 0x8000_0000_0000_0000

  type byte = x: int | 0 <= x < 0x100
  type bytes = seq<byte>
  type uint16 = x: int | 0 <= x < 0x1_0000
  type uint32 = x: int | 0 <= x < 0x1_0000_0000
  type uint64 = x: int | 0 <= x < 0x1_0000_0000_0000_0000
  type int64 = x: int | -0x8000_0000_0000_0000 <= x < 0x8000_0000_0000_0000

  /** Conversions that truncate, as the source's integer casts do. */
  function ToUint8(x: int): byte { if 0 <= x < TWO8 then x else x % TWO8 }
  function ToUint16(x: int): uint16 { if 0 <= x < TWO16 then x else x % TWO16 }
  function ToUint32(x: int): uint32 { if 0 <= x < TWO32 then x else x % TWO32 }
  function ToUint64(x: int): uint64 { if 0 <= x < TWO64 then x else x % TWO64 }
  function ToInt64(x: int): int64 {
    if -TWO63 <= x < TWO63 then x
    else if x % TWO64 < TWO63 then x % TWO64
    else x % TWO64 - TWO64
  }

  /** The signed reading of a 32-bit word. */
  function Signed32(u: uint32): int { if u < TWO31 then u else u - TWO32 }

  function LE16(x: uint16): (r: bytes)
    ensures |r| == 2
  {
    [x % 256, x / 256]
  }

  function LE32(x: uint32): (r: bytes)
    ensures |r| == 4
  {
    [x % 256, x / 256 % 256, x / 65536 % 256, x / 16777216]
  }

  /** The 64-bit word as the builder stores it: low half first. */
  function LE64(x: uint64): (r: bytes)
    ensures |r| == 8
  {
    LE32(x % TWO32) + LE32(x / TWO32)
  }

  function FromLE16(b: bytes): uint16
    requires |b| == 2
  {
    (b[0] as int) + 256 * (b[1] as int)
  }

  function FromLE32(b: bytes): uint32
    requires |b| == 4
  {
    (b[0] as int) + 256 * (b[1] as int) + 65536 * (b[2] as int) + 16777216 * (b[3] as int)
  }

  /** Low bytes come first. */
  lemma LowBytesFirst()
    ensures LE16(0x0102) == [2, 1]
    ensures LE32(0x0102_0304) == [4, 3, 2, 1]
    ensures LE64(0x0102_0304_0506_0708) == [8, 7, 6, 5, 4, 3, 2, 1]
  {
    assert 0x0102_0304_0506_0708 % TWO32 == 0x0506_0708 && 0x0102_0304_0506_0708 / TWO32 == 0x0102_0304;
  }

  lemma LE16RoundTrip(x: uint16)
    ensures FromLE16(LE16(x)) == x
  {
  }

  lemma LE32RoundTrip(x: uint32)
    ensures FromLE32(LE32(x)) == x
  {
    assert x == x % 256 + 256 * (x / 256);
    assert x / 256 == x / 256 % 256 + 256 * (x / 256 / 256);
    assert x / 256 / 256 == x / 65536;
    assert x / 65536 == x / 65536 % 256 + 256 * (x / 65536 / 256);
    assert x / 65536 / 256 == x / 16777216;
  }

  /** Every four bytes are the encoding of the number they denote. */
  lemma LE32Inverse(b: bytes)
    requires |b| == 4
    ensures LE32(FromLE32(b)) == b
  {
    var x := FromLE32(b);
    var top := (b[2] as int) + 256 * (b[3] as int);
    var upper := (b[1] as int) + 256 * top;
    Digit(x, upper, b[0]);
    Digit(upper, top, b[1]);
    Digit(top, b[3], b[2]);
    HigherBytes(x);
  }

  /** Quotient and remainder of a number given by its lowest byte and the rest. */
  lemma Digit(x: int, rest: int, low: int)
    requires 0 <= low < 256 && x == 256 * rest + low
    ensures x / 256 == rest && x % 256 == low
  {
  }

  lemma HigherBytes(x: nat)
    ensures x / 65536 == x / 256 / 256 && x / 16777216 == x / 256 / 256 / 256
  {
  }

  /** The two lowest bytes of a 64-bit number. */
  lemma LowBytes(x: uint64)
    ensures LE64(x)[0] == x % 256 && LE64(x)[1] == x / 256 % 256
  {
    var high, low := x / TWO32, x % TWO32;
    Digit(low, low / 256, low % 256);
    Digit(low / 256, low / 256 / 256, low / 256 % 256);
    Digit(x, 16777216 * high + low / 256, low % 256);
    Digit(x / 256, 65536 * high + low / 256 / 256, low / 256 % 256);
    assert LE64(x)[0] == LE32(low)[0] && LE64(x)[1] == LE32(low)[1];
  }

  /** `b` with `src` written over it at `lo`. */
  function Splice(b: bytes, lo: nat, src: bytes): (r: bytes)
    requires lo + |src| <= |b|
    ensures |r| == |b|
  {
    b[..lo] + src + b[lo + |src|..]
  }

  /** Writing right after what has been written. */
  lemma SpliceNext(head: bytes, tail: bytes, src: bytes)
    requires |src| <= |tail|
    ensures Splice(head + tail, |head|, src) == head + src + tail[|src|..]
  {
    var b := head + tail;
    assert b[..|head|] == head && b[|head| + |src|..] == tail[|src|..];
  }

  lemma SliceOfSlice(b: bytes, from: int, to: int, i: int, j: int)
    requires 0 <= from <= to <= |b| && 0 <= i <= j <= to - from
    ensures b[from..to][i..j] == b[from + i..from + j]
  {
    var outer := b[from..to];
    assert forall k :: i <= k < j ==> outer[k] == b[from + k];
    assert |outer[i..j]| == |b[from + i..from + j]|;
    forall k | 0 <= k < j - i ensures outer[i..j][k] == b[from + i..from + j][k] {
      assert outer[i + k] == b[from + (i + k)];
    }
  }

  lemma Truncations(n: nat)
    ensures ToUint8(n) == n % 256 && ToUint16(n) == n % 65536 && ToUint32(n) == n % TWO32
  {
  }

  function Zeros(n: nat): (r: bytes)
    ensures |r| == n
  {
    seq(n, _ => 0)
  }

  lemma Associates(a: bytes, b: bytes, c: bytes)
    ensures a + (b + c) == (a + b) + c
  {
  }

  lemma Middle(before: bytes, middle: bytes, after: bytes)
    ensures (before + middle + after)[|before|..|before| + |middle|] == middle
  {
  }

  lemma MiddleNested(head: bytes, before: bytes, middle: bytes, after: bytes, tail: bytes)
    ensures (head + (before + middle + after) + tail)[|head| + |before|..|head| + |before| + |middle|] == middle
  {
    assert head + (before + middle + after) + tail == (head + before) + middle + (after + tail);
  }

  /** Concatenation of a list of byte strings, in order. */
  function Concat(parts: seq<bytes>): bytes {
    if parts == [] then [] else parts[0] + Concat(parts[1..])
  }

  lemma {:induction false} ConcatAppend(parts: seq<bytes>, more: seq<bytes>)
    ensures Concat(parts + more) == Concat(parts) + Concat(more)
  {
    if parts == [] {
      assert parts + more == more;
    } else {
      assert (parts + more)[1..] == parts[1..] + more;
      ConcatAppend(parts[1..], more);
    }
  }

  lemma ConcatSnoc(parts: seq<bytes>, last: bytes)
    ensures Concat(parts + [last]) == Concat(parts) + last
  {
    ConcatAppend(parts, [last]);
  }
}
