/** Bytes, fixed-width unsigned integers and the big- and little-endian
    codecs of utils/bits/pio. Integers are mathematical; every place where the
    program wraps around says so with an explicit modulus. */
module Bytes {

  type Byte = x: int | 0 <= x < 0x100
  type U16 = x: int | 0 <= x < 0x1_0000
  type U24 = x: int | 0 <= x < 0x100_0000
  type U32 = x: int | 0 <= x < 0x1_0000_0000
  type U64 = x: int | 0 <= x < 0x1_0000_0000_0000_0000

  function Add32(a: U32, b: U32): U32 { (a + b) % 0x1_0000_0000 }

  /** A uint32 byte counter after n more bytes. */
  function Count32(a: U32, n: nat): U32 { (a + n) % 0x1_0000_0000 }

  lemma Count32Twice(a: U32, m: nat, n: nat)
    ensures Count32(Count32(a, m), n) == Count32(a, m + n)
  {}

  /** A length or count cut to a uint32. */
  function Trunc32(n: nat): U32 { n % 0x1_0000_0000 }

  lemma Trunc32Small(n: nat)
    ensures n < 0x1_0000_0000 ==> Trunc32(n) == n
  {}

  function Sub32(a: U32, b: U32): U32 { (a - b) % 0x1_0000_0000 }

  function EncU16(v: U16): (b: seq<Byte>)
    ensures |b| == 2
  {
    [v / 0x100, v % 0x100]
  }

  function EncU24(v: U24): (b: seq<Byte>)
    ensures |b| == 3
  {
    [v / 0x1_0000, v / 0x100 % 0x100, v % 0x100]
  }

  function EncU32(v: U32): (b: seq<Byte>)
    ensures |b| == 4
  {
    [v / 0x100_0000, v / 0x1_0000 % 0x100, v / 0x100 % 0x100, v % 0x100]
  }

  function EncU32LE(v: U32): (b: seq<Byte>)
    ensures |b| == 4
  {
    [v % 0x100, v / 0x100 % 0x100, v / 0x1_0000 % 0x100, v / 0x100_0000]
  }

  function EncU64(v: U64): (b: seq<Byte>)
    ensures |b| == 8
  {
    EncU32(v / 0x1_0000_0000) + EncU32(v % 0x1_0000_0000)
  }

  // The decoders look at the front of the slice they are given, as the Go ones do.

  function DecU16(b: seq<Byte>): U16
    requires |b| >= 2
  {
    (b[0] as int) * 0x100 + b[1]
  }

  function DecU24(b: seq<Byte>): U24
    requires |b| >= 3
  {
    (b[0] as int) * 0x1_0000 + (b[1] as int) * 0x100 + b[2]
  }

  function DecU32(b: seq<Byte>): U32
    requires |b| >= 4
  {
    (b[0] as int) * 0x100_0000 + (b[1] as int) * 0x1_0000 + (b[2] as int) * 0x100 + b[3]
  }

  function DecU32LE(b: seq<Byte>): U32
    requires |b| >= 4
  {
    (b[3] as int) * 0x100_0000 + (b[2] as int) * 0x1_0000 + (b[1] as int) * 0x100 + b[0]
  }

  function DecU64(b: seq<Byte>): U64
    requires |b| >= 8
  {
    DecU32(b) * 0x1_0000_0000 + DecU32(b[4..])
  }

  lemma U16RoundTrip(v: U16, rest: seq<Byte>)
    ensures DecU16(EncU16(v) + rest) == v
  {}

  lemma U24RoundTrip(v: U24, rest: seq<Byte>)
    ensures DecU24(EncU24(v) + rest) == v
  {
    assert v / 0x100 == v / 0x1_0000 * 0x100 + v / 0x100 % 0x100;
  }

  lemma U32RoundTrip(v: U32, rest: seq<Byte>)
    ensures DecU32(EncU32(v) + rest) == v
  {
    assert v / 0x1_0000 == v / 0x100_0000 * 0x100 + v / 0x1_0000 % 0x100;
    assert v / 0x100 == v / 0x1_0000 * 0x100 + v / 0x100 % 0x100;
  }

  lemma U32LERoundTrip(v: U32, rest: seq<Byte>)
    ensures DecU32LE(EncU32LE(v) + rest) == v
  {
    assert v / 0x1_0000 == v / 0x100_0000 * 0x100 + v / 0x1_0000 % 0x100;
    assert v / 0x100 == v / 0x1_0000 * 0x100 + v / 0x100 % 0x100;
  }

  lemma U64RoundTrip(v: U64, rest: seq<Byte>)
    ensures DecU64(EncU64(v) + rest) == v
  {
    var hi, lo := v / 0x1_0000_0000, v % 0x1_0000_0000;
    U32RoundTrip(hi, EncU32(lo) + rest);
    U32RoundTrip(lo, rest);
    assert EncU64(v) + rest == EncU32(hi) + (EncU32(lo) + rest);
    assert (EncU64(v) + rest)[4..] == EncU32(lo) + rest;
  }

  lemma FourBytes(a: Byte, b: Byte, c: Byte, d: Byte)
    ensures
      var v := (a as int) * 0x100_0000 + (b as int) * 0x1_0000 + (c as int) * 0x100 + d;
      && v / 0x100_0000 == a && v / 0x1_0000 % 0x100 == b && v / 0x100 % 0x100 == c && v % 0x100 == d
  {
    var v := (a as int) * 0x100_0000 + (b as int) * 0x1_0000 + (c as int) * 0x100 + d;
    assert v / 0x100_0000 == a;
    assert v / 0x1_0000 == (a as int) * 0x100 + b;
    assert v / 0x100 == (a as int) * 0x1_0000 + (b as int) * 0x100 + c;
  }

  /** The other direction: a decoded field encodes back to the bytes read. */
  lemma U32Canonical(b: seq<Byte>)
    requires |b| >= 4
    ensures EncU32(DecU32(b)) == b[..4]
  {
    FourBytes(b[0], b[1], b[2], b[3]);
    assert b[..4] == [b[0], b[1], b[2], b[3]];
  }

  function Min(a: nat, b: nat): nat { if a < b then a else b }

  lemma Assoc<T>(a: seq<T>, b: seq<T>, c: seq<T>)
    ensures a + (b + c) == a + b + c
  {}

  lemma SliceOfDrop<T>(s: seq<T>, m: nat, i: nat, j: nat)
    requires i <= j && m + j <= |s|
    ensures s[m..][i..j] == s[m + i..m + j] && s[m..][j..] == s[m + j..]
  {}

  /** Concatenation of a list of byte strings. */
  function Flatten(bs: seq<seq<Byte>>): seq<Byte>
  {
    if bs == [] then [] else bs[0] + Flatten(bs[1..])
  }
}

module Wrappers {
  datatype Option<+T> = None | Some(value: T)

  datatype Result<+T, +E> = Ok(value: T) | Err(error: E) {
    predicate IsFailure() { Err? }

    function PropagateFailure<U>(): Result<U, E>
      requires Err?
    {
      Err(error)
    }

    function Extract(): T
      requires Ok?
    {
      value
    }
  }
}
