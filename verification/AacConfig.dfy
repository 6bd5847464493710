/** The MPEG-4 audio configuration (codec/aac/aac.go). */
module AacConfig {
  import opened Bytes
  import opened BitSeq
  import opened BitIO
  import opened Wrappers

  /** The value AOT_ESCAPE has by iota; the standard's escape value is 31. */
  const AOT_ESCAPE := 46

  const SampleRateTable: seq<nat> :=
    [96000, 88200, 64000, 48000, 44100, 32000, 24000, 22050, 16000, 12000, 11025, 8000, 7350]

  /** Speaker positions as a bit set. */
  const ChanConfigTable: seq<nat> := [0, 1, 6, 7, 15, 55, 311, 503]

  datatype Config = Config(
    sampleRate: nat, channelLayout: nat, objectType: nat, sampleRateIndex: nat, channelConfig: nat)

  /** complete: rate and layout from their tables. */
  function Complete(c: Config): Option<Config>
  {
    if c.sampleRateIndex < |SampleRateTable| && c.channelConfig < |ChanConfigTable| then
      Some(c.(sampleRate := SampleRateTable[c.sampleRateIndex], channelLayout := ChanConfigTable[c.channelConfig]))
    else None
  }

  /** The last place of x in a table, or `other`. */
  function LastIndex(table: seq<nat>, x: nat, other: nat): (i: nat)
    ensures i == other || (i < |table| && table[i] == x)
  {
    if table == [] then other
    else if table[|table| - 1] == x then |table| - 1
    else LastIndex(table[..|table| - 1], x, other)
  }

  /** What WriteMPEG4AudioConfig puts in place of a zero index or channel count. */
  function Resolve(c: Config): Config
  {
    var d := if c.sampleRateIndex == 0 then c.(sampleRateIndex := LastIndex(SampleRateTable, c.sampleRate, 0)) else c;
    if d.channelConfig == 0 then d.(channelConfig := LastIndex(ChanConfigTable, d.channelLayout, 0)) else d
  }

  /** Parsing, on bits. */
  function ParseBits(bits: seq<Bit>): (r: Option<Config>)
    ensures r.Some? ==> r.value.objectType < 32
  {
    if |bits| < 5 then None else
    var objectType := Value(bits[..5]);
    assert Pow2(5) == 32;
    // objectType == AOT_ESCAPE cannot be: it has five bits
    if |bits| < 9 then None else
    var index := Value(bits[5..9]);
    var wide := index == 15;
    if wide && |bits| < 33 then None else
    var index := if wide then Value(bits[9..33]) else index;
    var at := if wide then 33 else 9;
    if |bits| < at + 4 then None else
    Complete(Config(0, 0, objectType, index, Value(bits[at..at + 4])))
  }

  /** ParseMPEG4AudioConfigBytes. */
  method Parse(data: seq<Byte>) returns (r: Option<Config>)
    ensures r == ParseBits(BitsOf(data))
  {
    hide BitsOf, Value, Pow2, Complete;
    ghost var all := BitsOf(data);
    var br := new Reader(data);
    var ok, objectType := br.ReadBits64(5);
    if !ok { return None; }
    Small(5);
    if objectType == AOT_ESCAPE {
      assert false;
    }
    var index;
    ok, index := br.ReadBits64(4);
    if !ok { return None; }
    Slices(all, 5, 4);
    ghost var at := 9;
    if index == 15 {
      ok, index := br.ReadBits64(24);
      if !ok { return None; }
      Slices(all, 9, 24);
      at := 33;
    }
    var channelConfig;
    ok, channelConfig := br.ReadBits64(4);
    if !ok { return None; }
    Slices(all, at, 4);
    r := Complete(Config(0, 0, objectType, index, channelConfig));
  }

  lemma Small(k: nat)
    requires k == 5
    ensures Pow2(k) == 32
  {}

  lemma Slices(bits: seq<Bit>, m: nat, n: nat)
    requires m + n <= |bits|
    ensures bits[m..][..n] == bits[m..m + n] && bits[m..][n..] == bits[m + n..]
  {}

  /** The object type as written: of the escape value, 46, its low five bits. */
  function TypeBits(objectType: nat): seq<Bit>
  {
    if objectType < 32 then LowBits(objectType, 5) else LowBits(AOT_ESCAPE, 5) + LowBits(objectType - 32, 6)
  }

  function RateBits(index: nat): seq<Bit>
  {
    if index < 15 then LowBits(index, 4) else LowBits(15, 4) + LowBits(index, 24)
  }

  function ConfigBits(c: Config): seq<Bit>
  {
    TypeBits(c.objectType) + RateBits(c.sampleRateIndex) + LowBits(c.channelConfig, 4)
  }

  method WriteObjectType(bw: Writer, objectType: nat)
    requires bw.Valid() && objectType < TWO64 && bw.n == 0
    modifies bw
    ensures bw.Valid() && bw.n == |TypeBits(objectType)|
    ensures objectType < 96 ==> bw.Written() == old(bw.Written()) + TypeBits(objectType)
  {
    hide LowBits, Pow2, BitsOf, Writer.Written;
    Powers();
    if objectType >= 32 {
      bw.WriteBits64(AOT_ESCAPE, 5);
      bw.WriteBits64(objectType - 32, 6);
      Assoc(old(bw.Written()), LowBits(AOT_ESCAPE, 5), LowBits(objectType - 32, 6));
    } else {
      bw.WriteBits64(objectType, 5);
    }
  }

  method WriteSampleRateIndex(bw: Writer, index: nat)
    requires bw.Valid() && index < TWO64 && bw.n <= 32
    modifies bw
    ensures bw.Valid() && bw.n == old(bw.n) + |RateBits(index)|
    ensures index < 0x100_0000 ==> bw.Written() == old(bw.Written()) + RateBits(index)
  {
    hide LowBits, Pow2, BitsOf, Writer.Written;
    Powers();
    if index >= 15 {
      bw.WriteBits64(15, 4);
      bw.WriteBits64(index, 24);
      Assoc(old(bw.Written()), LowBits(15, 4), LowBits(index, 24));
    } else {
      bw.WriteBits64(index, 4);
    }
  }

  /** Fields that fit the bits they are written with. */
  predicate Fits(c: Config) { c.objectType < 96 && c.sampleRateIndex < 0x100_0000 && c.channelConfig < 16 }

  /** WriteMPEG4AudioConfig, its two table searches included. */
  method Write(c: Config) returns (out: seq<Byte>)
    requires c.objectType < TWO64 && c.sampleRateIndex < TWO64 && c.channelConfig < TWO64
    ensures
      var d := Resolve(c);
      Fits(d) ==> BitsOf(out) == ConfigBits(d) + Zeros(Pad(|ConfigBits(d)|))
  {
    hide BitsOf, LowBits, Pow2, Writer.Written, LastIndex, Pad;
    var bw := new Writer();
    Powers();
    WriteObjectType(bw, c.objectType);
    var index := c.sampleRateIndex;
    if index == 0 {
      index := SearchLast(SampleRateTable, c.sampleRate, 0);
    }
    WriteSampleRateIndex(bw, index);
    var channels := c.channelConfig;
    if channels == 0 {
      channels := SearchLast(ChanConfigTable, c.channelLayout, 0);
    }
    bw.WriteBits64(channels, 4);
    bw.FlushBits();
    out := bw.W;
    AllFlushed(bw);
    assert [] + TypeBits(c.objectType) == TypeBits(c.objectType);
  }

  lemma AllFlushed(bw: Writer)
    requires bw.n == 0
    ensures bw.Written() == BitsOf(bw.W)
  {
    NoBits(bw.bits);
    assert BitsOf(bw.W) + [] == BitsOf(bw.W);
  }

  lemma Powers()
    ensures Pow2(4) == 16 && Pow2(5) == 32 && Pow2(6) == 64 && Pow2(24) == 0x100_0000
  {
    assert Pow2(8) == 256;
    Pow2Of32();
    Pow2Sum(8, 16);
  }

  /** One of the search loops: the last match wins. */
  method SearchLast(table: seq<nat>, x: nat, other: nat) returns (i: nat)
    ensures i == LastIndex(table, x, other)
  {
    i := other;
    for k := 0 to |table|
      invariant i == LastIndex(table[..k], x, other)
    {
      assert table[..k + 1][..k] == table[..k];
      if table[k] == x {
        i := k;
      }
    }
    assert table[..|table|] == table;
  }

  predicate Completed(c: Config) { Complete(c) == Some(c) }

  lemma {:induction false} FirstOnly(table: seq<nat>, n: nat)
    requires 0 < n <= |table| && forall i :: 0 < i < |table| ==> table[i] != table[0]
    ensures LastIndex(table[..n], table[0], 0) == 0
    decreases n
  {
    if n > 1 {
      FirstOnly(table, n - 1);
      assert table[..n][..n - 1] == table[..n - 1];
    }
  }

  /** The searches do not disturb a completed configuration. */
  lemma CompletedResolved(c: Config)
    requires Completed(c)
    ensures Resolve(c) == c
  {
    FirstOnly(SampleRateTable, |SampleRateTable|);
    FirstOnly(ChanConfigTable, |ChanConfigTable|);
    assert SampleRateTable[..|SampleRateTable|] == SampleRateTable && ChanConfigTable[..|ChanConfigTable|] == ChanConfigTable;
  }

  /** Bits in front of others, as numbers. */
  lemma FieldReads(before: seq<Bit>, v: nat, k: nat, after: seq<Bit>)
    requires v < Pow2(k)
    ensures var bits := before + LowBits(v, k) + after; Value(bits[|before|..|before| + k]) == v
  {
    hide LowBits, Pow2, Value;
    ValueLowBits(v, k);
    assert (before + LowBits(v, k) + after)[|before|..|before| + k] == LowBits(v, k);
  }

  /** What was written for an object type below 32 parses to its completion;
      an explicit sample rate has no entry in the table and is refused. */
  lemma BitsRoundTrip(c: Config, pad: seq<Bit>)
    requires Fits(c) && c.objectType < 32
    ensures ParseBits(ConfigBits(c) + pad) == Complete(c.(sampleRate := 0, channelLayout := 0))
  {
    Powers();
    hide LowBits, Pow2, Value;
    var t, i, ch, index := LowBits(c.objectType, 5), RateBits(c.sampleRateIndex), LowBits(c.channelConfig, 4), c.sampleRateIndex;
    var bits := ConfigBits(c) + pad;
    assert bits == [] + t + (i + ch + pad) == t + i + (ch + pad) == t + i + ch + pad;
    FieldReads([], c.objectType, 5, i + ch + pad);
    FieldReads(t + i, c.channelConfig, 4, pad);
    if index < 15 {
      FieldReads(t, index, 4, ch + pad);
    } else {
      var first, wide := LowBits(15, 4), LowBits(index, 24);
      assert bits == t + first + (wide + ch + pad) == (t + first) + wide + (ch + pad);
      FieldReads(t, 15, 4, wide + ch + pad);
      FieldReads(t + first, index, 24, ch + pad);
    }
  }

  /** Parsing what was written for a completed configuration gives it back if and
      only if the object type is below 32. */
  method WriteThenParse(c: Config) returns (r: Option<Config>)
    requires Completed(c) && c.objectType < TWO64
    ensures r == Some(c) <==> c.objectType < 32
  {
    CompletedResolved(c);
    hide LastIndex, Resolve;
    var out := Write(c);
    if c.objectType < 32 { BitsRoundTrip(c, Zeros(Pad(|ConfigBits(c)|))); }
    hide ConfigBits, BitsOf;
    r := Parse(out);
  }
}
