/** The Exp-Golomb bit reader (utils/bits/golomb_reader.go) and the scaling-list
    loop of ParseSPS (codec/h264/h264.go). */
module Golomb {
  import opened Bytes
  import opened BitSeq
  import opened Wrappers

  // ---- The standard: ITU-T H.264 section 9.1 ----

  function LeadingZeros(bits: seq<Bit>): (n: nat)
    ensures n <= |bits| && (n < |bits| ==> bits[n] == 1)
    ensures forall i :: 0 <= i < n ==> bits[i] == 0
  {
    if bits == [] || bits[0] == 1 then 0 else 1 + LeadingZeros(bits[1..])
  }

  /** A parsed value and the number of bits it took. */
  datatype Taken = Taken(v: int, n: nat)

  /** ue(v): z zeros, a one and z more bits. */
  function UE(bits: seq<Bit>): (r: Option<Taken>)
    ensures r.Some? ==> 0 <= r.value.v && 1 <= r.value.n <= |bits|
  {
    var z := LeadingZeros(bits);
    if |bits| < 2 * z + 1 then None
    else Some(Taken(Pow2(z) - 1 + Value(bits[z + 1..2 * z + 1]), 2 * z + 1))
  }

  function SEOf(code: nat): int { if code % 2 == 1 then (code + 1) / 2 else -(code / 2) }

  /** se(v), of section 9.1.1. */
  function SE(bits: seq<Bit>): (r: Option<Taken>)
    ensures r.Some? ==> 1 <= r.value.n <= |bits|
  {
    var u := UE(bits);
    if u.None? then None else Some(Taken(SEOf(u.value.v), u.value.n))
  }

  /** The code of v, as section 9.1 tabulates it. */
  function EncUE(v: nat): seq<Bit>
  {
    var z := Log2(v + 1);
    Zeros(z) + [1] + LowBits(v + 1 - Pow2(z), z)
  }

  function Log2(x: nat): (z: nat)
    requires x >= 1
    ensures Pow2(z) <= x < Pow2(z + 1)
  {
    if x == 1 then 0 else 1 + Log2(x / 2)
  }

  lemma {:induction false} ZerosAndOne(z: nat, tail: seq<Bit>)
    ensures LeadingZeros(Zeros(z) + [1] + tail) == z
  {
    if z > 0 {
      ZerosAndOne(z - 1, tail);
      assert (Zeros(z) + [1] + tail)[1..] == Zeros(z - 1) + [1] + tail;
    }
  }

  lemma UECases(bits: seq<Bit>)
    ensures
      var z := LeadingZeros(bits);
      |bits| >= 2 * z + 1 ==>
        UE(bits).Some? && UE(bits).value.n == 2 * z + 1 && UE(bits).value.v == Pow2(z) - 1 + Value(bits[z + 1..2 * z + 1])
  {
    hide LeadingZeros, Pow2, Value;
  }

  lemma Middle(front: seq<Bit>, low: seq<Bit>, rest: seq<Bit>)
    ensures (front + (low + rest))[|front|..|front| + |low|] == low
  {}

  /** A code read by its parts: z zeros, a one, and the bits `low`. */
  lemma CodeReads(z: nat, low: seq<Bit>, rest: seq<Bit>)
    requires |low| == z
    ensures UE(Zeros(z) + [1] + (low + rest)) == Some(Taken(Pow2(z) - 1 + Value(low), 2 * z + 1))
  {
    hide LeadingZeros, Zeros, Value, Pow2, UE;
    var front := Zeros(z) + [1];
    ZerosAndOne(z, low + rest);
    Middle(front, low, rest);
    UECases(front + (low + rest));
  }

  /** Reading ue(v) undoes writing it, whatever follows. */
  lemma UERoundTrip(v: nat, rest: seq<Bit>)
    ensures UE(EncUE(v) + rest) == Some(Taken(v, |EncUE(v)|))
  {
    var z := Log2(v + 1);
    ghost var x: nat := v + 1 - Pow2(z);
    ValueLowBits(x, z);
    CodeReads(z, LowBits(x, z), rest);
    hide UE, LowBits, Value, Zeros, Pow2;
    Assoc(Zeros(z) + [1], LowBits(x, z), rest);
  }

  // ---- The reader ----

  /** ReadExponentialGolombCode gives up looking for the one after 32 zeros and
      takes the bit after them for it. */
  function ReadUE(bits: seq<Bit>): (r: Option<Taken>)
    ensures r.Some? ==> 0 <= r.value.v && 1 <= r.value.n <= |bits|
  {
    var z := LeadingZeros(bits);
    var i := if z < 32 then z else 32;
    if |bits| < 2 * i + 1 then None
    else Some(Taken(Pow2(i) - 1 + Value(bits[i + 1..2 * i + 1]), 2 * i + 1))
  }

  /** The reader follows the standard exactly on codes of at most 32 zeros. */
  lemma ReadUEIsUE(bits: seq<Bit>)
    requires UE(bits).Some?
    ensures ReadUE(bits) == UE(bits) <==> LeadingZeros(bits) <= 32
  {}

  class GolombBitReader {
    var R: seq<Byte>  // what the underlying reader still holds
    var buf: Byte
    var left: nat

    ghost function Bits(): seq<Bit>
      reads this
    {
      LowBits(buf, left) + BitsOf(R)
    }

    constructor (b: seq<Byte>)
      ensures Bits() == BitsOf(b)
    {
      R, buf, left := b, 0, 0;
      new;
      assert LowBits(0, 0) + BitsOf(b) == BitsOf(b);
    }

    method ReadBit() returns (ok: bool, res: Bit)
      modifies this
      ensures ok <==> old(Bits()) != []
      ensures ok ==> res == old(Bits())[0] && Bits() == old(Bits())[1..]
      ensures !ok ==> Bits() == []
    {
      hide LowBits, BitsOf;
      NoBits(buf);
      BitsOfFirst(R);
      if left == 0 {
        assert Bits() == BitsOf(R);
        if |R| == 0 { return false, 0; }
        buf, R := R[0], R[1..];
        left := 8;
      }
      FirstBit(buf, left, BitsOf(R));
      left := left - 1;
      res := Shr(buf, left) % 2;
      ok := true;
    }

    /** ReadBits: a shift by 64 or more gives 0 in Go. */
    method ReadBits(n: nat) returns (ok: bool, res: nat)
      modifies this
      ensures ok <==> n <= |old(Bits())|
      ensures ok && n <= 64 ==> res == Value(old(Bits())[..n])
      ensures ok ==> Bits() == old(Bits())[n..]
    {
      hide Bits, LowBits, BitsOf, Value, Pow2;
      ghost var bits := Bits();
      res := 0;
      assert bits[0..] == bits;
      NoValue(bits, n);
      for i := 0 to n
        invariant i <= |bits| && Bits() == bits[i..]
        invariant n <= 64 ==> res == Value(bits[..i]) * Pow2(n - i)
      {
        var bit;
        ok, bit := ReadBit();
        if !ok { return; }
        ValueNext(bits, i);
        DropDrop(bits, i, 1);
        NextBit(Value(bits[..i]), bit, n - i);
        if n - i - 1 < 64 {
          res := res + bit * Pow2(n - i - 1);
        }
      }
      ok := true;
    }

    method ReadExponentialGolombCode() returns (ok: bool, res: nat)
      modifies this
      ensures ok <==> ReadUE(old(Bits())).Some?
      ensures ok ==> res == ReadUE(old(Bits())).value.v && Bits() == old(Bits())[ReadUE(old(Bits())).value.n..]
    {
      hide Bits, LowBits, BitsOf, Value, Pow2, LeadingZeros;
      ghost var bits := Bits();
      ghost var z := LeadingZeros(bits);
      var i := 0;
      var bit: Bit;
      assert bits[0..] == bits;
      while true
        invariant i <= 32 && i <= z && Bits() == bits[i..]
        decreases 32 - i
      {
        ok, bit := ReadBit();
        if !ok { return false, 0; }
        DropDrop(bits, i, 1);
        if !(bit == 0 && i < 32) { break; }
        i := i + 1;
      }
      ok, res := ReadBits(i);
      if !ok { return; }
      DropDrop(bits, i + 1, i);
      res := res + Pow2(i) - 1;
    }

    /** ReadSE on uint64: negating wraps around. */
    method ReadSE() returns (ok: bool, res: nat)
      modifies this
      ensures ok <==> ReadUE(old(Bits())).Some?
      ensures ok ==> res == WrappedSE(ReadUE(old(Bits())).value.v) && Bits() == old(Bits())[ReadUE(old(Bits())).value.n..]
    {
      ok, res := ReadExponentialGolombCode();
      if !ok { return; }
      if res % 2 != 0 {
        res := (res + 1) % TWO64 / 2;
      } else {
        res := (TWO64 - res) % TWO64 / 2;
      }
    }

    /** The loop of ParseSPS over one scaling list: whatever the deltas, in codes
        of at most 32 leading zeros, it ends exactly where the syntax of section
        7.3.2.1.1.1 ends. */
    method SkipScalingList(size: nat) returns (ok: bool)
      modifies this
      ensures
        var s := ScalingList(old(Bits()), size, 8, 8);
        s.Some? ==> ok && s.value <= |old(Bits())| && Bits() == old(Bits())[s.value..]
    {
      hide Bits, LowBits, BitsOf, ReadUE, WrappedSE, WrappedScale, ScalingList, Later;
      ghost var bits := Bits();
      ghost var all, n: nat := ScalingList(bits, size, 8, 8), 0;
      assert bits[0..] == bits;
      LaterLater(0, 0, all);
      var lastScale, nextScale := 8, 8;
      for j := 0 to size
        invariant 0 <= lastScale < 256 && 0 <= nextScale < 256
        invariant all.Some? ==> n <= |bits| && Bits() == bits[n..]
        invariant all.Some? ==> all == Later(n, ScalingList(bits[n..], size - j, lastScale, nextScale))
      {
        if all.Some? {
          LaterSome(n, ScalingList(bits[n..], size - j, lastScale, nextScale));
          ListStep(bits[n..], size - j, lastScale, nextScale);
        }
        ghost var last := lastScale;
        if nextScale != 0 {
          ghost var u := ReadUE(Bits());
          var delta;
          ok, delta := ReadSE();
          if !ok { return; }
          nextScale := WrappedScale(lastScale, delta);
          if all.Some? {
            DropDrop(bits, n, u.value.n);
            LaterLater(n, u.value.n, ScalingList(bits[n + u.value.n..], size - j - 1, if nextScale == 0 then last else nextScale, nextScale));
            n := n + u.value.n;
          }
        }
        if nextScale != 0 {
          lastScale := nextScale;
        }
      }
      ok := true;
      if all.Some? { ListEnd(bits[n..], lastScale, nextScale, n); }
    }

    /** The eight lists of the scaling matrix, each behind its present flag. The
        chroma_format_idc read before is not consulted: the loop ends where the
        syntax of section 7.3.2.1.1 ends if and only if it is not 3. */
    method SkipScalingMatrix(ghost chromaFormatIdc: nat) returns (ok: bool)
      modifies this
      ensures
        var s := ScalingMatrix(old(Bits()), 0, 8);
        s.Some? ==> ok && s.value <= |old(Bits())| && Bits() == old(Bits())[s.value..]
      ensures
        var s := ScalingMatrix(old(Bits()), 0, Lists(chromaFormatIdc));
        s.Some? ==> ok && s.value <= |old(Bits())| && (Bits() == old(Bits())[s.value..] <==> chromaFormatIdc != 3)
    {
      hide Bits, LowBits, BitsOf, ScalingList, Later, ScalingMatrix;
      ghost var bits := Bits();
      ghost var all, n: nat := ScalingMatrix(bits, 0, 8), 0;
      if ScalingMatrix(bits, 0, Lists(chromaFormatIdc)).Some? { MatrixInStep(bits, chromaFormatIdc); }
      assert bits[0..] == bits;
      LaterLater(0, 0, all);
      for i := 0 to 8
        invariant all.Some? ==> n <= |bits| && Bits() == bits[n..]
        invariant all.Some? ==> all == Later(n, ScalingMatrix(bits[n..], i, 8))
      {
        if all.Some? {
          LaterSome(n, ScalingMatrix(bits[n..], i, 8));
          MatrixCases(bits[n..], i, 8);
        }
        ghost var rest := Bits();
        var present;
        ok, present := ReadBit();
        if !ok { return; }
        ghost var k := 1;
        if present != 0 {
          ok := SkipScalingList(if i < 6 then 16 else 64);
          if !ok { return; }
          if all.Some? {
            k := 1 + ScalingList(rest[1..], ListSize(i), 8, 8).value;
            DropDrop(rest, 1, k - 1);
          }
        }
        if all.Some? {
          DropDrop(bits, n, k);
          LaterLater(n, k, ScalingMatrix(bits[n + k..], i + 1, 8));
          n := n + k;
        }
      }
      ok := true;
      if all.Some? { MatrixEnd(bits[n..], 8, n); }
    }
  }

  function ListSize(i: nat): nat { if i < 6 then 16 else 64 }

  /** Section 7.3.2.1.1: how many scaling lists a sequence parameter set has. */
  function Lists(chromaFormatIdc: nat): nat { if chromaFormatIdc != 3 then 8 else 12 }

  /** The flags and lists from the i-th on: the number of bits they take. */
  function ScalingMatrix(bits: seq<Bit>, i: nat, lists: nat): (n: Option<nat>)
    requires i <= lists
    ensures n.Some? ==> n.value <= |bits|
    decreases lists - i
  {
    if i == lists then Some(0)
    else if bits == [] then None
    else if bits[0] == 0 then Later(1, ScalingMatrix(bits[1..], i + 1, lists))
    else
      var s := ScalingList(bits[1..], ListSize(i), 8, 8);
      if s.None? then None else Later(1 + s.value, ScalingMatrix(bits[1 + s.value..], i + 1, lists))
  }

  lemma MatrixCases(bits: seq<Bit>, i: nat, lists: nat)
    requires i < lists && ScalingMatrix(bits, i, lists).Some?
    ensures bits != []
    ensures bits[0] == 0 ==> ScalingMatrix(bits, i, lists) == Later(1, ScalingMatrix(bits[1..], i + 1, lists))
    ensures bits[0] != 0 ==>
      var s := ScalingList(bits[1..], ListSize(i), 8, 8);
      s.Some? && ScalingMatrix(bits, i, lists) == Later(1 + s.value, ScalingMatrix(bits[1 + s.value..], i + 1, lists))
  {
    hide ScalingList, Later;
  }

  lemma MatrixEnd(bits: seq<Bit>, lists: nat, n: nat)
    ensures Later(n, ScalingMatrix(bits, lists, lists)) == Some(n)
  {}

  /** Every list takes at least its flag. */
  lemma {:induction false} FlagsCount(bits: seq<Bit>, i: nat, lists: nat)
    requires i <= lists && ScalingMatrix(bits, i, lists).Some?
    ensures ScalingMatrix(bits, i, lists).value >= lists - i
    decreases lists - i
  {
    hide ScalingList;
    if i < lists {
      var k := if bits[0] == 0 then 1 else 1 + ScalingList(bits[1..], ListSize(i), 8, 8).value;
      FlagsCount(bits[k..], i + 1, lists);
    }
  }

  /** Four lists more take at least four bits more. */
  lemma {:induction false} MoreLists(bits: seq<Bit>, i: nat)
    requires i <= 8 && ScalingMatrix(bits, i, 12).Some?
    ensures ScalingMatrix(bits, i, 8).Some? && ScalingMatrix(bits, i, 8).value + 4 <= ScalingMatrix(bits, i, 12).value
    decreases 8 - i
  {
    hide ScalingList;
    if i == 8 {
      FlagsCount(bits, 8, 12);
    } else {
      var k := if bits[0] == 0 then 1 else 1 + ScalingList(bits[1..], ListSize(i), 8, 8).value;
      MoreLists(bits[k..], i + 1);
    }
  }

  /** Where the standard's scaling matrix parses, the eight lists the program
      reads end with it if and only if chroma_format_idc is not 3. */
  lemma MatrixInStep(bits: seq<Bit>, chromaFormatIdc: nat)
    requires ScalingMatrix(bits, 0, Lists(chromaFormatIdc)).Some?
    ensures ScalingMatrix(bits, 0, 8).Some?
    ensures ScalingMatrix(bits, 0, 8) == ScalingMatrix(bits, 0, Lists(chromaFormatIdc)) <==> chromaFormatIdc != 3
  {
    hide ScalingMatrix;
    if chromaFormatIdc == 3 { MoreLists(bits, 0); }
  }

  /** With chroma_format_idc 3 and all twelve flags zero, four flags are left
      for what comes next in the parameter set. */
  lemma {:induction false} AbsentLists(i: nat, lists: nat, rest: seq<Bit>)
    requires i <= lists
    ensures ScalingMatrix(Zeros(lists - i) + rest, i, lists) == Some(lists - i)
    decreases lists - i
  {
    if i < lists {
      assert (Zeros(lists - i) + rest)[1..] == Zeros(lists - i - 1) + rest;
      AbsentLists(i + 1, lists, rest);
    }
  }

  lemma TwelveFlags()
    ensures ScalingMatrix(Zeros(12), 0, Lists(3)) == Some(12) && ScalingMatrix(Zeros(12), 0, 8) == Some(8)
  {
    hide ScalingMatrix;
    AbsentLists(0, 12, []);
    AbsentLists(0, 8, Zeros(4));
    assert Zeros(12) + [] == Zeros(12) == Zeros(8) + Zeros(4);
  }

  lemma LaterLater(m: nat, n: nat, r: Option<nat>)
    ensures Later(m, Later(n, r)) == Later(m + n, r) && Later(0, r) == r
  {}

  lemma LaterSome(n: nat, r: Option<nat>)
    ensures Later(n, r).Some? ==> r.Some?
  {}

  lemma ListEnd(bits: seq<Bit>, lastScale: nat, nextScale: nat, n: nat)
    ensures Later(n, ScalingList(bits, 0, lastScale, nextScale)) == Some(n)
  {}

  /** One step of the syntax, in the reader's own arithmetic. */
  lemma ListStep(bits: seq<Bit>, size: nat, lastScale: nat, nextScale: nat)
    requires size > 0 && lastScale < 256 && ScalingList(bits, size, lastScale, nextScale).Some?
    ensures nextScale == 0 ==> ScalingList(bits, size, lastScale, nextScale) == ScalingList(bits, size - 1, lastScale, nextScale)
    ensures nextScale != 0 ==>
      var u := ReadUE(bits);
      && u.Some?
      && var next := WrappedScale(lastScale, WrappedSE(u.value.v));
      && ScalingList(bits, size, lastScale, nextScale)
      == Later(u.value.n, ScalingList(bits[u.value.n..], size - 1, if next == 0 then lastScale else next, next))
  {
    ListCases(bits, size, lastScale, nextScale);
    if nextScale != 0 {
      hide ReadUE, UE, WrappedSE, WrappedScale, Scale, SE, SEOf, ScalingList, Later, LeadingZeros;
      ShortCode(bits);
      SameScale(lastScale, ReadUE(bits).value.v);
    }
  }

  lemma ListCases(bits: seq<Bit>, size: nat, lastScale: nat, nextScale: nat)
    requires size > 0 && ScalingList(bits, size, lastScale, nextScale).Some?
    ensures nextScale == 0 ==> ScalingList(bits, size, lastScale, nextScale) == ScalingList(bits, size - 1, lastScale, nextScale)
    ensures nextScale != 0 ==>
      var d := SE(bits);
      && d.Some? && LeadingZeros(bits) <= 32
      && var next := Scale(lastScale, d.value.v);
      && ScalingList(bits, size, lastScale, nextScale)
      == Later(d.value.n, ScalingList(bits[d.value.n..], size - 1, if next == 0 then lastScale else next, next))
  {
    hide SE, Later, Scale, LeadingZeros;
  }

  /** A code of at most 32 zeros is read as the standard says. */
  lemma ShortCode(bits: seq<Bit>)
    requires SE(bits).Some? && LeadingZeros(bits) <= 32
    ensures ReadUE(bits).Some? && ReadUE(bits).value.v < 0x2_0000_0000
    ensures SE(bits).value == Taken(SEOf(ReadUE(bits).value.v), ReadUE(bits).value.n)
  {
    var z := LeadingZeros(bits);
    ReadUEIsUE(bits);
    assert UE(bits).value.v < 2 * Pow2(z);
    hide UE, ReadUE, Pow2, Value, LeadingZeros, SEOf;
    Pow2Of32();
    Pow2Grows(z, 32);
  }

  const TWO64 := 0x1_0000_0000_0000_0000

  lemma NoValue(bits: seq<Bit>, n: nat)
    ensures Value(bits[..0]) * Pow2(n) == 0 && forall v: nat :: v * Pow2(0) == v
  {}

  lemma ValueNext(bits: seq<Bit>, i: nat)
    requires i < |bits|
    ensures Value(bits[..i + 1]) == 2 * Value(bits[..i]) + bits[i]
  {
    assert bits[..i + 1][..i] == bits[..i];
  }

  lemma NextBit(v: nat, bit: Bit, k: nat)
    requires k > 0
    ensures (2 * v + bit) * Pow2(k - 1) == v * Pow2(k) + bit * Pow2(k - 1)
  {
    assert (2 * v) * Pow2(k - 1) == v * (2 * Pow2(k - 1));
  }

  function WrappedSE(code: nat): nat
  {
    if code % 2 != 0 then (code + 1) % TWO64 / 2 else (TWO64 - code) % TWO64 / 2
  }

  lemma Mod256(x: int, k: int)
    ensures (x + 256 * k) % 256 == x % 256
  {}

  /** ReadSE on uint64 differs from se(v) by a multiple of 256. */
  lemma WrappedSEIs(code: nat)
    requires code < 0x2_0000_0000
    ensures WrappedSE(code) == SEOf(code) + (if code % 2 == 0 && code > 0 then 256 * 0x80_0000_0000_0000 else 0)
  {
    var h := code / 2;
    if code % 2 == 0 {
      assert code == 2 * h;
      if h > 0 {
        assert (TWO64 - code) % TWO64 == 2 * (0x8000_0000_0000_0000 - h);
      }
    }
  }

  /** ReadSE is se(v) modulo 256, which is all the scaling-list loop uses. */
  lemma WrappedSEIsSE(code: nat)
    requires code < 0x2_0000_0000
    ensures WrappedSE(code) % 256 == SEOf(code) % 256
  {
    WrappedSEIs(code);
    Mod256(SEOf(code), 0x80_0000_0000_0000);
  }

  function Scale(lastScale: nat, delta: int): (r: nat)
    ensures r < 256
  {
    (lastScale + delta + 256) % 256
  }

  /** The same on uint64. */
  function WrappedScale(lastScale: nat, delta: nat): (r: nat)
    ensures r < 256
  {
    (lastScale + delta + 256) % TWO64 % 256
  }

  /** Section 7.3.2.1.1.1, scaling_list: the number of bits it takes. */
  function ScalingList(bits: seq<Bit>, size: nat, lastScale: nat, nextScale: nat): (n: Option<nat>)
    ensures n.Some? ==> n.value <= |bits|
    decreases size
  {
    if size == 0 then Some(0)
    else if nextScale == 0 then ScalingList(bits, size - 1, lastScale, 0)
    else
      var d := SE(bits);
      // a delta_scale of -128 to 127, as section 7.4.2.1.1.1 has it, takes far fewer zeros
      if d.None? || LeadingZeros(bits) > 32 then None
      else
        var next := Scale(lastScale, d.value.v);
        Later(d.value.n, ScalingList(bits[d.value.n..], size - 1, if next == 0 then lastScale else next, next))
  }

  function Later(n: nat, r: Option<nat>): Option<nat> { if r.None? then None else Some(n + r.value) }

  lemma SameScale(lastScale: nat, code: nat)
    requires lastScale < 256 && code < 0x2_0000_0000
    ensures WrappedScale(lastScale, WrappedSE(code)) == Scale(lastScale, SEOf(code))
  {
    WrappedSEIs(code);
    var x := lastScale + SEOf(code) + 256;
    assert -0x1_0000_0000 < SEOf(code) <= 0x1_0000_0000;
    hide WrappedSE, SEOf;
    if code % 2 == 0 && code > 0 {
      Mod256(x, 0x80_0000_0000_0000);
      SmallMod(x + 256 * 0x80_0000_0000_0000);
    } else {
      SmallMod(x);
    }
  }

  lemma SmallMod(x: int)
    ensures 0 <= x < TWO64 ==> x % TWO64 == x
  {}
}
