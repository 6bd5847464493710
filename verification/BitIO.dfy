/** The bit reader and writer of utils/bits/bits.go, over a 64-bit register. */
module BitIO {
  import opened Bytes
  import opened BitSeq

  const TWO64 := 0x1_0000_0000_0000_0000

  /** a | b. */
  function OrBits(a: nat, b: nat): nat
    decreases a + b
  {
    if a == 0 && b == 0 then 0
    else 2 * OrBits(a / 2, b / 2) + (if a % 2 == 1 || b % 2 == 1 then 1 else 0)
  }

  lemma {:induction false} OrZero(a: nat)
    ensures OrBits(a, 0) == a
  {
    if a > 0 { OrZero(a / 2); }
  }

  lemma OrEven(h: nat, b: nat)
    ensures OrBits(2 * h, b) == 2 * OrBits(h, b / 2) + b % 2
  {
    assert 2 * h / 2 == h && 2 * h % 2 == 0;
  }

  lemma ShlTwo(a: nat, k: nat)
    requires k > 0
    ensures Shl(a, k) == 2 * Shl(a, k - 1)
  {
    assert a * (2 * Pow2(k - 1)) == 2 * (a * Pow2(k - 1));
  }

  lemma ShlNone(a: nat)
    ensures Shl(a, 0) == a
  {}

  /** Where the operands do not overlap, | is +. */
  lemma {:induction false} OrIsPlus(a: nat, b: nat, k: nat)
    requires b < Pow2(k)
    ensures OrBits(Shl(a, k), b) == Shl(a, k) + b
    decreases k
  {
    hide OrBits, Shl;
    if k == 0 {
      ShlNone(a);
      OrZero(a);
    } else {
      ShlTwo(a, k);
      OrEven(Shl(a, k - 1), b);
      OrIsPlus(a, b / 2, k - 1);
    }
  }

  /** What the other operand has below its last k zeros stays as it is. */
  lemma {:induction false} OrBelow(a: nat, w: nat, r: nat, k: nat)
    requires r < Pow2(k)
    ensures OrBits(Shl(a, k), Shl(w, k) + r) == Shl(OrBits(a, w), k) + r
    decreases k
  {
    hide OrBits, Shl;
    if k == 0 {
      ShlNone(a);
      ShlNone(w);
      ShlNone(OrBits(a, w));
    } else {
      ShlTwo(a, k);
      ShlTwo(w, k);
      ShlTwo(OrBits(a, w), k);
      OrEven(Shl(a, k - 1), Shl(w, k) + r);
      OrBelow(a, w, r / 2, k - 1);
    }
  }

  /** x << k on uint64. */
  function Shl64(x: nat, k: nat): nat { Shl(x, k) % TWO64 }

  lemma Pow2Of64()
    ensures Pow2(64) == TWO64
  {
    Pow2Of32();
    Pow2Sum(32, 32);
  }

  lemma ModBound(v: nat, p: nat)
    requires p >= 1
    ensures v % p < p
  {}

  /** The bits of a register after k more were shifted in. */
  lemma ShiftIn(x: nat, m: nat, v: nat, k: nat)
    requires m + k <= 64 && v < Pow2(k)
    ensures LowBits(OrBits(Shl64(x, k), v), m + k) == LowBits(x, m) + LowBits(v, k)
    ensures OrBits(Shl64(x, k), v) < TWO64
  {
    hide Pow2, Shl, LowBits, OrBits, Shl64;
    var y := x % Pow2(64 - k);
    ShlMod(x, k, v);
    OrIsPlus(y, v, k);
    LowBitsAppend(y, m, v, k);
    LowBitsMod(x, 64 - k, m);
  }

  /** Into an empty register any value goes with its low k bits. */
  lemma ShiftInEmpty(x: nat, v: nat, k: nat)
    requires k <= 64
    ensures LowBits(OrBits(Shl64(x, k), v), k) == LowBits(v, k)
  {
    hide Pow2, Shl, LowBits, OrBits, Shl64, Shr;
    var y, w, r := x % Pow2(64 - k), Shr(v, k), v % Pow2(k);
    ModBound(v, Pow2(k));
    ShlMod(x, k, r);
    ShlShr(v, k);
    OrBelow(y, w, r, k);
    LowBitsAbove(OrBits(y, w), k, r, k);
    LowBitsMod(v, k, k);
  }

  /** Shifting left on 64 bits keeps the low 64 - k bits. */
  lemma ShlMod(x: nat, k: nat, v: nat)
    requires k <= 64 && v < Pow2(k)
    ensures Shl64(x, k) == Shl(x % Pow2(64 - k), k) && Shl(x % Pow2(64 - k), k) + v < TWO64
  {
    Pow2Of64();
    var p, e := Pow2(64 - k), Pow2(k);
    Pow2Sum(64 - k, k);
    assert p >= 1;
    hide Pow2;
    ShlModOf(x, p, e, v);
  }

  lemma ShlModOf(x: nat, p: nat, e: nat, v: nat)
    requires p > 0 && v < e && p * e == TWO64
    ensures x * e % TWO64 == x % p * e && x % p * e + v < TWO64
  {
    var q, r := x / p, x % p;
    assert x == q * p + r;
    assert (q * p + r) * e == q * (p * e) + r * e;
    assert r * e <= (p - 1) * e by { assert r <= p - 1; }
    assert (p - 1) * e == TWO64 - e;
    DivModUnique(x * e, TWO64, q, r * e);
  }

  lemma {:induction false} OrBound(a: nat, b: nat, k: nat)
    requires a < Pow2(k) && b < Pow2(k)
    ensures OrBits(a, b) < Pow2(k)
    decreases k
  {
    if k > 0 { OrBound(a / 2, b / 2, k - 1); }
  }

  /** The register takes any value: it never leaves 64 bits. */
  lemma Stays64(x: nat, k: nat, v: nat)
    requires v < TWO64
    ensures OrBits(Shl64(x, k), v) < TWO64
  {
    Pow2Of64();
    hide Pow2;
    OrBound(Shl64(x, k), v, 64);
  }

  // ---- The writer ----

  /** What reaches the output when a write overflows the register: the value is
      split at the wrong place unless it is twice as wide as the room left. */
  function Overflow(bits: nat, n: nat, v: nat, k: nat): seq<Bit>
    requires n <= 64 && k <= 64 && n + k > 64
  {
    var move := 64 - n;
    var full := OrBits(Shl64(bits, move), Shr(v, move));
    LowBits(full, 64) + LowBits(OrBits(Shl64(full, k - move), v % Pow2(move)), k - move)
  }

  function Pad(n: nat): nat { (8 - n % 8) % 8 }

  class Writer {
    var W: seq<Byte>
    var n: nat
    var bits: nat

    ghost predicate Valid()
      reads this
    {
      n <= 64 && bits < TWO64
    }

    /** Everything written so far, flushed or not. What is above the n pending
        bits of the register is left over from earlier writes. */
    ghost function Written(): seq<Bit>
      reads this
    {
      BitsOf(W) + LowBits(bits, n)
    }

    constructor ()
      ensures Valid() && Written() == [] && W == [] && n == 0
    {
      W, n, bits := [], 0, 0;
    }

    method FlushBits()
      requires Valid()
      modifies this
      ensures Valid() && n == 0 && Written() == old(Written()) + Zeros(Pad(old(n)))
      ensures W == BitsFlushed(old(W), old(bits), old(n)) && bits == old(bits)
    {
      hide LowBits, BitsOf, Shl64, BytesOf;
      NoBits(bits);
      if n > 0 {
        var b, pad, want := bits, Pad(n), (n + 7) / 8;
        if n % 8 != 0 {
          b := Shl64(bits, 8 - n % 8);
        } else {
          NoShift(bits);
        }
        Padded(bits, n);
        W := W + BytesOf(b, want);
        BytesOfBits(b, want);
        BitsOfAppend(old(W), BytesOf(b, want));
        n := 0;
        assert BitsOf(old(W)) + (LowBits(bits, old(n)) + Zeros(pad)) == old(Written()) + Zeros(pad);
      } else {
        assert Zeros(0) == [];
        assert old(Written()) + [] == old(Written());
      }
    }

    /** The overflow branch of WriteBits64: the register is filled and flushed,
        and what is left of the value is still to be shifted in. */
    method MakeRoom(v: nat, k: nat) returns (b: nat, m: nat)
      requires Valid() && v < TWO64 && k <= 64 && n + k > 64
      modifies this
      ensures Valid() && n == 0 && m == k - (64 - old(n)) && b == v % Pow2(64 - old(n)) && b < TWO64
      ensures bits == OrBits(Shl64(old(bits), 64 - old(n)), Shr(v, 64 - old(n)))
      ensures BitsOf(W) == BitsOf(old(W)) + LowBits(bits, 64)
    {
      hide LowBits, BitsOf, OrBits, Shl64, Shr, Pow2;
      var move := 64 - n;
      var mask := Shr(v, move);
      ShrSmall(v, move);
      Stays64(bits, move, mask);
      bits := OrBits(Shl64(bits, move), mask);
      n := 64;
      FlushBits();
      NoBits(bits);
      assert Zeros(0) == [] && BitsOf(W) + [] == BitsOf(W);
      assert BitsOf(old(W)) + LowBits(bits, 64) + [] == BitsOf(old(W)) + LowBits(bits, 64);
      m := k - move;
      b := v % Pow2(move);  // bits ^= mask << move
    }

    /** WriteBits64 appends the bits of a value that fits while at most 64 are
        pending; with none pending it appends the low bits of any value. */
    method WriteBits64(v: nat, k: nat)
      requires Valid() && v < TWO64 && k <= 64
      modifies this
      ensures Valid()
      ensures old(n) + k <= 64 ==> n == old(n) + k && W == old(W)
      ensures old(n) + k <= 64 && v < Pow2(k) ==> Written() == old(Written()) + LowBits(v, k)
      ensures old(n) == 0 ==> Written() == old(Written()) + LowBits(v, k)
      ensures old(n) + k > 64 ==> Written() == BitsOf(old(W)) + Overflow(old(bits), old(n), v, k)
    {
      hide LowBits, BitsOf, OrBits, Shl64, Shr, Pow2;
      var b, m := v, k;
      if n + m > 64 {
        b, m := MakeRoom(v, k);
        Assoc(BitsOf(old(W)), LowBits(bits, 64), LowBits(OrBits(Shl64(bits, m), b), m));
      } else if n == 0 {
        ShiftInEmpty(bits, v, k);
        NoBits(bits);
        assert BitsOf(W) + [] == BitsOf(W);
      } else if v < Pow2(k) {
        ShiftIn(bits, n, v, k);
        Assoc(BitsOf(W), LowBits(bits, n), LowBits(v, k));
      }
      Stays64(bits, m, b);
      bits := OrBits(Shl64(bits, m), b);
      n := n + m;
    }
  }

  lemma ShrSmall(x: nat, k: nat)
    ensures Shr(x, k) <= x && x % Pow2(k) <= x
  {
    DivSmall(x, Pow2(k));
  }

  lemma DivSmall(x: nat, p: nat)
    requires p >= 1
    ensures x / p <= x && x % p <= x
  {
    var q := x / p;
    assert x == q * p + x % p;
    MulGrows(q, p);
  }

  lemma MulGrows(q: nat, p: nat)
    requires p >= 1
    ensures q * p >= q
  {}

  lemma NoShift(x: nat)
    requires x < TWO64
    ensures Shl64(x, 0) == x
  {}

  /** Shifting the pending bits up to a whole number of bytes adds zeros. */
  lemma Padded(x: nat, n: nat)
    requires 0 < n <= 64 && x < TWO64
    ensures
      var b := if n % 8 != 0 then Shl64(x, 8 - n % 8) else x;
      LowBits(b, 8 * ((n + 7) / 8)) == LowBits(x, n) + Zeros(Pad(n))
  {
    var pad := Pad(n);
    assert n + pad == 8 * ((n + 7) / 8);
    hide LowBits;
    LowBitsZero(pad);
    ShiftIn(x, n, 0, pad);
    OrZero(Shl64(x, pad));
    NoShift(x);
  }

  function BitsFlushed(w: seq<Byte>, bits: nat, n: nat): seq<Byte>
  {
    if n == 0 then w else w + BytesOf(if n % 8 != 0 then Shl64(bits, 8 - n % 8) else bits, (n + 7) / 8)
  }

  // ---- When an overflowing write is right ----

  lemma ShrBound(v: nat, k: nat, m: nat)
    requires v < Pow2(k) && m <= k
    ensures Shr(v, m) < Pow2(k - m)
  {
    Pow2Sum(k - m, m);
    DivLess(v, Pow2(m), Pow2(k - m));
  }

  lemma DivLess(v: nat, p: nat, q: nat)
    requires p >= 1 && v < q * p
    ensures v / p < q
  {
    var d := v / p;
    assert v == d * p + v % p;
    assert d >= q ==> d * p >= q * p;
  }

  /** A register that takes the low `m` bits of v from empty holds just them. */
  lemma LowHalf(full: nat, v: nat, m: nat)
    requires m <= 64
    ensures LowBits(OrBits(Shl64(full, m), v % Pow2(m)), m) == LowBits(v, m)
  {
    hide LowBits, OrBits, Shl64, Pow2;
    ModBound(v, Pow2(m));
    ShiftIn(full, 0, v % Pow2(m), m);
    LowBitsMod(v, m, m);
    NoBits(full);
    assert [] + LowBits(v, m) == LowBits(v, m);
  }

  /** With twice as many bits as there is room for, the two wrong shifts agree. */
  lemma OverflowFits(bits: nat, n: nat, v: nat, k: nat)
    requires n < 64 && k == 2 * (64 - n) <= 64 && v < Pow2(k)
    ensures Overflow(bits, n, v, k) == LowBits(bits, n) + LowBits(v, k)
  {
    hide LowBits, OrBits, Shl64, Pow2, Shr;
    var move := 64 - n;
    var mask := Shr(v, move);
    ShrBound(v, k, move);
    ShiftIn(bits, n, mask, move);
    LowHalf(OrBits(Shl64(bits, move), mask), v, move);
    LowBitsSplit(v, move, move);
    Assoc(LowBits(bits, n), LowBits(mask, move), LowBits(v, move));
  }

  /** The value that a too narrow or too wide overflow spoils. */
  function Spoiled(n: nat, k: nat): nat
    requires n <= 64 && n + k > 64
  {
    var move := 64 - n;
    if k < 2 * move then Pow2(k) - 1 else Pow2(k - move - 1)
  }

  lemma OverflowSpoils(bits: nat, n: nat, k: nat)
    requires n <= 64 && k <= 64 && n + k > 64 && k != 2 * (64 - n)
    ensures Spoiled(n, k) < Pow2(k)
    ensures Overflow(bits, n, Spoiled(n, k), k) != LowBits(bits, n) + LowBits(Spoiled(n, k), k)
  {
    hide Overflow, LowBits, Pow2;
    var move := 64 - n;
    if k < 2 * move {
      NarrowSpoils(bits, n, k);
    } else {
      PowBelow(k - move - 1, k);
      WideSpoils(bits, n, k);
    }
  }

  lemma PowBelow(a: nat, b: nat)
    requires a < b
    ensures Pow2(a) < Pow2(b)
  {
    Pow2Grows(a, b - 1);
  }

  lemma PowMod(a: nat, b: nat)
    requires b <= a
    ensures Pow2(a) % Pow2(b) == 0 && Shr(Pow2(b), b) == 1
  {
    Pow2Sum(a - b, b);
    DivModUnique(Pow2(a), Pow2(b), Pow2(a - b), 0);
    DivModUnique(Pow2(b), Pow2(b), 1, 0);
  }

  lemma AllOnes(k: nat)
    requires k > 0
    ensures Shr(Pow2(k) - 1, k - 1) == 1
  {
    var p := Pow2(k - 1);
    assert Pow2(k) - 1 == 1 * p + (p - 1);
    DivModUnique(Pow2(k) - 1, p, 1, p - 1);
  }

  lemma BitAt(v: nat, k: nat, i: nat)
    requires i < k
    ensures LowBits(v, k)[i] == Shr(v, k - 1 - i) % 2
  {
    hide Shr, LowBits;
    LowBitsSplit(v, i, k - i);
    LowBitsFirst(v, k - i);
    assert LowBits(v, k)[i] == LowBits(v, k - i)[0];
  }

  lemma TopZero(x: nat, j: nat)
    requires j > 0 && x < Pow2(j - 1)
    ensures LowBits(x, j)[0] == 0
  {
    BitAt(x, j, 0);
    SmallDiv(x, Pow2(j - 1));
  }

  lemma SmallDiv(x: nat, p: nat)
    requires x < p
    ensures x / p == 0
  {}

  /** Too narrow: of an all-ones value the first bit is lost in zeros. */
  lemma NarrowSpoils(bits: nat, n: nat, k: nat)
    requires n < 64 && 64 - n < k < 2 * (64 - n) && k <= 64
    ensures Overflow(bits, n, Pow2(k) - 1, k) != LowBits(bits, n) + LowBits(Pow2(k) - 1, k)
  {
    hide OrBits, Shl64, LowBits, Shr, Pow2;
    var move, v := 64 - n, Pow2(k) - 1;
    var mask := Shr(v, move);
    ShrBound(v, k, move);
    Pow2Grows(k - move, move - 1);
    Pow2Grows(k - move, move);
    ShiftIn(bits, n, mask, move);
    TopZero(mask, move);
    BitAt(v, k, 0);
    AllOnes(k);
    assert Overflow(bits, n, v, k)[n] == LowBits(mask, move)[0];
    assert (LowBits(bits, n) + LowBits(v, k))[n] == LowBits(v, k)[0];
  }

  /** Too wide: a bit between the two halves is dropped. */
  lemma WideSpoils(bits: nat, n: nat, k: nat)
    requires n <= 64 && 2 * (64 - n) < k <= 64
    ensures Overflow(bits, n, Pow2(k - (64 - n) - 1), k) != LowBits(bits, n) + LowBits(Pow2(k - (64 - n) - 1), k)
  {
    hide OrBits, Shl64, LowBits, Shr, Pow2;
    var move := 64 - n;
    var m := k - move;
    var v := Pow2(m - 1);
    var full := OrBits(Shl64(bits, move), Shr(v, move));
    PowMod(m - 1, move);
    PowMod(m - 1, m - 1);
    BitAt(v, k, move);
    ShiftIn(full, 0, 0, m);
    LowBitsZero(m);
    NoBits(full);
    var low := LowBits(OrBits(Shl64(full, m), 0), m);
    assert low == [] + Zeros(m);
    assert Overflow(bits, n, v, k) == LowBits(full, 64) + low;
    assert (LowBits(bits, n) + LowBits(v, k))[64] == LowBits(v, k)[move];
  }

  /** WriteBits64 over a full register is right for every value of k bits if and
      only if k is exactly twice the room that was left. */
  lemma OverflowRight(bits: nat, n: nat, k: nat)
    requires n <= 64 && k <= 64 && n + k > 64
    ensures (forall v: nat :: v < Pow2(k) ==> Overflow(bits, n, v, k) == LowBits(bits, n) + LowBits(v, k)) <==> k == 2 * (64 - n)
  {
    hide Overflow, LowBits, Pow2;
    if k == 2 * (64 - n) {
      forall v: nat | v < Pow2(k) ensures Overflow(bits, n, v, k) == LowBits(bits, n) + LowBits(v, k) {
        OverflowFits(bits, n, v, k);
      }
    } else {
      OverflowSpoils(bits, n, k);
    }
  }

  // ---- The reader ----

  /** What a 64-bit register keeps of v, and the low k bits of it. */
  function Reg(v: nat): nat { v % TWO64 }

  function Low(v: nat, k: nat): nat { v % Pow2(k) }

  class Reader {
    var R: seq<Byte>
    var n: nat
    var bits: nat

    /** Fewer than eight bits are left over, and nothing above them. */
    ghost predicate Valid()
      reads this
    {
      n < 8 && bits < Pow2(n)
    }

    ghost function Bits(): seq<Bit>
      reads this
    {
      LowBits(bits, n) + BitsOf(R)
    }

    constructor (b: seq<Byte>)
      ensures Valid() && Bits() == BitsOf(b) && n == 0
    {
      R, n, bits := b, 0, 0;
      new;
      NoBits(0);
    }

    /** The filling loop of ReadBits64: `want` bytes shifted into the register,
        which keeps the last 64 bits. */
    method Fill(want: nat)
      requires Valid() && want <= |R| && want <= 8
      modifies this
      ensures n == old(n) + 8 * want <= |old(Bits())| && BitsOf(R) == old(Bits())[n..]
      ensures bits == Reg(Value(old(Bits())[..n]))
    {
      hide LowBits, BitsOf, OrBits, Shl64, Pow2, Value, Reg;
      ghost var all := Bits();
      var b := R[..want];
      var m := n;
      InRegister(bits, n, BitsOf(R));
      BitsOfLength(R);
      R := R[want..];
      for i := 0 to want
        invariant m == n + 8 * i <= |all| && n == old(n) && R == old(R)[want..]
        invariant all[m..] == BitsOf(old(R)[i..]) && bits == Reg(Value(all[..m]))
      {
        assert old(R)[i..][1..] == old(R)[i + 1..] && old(R)[i] == b[i];
        BitsOfFirst(old(R)[i..]);
        BitsOfLength(old(R)[i..]);
        NextByte(all, m, b[i], BitsOf(old(R)[i + 1..]));
        ByteShifted(Value(all[..m]), b[i]);
        bits := OrBits(Shl64(bits, 8), b[i]);
        m := m + 8;
      }
      n := m;
    }

    /** ReadBits64 consumes exactly k bits and returns their value, as far as the
        register can hold it beside the bits left over. */
    method ReadBits64(k: nat) returns (ok: bool, res: nat)
      requires Valid() && k <= 64
      modifies this
      ensures Valid()
      ensures ok <==> k <= |old(Bits())|
      ensures ok ==> Bits() == old(Bits())[k..] && n == LeftOver(old(n), k)
      ensures ok ==> res == ReadValue(old(n), Value(old(Bits())[..k]), k)
      ensures ok && Holds(old(n), k) ==> res == Value(old(Bits())[..k]) && res < Pow2(k)
    {
      hide LowBits, BitsOf, Pow2, Value, Shr, ReadValue, LeftOver, Holds, Reg, Low;
      ghost var all := Bits();
      BitsOfLength(R);
      InRegister(bits, n, BitsOf(R));
      LeftOverIs(n, k);
      res := 0;
      if n < k {
        Want(n, k);
        var want := (k - n + 7) / 8;
        if |R| < want {
          R := [];  // the bytes there were are gone
          return false, 0;
        }
        Fill(want);
      }
      ghost var j := n - k;
      TakeTop(all, n, k);
      res := Shr(bits, n - k);
      bits := Low(bits, n - k);  // r.bits ^= bits << (r.n - n)
      n := n - k;
      ok := true;
      assert all[k..n + k] + all[n + k..] == all[k..];
      ReadValueIs(old(n), Value(all[..k]), k);
      RoomIsRight(old(n), k);
    }

    /** Read fills p eight bytes at a time; ReadRight says when they come out
        right. */
    method Read(len: nat) returns (ok: bool, p: seq<Byte>)
      requires Valid()
      modifies this
      ensures Valid() && (ok <==> 8 * len <= |old(Bits())|)
      ensures ok ==> p == ReadBytes(old(n), old(Bits()), len) && Bits() == old(Bits())[8 * len..] && n == old(n)
    {
      hide LowBits, BitsOf, Pow2, Value, BytesOf, Bits, Valid, ReadValue, LeftOver, ReadBytes;
      ghost var all := Bits();
      LeftoverSmall();
      p, ok := [], true;
      assert all[0..] == all;
      if 8 * len <= |all| { assert [] + ReadBytes(n, all, len) == ReadBytes(n, all, len); }
      while |p| < len
        invariant |p| <= len && Valid() && n == old(n)
        invariant 8 * |p| <= |all| && Bits() == all[8 * |p|..]
        invariant 8 * len <= |all| ==> ReadBytes(n, all, len) == p + ReadBytes(n, all[8 * |p|..], len - |p|)
        decreases len - |p|
      {
        var want := if len - |p| < 8 then len - |p| else 8;
        var bits;
        ghost var rest := Bits();
        WholeBytes(n, want);
        ok, bits := ReadBits64(want * 8);
        if !ok { return; }
        if 8 * len <= |all| {
          ReadBytesCases(n, rest, len - |p|);
          Assoc(p, BytesOf(bits, want), ReadBytes(n, rest[8 * want..], len - |p| - want));
        }
        assert rest[8 * want..] == all[8 * (|p| + want)..];
        p := p + BytesOf(bits, want);
      }
      NoBytes(n, all[8 * |p|..], p);
    }

    lemma LeftoverSmall()
      requires Valid()
      ensures n < 8
    {}
  }

  /** The bits a register of n bits holds, as a number. */
  lemma InRegister(x: nat, n: nat, rest: seq<Bit>)
    requires x < Pow2(n) && n < 8
    ensures var all := LowBits(x, n) + rest;
      x == Reg(Value(all[..n])) && all[n..] == rest
  {
    hide LowBits, Pow2, Value;
    ValueLowBits(x, n);
    assert (LowBits(x, n) + rest)[..n] == LowBits(x, n);
    SmallRegister(x, n);
  }

  lemma NextByte(all: seq<Bit>, m: nat, b: Byte, rest: seq<Bit>)
    requires m <= |all| && all[m..] == LowBits(b, 8) + rest
    ensures m + 8 <= |all| && all[m + 8..] == rest && Value(all[..m + 8]) == Value(all[..m]) * 256 + b
  {
    hide LowBits, Value;
    assert |all| - m == 8 + |rest|;
    assert all[m..][8..] == all[m + 8..];
    assert all[m..][..8] == LowBits(b, 8);
    assert all[..m + 8] == all[..m] + LowBits(b, 8);
    ValueAppend(all[..m], LowBits(b, 8));
    Pow2Of32();
    ValueLowBits(b, 8);
  }

  lemma ValueSnoc(a: seq<Bit>, x: Bit)
    ensures Value(a + [x]) == 2 * Value(a) + x
  {
    assert (a + [x])[..|a|] == a;
  }

  lemma ValueNothing(a: seq<Bit>)
    ensures a + [] == a && Value([]) == 0 && Pow2(0) == 1
  {}

  lemma {:induction false} ValueAppend(a: seq<Bit>, b: seq<Bit>)
    ensures Value(a + b) == Value(a) * Pow2(|b|) + Value(b)
    decreases |b|
  {
    if b == [] {
      ValueNothing(a);
    } else {
      var n, c, x := |b| - 1, b[..|b| - 1], b[|b| - 1];
      assert b == c + [x] && a + b == (a + c) + [x];
      ValueAppend(a, c);
      assert Pow2(|b|) == 2 * Pow2(n);
      hide Value, Pow2;
      ValueSnoc(c, x);
      ValueSnoc(a + c, x);
      Doubled(Value(a), Pow2(n), Value(c));
    }
  }

  lemma Doubled(v: nat, p: nat, w: nat)
    ensures 2 * (v * p + w) == v * (2 * p) + 2 * w
  {}

  /** Shifting a byte into a 64-bit register. */
  lemma ByteShifted(v: nat, b: Byte)
    ensures OrBits(Shl64(Reg(v), 8), b) == Reg(v * 256 + b)
  {
    Pow2Of32();
    Pow2Of64();
    ShlMod(v % TWO64, 8, b);
    var y := v % TWO64 % Pow2(56);
    OrIsPlus(y, b, 8);
    Pow2Sum(56, 8);
    hide OrBits, Shl64;
    assert Shl(y, 8) == y * 256;
    hide Pow2, Shl;
    ByteShiftedSum(v, b, y);
  }

  lemma ByteShiftedSum(v: nat, b: Byte, y: nat)
    requires y == v % TWO64 % 0x100_0000_0000_0000
    ensures y * 256 + b == (v * 256 + b) % TWO64
  {
    var q := v / 0x100_0000_0000_0000;
    assert y == v % 0x100_0000_0000_0000;
    assert v == q * 0x100_0000_0000_0000 + y;
    DivModUnique(v * 256 + b, TWO64, q, y * 256 + b);
  }

  lemma SmallMod(x: nat, p: nat)
    requires x < p
    ensures x % p == x
  {}

  /** The register has room for the bytes that ReadBits64 asks for. */
  predicate Holds(n: nat, k: nat) { n >= k || n + 8 * ((k - n + 7) / 8) <= 64 }

  /** How many bytes ReadBits64 asks for. */
  lemma Want(n: nat, k: nat)
    requires n < 8 && n < k <= 64
    ensures var want := (k - n + 7) / 8; k <= n + 8 * want && want <= 8 && n + 8 * want - k == (8 - (k - n) % 8) % 8
  {}

  /** How many bits are in the register after reading k with n of them in it. */
  function LeftOver(n: nat, k: nat): nat { if n >= k then n - k else (8 - (k - n) % 8) % 8 }

  lemma LeftOverIs(n: nat, k: nat)
    ensures LeftOver(n, k) == if n >= k then n - k else (8 - (k - n) % 8) % 8
  {}

  lemma LeftOverSmall(n: nat, k: nat)
    requires n < 8
    ensures LeftOver(n, k) < 8
    ensures k <= 64 ==> (Holds(n, k) <==> k + LeftOver(n, k) <= 64)
  {
    if n < k <= 64 { Want(n, k); }
  }

  lemma WholeBytes(n: nat, want: nat)
    requires n < 8 && 0 < want
    ensures LeftOver(n, 8 * want) == n
  {
    if n == 0 { Mod8(want, 0); } else { Mod8(want - 1, 8 - n); }
  }

  lemma Mod8(q: nat, r: nat)
    requires r < 8
    ensures (8 * q + r) % 8 == r
  {}

  /** What ReadBits64 makes of the k-bit number v. */
  function ReadValue(n: nat, v: nat, k: nat): nat
    requires n < 8
  {
    LeftOverSmall(n, k);
    Low(v, 64 - LeftOver(n, k))
  }

  lemma ReadValueIs(n: nat, v: nat, k: nat)
    requires n < 8
    ensures LeftOver(n, k) < 8 && ReadValue(n, v, k) == Low(v, 64 - LeftOver(n, k))
  {
    LeftOverSmall(n, k);
  }

  /** A k-bit number always comes back as it is if and only if the register has
      room for the bytes; else the power of two just above that room does not. */
  lemma RoomIsRight(n: nat, k: nat)
    requires n < 8 && k <= 64
    ensures (forall v: nat :: v < Pow2(k) ==> ReadValue(n, v, k) == v) <==> Holds(n, k)
  {
    LeftOverSmall(n, k);
    hide Holds, LeftOver, Pow2;
    var j := LeftOver(n, k);
    if Holds(n, k) {
      forall v: nat | v < Pow2(k) ensures ReadValue(n, v, k) == v { FitsBeside(v, k, j); }
    } else {
      PowBelow(64 - j, k);
      PowMod(64 - j, 64 - j);
      assert ReadValue(n, Pow2(64 - j), k) == 0;
    }
  }

  lemma HoldsWidth(k: nat)
    requires k <= 64
    ensures (forall n: nat :: n < 8 ==> Holds(n, k)) <==> k <= 57
    ensures Holds(0, k)
  {
    if k > 57 {
      var n := k - 57;
      if k == 64 { assert !Holds(1, k); } else { assert !Holds(n, k); }
    }
  }

  /** ReadBits64 returns every number of k bits at every position of a stream
      exactly up to 57 bits, and at a byte boundary up to 64. */
  lemma SafeWidth(k: nat)
    requires k <= 64
    ensures (forall n: nat, v: nat :: n < 8 && v < Pow2(k) ==> ReadValue(n, v, k) == v) <==> k <= 57
    ensures forall v: nat :: v < Pow2(k) ==> ReadValue(0, v, k) == v
  {
    HoldsWidth(k);
    hide Holds, Pow2, ReadValue;
    if k <= 57 {
      forall n: nat, v: nat | n < 8 && v < Pow2(k) ensures ReadValue(n, v, k) == v { RoomIsRight(n, k); }
    } else {
      var n: nat :| n < 8 && !Holds(n, k);
      RoomIsRight(n, k);
    }
    RoomIsRight(0, k);
  }

  // ---- Reading bytes ----

  /** What Read makes of the next len bytes: up to eight at a time. */
  function ReadBytes(n: nat, bits: seq<Bit>, len: nat): (p: seq<Byte>)
    requires n < 8 && 8 * len <= |bits|
    ensures |p| == len
    decreases len
  {
    if len == 0 then []
    else
      var want := if len < 8 then len else 8;
      BytesOf(ReadValue(n, Value(bits[..8 * want]), 8 * want), want) + ReadBytes(n, bits[8 * want..], len - want)
  }

  lemma ReadBytesCases(n: nat, bits: seq<Bit>, len: nat)
    requires n < 8 && 0 < len && 8 * len <= |bits|
    ensures
      var want := if len < 8 then len else 8;
      ReadBytes(n, bits, len)
      == BytesOf(ReadValue(n, Value(bits[..8 * want]), 8 * want), want) + ReadBytes(n, bits[8 * want..], len - want)
  {}

  lemma NoBytes(n: nat, bits: seq<Bit>, p: seq<Byte>)
    requires n < 8
    ensures p + ReadBytes(n, bits, 0) == p
  {}

  /** One register full: right if it holds the bytes. */
  lemma RegisterRight(n: nat, bits: seq<Bit>, want: nat)
    requires n < 8 && 0 < want <= 8 && |bits| == 8 * want && Holds(n, 8 * want)
    ensures BitsOf(BytesOf(ReadValue(n, Value(bits), 8 * want), want)) == bits
  {
    hide BitsOf, BytesOf, Holds, ReadValue, LowBits, Pow2, Value;
    RoomIsRight(n, 8 * want);
    BytesOfBits(Value(bits), want);
    LowBitsOfValue(bits);
  }

  lemma {:induction false} BytesRight(n: nat, bits: seq<Bit>, len: nat)
    requires n < 8 && 8 * len <= |bits| && (n == 0 || len <= 7)
    ensures BitsOf(ReadBytes(n, bits, len)) == bits[..8 * len]
    decreases len
  {
    hide BytesOf, ReadValue, LowBits, Pow2, Value;
    if len > 0 {
      var want := if len < 8 then len else 8;
      hide BitsOf;
      RegisterRight(n, bits[..8 * want], want);
      BytesRight(n, bits[8 * want..], len - want);
      BitsOfAppend(BytesOf(ReadValue(n, Value(bits[..8 * want]), 8 * want), want), ReadBytes(n, bits[8 * want..], len - want));
      assert bits[..8 * len] == bits[..8 * want] + bits[8 * want..][..8 * (len - want)];
    }
  }

  lemma FullRegister(n: nat, v: nat)
    requires 0 < n < 8
    ensures ReadValue(n, v, 64) < Pow2(63)
  {
    hide LeftOver, Pow2, ReadValue;
    WholeBytes(n, 8);
    ReadValueIs(n, v, 64);
    ModBound(v, Pow2(64 - n));
    Pow2Grows(64 - n, 63);
  }

  /** Eight bytes behind left-over bits lose their first bits. */
  lemma RegisterSpoilt(n: nat, v: nat)
    requires 0 < n < 8
    ensures var b := BitsOf(BytesOf(ReadValue(n, v, 64), 8)); |b| == 64 && b[0] == 0
  {
    hide BytesOf, ReadValue, LowBits, Pow2, BitsOf;
    FullRegister(n, v);
    BytesOfBits(ReadValue(n, v, 64), 8);
    TopZero(ReadValue(n, v, 64), 64);
  }

  lemma BytesSpoilt(n: nat, bits: seq<Bit>, len: nat)
    requires 0 < n < 8 <= len && 8 * len <= |bits| && bits[0] == 1
    ensures BitsOf(ReadBytes(n, bits, len)) != bits[..8 * len]
  {
    hide BytesOf, ReadValue, LowBits, Pow2, Value, BitsOf;
    ReadBytesCases(n, bits, len);
    hide ReadBytes;
    var first := BytesOf(ReadValue(n, Value(bits[..64]), 64), 8);
    RegisterSpoilt(n, Value(bits[..64]));
    BitsOfAppend(first, ReadBytes(n, bits[64..], len - 8));
    assert BitsOf(ReadBytes(n, bits, len))[0] == BitsOf(first)[0] == 0;
  }

  /** Read returns every len bytes as they are if and only if it starts at a byte
      boundary or len is at most seven. */
  lemma ReadRight(n: nat, len: nat)
    requires n < 8
    ensures (forall bits :: 8 * len <= |bits| ==> BitsOf(ReadBytes(n, bits, len)) == bits[..8 * len]) <==> n == 0 || len <= 7
  {
    hide ReadBytes, BitsOf;
    if n == 0 || len <= 7 {
      forall bits: seq<Bit> | 8 * len <= |bits| ensures BitsOf(ReadBytes(n, bits, len)) == bits[..8 * len] {
        BytesRight(n, bits, len);
      }
    } else {
      BytesSpoilt(n, [1] + Zeros(8 * len), len);
    }
  }

  lemma SmallRegister(x: nat, n: nat)
    requires x < Pow2(n) && n < 8
    ensures x < TWO64
  {
    Pow2Of32();
    Pow2Grows(n, 8);
  }

  lemma {:induction false} BitsOfLength(b: seq<Byte>)
    ensures |BitsOf(b)| == 8 * |b|
  {
    if b != [] { BitsOfLength(b[1..]); }
  }

  /** The first k of n bits of which the register holds the last 64. */
  lemma TakeTop(all: seq<Bit>, n: nat, k: nat)
    requires k <= n <= |all| && n - k < 8
    ensures
      var x, j := Reg(Value(all[..n])), n - k;
      && Shr(x, j) == Low(Value(all[..k]), 64 - j)
      && LowBits(Low(x, j), j) == all[k..n] && Low(x, j) < Pow2(j)
  {
    hide LowBits, Pow2, Value, Shr;
    var j := n - k;
    var a, b := all[..k], all[k..n];
    assert all[..n] == a + b;
    ValueAppend(a, b);
    Pow2Of64();
    Pow2Sum(64 - j, j);
    SplitHigh(Value(a), Pow2(j), Value(b), Pow2(64 - j));
    ShrIs(Reg(Value(all[..n])), j);
    LowBitsOfValue(b);
  }

  lemma ShrIs(x: nat, j: nat)
    ensures Shr(x, j) == x / Pow2(j)
  {}

  lemma SplitHigh(a: nat, p: nat, b: nat, q: nat)
    requires p >= 1 && q >= 1 && b < p && q * p == TWO64
    ensures (a * p + b) % TWO64 / p == a % q && (a * p + b) % TWO64 % p == b
  {
    var h, r := a / q, a % q;
    assert a == h * q + r;
    assert a * p + b == h * TWO64 + (r * p + b) by {
      assert (h * q + r) * p == h * (q * p) + r * p;
    }
    MulBound(r, q, b, p);
    DivModUnique(a * p + b, TWO64, h, r * p + b);
    DivModUnique(r * p + b, p, r, b);
  }

  /** A k-bit value fits beside n left-over bits. */
  lemma FitsBeside(v: nat, k: nat, n: nat)
    requires v < Pow2(k) && k + n <= 64
    ensures Low(v, 64 - n) == v
  {
    Pow2Grows(k, 64 - n);
    hide Pow2;
    SmallMod(v, Pow2(64 - n));
  }

  lemma {:induction false} LowBitsOfValue(bits: seq<Bit>)
    ensures LowBits(Value(bits), |bits|) == bits
    decreases |bits|
  {
    if bits != [] {
      var n := |bits| - 1;
      LowBitsOfValue(bits[..n]);
      OneMore(Value(bits[..n]), bits[n], n);
      assert bits == bits[..n] + [bits[n]];
    }
  }

  lemma OneMore(x: nat, bit: Bit, n: nat)
    ensures LowBits(2 * x + bit, n + 1) == LowBits(x, n) + [bit]
  {
    assert Shl(x, 1) == 2 * x && LowBits(bit, 1) == [bit];
    hide LowBits;
    LowBitsAppend(x, n, bit, 1);
  }
}
