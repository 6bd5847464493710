/** Numbers and bytes as sequences of bits, most significant bit first. */
module BitSeq {
  import opened Bytes

  type Bit = x: int | 0 <= x < 2

  function Pow2(n: nat): (p: nat)
    ensures p >= 1
  {
    if n == 0 then 1 else 2 * Pow2(n - 1)
  }

  /** x >> k. */
  function Shr(x: nat, k: nat): nat { Div(x, Pow2(k)) }

  function Div(x: nat, p: nat): nat
    requires p >= 1
  {
    x / p
  }

  /** The low k bits of x, most significant first. */
  function LowBits(x: nat, k: nat): (r: seq<Bit>)
    ensures |r| == k
  {
    if k == 0 then [] else [Shr(x, k - 1) % 2] + LowBits(x, k - 1)
  }

  function BitsOf(b: seq<Byte>): seq<Bit>
  {
    if b == [] then [] else LowBits(b[0], 8) + BitsOf(b[1..])
  }

  /** The number written with the bits, most significant first. */
  function Value(bits: seq<Bit>): (v: nat)
    ensures v < Pow2(|bits|)
  {
    if bits == [] then 0 else 2 * Value(bits[..|bits| - 1]) + bits[|bits| - 1]
  }

  lemma {:induction false} ValueLowBits(x: nat, k: nat)
    requires x < Pow2(k)
    ensures Value(LowBits(x, k)) == x
  {
    LowBitsValue(x, k);
    ModSmall(x, Pow2(k));
  }

  lemma ModSmall(x: nat, m: nat)
    requires x < m
    ensures x % m == x
  {}

  lemma {:induction false} ValueCons(b: Bit, bits: seq<Bit>)
    ensures Value([b] + bits) == b * Pow2(|bits|) + Value(bits)
    decreases |bits|
  {
    var all := [b] + bits;
    if bits == [] {
      assert all[..0] == [];
    } else {
      var n := |bits| - 1;
      ValueCons(b, bits[..n]);
      assert all[..n + 1] == [b] + bits[..n];
    }
  }

  lemma {:induction false} LowBitsValue(x: nat, k: nat)
    ensures Value(LowBits(x, k)) == x % Pow2(k)
  {
    if k > 0 {
      var p := Pow2(k - 1);
      LowBitsValue(x, k - 1);
      ValueCons(Shr(x, k - 1) % 2, LowBits(x, k - 1));
      SplitMod(x, p);
    }
  }

  lemma SplitMod(x: nat, p: nat)
    requires p > 0
    ensures x % (2 * p) == x / p % 2 * p + x % p
  {
    var q, r := x / p, x % p;
    var q2, b := q / 2, q % 2;
    assert x == q * p + r && q == 2 * q2 + b;
    assert x == q2 * (2 * p) + (b * p + r) by {
      assert (2 * q2 + b) * p == q2 * (2 * p) + b * p;
    }
    assert 0 <= b * p + r < 2 * p by {
      assert b == 0 || b == 1;
    }
    DivModUnique(x, 2 * p, q2, b * p + r);
  }

  lemma DivModUnique(x: nat, m: nat, q: int, r: int)
    requires 0 <= r < m && x == q * m + r
    ensures x / m == q && x % m == r
  {
    var d := x / m - q;
    assert x == (x / m) * m + x % m;
    assert d * m == r - x % m by {
      assert (x / m - q) * m == (x / m) * m - q * m;
    }
    assert d >= 1 ==> d * m >= m;
    assert d <= -1 ==> d * m + m <= 0;
  }

  lemma NoBits(x: nat)
    ensures LowBits(x, 0) == [] && forall b: seq<Byte> :: [] + BitsOf(b) == BitsOf(b)
  {}

  lemma BitsOfFirst(b: seq<Byte>)
    ensures BitsOf(b) == if b == [] then [] else LowBits(b[0], 8) + BitsOf(b[1..])
  {}

  lemma FirstBit(x: nat, k: nat, rest: seq<Bit>)
    requires k > 0
    ensures LowBits(x, k) + rest == [Shr(x, k - 1) % 2] + (LowBits(x, k - 1) + rest)
    ensures (LowBits(x, k) + rest)[1..] == LowBits(x, k - 1) + rest
  {}

  lemma DropDrop(bits: seq<Bit>, m: nat, n: nat)
    requires m + n <= |bits|
    ensures bits[m..][n..] == bits[m + n..] && bits[m..][..n] == bits[m..m + n]
    ensures n > 0 ==> bits[m..][0] == bits[m]
  {}

  lemma {:induction false} Pow2Grows(a: nat, b: nat)
    requires a <= b
    ensures Pow2(a) <= Pow2(b)
  {
    if a < b { Pow2Grows(a, b - 1); }
  }

  lemma Pow2Of32()
    ensures Pow2(8) == 0x100 && Pow2(16) == 0x1_0000 && Pow2(32) == 0x1_0000_0000
  {
    Pow2Sum(8, 8);
    Pow2Sum(16, 16);
  }

  lemma MulAssoc(a: int, b: int, c: int)
    ensures a * b * c == a * (b * c)
  {}

  lemma {:induction false} Pow2Sum(a: nat, b: nat)
    ensures Pow2(a + b) == Pow2(a) * Pow2(b)
  {
    if a > 0 {
      Pow2Sum(a - 1, b);
      MulAssoc(2, Pow2(a - 1), Pow2(b));
    }
  }

  lemma MulBound(x: nat, p: nat, v: nat, q: nat)
    requires x < p && v < q
    ensures x * q + v < p * q
  {
    assert x * q <= (p - 1) * q;
    assert (p - 1) * q == p * q - q;
  }

  lemma MulSplit(b: int, q: int, s: int, p: int)
    ensures (b * q + s) * p == b * (p * q) + s * p
  {
    assert (b * q + s) * p == b * q * p + s * p;
    assert b * q * p == b * (p * q);
  }

  lemma DivDiv(v: nat, p: nat, q: nat)
    requires p > 0 && q > 0
    ensures p * q > 0 && v / p / q == v / (p * q)
  {
    var a, r := v / p, v % p;
    var b, s := a / q, a % q;
    assert v == a * p + r && a == b * q + s;
    MulSplit(b, q, s, p);
    MulBound(s, q, r, p);
    MulComm(p, q);
    DivModUnique(v, p * q, b, s * p + r);
  }

  lemma MulComm(p: nat, q: nat)
    ensures p * q == q * p
  {}

  lemma ShrShr(v: nat, a: nat, b: nat)
    ensures Shr(Shr(v, b), a) == Shr(v, a + b)
  {
    Pow2Sum(a, b);
    DivDiv(v, Pow2(b), Pow2(a));
    assert Pow2(a) * Pow2(b) == Pow2(b) * Pow2(a);
  }

  lemma LowBitsFirst(x: nat, k: nat)
    ensures LowBits(x, k) == if k == 0 then [] else [Shr(x, k - 1) % 2] + LowBits(x, k - 1)
  {}

  /** The top a and the low b of the low a + b bits. */
  lemma {:induction false} LowBitsSplit(v: nat, a: nat, b: nat)
    ensures LowBits(v, a + b) == LowBits(Shr(v, b), a) + LowBits(v, b)
  {
    hide Shr, LowBits, Pow2;
    LowBitsFirst(v, a + b);
    LowBitsFirst(Shr(v, b), a);
    if a > 0 {
      LowBitsSplit(v, a - 1, b);
      ShrShr(v, a - 1, b);
    }
  }

  /** x << k. */
  function Shl(x: nat, k: nat): nat { x * Pow2(k) }

  /** A bit below the k-th does not see what is above. */
  lemma BitAbove(x: nat, k: nat, v: nat, j: nat)
    requires j < k
    ensures Shr(Shl(x, k) + v, j) % 2 == Shr(v, j) % 2
  {
    var p, e := Pow2(j), Pow2(k - j - 1);
    Pow2Sum(j, k - j - 1);
    assert Pow2(k) == 2 * (p * e);
    hide Pow2;
    MultipleAbove(x, p, e, v);
  }

  lemma MultipleAbove(x: nat, p: nat, e: nat, v: nat)
    requires p > 0
    ensures x * (2 * (p * e)) + v >= 0 && (x * (2 * (p * e)) + v) / p % 2 == v / p % 2
  {
    var h := x * e;
    assert x * (2 * (p * e)) == (2 * h) * p by { assert x * (2 * (p * e)) == 2 * (x * e) * p; }
    assert v == (v / p) * p + v % p;
    assert (2 * h + v / p) * p == (2 * h) * p + (v / p) * p;
    DivModUnique((2 * h) * p + v, p, 2 * h + v / p, v % p);
    assert (2 * h + v / p) % 2 == v / p % 2;
  }

  /** Bits above the k-th do not matter. */
  lemma {:induction false} LowBitsAbove(x: nat, k: nat, v: nat, j: nat)
    requires j <= k
    ensures LowBits(Shl(x, k) + v, j) == LowBits(v, j)
  {
    hide Shr, Shl, LowBits, Pow2;
    LowBitsFirst(Shl(x, k) + v, j);
    LowBitsFirst(v, j);
    if j > 0 {
      LowBitsAbove(x, k, v, j - 1);
      BitAbove(x, k, v, j - 1);
    }
  }

  lemma ShlShr(x: nat, k: nat)
    ensures x == Shl(Shr(x, k), k) + x % Pow2(k)
  {}

  lemma LowBitsMod(x: nat, k: nat, j: nat)
    requires j <= k
    ensures LowBits(x % Pow2(k), j) == LowBits(x, j)
  {
    ShlShr(x, k);
    hide Shr, Shl, LowBits, Pow2;
    LowBitsAbove(Shr(x, k), k, x % Pow2(k), j);
  }

  lemma ShiftedIn(x: nat, v: nat, k: nat)
    requires v < Pow2(k)
    ensures Shr(Shl(x, k) + v, k) == x
  {
    DivModUnique(x * Pow2(k) + v, Pow2(k), x, v);
  }

  /** Shifting in a k-bit value appends its bits. */
  lemma LowBitsAppend(x: nat, m: nat, v: nat, k: nat)
    requires v < Pow2(k)
    ensures LowBits(Shl(x, k) + v, m + k) == LowBits(x, m) + LowBits(v, k)
  {
    hide Shr, Shl, LowBits, Pow2;
    LowBitsSplit(Shl(x, k) + v, m, k);
    LowBitsAbove(x, k, v, k);
    ShiftedIn(x, v, k);
  }

  function Zeros(z: nat): (r: seq<Bit>)
    ensures |r| == z && forall i :: 0 <= i < z ==> r[i] == 0
  {
    if z == 0 then [] else [0] + Zeros(z - 1)
  }

  lemma {:induction false} LowBitsZero(k: nat)
    ensures LowBits(0, k) == Zeros(k)
  {
    if k > 0 {
      LowBitsZero(k - 1);
      assert Shr(0, k - 1) == 0;
    }
  }

  lemma {:induction false} BitsOfAppend(a: seq<Byte>, b: seq<Byte>)
    ensures BitsOf(a + b) == BitsOf(a) + BitsOf(b)
  {
    hide LowBits;
    if a == [] {
      assert a + b == b;
    } else {
      assert (a + b)[1..] == a[1..] + b;
      BitsOfAppend(a[1..], b);
    }
  }

  /** v as w bytes, most significant first. */
  function BytesOf(v: nat, w: nat): (b: seq<Byte>)
    ensures |b| == w
  {
    if w == 0 then [] else [Shr(v, 8 * (w - 1)) % 256] + BytesOf(v, w - 1)
  }

  lemma {:induction false} BytesOfBits(v: nat, w: nat)
    ensures BitsOf(BytesOf(v, w)) == LowBits(v, 8 * w)
  {
    if w > 0 {
      var top := Shr(v, 8 * (w - 1));
      BytesOfBits(v, w - 1);
      LowBitsSplit(v, 8, 8 * (w - 1));
      Pow2Of32();
      LowBitsMod(top, 8, 8);
      hide LowBits, Shr, Pow2;
      assert BytesOf(v, w)[1..] == BytesOf(v, w - 1);
    }
  }
}
