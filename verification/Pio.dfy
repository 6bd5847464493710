/** The cursor writers of utils/bits/pio: given a nil buffer they only count. */
module Pio {
  import opened Bytes

  /** s with `v` written over it at n. */
  function Splice(s: seq<Byte>, n: nat, v: seq<Byte>): seq<Byte>
    requires n + |v| <= |s|
  {
    s[..n] + v + s[n + |v|..]
  }

  lemma SpliceTwice(s: seq<Byte>, n: nat, u: seq<Byte>, v: seq<Byte>)
    requires n + |u| + |v| <= |s|
    ensures |Splice(s, n, u)| == |s|
    ensures Splice(Splice(s, n, u), n + |u|, v) == Splice(s, n, u + v)
  {
    var t := Splice(s, n, u);
    assert t[..n + |u|] == s[..n] + u;
    assert t[n + |u| + |v|..] == s[n + |u| + |v|..];
  }

  lemma SpliceNothing(s: seq<Byte>, n: nat)
    requires n <= |s|
    ensures Splice(s, n, []) == s
  {}

  lemma SpliceAll(s: seq<Byte>, v: seq<Byte>)
    requires |v| == |s|
    ensures Splice(s, 0, v) == v
  {}

  /** What a writer leaves behind: `v` at n and nothing else changed, and the
      cursor after it; with a nil buffer just the cursor. */
  twostate predicate Wrote(b: array?<Byte>, n: nat, v: seq<Byte>, m: nat)
    reads b
  {
    m == n + |v| && (b != null ==> m <= b.Length && b[..] == Splice(old(b[..]), n, v))
  }

  /** The Write functions, given the encoding of their value. */
  method Write(b: array?<Byte>, n: nat, v: seq<Byte>) returns (m: nat)
    requires b != null ==> n + |v| <= b.Length
    modifies b
    ensures Wrote(b, n, v, m)
  {
    if b != null {
      forall i | 0 <= i < |v| {
        b[n + i] := v[i];
      }
      assert b[..n] == old(b[..n]) && b[n..n + |v|] == v && b[n + |v|..] == old(b[n + |v|..]);
      assert b[..] == b[..n] + b[n..n + |v|] + b[n + |v|..];
    }
    m := n + |v|;
  }

  /** The buffer held `s0`, and `done` was written over it at n, up to m. */
  ghost predicate Filled(b: array?<Byte>, s0: seq<Byte>, n: nat, done: seq<Byte>, m: nat)
    reads b
  {
    m == n + |done| && (b != null ==> b.Length == |s0| && m <= |s0| && b[..] == Splice(s0, n, done))
  }

  ghost function Held(b: array?<Byte>): seq<Byte>
    reads b
  {
    if b == null then [] else b[..]
  }

  method Put(b: array?<Byte>, at: nat, x: seq<Byte>, ghost s0: seq<Byte>, ghost n: nat, ghost done: seq<Byte>)
    returns (m: nat)
    requires Filled(b, s0, n, done, at) && (b != null ==> at + |x| <= b.Length)
    modifies b
    ensures Filled(b, s0, n, done + x, m)
  {
    m := Write(b, at, x);
    if b != null { SpliceTwice(s0, n, done, x); }
  }

  lemma FilledTwice(b: array?<Byte>, s0: seq<Byte>, n: nat, done: seq<Byte>, before: seq<Byte>, x: seq<Byte>)
    requires Filled(b, before, n + |done|, x, n + |done| + |x|)
    requires b != null ==> n + |done| <= |s0| == |before| && before == Splice(s0, n, done)
    ensures Filled(b, s0, n, done + x, n + |done| + |x|)
  {
    if b != null { SpliceTwice(s0, n, done, x); }
  }

  /** Three writes in a row. */
  method Fill3(b: array?<Byte>, n: nat, x: seq<Byte>, y: seq<Byte>, z: seq<Byte>) returns (m: nat)
    requires b != null ==> n + |x| + |y| + |z| <= b.Length
    modifies b
    ensures Filled(b, old(Held(b)), n, x + y + z, m)
  {
    hide Splice;
    ghost var s0 := Held(b);
    if b != null { SpliceNothing(s0, n); }
    assert [] + x == x;
    m := Put(b, n, x, s0, n, []);
    m := Put(b, m, y, s0, n, x);
    m := Put(b, m, z, s0, n, x + y);
  }
}
