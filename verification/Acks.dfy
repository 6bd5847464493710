/** Acknowledgement accounting (format/rtmp/msg.go, readMsg; wraprw.go, Read):
    the uint32 counters against an acknowledger that counts without wrapping. */
module Acks {
  import opened Bytes
  import opened Wrappers
  import opened ChunkReader
  import opened Events

  const MODULUS := 0x1_0000_0000
  const MAX_CHUNK_BYTES := MAX_MSG + 18

  /** A byte count as the uint32 counters keep it. */
  function Wrap(n: nat): U32 { n % MODULUS }

  lemma CountWraps(total: nat, n: nat)
    ensures Count32(Wrap(total), n) == Wrap(total + n)
  {}

  lemma SubExact(t: nat, acked: nat)
    requires acked <= t < acked + MODULUS
    ensures Sub32(Wrap(t), Wrap(acked)) == t - acked
  {}

  function AckLoop(a: Acker, sizes: seq<nat>): (Acker, seq<U32>)
    decreases |sizes|
  {
    if sizes == [] then (a, [])
    else
      var (a1, s1) := AckStep(a, sizes[0]);
      var (a2, s2) := AckLoop(a1, sizes[1..]);
      (a2, s1 + s2)
  }

  /** The acknowledger meant: `total` bytes received, `acked` of them acknowledged. */
  datatype Ideal = Ideal(total: nat, acked: nat, acks: seq<nat>)

  function IdealStep(total: nat, acked: nat, window: nat, n: nat): Ideal
  {
    if total + n - acked > window then Ideal(total + n, total + n, [total + n])
    else Ideal(total + n, acked, [])
  }

  function IdealLoop(total: nat, acked: nat, window: nat, sizes: seq<nat>): Ideal
    decreases |sizes|
  {
    if sizes == [] then Ideal(total, acked, [])
    else
      var s := IdealStep(total, acked, window, sizes[0]);
      var rest := IdealLoop(s.total, s.acked, window, sizes[1..]);
      rest.(acks := s.acks + rest.acks)
  }

  function Wrapped(acks: seq<nat>): (r: seq<U32>)
    ensures |r| == |acks| && forall i :: 0 <= i < |acks| ==> r[i] == Wrap(acks[i])
  {
    seq(|acks|, i requires 0 <= i < |acks| => Wrap(acks[i]))
  }

  predicate Tracks(a: Acker, total: nat, acked: nat)
  {
    && a.ackn == Wrap(total) && a.lastackn == Wrap(acked)
    && acked <= total <= acked + a.ackSize
  }

  lemma StepExact(a: Acker, total: nat, acked: nat, n: nat)
    requires Tracks(a, total, acked) && 0 < a.ackSize && a.ackSize + n < MODULUS
    ensures
      var s := IdealStep(total, acked, a.ackSize, n);
      && AckStep(a, n).1 == Wrapped(s.acks) && AckStep(a, n).0.ackSize == a.ackSize
      && Tracks(AckStep(a, n).0, s.total, s.acked)
  {
    hide Count32, Sub32, Wrap;
    var t := total + n;
    CountWraps(total, n);
    SubExact(t, acked);
    assert Wrapped([t]) == [Wrap(t)] && Wrapped([]) == [];
  }

  /** Exactness: with a non-zero window such that window plus the largest chunk
      stays below 2^32, every acknowledgement carries the true count of consumed
      bytes (modulo 2^32), none is missed or extra, and between chunks at most
      `ackSize` bytes are unacknowledged, so within a chunk at most
      ackSize + 4 MiB + 18. */
  lemma {:induction false} AcksExact(a: Acker, total: nat, acked: nat, sizes: seq<nat>)
    requires Tracks(a, total, acked) && 0 < a.ackSize && a.ackSize + MAX_CHUNK_BYTES < MODULUS
    requires forall i :: 0 <= i < |sizes| ==> sizes[i] <= MAX_CHUNK_BYTES
    ensures
      var ideal := IdealLoop(total, acked, a.ackSize, sizes);
      && AckLoop(a, sizes).1 == Wrapped(ideal.acks)
      && Tracks(AckLoop(a, sizes).0, ideal.total, ideal.acked)
      && AckLoop(a, sizes).0.ackSize == a.ackSize
      && ideal.total == total + Sum(sizes)
    decreases |sizes|
  {
    if sizes != [] {
      var s := IdealStep(total, acked, a.ackSize, sizes[0]);
      StepExact(a, total, acked, sizes[0]);
      assert s.total == total + sizes[0];
      hide AckStep, IdealStep, Tracks, Wrapped;
      AcksExact(AckStep(a, sizes[0]).0, s.total, s.acked, sizes[1..]);
      WrappedAppend(s.acks, IdealLoop(s.total, s.acked, a.ackSize, sizes[1..]).acks);
    } else {
      assert Wrapped([]) == [];
    }
  }

  lemma WrappedAppend(a: seq<nat>, b: seq<nat>)
    ensures Wrapped(a + b) == Wrapped(a) + Wrapped(b)
  {}

  function Sum(sizes: seq<nat>): nat
  {
    if sizes == [] then 0 else sizes[0] + Sum(sizes[1..])
  }

  function Ones(n: nat): (r: seq<nat>)
    ensures |r| == n && forall i :: 0 <= i < n ==> r[i] == 1
  {
    seq(n, _ => 1)
  }

  /** Chunks that stay within the window are not acknowledged. */
  lemma {:induction false} NeverAck(a: Acker, total: nat, acked: nat, sizes: seq<nat>)
    requires Tracks(a, total, acked) && total + Sum(sizes) - acked <= a.ackSize
    ensures IdealLoop(total, acked, a.ackSize, sizes) == Ideal(total + Sum(sizes), acked, [])
    ensures
      var (a1, acks) := AckLoop(a, sizes);
      acks == [] && a1.ackSize == a.ackSize && Tracks(a1, total + Sum(sizes), acked)
    decreases |sizes|
  {
    hide Sub32, Count32, Wrap;
    if sizes != [] {
      SubExact(total + sizes[0], acked);
      CountWraps(total, sizes[0]);
      var a1 := AckStep(a, sizes[0]).0;
      assert AckStep(a, sizes[0]).1 == [];
      NeverAck(a1, total + sizes[0], acked, sizes[1..]);
      var rest := AckLoop(a1, sizes[1..]);
      assert AckStep(a, sizes[0]).1 + rest.1 == [];
    }
  }

  lemma {:induction false} IdealSnoc(total: nat, acked: nat, window: nat, sizes: seq<nat>, n: nat)
    ensures
      var i := IdealLoop(total, acked, window, sizes);
      IdealLoop(total, acked, window, sizes + [n]).acks == i.acks + IdealStep(i.total, i.acked, window, n).acks
    decreases |sizes|
  {
    if sizes == [] {
      assert [n][1..] == [];
    } else {
      var s := IdealStep(total, acked, window, sizes[0]);
      IdealSnoc(s.total, s.acked, window, sizes[1..], n);
      assert (sizes + [n])[1..] == sizes[1..] + [n];
    }
  }

  /** Sizes of the chunks readMsg consumes. */
  function ChunkSizes(r: Reader, b: seq<Byte>): seq<nat>
    requires r.Ok()
    decreases |b|
  {
    var ch := ReadChunk(r, b);
    if ch.Err? then []
    else if ch.value.msg.Some? then [ch.value.n]
    else [ch.value.n] + ChunkSizes(ch.value.r, b[ch.value.n..])
  }

  lemma {:induction false} AckRepliesAppend(a: seq<U32>, b: seq<U32>)
    ensures AckReplies(a + b) == AckReplies(a) + AckReplies(b)
    decreases |a|
  {
    if a == [] {
      assert a + b == b;
    } else {
      AckRepliesAppend(a[1..], b);
      assert (a + b)[1..] == a[1..] + b;
    }
  }

  /** readMsg acknowledges as AckLoop does over the chunks it consumed, and
      ackn has then advanced by exactly the bytes consumed; peeking is free. */
  lemma {:induction false} ReadMsgAcks(k: Session, b: seq<Byte>)
    requires k.Ok() && ReadMsg(k, b).Ok?
    ensures
      var g := ReadMsg(k, b).value;
      var sizes := ChunkSizes(k.r, b);
      && Sum(sizes) == g.n
      && g.replies == AckReplies(AckLoop(k.acker, sizes).1)
      && g.k.acker == AckLoop(k.acker, sizes).0
    decreases |b|
  {
    hide ReadChunk, AckStep, AckReplies;
    var ch := ReadChunk(k.r, b).value;
    var (acker, acks) := AckStep(k.acker, ch.n);
    assert [ch.n][1..] == [];
    if ch.msg.Some? {
      assert acks + [] == acks;
    } else {
      var k1 := k.(r := ch.r, acker := acker);
      ReadMsgAcks(k1, b[ch.n..]);
      var sizes := ChunkSizes(ch.r, b[ch.n..]);
      assert ChunkSizes(k.r, b)[1..] == sizes;
      AckRepliesAppend(acks, AckLoop(acker, sizes).1);
    }
  }

  // ---- Whole runs ----

  /** Repeated calls of readMsg until the input is used up. */
  datatype Heard = Heard(k: Session, replies: seq<Reply>)

  function ReadMsgs(k: Session, b: seq<Byte>): (h: Result<Heard, ReadError>)
    requires k.Ok()
    decreases |b|
  {
    if b == [] then Ok(Heard(k, [])) else
    var g :- ReadMsg(k, b);
    var rest :- ReadMsgs(g.k, b[g.n..]);
    Ok(Heard(rest.k, g.replies + rest.replies))
  }

  /** Sizes of all the chunks of an input. */
  function AllSizes(r: Reader, b: seq<Byte>): seq<nat>
    requires r.Ok()
    decreases |b|
  {
    var ch := ReadChunk(r, b);
    if ch.Err? then [] else [ch.value.n] + AllSizes(ch.value.r, b[ch.value.n..])
  }

  lemma {:induction false} SizesBounded(r: Reader, b: seq<Byte>)
    requires r.Ok()
    ensures forall i :: 0 <= i < |AllSizes(r, b)| ==> AllSizes(r, b)[i] <= MAX_CHUNK_BYTES
    decreases |b|
  {
    hide ReadChunk, Reader.Ok;
    var ch := ReadChunk(r, b);
    if ch.Ok? { SizesBounded(ch.value.r, b[ch.value.n..]); }
  }

  lemma {:induction false} SizesOfMsg(k: Session, b: seq<Byte>)
    requires k.Ok() && ReadMsg(k, b).Ok?
    ensures
      var g := ReadMsg(k, b).value;
      AllSizes(k.r, b) == ChunkSizes(k.r, b) + AllSizes(g.k.r, b[g.n..])
    decreases |b|
  {
    hide ReadChunk, AckStep, AckReplies, ReadMsg, Reader.Ok;
    ReadMsgCases(k, b);
    var ch := ReadChunk(k.r, b).value;
    if ch.msg.None? {
      var k1 := AfterChunk(k, ch);
      SizesOfMsg(k1, b[ch.n..]);
      var g := ReadMsg(k1, b[ch.n..]).value;
      assert b[ch.n..][g.n..] == b[ch.n + g.n..];
      Assoc([ch.n], ChunkSizes(ch.r, b[ch.n..]), AllSizes(g.k.r, b[ch.n + g.n..]));
    }
  }

  lemma {:induction false} LoopAppend(a: Acker, s: seq<nat>, t: seq<nat>)
    ensures
      var (a1, acks1) := AckLoop(a, s);
      var (a2, acks2) := AckLoop(a1, t);
      AckLoop(a, s + t) == (a2, acks1 + acks2)
    decreases |s|
  {
    hide AckStep;
    if s == [] {
      assert s + t == t;
      assert [] + AckLoop(a, t).1 == AckLoop(a, t).1;
    } else {
      var (a1, acks1) := AckStep(a, s[0]);
      assert (s + t)[1..] == s[1..] + t;
      LoopAppend(a1, s[1..], t);
      Assoc(acks1, AckLoop(a1, s[1..]).1, AckLoop(AckLoop(a1, s[1..]).0, t).1);
    }
  }

  lemma {:induction false} SumAppend(s: seq<nat>, t: seq<nat>)
    ensures Sum(s + t) == Sum(s) + Sum(t)
    decreases |s|
  {
    if s == [] {
      assert s + t == t;
    } else {
      assert (s + t)[1..] == s[1..] + t;
      SumAppend(s[1..], t);
    }
  }

  /** Over a run the acknowledgements written are those of AckLoop over all the
      chunks of the input, and every byte is counted. */
  lemma {:induction false} ReadMsgsAcks(k: Session, b: seq<Byte>)
    requires k.Ok() && ReadMsgs(k, b).Ok?
    ensures
      var h, sizes := ReadMsgs(k, b).value, AllSizes(k.r, b);
      && Sum(sizes) == |b|
      && h.replies == AckReplies(AckLoop(k.acker, sizes).1)
      && h.k.acker == AckLoop(k.acker, sizes).0
    decreases |b|
  {
    hide ReadMsg, ChunkSizes, AckStep, Reader.Ok;
    if b != [] {
      hide AckReplies, AckLoop;
      var g := ReadMsg(k, b).value;
      var s, t := ChunkSizes(k.r, b), AllSizes(g.k.r, b[g.n..]);
      ReadMsgAcks(k, b);
      SizesOfMsg(k, b);
      ReadMsgsAcks(g.k, b[g.n..]);
      LoopAppend(k.acker, s, t);
      SumAppend(s, t);
      AckRepliesAppend(AckLoop(k.acker, s).1, AckLoop(g.k.acker, t).1);
    }
  }

  /** What a run owes: the acknowledgements of the unbounded acknowledger. */
  function Owed(k: Session, total: nat, acked: nat, b: seq<Byte>): Ideal
    requires k.Ok()
  {
    IdealLoop(total, acked, k.acker.ackSize, AllSizes(k.r, b))
  }

  /** Exactness over whole runs of readMsg: with a window in the bound, what was
      written back is what the unbounded acknowledger sends for all the bytes
      received, and the counters track it to the end. */
  lemma RunExact(k: Session, total: nat, acked: nat, b: seq<Byte>)
    requires k.Ok() && ReadMsgs(k, b).Ok? && Tracks(k.acker, total, acked)
    requires 0 < k.acker.ackSize && k.acker.ackSize + MAX_CHUNK_BYTES < MODULUS
    ensures
      var h, owed := ReadMsgs(k, b).value, Owed(k, total, acked, b);
      && h.replies == AckReplies(Wrapped(owed.acks))
      && owed.total == total + |b| && Tracks(h.k.acker, owed.total, owed.acked)
  {
    hide ReadMsgs, AllSizes, IdealLoop, AckLoop, Tracks, Reader.Ok;
    ReadMsgsAcks(k, b);
    SizesBounded(k.r, b);
    AcksExact(k.acker, total, acked, AllSizes(k.r, b));
  }

  // ---- A run of 2^32 bytes ----

  /** A chunk that completes a message, in front of any input. */
  lemma WholeChunk(k: Session, b: seq<Byte>, rest: seq<Byte>)
    requires k.Ok() && ReadChunk(k.r, b).Ok?
    requires ReadChunk(k.r, b).value.n == |b| && ReadChunk(k.r, b).value.msg.Some?
    ensures
      var ch := ReadChunk(k.r, b).value;
      && (ReadMsgs(k, b + rest).Ok? <==> ReadMsgs(AfterChunk(k, ch), rest).Ok?)
      && AllSizes(k.r, b + rest) == [|b|] + AllSizes(ch.r, rest)
  {
    hide ReadChunk, AckStep, AckReplies, ReadMsg, Reader.Ok;
    ReadChunkStable(k.r, b, rest);
    ReadMsgCases(k, b + rest);
    assert (b + rest)[|b|..] == rest;
  }

  /** A type-0 chunk of an empty message on chunk stream 2. */
  function EmptyMessage(): (b: seq<Byte>)
    ensures |b| == 12
  {
    [2, 0, 0, 0, 0, 0, 0, 9, 0, 0, 0, 0]
  }

  /** A one-byte type-3 chunk: the same empty message again. */
  const AGAIN: Byte := 194

  function Repeat(x: Byte, n: nat): (r: seq<Byte>)
    ensures |r| == n && forall i :: 0 <= i < n ==> r[i] == x
  {
    seq(n, _ => x)
  }

  /** A type-0 chunk on chunk stream 64, with a three-byte basic header, an
      extended time stamp and a message of 4 MiB. */
  const LARGEST_HEADER: seq<Byte> := [1, 0, 0, 255, 255, 255, 64, 0, 0, 9, 0, 0, 0, 0, 0, 0, 0, 0]

  function LargestChunk(): (b: seq<Byte>)
    ensures |b| == MAX_CHUNK_BYTES
  {
    LARGEST_HEADER + Repeat(0, MAX_MSG)
  }

  /** A chunk stream after an empty message without extended time. */
  predicate Blank(c: CS) { c.got == [] && c.h.msgdatalen == 0 && c.h.msghdrtype == 0 && !c.h.hastimeext }

  ghost predicate Idle(r: Reader)
  {
    r.Ok() && forall c :: c in r.cs ==> r.cs[c].Left() == 0
  }

  lemma EmptyHeader(c: CS, newcs: bool)
    requires c.Ok() && c.Left() == 0
    ensures
      var h := ReadHeader(c, newcs, 0, EmptyMessage()[1..]);
      h.Ok? && h.value.n == 11 && Blank(h.value.cs)
  {
    Header0Cases(c, EmptyMessage()[1..]);
  }

  lemma EmptyRead(r: Reader)
    requires Idle(r) && (2 in r.cs || |r.cs| < MAX_CSIDS)
    ensures
      var ch := ReadChunk(r, EmptyMessage());
      && ch.Ok? && ch.value.n == 12 && ch.value.msg.Some? && ch.value.csid == 2
      && Idle(ch.value.r) && Blank(ch.value.r.cs[2])
  {
    hide ReadHeader, ReadOn, ReadChunk;
    assert ReadBasic(EmptyMessage()) == Ok(Basic(0, 2, 1));
    hide EmptyMessage, ReadBasic;
    var c := Get(r.cs, 2);
    EmptyHeader(c, 2 !in r.cs);
    OnCases(c, 2 !in r.cs, 0, EmptyMessage()[1..], r.maxChunk);
    ChunkCases(r, EmptyMessage());
  }

  lemma AgainRead(r: Reader)
    requires Idle(r) && 2 in r.cs && Blank(r.cs[2])
    ensures
      var ch := ReadChunk(r, [AGAIN]);
      ch.Ok? && ch.value.n == 1 && ch.value.msg.Some? && ch.value.r == r
  {
    hide ReadHeader0, ReadHeader1, ReadHeader2, ReadOn, ReadChunk;
    var b: seq<Byte> := [AGAIN];
    assert b[1..] == [];
    OnCases(r.cs[2], false, 3, [], r.maxChunk);
    ChunkCases(r, b);
    assert r.cs[2 := r.cs[2]] == r.cs;
  }

  lemma LargestHeader(c: CS, newcs: bool, b: seq<Byte>)
    requires c.Ok() && c.Left() == 0 && |b| >= 15 && b[..15] == LARGEST_HEADER[3..]
    ensures
      var h := ReadHeader(c, newcs, 0, b);
      h.Ok? && h.value.n == 15 && h.value.cs.Left() == MAX_MSG
  {
    var p := b[..15];
    assert b[0] == p[0] == 255 && b[1] == p[1] == 255 && b[2] == p[2] == 255;
    assert b[3] == p[3] == 64 && b[4] == p[4] == 0 && b[5] == p[5] == 0;
    assert DecU24(b) == TS_EXT && DecU24(b[3..]) == MAX_MSG;
    Header0Cases(c, b);
    hide DecU32, DecU32LE, DecU24;
  }

  lemma LargestRead(r: Reader)
    requires Idle(r) && (64 in r.cs || |r.cs| < MAX_CSIDS) && r.maxChunk >= MAX_MSG
    ensures
      var ch := ReadChunk(r, LargestChunk());
      ch.Ok? && ch.value.n == MAX_CHUNK_BYTES && ch.value.msg.Some?
  {
    hide ReadHeader, ReadOn, ReadChunk;
    var b := LargestChunk();
    assert b[..3] == [1, 0, 0];
    assert b[3..][..15] == LARGEST_HEADER[3..];
    assert ReadBasic(b) == Ok(Basic(0, 64, 3));
    hide LargestChunk, ReadBasic;
    var c := Get(r.cs, 64);
    LargestHeader(c, 64 !in r.cs, b[3..]);
    OnCases(c, 64 !in r.cs, 0, b[3..], r.maxChunk);
    ChunkCases(r, b);
  }

  lemma {:induction false} AgainsRead(k: Session, n: nat, rest: seq<Byte>) returns (k1: Session)
    requires Idle(k.r) && 2 in k.r.cs && Blank(k.r.cs[2])
    ensures k1.r == k.r
    ensures ReadMsgs(k, Repeat(AGAIN, n) + rest).Ok? <==> ReadMsgs(k1, rest).Ok?
    ensures AllSizes(k.r, Repeat(AGAIN, n) + rest) == Ones(n) + AllSizes(k.r, rest)
    decreases n
  {
    hide ReadMsgs, AllSizes, ReadChunk, AckStep, Blank, Idle;
    if n == 0 {
      k1 := k;
      assert Repeat(AGAIN, n) + rest == rest;
    } else {
      var more := Repeat(AGAIN, n - 1) + rest;
      assert Repeat(AGAIN, n) + rest == [AGAIN] + more;
      AgainRead(k.r);
      assert k.r.Ok() by { IdleOk(k.r); }
      WholeChunk(k, [AGAIN], more);
      k1 := AgainsRead(AfterChunk(k, ReadChunk(k.r, [AGAIN]).value), n - 1, rest);
      assert Ones(n) == [1] + Ones(n - 1);
      Assoc([1], Ones(n - 1), AllSizes(k.r, rest));
    }
  }

  lemma IdleOk(r: Reader)
    requires Idle(r)
    ensures r.Ok()
  {}

  /** Small chunks until a window of 2^32 - 4 MiB - 18 is used up, of which
      `used` bytes are used already, and then the largest chunk there is. */
  const SMALL_BYTES := MODULUS - MAX_CHUNK_BYTES

  function LostAck(used: nat): seq<Byte>
    requires used + 12 <= SMALL_BYTES
  {
    EmptyMessage() + (Repeat(AGAIN, SMALL_BYTES - used - 12) + LargestChunk())
  }

  /** A connection on which those chunks can be read. */
  ghost predicate Roomy(r: Reader) { Idle(r) && |r.cs| + 2 <= MAX_CSIDS && r.maxChunk >= MAX_MSG }

  lemma LostAckRead(k: Session, used: nat)
    requires Roomy(k.r) && used + 12 <= SMALL_BYTES
    ensures ReadMsgs(k, LostAck(used)).Ok?
    ensures AllSizes(k.r, LostAck(used)) == [12] + Ones(SMALL_BYTES - used - 12) + [MAX_CHUNK_BYTES]
  {
    hide ReadChunk, AckStep, Blank, ReadMsgs, AllSizes, Idle, Repeat, Ones, LargestChunk, EmptyMessage;
    IdleOk(k.r);
    var n: nat := SMALL_BYTES - used - 12;
    var last := LargestChunk();
    var more := Repeat(AGAIN, n) + last;
    EmptyRead(k.r);
    WholeChunk(k, EmptyMessage(), more);
    var k1 := AfterChunk(k, ReadChunk(k.r, EmptyMessage()).value);
    var k2 := AgainsRead(k1, n, last);
    LargestRead(k1.r);
    assert last + [] == last;
    WholeChunk(k2, last, []);
    NothingToRead(AfterChunk(k2, ReadChunk(k2.r, last).value));
    assert [MAX_CHUNK_BYTES] + [] == [MAX_CHUNK_BYTES];
    Assoc([12], Ones(n), [MAX_CHUNK_BYTES]);
  }

  lemma NothingToRead(k: Session)
    requires k.Ok()
    ensures ReadMsgs(k, []).Ok? && AllSizes(k.r, []) == []
  {}

  lemma {:induction false} SumOnes(n: nat)
    ensures Sum(Ones(n)) == n
    decreases n
  {
    if n > 0 {
      assert Ones(n)[1..] == Ones(n - 1);
      SumOnes(n - 1);
    }
  }

  /** The bound of RunExact is sharp. With any larger window, LostAck is read
      without a single acknowledgement, although with its last byte 2^32 bytes
      are unacknowledged: the wrapped difference is zero. */
  lemma AckMissed(k: Session, total: nat, acked: nat)
    requires Roomy(k.r) && Tracks(k.acker, total, acked) && total - acked + 12 <= SMALL_BYTES
    requires k.acker.ackSize + MAX_CHUNK_BYTES >= MODULUS
    ensures
      var b := LostAck(total - acked);
      && ReadMsgs(k, b).Ok? && ReadMsgs(k, b).value.replies == []
      && Owed(k, total, acked, b).acks == [acked + MODULUS]
  {
    hide ReadMsgs, AllSizes, IdealLoop, AckLoop, Sum, LostAck;
    var b, ones := LostAck(total - acked), SMALL_BYTES - (total - acked) - 12;
    var small := [12] + Ones(ones);
    SumAppend([12], Ones(ones));
    SumOnes(ones);
    SumOne(12);
    LostAckRead(k, total - acked);
    ReadMsgsAcks(k, b);
    NeverAck(k.acker, total, acked, small);
    LoopAppend(k.acker, small, [MAX_CHUNK_BYTES]);
    IdealSnoc(total, acked, k.acker.ackSize, small, MAX_CHUNK_BYTES);
    var a1 := AckLoop(k.acker, small).0;
    WholeTurn(a1, acked);
    OneStep(a1, MAX_CHUNK_BYTES);
  }

  lemma SumOne(n: nat)
    ensures Sum([n]) == n
  {
    assert [n][1..] == [];
  }

  lemma OneStep(a: Acker, n: nat)
    ensures AckLoop(a, [n]) == AckStep(a, n)
  {
    assert [n][1..] == [];
    assert AckStep(a, n).1 + [] == AckStep(a, n).1;
  }

  lemma WholeTurn(a: Acker, acked: nat)
    requires a.ackn == Wrap(acked + SMALL_BYTES) && a.lastackn == Wrap(acked)
    ensures AckStep(a, MAX_CHUNK_BYTES).1 == []
  {
    CountWraps(acked + SMALL_BYTES, MAX_CHUNK_BYTES);
    assert Wrap(acked + MODULUS) == Wrap(acked);
    SubExact(acked, acked);
    hide Wrap, Count32, Sub32;
  }

  /** Acknowledgements are right on every run if and only if window plus largest
      chunk stays below 2^32. */
  lemma AcksRightExactly(k: Session, total: nat, acked: nat)
    requires Roomy(k.r) && Tracks(k.acker, total, acked) && total - acked + 12 <= SMALL_BYTES
    requires 0 < k.acker.ackSize
    ensures
      (forall b :: ReadMsgs(k, b).Ok? ==>
         ReadMsgs(k, b).value.replies == AckReplies(Wrapped(Owed(k, total, acked, b).acks)))
      <==> k.acker.ackSize + MAX_CHUNK_BYTES < MODULUS
  {
    hide ReadMsgs, AllSizes, IdealLoop, Tracks, Owed, LostAck;
    if k.acker.ackSize + MAX_CHUNK_BYTES < MODULUS {
      forall b | ReadMsgs(k, b).Ok?
        ensures ReadMsgs(k, b).value.replies == AckReplies(Wrapped(Owed(k, total, acked, b).acks))
      {
        RunExact(k, total, acked, b);
      }
    } else {
      TracksOrder(k.acker, total, acked);
      AckMissed(k, total, acked);
      assert AckReplies(Wrapped([acked + MODULUS])) != [];
      assert ReadMsgs(k, LostAck(total - acked)).Ok?;
    }
  }

  lemma TracksOrder(a: Acker, total: nat, acked: nat)
    requires Tracks(a, total, acked)
    ensures acked <= total
  {}
}
