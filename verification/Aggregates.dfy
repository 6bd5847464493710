/** Aggregate messages (format/rtmp/msg.go, nextAggPart; flvio.go, FillTagHeader
    and FillTagTrailer): an aggregate laid out as tags is unpacked into exactly
    those tags, before anything more is read from the wire. */
module Aggregates {
  import opened Bytes
  import opened Wrappers
  import opened ChunkReader
  import opened Events

  /** A tag inside an aggregate; the trailer is skipped unread. */
  datatype Tag = Tag(kind: Byte, time: U32, streamId: U24, data: seq<Byte>, trailer: seq<Byte>) {
    predicate Ok() { |data| < 0x100_0000 && |trailer| == TAG_TRAILER }
  }

  function TagBytes(t: Tag): seq<Byte>
    requires t.Ok()
  {
    [t.kind] + EncU24(|t.data|) + EncU24(t.time % 0x100_0000) + [t.time / 0x100_0000] + EncU24(t.streamId)
    + t.data + t.trailer
  }

  predicate AllOk(tags: seq<Tag>) { forall i :: 0 <= i < |tags| ==> tags[i].Ok() }

  function Layout(tags: seq<Tag>): seq<Byte>
    requires AllOk(tags)
  {
    if tags == [] then [] else TagBytes(tags[0]) + Layout(tags[1..])
  }

  /** The message a tag stands for: its time is taken relative to the first. */
  function TagMsg(m: Msg, first: U32, t: Tag): Msg
  {
    Msg((m.timenow + t.time - first) % 0x1_0000_0000, t.streamId, t.kind, t.data)
  }

  lemma TagFields(t: Tag, rest: seq<Byte>)
    requires t.Ok()
    ensures
      var b := TagBytes(t) + rest;
      && |b| >= TAG_HEADER + |t.data| + TAG_TRAILER
      && b[0] == t.kind && DecU24(b[1..]) == |t.data| && TagTime(b) == t.time && DecU24(b[8..]) == t.streamId
      && b[TAG_HEADER..TAG_HEADER + |t.data|] == t.data
      && b[TAG_HEADER + |t.data| + TAG_TRAILER..] == rest
  {
    var b := TagBytes(t) + rest;
    var lo, hi := t.time % 0x100_0000, t.time / 0x100_0000;
    var z := t.data + t.trailer + rest;
    assert b[1..] == EncU24(|t.data|) + (EncU24(lo) + [hi] + EncU24(t.streamId) + z);
    U24RoundTrip(|t.data|, EncU24(lo) + [hi] + EncU24(t.streamId) + z);
    assert b[4..] == EncU24(lo) + ([hi] + EncU24(t.streamId) + z);
    U24RoundTrip(lo, [hi] + EncU24(t.streamId) + z);
    assert b[7] == hi;
    assert b[8..] == EncU24(t.streamId) + z;
    U24RoundTrip(t.streamId, z);
    assert b[TAG_HEADER..] == z;
  }

  /** What the aggregate in hand still holds. */
  ghost predicate Holds(a: Agg, tags: seq<Tag>, tail: seq<Byte>)
  {
    && AllOk(tags) && a.left == Layout(tags) + tail && |tail| < TAG_HEADER + TAG_TRAILER
  }

  lemma PartIsTag(a: Agg, tags: seq<Tag>, tail: seq<Byte>)
    requires Holds(a, tags, tail) && tags != []
    ensures
      var first := if a.idx == 0 then tags[0].time else a.first;
      var next := Agg(a.m, Layout(tags[1..]) + tail, first, a.idx + 1);
      NextAggPart(a) == Some(Part(TagMsg(a.m, first, tags[0]), next)) && Holds(next, tags[1..], tail)
  {
    hide NextAggPart, TagBytes;
    var rest := Layout(tags[1..]) + tail;
    Assoc(TagBytes(tags[0]), Layout(tags[1..]), tail);
    PartOf(a, tags[0], rest);
  }

  lemma PartOf(a: Agg, t: Tag, rest: seq<Byte>)
    requires t.Ok() && a.left == TagBytes(t) + rest
    ensures
      var first := if a.idx == 0 then t.time else a.first;
      NextAggPart(a) == Some(Part(TagMsg(a.m, first, t), Agg(a.m, rest, first, a.idx + 1)))
  {
    TagFields(t, rest);
    hide TagBytes, DecU24, TagTime;
  }

  /** `count` calls of the inner loop of readMsgHandleEvent. */
  datatype Pulled = Pulled(k: Session, n: nat, msgs: seq<Msg>)

  function PullN(k: Session, b: seq<Byte>, count: nat): (p: Result<Pulled, ReadError>)
    requires k.Ok()
    ensures p.Ok? ==> p.value.k.Ok() && p.value.n <= |b|
    decreases count
  {
    if count == 0 then Ok(Pulled(k, 0, [])) else
    var g :- Pull(k, b);
    var rest :- PullN(g.k, b[g.n..], count - 1);
    Ok(Pulled(rest.k, g.n + rest.n, [g.msg] + rest.msgs))
  }

  function TagMsgs(m: Msg, first: U32, tags: seq<Tag>): (r: seq<Msg>)
    ensures |r| == |tags| && forall i :: 0 <= i < |tags| ==> r[i] == TagMsg(m, first, tags[i])
  {
    seq(|tags|, i requires 0 <= i < |tags| => TagMsg(m, first, tags[i]))
  }

  /** Nothing is read from the wire while the aggregate in hand has parts, and
      afterwards the connection reads on as if there were no aggregate. */
  lemma {:induction false} PartsThenWire(k: Session, a: Agg, tags: seq<Tag>, tail: seq<Byte>, b: seq<Byte>)
    requires k.Ok() && k.agg == Some(a) && Holds(a, tags, tail)
    ensures
      var first := if a.idx == 0 && tags != [] then tags[0].time else a.first;
      var last := Agg(a.m, tail, first, a.idx + |tags|);
      && PullN(k, b, |tags|) == Ok(Pulled(k.(agg := Some(last)), 0, TagMsgs(a.m, first, tags)))
      && Pull(k.(agg := Some(last)), b) == Pull(k.(agg := None), b)
    decreases |tags|
  {
    hide ReadMsg, NextAggPart, Reader.Ok, Pull;
    PullCases(k, b);
    if tags == [] {
      assert a.left == tail;
      ShortTail(a);
      assert k.(agg := None).(agg := None) == k.(agg := None);
      PullCases(k.(agg := None), b);
    } else {
      PartIsTag(a, tags, tail);
      var part := NextAggPart(a).value;
      var k1 := k.(agg := Some(part.next));
      assert b[0..] == b;
      hide Holds;
      PartsThenWire(k1, part.next, tags[1..], tail, b);
      var first := part.next.first;
      assert TagMsgs(a.m, first, tags) == [TagMsg(a.m, first, tags[0])] + TagMsgs(a.m, first, tags[1..]);
    }
  }

  lemma ShortTail(a: Agg)
    requires |a.left| < TAG_HEADER + TAG_TRAILER
    ensures NextAggPart(a).None?
  {}

  /** The inner loop. When the next wire message is an aggregate of the
      non-empty list `tags` (with fewer than 15 stray bytes behind them), the
      following |tags| messages pulled are those tags, once each and in order,
      at the aggregate's time plus the tag's time minus the first tag's, modulo
      2^32; meanwhile exactly the aggregate's own bytes are consumed, and the
      message after them is the next one on the wire. */
  lemma AggregateIsPulled(k: Session, b: seq<Byte>, tags: seq<Tag>, tail: seq<Byte>)
    requires k.Ok() && k.agg.None? && ReadMsg(k, b).Ok? && tags != [] && AllOk(tags)
    requires |tail| < TAG_HEADER + TAG_TRAILER
    requires ReadMsg(k, b).value.msg.msgtypeid == AGGREGATE
    requires ReadMsg(k, b).value.msg.data == Layout(tags) + tail
    ensures
      var g := ReadMsg(k, b).value;
      var p := PullN(k, b, |tags|);
      && p.Ok? && p.value.n == g.n && p.value.msgs == TagMsgs(g.msg, tags[0].time, tags)
      && Pull(p.value.k, b[p.value.n..]) == Pull(g.k, b[g.n..])
  {
    hide ReadMsg, NextAggPart, PullN;
    var g := ReadMsg(k, b).value;
    var a, rest := OpenAgg(g.msg), b[g.n..];
    assert k.(agg := None) == k;
    PartsThenWire(g.k.(agg := Some(a)), a, tags, tail, rest);
    assert g.k.(agg := Some(a)).(agg := None) == g.k;
    PullNFromWire(k, b, |tags|);
  }

  /** Reading on after the aggregate has been opened. */
  lemma PullNFromWire(k: Session, b: seq<Byte>, count: nat)
    requires k.Ok() && k.agg.None? && ReadMsg(k, b).Ok? && count > 0
    requires ReadMsg(k, b).value.msg.msgtypeid == AGGREGATE
    requires
      var g := ReadMsg(k, b).value;
      PullN(g.k.(agg := Some(OpenAgg(g.msg))), b[g.n..], count).Ok?
    ensures
      var g := ReadMsg(k, b).value;
      var p := PullN(g.k.(agg := Some(OpenAgg(g.msg))), b[g.n..], count).value;
      PullN(k, b, count) == Ok(p.(n := g.n + p.n))
  {
    hide ReadMsg, NextAggPart, Pull, Reader.Ok;
    var g := ReadMsg(k, b).value;
    var k1, rest := g.k.(agg := Some(OpenAgg(g.msg))), b[g.n..];
    assert k.(agg := None) == k;
    PullCases(k, b);
    var p1 := Pull(k1, rest).value;
    assert rest[p1.n..] == b[g.n + p1.n..];
  }

  // ---- What the caller of readMsgHandleEvent sees ----

  /** `count` calls of readMsgHandleEvent. */
  function CallN(k: Session, b: seq<Byte>, count: nat): (p: Result<Pulled, ReadError>)
    requires k.Ok()
    ensures p.Ok? ==> p.value.k.Ok() && p.value.n <= |b| && |p.value.msgs| == count
    decreases count
  {
    if count == 0 then Ok(Pulled(k, 0, [])) else
    var g :- ReadMsgHandleEvent(k, b);
    var rest :- CallN(g.k, b[g.n..], count - 1);
    Ok(Pulled(rest.k, g.n + rest.n, [g.msg] + rest.msgs))
  }

  ghost predicate AllQuiet(msgs: seq<Msg>) { forall i :: 0 <= i < |msgs| ==> Quiet(msgs[i]) }

  /** A quiet message goes straight through to the caller. */
  lemma CallIsPull(k: Session, b: seq<Byte>)
    requires k.Ok() && Pull(k, b).Ok? && Quiet(Pull(k, b).value.msg)
    ensures ReadMsgHandleEvent(k, b) == Pull(k, b)
  {
    hide Pull, HandleEvent, Quiet, ReadMsgHandleEvent, Reader.Ok;
    HandleCases(k, b);
    var g := Pull(k, b).value;
    HandleKinds(g.k, g.msg);
    assert g.replies + [] == g.replies;
  }

  lemma {:induction false} CallsArePulls(k: Session, b: seq<Byte>, count: nat)
    requires k.Ok() && PullN(k, b, count).Ok? && AllQuiet(PullN(k, b, count).value.msgs)
    ensures CallN(k, b, count) == PullN(k, b, count)
    decreases count
  {
    hide Pull, ReadMsgHandleEvent, Quiet, Reader.Ok;
    if count > 0 {
      var g := Pull(k, b).value;
      var msgs := PullN(k, b, count).value.msgs;
      assert Quiet(msgs[0]);
      CallIsPull(k, b);
      assert forall i :: 0 <= i < |msgs[1..]| ==> msgs[1..][i] == msgs[i + 1];
      assert msgs[1..] == PullN(g.k, b[g.n..], count - 1).value.msgs;
      CallsArePulls(g.k, b[g.n..], count - 1);
    }
  }

  lemma {:induction false} CalledAreQuiet(k: Session, b: seq<Byte>, count: nat)
    requires k.Ok() && CallN(k, b, count).Ok?
    ensures AllQuiet(CallN(k, b, count).value.msgs)
    decreases count
  {
    hide ReadMsgHandleEvent, Quiet;
    if count > 0 {
      var g := ReadMsgHandleEvent(k, b).value;
      SurfacedIsQuiet(k, b);
      CalledAreQuiet(g.k, b[g.n..], count - 1);
    }
  }

  /** Equal pulls make equal calls. */
  lemma PullDecidesCall(k: Session, k2: Session, b: seq<Byte>, b2: seq<Byte>)
    requires k.Ok() && k2.Ok() && Pull(k, b) == Pull(k2, b2) && b == b2
    ensures ReadMsgHandleEvent(k, b) == ReadMsgHandleEvent(k2, b2)
  {
    hide Pull, HandleEvent, ReadMsgHandleEvent, Reader.Ok;
    HandleCases(k, b);
    HandleCases(k2, b2);
  }

  /** Aggregate expansion. When the next wire message is an aggregate of the
      non-empty list `tags`, the following |tags| calls of readMsgHandleEvent
      return exactly those tags, having consumed exactly the aggregate's bytes,
      if and only if no tag is an event that handleEvent takes for itself; the
      call after them goes on with the wire as if the aggregate had not been. */
  lemma AggregateExpansion(k: Session, b: seq<Byte>, tags: seq<Tag>, tail: seq<Byte>)
    requires k.Ok() && k.agg.None? && ReadMsg(k, b).Ok? && tags != [] && AllOk(tags)
    requires |tail| < TAG_HEADER + TAG_TRAILER
    requires ReadMsg(k, b).value.msg.msgtypeid == AGGREGATE
    requires ReadMsg(k, b).value.msg.data == Layout(tags) + tail
    ensures
      var g := ReadMsg(k, b).value;
      var c := CallN(k, b, |tags|);
      var msgs := TagMsgs(g.msg, tags[0].time, tags);
      && ((c.Ok? && c.value.n == g.n && c.value.msgs == msgs) <==> AllQuiet(msgs))
      && (AllQuiet(msgs) ==> ReadMsgHandleEvent(c.value.k, b[g.n..]) == ReadMsgHandleEvent(g.k, b[g.n..]))
  {
    hide ReadMsg, PullN, CallN, Pull, ReadMsgHandleEvent, AllQuiet;
    var g := ReadMsg(k, b).value;
    var msgs := TagMsgs(g.msg, tags[0].time, tags);
    AggregateIsPulled(k, b, tags, tail);
    if AllQuiet(msgs) {
      CallsArePulls(k, b, |tags|);
      PullDecidesCall(PullN(k, b, |tags|).value.k, g.k, b[g.n..], b[g.n..]);
    } else if CallN(k, b, |tags|).Ok? {
      CalledAreQuiet(k, b, |tags|);
    }
  }

  /** A message handleEvent takes costs one round and adds its replies. */
  lemma TakenRound(k: Session, b: seq<Byte>, k1: Session, m: Msg, h: Handled)
    requires k.Ok() && Pull(k, b) == Ok(Got(k1, 0, m, [])) && HandleEvent(k1, m) == Ok(h) && h.handled && h.k.Ok()
    ensures
      var rest := ReadMsgHandleEvent(h.k, b);
      ReadMsgHandleEvent(k, b) == if rest.Ok? then Ok(rest.value.(replies := h.replies + rest.value.replies)) else rest
  {
    hide Pull, HandleEvent, ReadMsgHandleEvent, Reader.Ok;
    HandleCases(k, b);
    assert b[0..] == b;
    assert [] + h.replies == h.replies;
  }

  /** A round handleEvent fails on ends the call. */
  lemma FailedRound(k: Session, b: seq<Byte>)
    requires k.Ok() && Pull(k, b).Ok? && HandleEvent(Pull(k, b).value.k, Pull(k, b).value.msg).Err?
    ensures ReadMsgHandleEvent(k, b) == Err(HandleEvent(Pull(k, b).value.k, Pull(k, b).value.msg).error)
  {
    hide Pull, HandleEvent, ReadMsgHandleEvent, Reader.Ok;
    HandleCases(k, b);
  }

  /** A tag that is an event never surfaces: too short a one is an error, any
      other changes the chunk size or the window or is answered, and the same
      call goes on with the rest of the aggregate. */
  lemma EventTag(k: Session, a: Agg, tags: seq<Tag>, tail: seq<Byte>, b: seq<Byte>)
    requires k.Ok() && k.agg == Some(a) && Holds(a, tags, tail) && tags != []
    requires !Quiet(TagMsg(a.m, if a.idx == 0 then tags[0].time else a.first, tags[0]))
    ensures
      var first := if a.idx == 0 then tags[0].time else a.first;
      var m := TagMsg(a.m, first, tags[0]);
      var k1 := k.(agg := Some(Agg(a.m, Layout(tags[1..]) + tail, first, a.idx + 1)));
      var c := ReadMsgHandleEvent(k, b);
      if TooShort(m) then c == Err(EventTooShort)
      else if m.msgtypeid == SET_CHUNK_SIZE then
        c == ReadMsgHandleEvent(k1.(r := k.r.(maxChunk := DecU32(m.data))), b)
      else if m.msgtypeid == WINDOW_ACK_SIZE then
        c == ReadMsgHandleEvent(k1.(acker := k.acker.(ackSize := DecU32(m.data))), b)
      else
        var pong := Reply(USER_CONTROL, EncU16(PING_RESPONSE) + EncU32(DecU32(m.data[2..])));
        var rest := ReadMsgHandleEvent(k1, b);
        c == if rest.Ok? then Ok(rest.value.(replies := [pong] + rest.value.replies)) else rest
  {
    hide ReadMsg, NextAggPart, ReadMsgHandleEvent, EncU32, DecU32, EncU16, DecU16;
    PartIsTag(a, tags, tail);
    var g := Pull(k, b).value;
    if TooShort(g.msg) {
      HandleKinds(g.k, g.msg);
      FailedRound(k, b);
    } else {
      var h := HandleEvent(g.k, g.msg).value;
      TakenRound(k, b, g.k, g.msg, h);
      var rest := ReadMsgHandleEvent(h.k, b);
      assert rest.Ok? ==> [] + rest.value.replies == rest.value.replies;
    }
  }
}
