/** The message loop above readChunk (format/rtmp/msg.go: readMsg, nextAggPart,
    handleEvent, readMsgHandleEvent): acknowledgements, aggregate messages and
    protocol control events, as functions of the connection state. The optional
    HandleEvent callback is not set. */
module Events {
  import opened Bytes
  import opened Wrappers
  import opened ChunkReader

  const SET_CHUNK_SIZE := 1
  const ACK := 3
  const USER_CONTROL := 4
  const WINDOW_ACK_SIZE := 5
  const AGGREGATE := 22
  const PING_REQUEST := 6
  const PING_RESPONSE := 7

  /** The three counters behind acknowledgements, all uint32. */
  datatype Acker = Acker(ackn: U32, lastackn: U32, ackSize: U32)

  /** Counting the n bytes of one chunk, and the acknowledgement readMsg then sends. */
  function AckStep(a: Acker, n: nat): (Acker, seq<U32>)
  {
    var ackn := Count32(a.ackn, n);
    if a.ackSize != 0 && Sub32(ackn, a.lastackn) > a.ackSize then
      (Acker(ackn, ackn, a.ackSize), [ackn])
    else
      (a.(ackn := ackn), [])
  }

  /** A control message written back to the peer on chunk stream 2. */
  datatype Reply = Reply(msgtypeid: Byte, data: seq<Byte>)

  function AckReplies(acks: seq<U32>): seq<Reply>
  {
    if acks == [] then [] else [Reply(ACK, EncU32(acks[0]))] + AckReplies(acks[1..])
  }

  /** An aggregate message being unpacked: aggreadp, aggfirsttm and aggidx. */
  datatype Agg = Agg(m: Msg, left: seq<Byte>, first: U32, idx: nat)

  function OpenAgg(m: Msg): Agg { Agg(m, m.data, 0, 0) }

  datatype Part = Part(msg: Msg, next: Agg)

  const TAG_HEADER := 11
  const TAG_TRAILER := 4

  function TagTime(b: seq<Byte>): U32
    requires |b| >= TAG_HEADER
  {
    DecU24(b[4..]) + (b[7] as int) * 0x100_0000
  }

  /** nextAggPart. message.Start cannot fail here: a part is shorter than the
      aggregate, which was itself at most 4 MiB. */
  function NextAggPart(a: Agg): (p: Option<Part>)
    ensures p.Some? ==> |p.value.next.left| + 15 <= |a.left| && |p.value.msg.data| <= |a.left|
  {
    if |a.left| < TAG_HEADER + TAG_TRAILER then None else
    var datalen := DecU24(a.left[1..]);
    if |a.left| - TAG_HEADER < datalen + TAG_TRAILER then None else
    var time := TagTime(a.left);
    var first := if a.idx == 0 then time else a.first;
    Some(Part(Msg((a.m.timenow + time - first) % 0x1_0000_0000, DecU24(a.left[8..]), a.left[0],
                  a.left[TAG_HEADER..TAG_HEADER + datalen]),
              Agg(a.m, a.left[TAG_HEADER + datalen + TAG_TRAILER..], first, a.idx + 1)))
  }

  datatype Session = Session(r: Reader, acker: Acker, agg: Option<Agg>) {
    predicate Ok() { r.Ok() }
  }

  /** A message taken off the connection: the new state, the bytes consumed and
      the replies written meanwhile. */
  datatype Got = Got(k: Session, n: nat, msg: Msg, replies: seq<Reply>)

  /** readMsg: chunks are read, and counted, until one completes a message. */
  function ReadMsg(k: Session, b: seq<Byte>): (g: Result<Got, ReadError>)
    requires k.Ok()
    ensures g.Ok? ==> g.value.k.Ok() && 1 <= g.value.n <= |b| && g.value.k.agg == k.agg
    ensures g.Ok? ==> g.value.k.r.maxChunk == k.r.maxChunk
    decreases |b|
  {
    var ch :- ReadChunk(k.r, b);
    var (acker, acks) := AckStep(k.acker, ch.n);
    var k1 := k.(r := ch.r, acker := acker);
    if ch.msg.Some? then Ok(Got(k1, ch.n, ch.msg.value, AckReplies(acks))) else
    var rest :- ReadMsg(k1, b[ch.n..]);
    Ok(rest.(n := ch.n + rest.n, replies := AckReplies(acks) + rest.replies))
  }

  /** The inner loop of readMsgHandleEvent: the next part of the aggregate in
      hand, else the next wire message; a wire aggregate is opened instead. */
  function Pull(k: Session, b: seq<Byte>): (g: Result<Got, ReadError>)
    requires k.Ok()
    ensures g.Ok? ==> g.value.k.Ok() && g.value.n <= |b|
    ensures g.Ok? ==> g.value.n > 0 || (k.agg.Some? && g.value.k.agg.Some? && |g.value.k.agg.value.left| < |k.agg.value.left|)
    decreases |b|
  {
    var part := if k.agg.Some? then NextAggPart(k.agg.value) else None;
    if part.Some? then
      Ok(Got(k.(agg := Some(part.value.next)), 0, part.value.msg, []))
    else
      var g :- ReadMsg(k.(agg := None), b);
      if g.msg.msgtypeid != AGGREGATE then Ok(g) else
      var rest :- Pull(g.k.(agg := Some(OpenAgg(g.msg))), b[g.n..]);
      Ok(rest.(n := g.n + rest.n, replies := g.replies + rest.replies))
  }

  datatype Handled = Handled(k: Session, handled: bool, replies: seq<Reply>)

  /** handleEvent. */
  function HandleEvent(k: Session, m: Msg): (h: Result<Handled, ReadError>)
    ensures h.Ok? ==> h.value.k.agg == k.agg && h.value.k.r.cs == k.r.cs
  {
    if m.msgtypeid == SET_CHUNK_SIZE then
      if |m.data| < 4 then Err(EventTooShort)
      else Ok(Handled(k.(r := k.r.(maxChunk := DecU32(m.data))), true, []))
    else if m.msgtypeid == WINDOW_ACK_SIZE then
      if |m.data| < 4 then Err(EventTooShort)
      else Ok(Handled(k.(acker := k.acker.(ackSize := DecU32(m.data))), true, []))
    else if m.msgtypeid == USER_CONTROL then
      if |m.data| < 2 then Err(EventTooShort)
      else if DecU16(m.data) != PING_REQUEST then Ok(Handled(k, false, []))
      else if |m.data| < 6 then Err(EventTooShort)
      else Ok(Handled(k, true, [Reply(USER_CONTROL, EncU16(PING_RESPONSE) + EncU32(DecU32(m.data[2..])))]))
    else
      Ok(Handled(k, false, []))
  }

  /** Messages handleEvent leaves to the caller. */
  predicate Quiet(m: Msg)
  {
    && m.msgtypeid != SET_CHUNK_SIZE && m.msgtypeid != WINDOW_ACK_SIZE
    && (m.msgtypeid == USER_CONTROL ==> |m.data| >= 2 && DecU16(m.data) != PING_REQUEST)
  }

  /** Control events cut off before their last field. */
  predicate TooShort(m: Msg)
  {
    || ((m.msgtypeid == SET_CHUNK_SIZE || m.msgtypeid == WINDOW_ACK_SIZE) && |m.data| < 4)
    || (m.msgtypeid == USER_CONTROL && (|m.data| < 2 || (DecU16(m.data) == PING_REQUEST && |m.data| < 6)))
  }

  /** What handleEvent does to the connection, in three kinds of message. */
  lemma HandleKinds(k: Session, m: Msg)
    ensures Quiet(m) <==> HandleEvent(k, m) == Ok(Handled(k, false, []))
    ensures TooShort(m) <==> HandleEvent(k, m) == Err(EventTooShort)
    ensures !Quiet(m) && !TooShort(m) ==> HandleEvent(k, m).Ok? && HandleEvent(k, m).value.handled
    ensures HandleEvent(k, m).Ok? && m.msgtypeid != SET_CHUNK_SIZE ==> HandleEvent(k, m).value.k.r == k.r
  {}

  /** A ping request is answered with the four bytes it carried. */
  lemma PingEchoed(k: Session, stamp: seq<Byte>, rest: seq<Byte>)
    requires |stamp| == 4
    ensures HandleEvent(k, Msg(0, 0, USER_CONTROL, EncU16(PING_REQUEST) + stamp + rest))
         == Ok(Handled(k, true, [Reply(USER_CONTROL, EncU16(PING_RESPONSE) + stamp)]))
  {
    var data := EncU16(PING_REQUEST) + stamp + rest;
    Assoc(EncU16(PING_REQUEST), stamp, rest);
    U16RoundTrip(PING_REQUEST, stamp + rest);
    assert data[2..] == stamp + rest;
    U32Canonical(data[2..]);
    assert data[2..][..4] == stamp;
  }

  /** One round of the outer loop of readMsgHandleEvent. */
  datatype Round = Round(k: Session, n: nat, msg: Msg, handled: bool, replies: seq<Reply>)

  function NextRound(k: Session, b: seq<Byte>): (s: Result<Round, ReadError>)
    requires k.Ok()
    ensures s.Ok? ==> s.value.k.Ok() && s.value.n <= |b|
    ensures s.Ok? ==> s.value.n > 0 || (k.agg.Some? && s.value.k.agg.Some? && |s.value.k.agg.value.left| < |k.agg.value.left|)
  {
    var g :- Pull(k, b);
    var h :- HandleEvent(g.k, g.msg);
    Ok(Round(h.k, g.n, g.msg, h.handled, g.replies + h.replies))
  }

  function AggLeft(k: Session): nat { if k.agg.Some? then |k.agg.value.left| else 0 }

  /** readMsgHandleEvent: rounds until a message is left for the caller. It
      terminates because a round consumes input or shortens the aggregate. */
  function ReadMsgHandleEvent(k: Session, b: seq<Byte>): (g: Result<Got, ReadError>)
    requires k.Ok()
    ensures g.Ok? ==> g.value.k.Ok() && g.value.n <= |b|
    decreases |b|, AggLeft(k)
  {
    var s :- NextRound(k, b);
    if !s.handled then Ok(Got(s.k, s.n, s.msg, s.replies)) else
    var rest :- ReadMsgHandleEvent(s.k, b[s.n..]);
    Ok(rest.(n := s.n + rest.n, replies := s.replies + rest.replies))
  }

  /** What readMsgHandleEvent returns is never an event it acts on itself. */
  lemma {:induction false} SurfacedIsQuiet(k: Session, b: seq<Byte>)
    requires k.Ok() && ReadMsgHandleEvent(k, b).Ok?
    ensures Quiet(ReadMsgHandleEvent(k, b).value.msg)
    decreases |b|, AggLeft(k)
  {
    hide Pull, HandleEvent, Quiet, TooShort;
    var g := Pull(k, b).value;
    HandleKinds(g.k, g.msg);
    var s := NextRound(k, b).value;
    if s.handled { SurfacedIsQuiet(s.k, b[s.n..]); }
  }

  // ---- The three loops, one step at a time ----

  /** The connection after one chunk of readMsg. */
  function AfterChunk(k: Session, ch: Chunk): Session { k.(r := ch.r, acker := AckStep(k.acker, ch.n).0) }

  /** An outcome reached after `n` more bytes and `replies` more replies. */
  function Shift(g: Result<Got, ReadError>, n: nat, replies: seq<Reply>): Result<Got, ReadError>
  {
    if g.Err? then g else Ok(g.value.(n := n + g.value.n, replies := replies + g.value.replies))
  }

  lemma ShiftZero(g: Result<Got, ReadError>)
    ensures Shift(g, 0, []) == g
  {
    if g.Ok? { assert [] + g.value.replies == g.value.replies; }
  }

  lemma ShiftShift(g: Result<Got, ReadError>, m: nat, a: seq<Reply>, n: nat, b: seq<Reply>)
    ensures Shift(Shift(g, m, a), n, b) == Shift(g, n + m, b + a)
  {
    if g.Ok? { Assoc(b, a, g.value.replies); }
  }

  lemma ReadMsgCases(k: Session, b: seq<Byte>)
    requires k.Ok()
    ensures
      var ch := ReadChunk(k.r, b);
      ReadMsg(k, b) ==
        if ch.Err? then Err(ch.error)
        else
          var k1, acks := AfterChunk(k, ch.value), AckReplies(AckStep(k.acker, ch.value.n).1);
          if ch.value.msg.Some? then Ok(Got(k1, ch.value.n, ch.value.msg.value, acks))
          else Shift(ReadMsg(k1, b[ch.value.n..]), ch.value.n, acks)
  {
    hide ReadChunk, AckStep, AckReplies, CS.Ok, Reader.Ok;
  }

  lemma PullCases(k: Session, b: seq<Byte>)
    requires k.Ok()
    ensures
      var part := if k.agg.Some? then NextAggPart(k.agg.value) else None;
      var g := ReadMsg(k.(agg := None), b);
      Pull(k, b) ==
        if part.Some? then Ok(Got(k.(agg := Some(part.value.next)), 0, part.value.msg, []))
        else if g.Err? || g.value.msg.msgtypeid != AGGREGATE then g
        else Shift(Pull(g.value.k.(agg := Some(OpenAgg(g.value.msg))), b[g.value.n..]), g.value.n, g.value.replies)
  {
    hide ReadMsg, NextAggPart, Reader.Ok, OpenAgg;
  }

  lemma HandleCases(k: Session, b: seq<Byte>)
    requires k.Ok()
    ensures
      var g := Pull(k, b);
      ReadMsgHandleEvent(k, b) ==
        if g.Err? then g
        else
          var h := HandleEvent(g.value.k, g.value.msg);
          if h.Err? then Err(h.error)
          else if !h.value.handled then Ok(Got(h.value.k, g.value.n, g.value.msg, g.value.replies + h.value.replies))
          else Shift(ReadMsgHandleEvent(h.value.k, b[g.value.n..]), g.value.n, g.value.replies + h.value.replies)
  {
    hide Pull, HandleEvent, Reader.Ok;
  }

  /** A whole run: rounds until the input is used up, with the messages left
      for the caller. */
  datatype Surfaced = Surfaced(k: Session, msgs: seq<Msg>)

  function Run(k: Session, b: seq<Byte>): (s: Result<Surfaced, ReadError>)
    requires k.Ok()
    decreases |b|, AggLeft(k)
  {
    if b == [] && (k.agg.None? || NextAggPart(k.agg.value).None?) then Ok(Surfaced(k, [])) else
    var s :- NextRound(k, b);
    var rest :- Run(s.k, b[s.n..]);
    Ok(Surfaced(rest.k, (if s.handled then [] else [s.msg]) + rest.msgs))
  }

  /** A run that hands out something starts with a round. */
  lemma RunCases(k: Session, b: seq<Byte>)
    requires k.Ok() && Run(k, b).Ok? && Run(k, b).value.msgs != []
    ensures
      var s := NextRound(k, b);
      && s.Ok? && Run(s.value.k, b[s.value.n..]).Ok?
      && var rest := Run(s.value.k, b[s.value.n..]).value;
         Run(k, b) == Ok(Surfaced(rest.k, (if s.value.handled then [] else [s.value.msg]) + rest.msgs))
  {
    hide NextRound, NextAggPart;
  }

  /** A run hands out what repeated calls of readMsgHandleEvent return. */
  lemma {:induction false} RunIsCalls(k: Session, b: seq<Byte>)
    requires k.Ok() && Run(k, b).Ok? && Run(k, b).value.msgs != []
    ensures
      var g := ReadMsgHandleEvent(k, b);
      && g.Ok? && g.value.msg == Run(k, b).value.msgs[0]
      && Run(g.value.k, b[g.value.n..]) == Ok(Run(k, b).value.(msgs := Run(k, b).value.msgs[1..]))
    decreases |b|, AggLeft(k)
  {
    hide Pull, HandleEvent, NextAggPart, Reader.Ok, Run, ReadMsgHandleEvent;
    HandleCases(k, b);
    RunCases(k, b);
    var s := NextRound(k, b).value;
    if s.handled {
      RunIsCalls(s.k, b[s.n..]);
      var g := ReadMsgHandleEvent(s.k, b[s.n..]).value;
      assert b[s.n..][g.n..] == b[s.n + g.n..];
      assert [] + Run(s.k, b[s.n..]).value.msgs == Run(s.k, b[s.n..]).value.msgs;
    }
  }
}
