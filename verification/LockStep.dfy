/** Chunk-size lock-step (format/rtmp/msg.go, setAndWriteChunkSize and
    handleEvent): the writer switches to the new size before it writes the
    SetChunkSize message, and the reader follows. */
module LockStep {
  import opened Bytes
  import opened Wrappers
  import opened ChunkReader
  import opened ChunkWriter
  import opened Events
  import opened Aggregates

  /** What the writing side does: a message, an aggregate of messages, or a
      change of its chunk size. */
  datatype Action =
    | Say(csid: nat, msg: Msg)
    | SayAll(csid: nat, timenow: U32, msgsid: U32, tags: seq<Tag>, tail: seq<Byte>)
    | SetSize(size: nat)

  function SizeMsg(size: U32): Msg { Msg(0, 0, SET_CHUNK_SIZE, EncU32(size)) }

  function ActionCsid(a: Action): nat { if a.SetSize? then 2 else a.csid }

  predicate Writable(a: Action)
  {
    match a
    case Say(csid, m) => 2 <= csid < 64 && |m.data| <= MAX_MSG
    case SayAll(csid, _, _, tags, tail) => 2 <= csid < 64 && AllOk(tags) && |Layout(tags)| + |tail| <= MAX_MSG
    case SetSize(size) => 0 < size < 0x1_0000_0000
  }

  function ActionMsg(a: Action): Msg
    requires Writable(a)
  {
    match a
    case Say(_, m) => m
    case SayAll(_, timenow, msgsid, tags, tail) => Msg(timenow, msgsid, AGGREGATE, Layout(tags) + tail)
    case SetSize(size) => SizeMsg(size)
  }

  /** The writer's chunk size after an action, which is the size it writes with. */
  function SizeAfter(a: Action, max: nat): nat { if a.SetSize? then a.size else max }

  function ActionChunks(a: Action, max: nat): seq<seq<Byte>>
    requires Writable(a) && max > 0
  {
    MessageChunks(ActionCsid(a), ActionMsg(a), SizeAfter(a, max))
  }

  /** Messages that leave the lock-step alone: no hand-made SetChunkSize, and
      events long enough to parse. */
  predicate Plain(m: Msg) { m.msgtypeid != SET_CHUNK_SIZE && !TooShort(m) }

  ghost predicate AllPlain(msgs: seq<Msg>) { forall i :: 0 <= i < |msgs| ==> Plain(msgs[i]) }

  /** The messages an action stands for at the reader. */
  function Carried(a: Action): seq<Msg>
    requires Writable(a)
  {
    if a.SayAll? && a.tags != [] then TagMsgs(ActionMsg(a), a.tags[0].time, a.tags) else [ActionMsg(a)]
  }

  /** An empty aggregate is left out because it is not read until the message
      behind it has come. */
  ghost predicate Good(a: Action)
  {
    && Writable(a)
    && match a
       case Say(_, m) => Plain(m) && m.msgtypeid != AGGREGATE
       case SayAll(_, _, _, tags, tail) => tags != [] && |tail| < TAG_HEADER + TAG_TRAILER && AllPlain(Carried(a))
       case SetSize(size) => size >= 4
  }

  /** Between messages: no chunk stream and no aggregate has anything left. */
  ghost predicate Idle(k: Session)
  {
    && k.Ok() && (k.agg.Some? ==> NextAggPart(k.agg.value).None?)
    && forall c :: c in k.r.cs ==> k.r.cs[c].Left() == 0
  }

  ghost predicate HasRoom(k: Session, csid: nat) { csid in k.r.cs || |k.r.cs| < MAX_CSIDS }

  // ---- readMsg over the chunks of one message ----

  lemma {:induction false} IdleEmits(csid: nat, cs: Option<CS>, chunks: seq<seq<Byte>>, max: nat)
    requires OkOpt(cs) && chunks != [] && CsRun(csid, cs, chunks, max).Some?
    requires var c := CsRun(csid, cs, chunks, max).value.cs; c.Some? && c.value.Left() == 0
    ensures CsRun(csid, cs, chunks, max).value.msgs != []
    decreases |chunks|
  {
    var on := CsStep(csid, cs, chunks[0], max).value;
    if |chunks| > 1 { IdleEmits(csid, Some(on.cs), chunks[1..], max); }
  }

  /** readMsg, one chunk at a time. */
  lemma ReadMsgChunk(k: Session, b: seq<Byte>, rest: seq<Byte>)
    requires k.Ok() && ReadChunk(k.r, b).Ok? && ReadChunk(k.r, b).value.n == |b|
    ensures
      var ch := ReadChunk(k.r, b).value;
      var k1, acks := AfterChunk(k, ch), AckReplies(AckStep(k.acker, |b|).1);
      ReadMsg(k, b + rest) ==
        if ch.msg.Some? then Ok(Got(k1, |b|, ch.msg.value, acks)) else Shift(ReadMsg(k1, rest), |b|, acks)
  {
    hide ReadChunk, AckStep, AckReplies, Reader.Ok, ReadMsg, Shift;
    ReadChunkStable(k.r, b, rest);
    ReadMsgCases(k, b + rest);
    assert (b + rest)[|b|..] == rest;
  }

  lemma FlattenFirst(chunks: seq<seq<Byte>>, rest: seq<Byte>)
    requires chunks != []
    ensures Flatten(chunks) + rest == chunks[0] + (Flatten(chunks[1..]) + rest)
    ensures |Flatten(chunks)| == |chunks[0]| + |Flatten(chunks[1..])|
    ensures chunks[1..] == [] ==> Flatten(chunks[1..]) == []
  {
    Assoc(chunks[0], Flatten(chunks[1..]), rest);
  }

  /** Of chunks that make one message, only the last completes it. */
  lemma FirstOfOne(csid: nat, cs: Option<CS>, chunks: seq<seq<Byte>>, max: nat, c: CS, m: Msg)
    requires OkOpt(cs) && chunks != [] && c.Ok() && c.Left() == 0
    requires CsRun(csid, cs, chunks, max) == Some(Run(Some(c), [m]))
    ensures
      var on := CsStep(csid, cs, chunks[0], max);
      && on.Some?
      && if chunks[1..] == [] then on.value.cs == c && on.value.msg == Some(m)
         else on.value.msg == None && CsRun(csid, Some(on.value.cs), chunks[1..], max) == Some(Run(Some(c), [m]))
  {
    hide CsStep;
    var on := CsStep(csid, cs, chunks[0], max).value;
    var rr := CsRun(csid, Some(on.cs), chunks[1..], max).value;
    if chunks[1..] == [] {
      NothingMore(csid, on.cs, max);
      assert MsgList(on.msg) + [] == MsgList(on.msg);
    } else {
      IdleEmits(csid, Some(on.cs), chunks[1..], max);
      assert [] + rr.msgs == rr.msgs;
    }
  }

  /** If stream `csid` makes one message of `chunks` and is then idle, readMsg
      returns that message having consumed exactly those chunks. */
  lemma {:induction false} ReadMsgOfChunks(k: Session, csid: nat, chunks: seq<seq<Byte>>, c: CS, m: Msg, rest: seq<Byte>)
    requires k.Ok() && HasRoom(k, csid) && chunks != [] && c.Ok() && c.Left() == 0
    requires CsRun(csid, Lookup(k.r, csid), chunks, k.r.maxChunk) == Some(Run(Some(c), [m]))
    ensures
      var g := ReadMsg(k, Flatten(chunks) + rest);
      && g.Ok? && g.value.n == |Flatten(chunks)| && g.value.msg == m
      && g.value.k.r == Reader(k.r.cs[csid := c], k.r.maxChunk)
      && g.value.k.agg == k.agg
    decreases |chunks|
  {
    hide CsStep, CsRun, ReadChunk, AckStep, AckReplies, ReadMsg, Flatten, Reader.Ok, MsgOf;
    var b, more := chunks[0], chunks[1..];
    FlattenFirst(chunks, rest);
    assert OkOpt(Lookup(k.r, csid)) by { LookupOk(k.r, csid); }
    FirstOfOne(csid, Lookup(k.r, csid), chunks, k.r.maxChunk, c, m);
    var on := CsStep(csid, Lookup(k.r, csid), b, k.r.maxChunk).value;
    StepIsChunk(k.r, csid, b);
    ReadMsgChunk(k, b, Flatten(more) + rest);
    if more != [] {
      var k1 := AfterChunk(k, ReadChunk(k.r, b).value);
      assert k1.r.cs == k.r.cs[csid := on.cs] && k1.r.cs[csid := c] == k.r.cs[csid := c];
      ReadMsgOfChunks(k1, csid, more, c, m, rest);
    }
  }

  lemma LookupOk(r: Reader, csid: nat)
    requires r.Ok()
    ensures OkOpt(Lookup(r, csid))
  {}

  /** readMsg returns a written message, read with any chunk size equal to the
      one it was written with. */
  lemma ReadsMessage(k: Session, csid: nat, m: Msg, rest: seq<Byte>)
    requires Idle(k) && HasRoom(k, csid) && 2 <= csid < 64 && k.r.maxChunk > 0 && |m.data| <= MAX_MSG
    ensures
      var bytes := Flatten(MessageChunks(csid, m, k.r.maxChunk));
      var g := ReadMsg(k, bytes + rest);
      && g.Ok? && g.value.n == |bytes| && g.value.msg == m && Idle(g.value.k)
      && g.value.k.r.maxChunk == k.r.maxChunk && g.value.k.r.cs.Keys == k.r.cs.Keys + {csid}
  {
    var cs := Lookup(k.r, csid);
    var s := Send(0, m.timenow, m.msgsid, m.msgtypeid, m.data);
    assert OkOpt(cs) && (cs.Some? ==> cs.value.Left() == 0);
    MessageIsSend(csid, cs, m, k.r.maxChunk);
    SendRun(csid, cs, s, k.r.maxChunk);
    var c := CS(NextHdr(Last(cs), s), s.data);
    assert MsgOf(c) == m;
    assert SendChunks(csid, cs, s, k.r.maxChunk) != [];
    hide CsRun, MessageChunks, SendChunks, Flatten, NextHdr, ReadMsg, MsgOf, CS.Ok;
    ReadMsgOfChunks(k, csid, SendChunks(csid, cs, s, k.r.maxChunk), c, m, rest);
    StillIdle(k, csid, c, ReadMsg(k, Flatten(MessageChunks(csid, m, k.r.maxChunk)) + rest).value.k);
  }

  lemma StillIdle(k: Session, csid: nat, c: CS, k2: Session)
    requires Idle(k) && c.Ok() && c.Left() == 0 && k2.Ok() && k2.agg == k.agg
    requires k2.r == Reader(k.r.cs[csid := c], k.r.maxChunk)
    ensures Idle(k2) && k2.r.cs.Keys == k.r.cs.Keys + {csid}
  {}

  /** A SetChunkSize message of at least four bytes per chunk is one chunk, so
      the size it was written with does not matter to a reader that takes four. */
  lemma SizeMsgIsOneChunk(size: U32, max: nat)
    requires size >= 4 && max >= 4
    ensures MessageChunks(2, SizeMsg(size), size) == MessageChunks(2, SizeMsg(size), max)
  {
    var d := EncU32(size);
    assert d[..4] == d && d[4..] == [];
  }

  // ---- The lock-step ----

  lemma NoAgg(k: Session)
    requires Idle(k)
    ensures k.Ok() && Idle(k.(agg := None)) && (k.agg.Some? ==> NextAggPart(k.agg.value).None?)
  {}

  /** A round that reads one message and hands it to handleEvent. */
  lemma RoundOfMessage(k: Session, b: seq<Byte>)
    requires Idle(k) && ReadMsg(k.(agg := None), b).Ok?
    requires var m := ReadMsg(k.(agg := None), b).value.msg; m.msgtypeid != AGGREGATE && !TooShort(m)
    ensures
      var s, g := NextRound(k, b), ReadMsg(k.(agg := None), b).value;
      && s.Ok? && s.value.n == g.n && s.value.msg == g.msg && s.value.handled == !Quiet(g.msg)
      && s.value.k.r == (if g.msg.msgtypeid == SET_CHUNK_SIZE then g.k.r.(maxChunk := DecU32(g.msg.data)) else g.k.r)
      && s.value.k.agg == None
  {
    hide ReadMsg, NextAggPart, Pull, Reader.Ok;
    NoAgg(k);
    PullCases(k, b);
    var g := ReadMsg(k.(agg := None), b).value;
    HandleKinds(g.k, g.msg);
  }

  lemma ActionIsWritten(a: Action, max: nat)
    requires Good(a) && max >= 4
    ensures ActionChunks(a, max) == MessageChunks(ActionCsid(a), ActionMsg(a), max)
    ensures
      var m := ActionMsg(a);
      && |m.data| <= MAX_MSG && 2 <= ActionCsid(a) < 64 && !TooShort(m)
      && (m.msgtypeid == AGGREGATE <==> a.SayAll?)
      && (m.msgtypeid == SET_CHUNK_SIZE <==> a.SetSize?) && (a.SetSize? ==> DecU32(m.data) == a.size)
  {
    if a.SetSize? {
      SizeMsgIsOneChunk(a.size, max);
      U32RoundTrip(a.size, []);
      assert EncU32(a.size) + [] == EncU32(a.size);
    }
    hide MessageChunks, EncU32, DecU32, Carried, AllPlain, Layout;
  }

  lemma ReadsAction(k: Session, a: Action, rest: seq<Byte>)
    requires Idle(k) && HasRoom(k, ActionCsid(a)) && k.r.maxChunk >= 4 && Good(a)
    ensures
      var bytes := Flatten(ActionChunks(a, k.r.maxChunk));
      var g := ReadMsg(k.(agg := None), bytes + rest);
      && g.Ok? && g.value.n == |bytes| && g.value.msg == ActionMsg(a) && Idle(g.value.k) && g.value.k.agg == None
      && g.value.k.r.maxChunk == k.r.maxChunk && g.value.k.r.cs.Keys == k.r.cs.Keys + {ActionCsid(a)}
  {
    ActionIsWritten(a, k.r.maxChunk);
    NoAgg(k);
    assert HasRoom(k.(agg := None), ActionCsid(a));
    hide ReadMsg, MessageChunks, ActionChunks, ActionMsg, Flatten, HasRoom, Idle, Good;
    ReadsMessage(k.(agg := None), ActionCsid(a), ActionMsg(a), rest);
  }

  lemma OneAction(k: Session, a: Action, rest: seq<Byte>)
    requires Idle(k) && HasRoom(k, ActionCsid(a)) && k.r.maxChunk >= 4 && Good(a) && !a.SayAll?
    ensures
      var bytes := Flatten(ActionChunks(a, k.r.maxChunk));
      var s := NextRound(k, bytes + rest);
      && s.Ok? && s.value.n == |bytes| && s.value.msg == ActionMsg(a)
      && s.value.handled == !Quiet(ActionMsg(a))
      && Idle(s.value.k) && s.value.k.r.maxChunk == SizeAfter(a, k.r.maxChunk)
      && s.value.k.r.cs.Keys == k.r.cs.Keys + {ActionCsid(a)}
  {
    assert Writable(a);
    hide ReadMsg, NextRound, ActionChunks, ActionMsg, Flatten, HasRoom, Good, Quiet, TooShort;
    ActionIsWritten(a, k.r.maxChunk);
    ReadsAction(k, a, rest);
    RoundOfMessage(k, Flatten(ActionChunks(a, k.r.maxChunk)) + rest);
  }

  ghost predicate GoodAll(acts: seq<Action>) { forall i :: 0 <= i < |acts| ==> Good(acts[i]) }

  ghost function EncodeAll(acts: seq<Action>, max: nat): seq<Byte>
    requires GoodAll(acts) && max > 0
    decreases |acts|
  {
    if acts == [] then []
    else Flatten(ActionChunks(acts[0], max)) + EncodeAll(acts[1..], SizeAfter(acts[0], max))
  }

  function FinalSize(acts: seq<Action>, max: nat): nat
    decreases |acts|
  {
    if acts == [] then max else FinalSize(acts[1..], SizeAfter(acts[0], max))
  }

  /** The messages of a run that are left for the caller. */
  ghost function Shown(acts: seq<Action>): seq<Msg>
    requires GoodAll(acts)
    decreases |acts|
  {
    if acts == [] then []
    else Surfacing(Carried(acts[0])) + Shown(acts[1..])
  }

  /** Those of the messages that handleEvent leaves to the caller. */
  function Surfacing(msgs: seq<Msg>): seq<Msg>
  {
    if msgs == [] then [] else (if Quiet(msgs[0]) then [msgs[0]] else []) + Surfacing(msgs[1..])
  }

  function CsidsOf(acts: seq<Action>): set<nat> { set i | 0 <= i < |acts| :: ActionCsid(acts[i]) }

  lemma CsidsOfCons(acts: seq<Action>)
    requires acts != []
    ensures CsidsOf(acts) == {ActionCsid(acts[0])} + CsidsOf(acts[1..])
  {
    forall c | c in CsidsOf(acts) ensures c in {ActionCsid(acts[0])} + CsidsOf(acts[1..]) {
      var i :| 0 <= i < |acts| && ActionCsid(acts[i]) == c;
      if i > 0 { assert ActionCsid(acts[1..][i - 1]) == c; }
    }
    forall c | c in CsidsOf(acts[1..]) ensures c in CsidsOf(acts) {
      var i :| 0 <= i < |acts[1..]| && ActionCsid(acts[1..][i]) == c;
      assert ActionCsid(acts[i + 1]) == c;
    }
  }

  lemma RoomFor(k: Session, c: nat, all: set<nat>)
    requires c in all && |k.r.cs.Keys + all| <= MAX_CSIDS
    ensures HasRoom(k, c)
  {
    CardinalityMonotone(k.r.cs.Keys + {c}, k.r.cs.Keys + all);
    assert c !in k.r.cs ==> |k.r.cs.Keys + {c}| == |k.r.cs| + 1;
  }

  /** One round of a run. */
  lemma RunRound(k: Session, b: seq<Byte>)
    requires k.Ok() && (b != [] || (k.agg.Some? && NextAggPart(k.agg.value).Some?)) && NextRound(k, b).Ok?
    ensures
      var s := NextRound(k, b).value;
      Events.Run(k, b) == Prepend(if s.handled then [] else [s.msg], Events.Run(s.k, b[s.n..]))
  {
    hide NextRound, NextAggPart, Reader.Ok;
  }

  function Prepend(msgs: seq<Msg>, rr: Result<Surfaced, ReadError>): Result<Surfaced, ReadError>
  {
    if rr.Err? then Err(rr.error) else Ok(rr.value.(msgs := msgs + rr.value.msgs))
  }

  lemma PrependPrepend(a: seq<Msg>, b: seq<Msg>, rr: Result<Surfaced, ReadError>)
    ensures Prepend(a, Prepend(b, rr)) == Prepend(a + b, rr)
    ensures Prepend([], rr) == rr
  {
    if rr.Ok? {
      assert a + (b + rr.value.msgs) == a + b + rr.value.msgs;
      assert [] + rr.value.msgs == rr.value.msgs;
    }
  }

  lemma RoomLeft(k: Session, k1: Session, acts: seq<Action>)
    requires acts != [] && |k.r.cs.Keys + CsidsOf(acts)| <= MAX_CSIDS
    requires k1.r.cs.Keys == k.r.cs.Keys + {ActionCsid(acts[0])}
    ensures HasRoom(k, ActionCsid(acts[0])) && |k1.r.cs.Keys + CsidsOf(acts[1..])| <= MAX_CSIDS
  {
    CsidsOfCons(acts);
    RoomFor(k, ActionCsid(acts[0]), CsidsOf(acts));
    assert k1.r.cs.Keys + CsidsOf(acts[1..]) == k.r.cs.Keys + CsidsOf(acts);
  }

  lemma SurfacingOne(m: Msg)
    ensures Surfacing([m]) == if Quiet(m) then [m] else []
  {
    assert Surfacing([m][1..]) == [];
  }

  /** The rounds of an aggregate in hand: its tags are handled one by one, and
      the chunk streams and the chunk size stay as they are. */
  lemma {:induction false} TagsRun(k: Session, a: Agg, first: U32, tags: seq<Tag>, tail: seq<Byte>, rest: seq<Byte>)
    returns (k1: Session)
    requires k.Ok() && k.agg == Some(a) && Holds(a, tags, tail)
    requires first == (if a.idx == 0 && tags != [] then tags[0].time else a.first) && AllPlain(TagMsgs(a.m, first, tags))
    ensures k1.r == k.r && k1.agg.Some? && NextAggPart(k1.agg.value).None?
    ensures Events.Run(k, rest) == Prepend(Surfacing(TagMsgs(a.m, first, tags)), Events.Run(k1, rest))
    decreases |tags|
  {
    hide Events.Run, Prepend, Pull, HandleEvent, NextAggPart, Reader.Ok, Quiet, Plain, TagMsg, ReadMsg, Surfacing;
    if tags == [] {
      k1 := k;
      assert a.left == tail;
      ShortTail(a);
      SurfacingNone();
      PrependPrepend([], [], Events.Run(k, rest));
    } else {
      PartIsTag(a, tags, tail);
      var m, next := TagMsg(a.m, first, tags[0]), NextAggPart(a).value.next;
      PlainTags(a.m, first, tags);
      PartRound(k, a, m, next, rest);
      var s := NextRound(k, rest).value;
      RunRound(k, rest);
      hide Holds, NextRound;
      assert rest[0..] == rest;
      k1 := TagsRun(s.k, next, first, tags[1..], tail, rest);
      PrependPrepend(if Quiet(m) then [m] else [], Surfacing(TagMsgs(a.m, first, tags[1..])), Events.Run(k1, rest));
    }
  }

  lemma SurfacingNone()
    ensures Surfacing([]) == []
  {}

  lemma PlainTags(m: Msg, first: U32, tags: seq<Tag>)
    requires tags != [] && AllPlain(TagMsgs(m, first, tags))
    ensures Plain(TagMsg(m, first, tags[0])) && AllPlain(TagMsgs(m, first, tags[1..]))
    ensures
      var t := TagMsg(m, first, tags[0]);
      Surfacing(TagMsgs(m, first, tags)) == (if Quiet(t) then [t] else []) + Surfacing(TagMsgs(m, first, tags[1..]))
  {
    hide Plain, TagMsg, Quiet;
    var msgs, more := TagMsgs(m, first, tags), TagMsgs(m, first, tags[1..]);
    assert msgs[1..] == more;
    assert Plain(msgs[0]);
    forall i | 0 <= i < |more| ensures Plain(more[i]) { assert Plain(msgs[i + 1]); }
  }

  /** The round that takes the next part of an aggregate. */
  lemma PartRound(k: Session, a: Agg, m: Msg, next: Agg, b: seq<Byte>)
    requires k.Ok() && k.agg == Some(a) && NextAggPart(a) == Some(Part(m, next)) && Plain(m)
    ensures
      var s := NextRound(k, b);
      && s.Ok? && s.value.n == 0 && s.value.msg == m && s.value.handled == !Quiet(m)
      && s.value.k.r == k.r && s.value.k.agg == Some(next)
  {
    hide NextAggPart, Pull, ReadMsg, HandleEvent, Quiet, Reader.Ok;
    PullCases(k, b);
    HandleKinds(k.(agg := Some(next)), m);
  }

  /** An aggregate read from the wire is opened in the round of its first tag. */
  lemma OpenRun(k: Session, b: seq<Byte>, rest: seq<Byte>)
    requires Idle(k) && b != []
    requires ReadMsg(k.(agg := None), b + rest).Ok?
    requires
      var g := ReadMsg(k.(agg := None), b + rest).value;
      && g.n == |b| && g.msg.msgtypeid == AGGREGATE
      && NextAggPart(OpenAgg(g.msg)).Some? && Plain(NextAggPart(OpenAgg(g.msg)).value.msg)
    ensures
      var g := ReadMsg(k.(agg := None), b + rest).value;
      Events.Run(k, b + rest) == Events.Run(g.k.(agg := Some(OpenAgg(g.msg))), rest)
  {
    hide Events.Run, NextAggPart, Pull, ReadMsg, HandleEvent, Quiet, Plain, Reader.Ok;
    NoAgg(k);
    hide Idle;
    var g := ReadMsg(k.(agg := None), b + rest).value;
    var k1, part := g.k.(agg := Some(OpenAgg(g.msg))), NextAggPart(OpenAgg(g.msg)).value;
    PullCases(k, b + rest);
    assert (b + rest)[|b|..] == rest;
    PullCases(k1, rest);
    PartRound(k1, OpenAgg(g.msg), part.msg, part.next, rest);
    RunRound(k, b + rest);
    RunRound(k1, rest);
  }

  lemma FirstAction(k: Session, a: Action, more: seq<Byte>) returns (k1: Session)
    requires Idle(k) && HasRoom(k, ActionCsid(a)) && k.r.maxChunk >= 4 && Good(a)
    ensures Idle(k1) && k1.r.maxChunk == SizeAfter(a, k.r.maxChunk) >= 4
    ensures k1.r.cs.Keys == k.r.cs.Keys + {ActionCsid(a)}
    ensures Events.Run(k, Flatten(ActionChunks(a, k.r.maxChunk)) + more)
         == Prepend(Surfacing(Carried(a)), Events.Run(k1, more))
  {
    hide Events.Run, NextRound, ReadMsg, ActionChunks, Quiet, Flatten, Prepend, Surfacing;
    hide Plain, TagMsgs, AllPlain, NextAggPart, Layout;
    var b := Flatten(ActionChunks(a, k.r.maxChunk));
    ActionNotEmpty(a, k.r.maxChunk);
    NoAgg(k);
    if a.SayAll? {
      ReadsAction(k, a, more);
      var g := ReadMsg(k.(agg := None), b + more).value;
      var agg := OpenAgg(g.msg);
      PartIsTag(agg, a.tags, a.tail);
      PlainTags(g.msg, a.tags[0].time, a.tags);
      OpenRun(k, b, more);
      k1 := TagsRun(g.k.(agg := Some(agg)), agg, a.tags[0].time, a.tags, a.tail, more);
    } else {
      OneAction(k, a, more);
      k1 := NextRound(k, b + more).value.k;
      assert (b + more)[|b|..] == more;
      RunRound(k, b + more);
      SurfacingOne(ActionMsg(a));
    }
  }

  /** Lock-step over every run of messages, aggregates and size changes (4 or
      more): having read exactly what was written, the reader is idle with the
      writer's chunk size, and the caller has seen exactly the messages that are
      not control events, aggregates tag by tag, whatever bytes follow. */
  lemma {:induction false} ChunkSizeLockStep(k: Session, acts: seq<Action>, rest: seq<Byte>) returns (k': Session)
    requires Idle(k) && k.r.maxChunk >= 4 && GoodAll(acts)
    requires |k.r.cs.Keys + CsidsOf(acts)| <= MAX_CSIDS
    ensures Idle(k') && k'.r.maxChunk == FinalSize(acts, k.r.maxChunk) >= 4
    ensures Events.Run(k, EncodeAll(acts, k.r.maxChunk) + rest) == Prepend(Shown(acts), Events.Run(k', rest))
    decreases |acts|
  {
    hide Events.Run, Prepend, Surfacing, Carried, Flatten, ActionChunks, Writable, AllPlain, Plain, Layout, NextAggPart;
    if acts == [] {
      k' := k;
      assert EncodeAll(acts, k.r.maxChunk) + rest == rest;
      PrependPrepend([], [], Events.Run(k, rest));
    } else {
      var tail := EncodeAll(acts[1..], SizeAfter(acts[0], k.r.maxChunk));
      CsidsOfCons(acts);
      RoomFor(k, ActionCsid(acts[0]), CsidsOf(acts));
      var k1 := FirstAction(k, acts[0], tail + rest);
      RoomLeft(k, k1, acts);
      assert EncodeAll(acts, k.r.maxChunk) + rest == Flatten(ActionChunks(acts[0], k.r.maxChunk)) + (tail + rest);
      k' := ChunkSizeLockStep(k1, acts[1..], rest);
      PrependPrepend(Surfacing(Carried(acts[0])), Shown(acts[1..]), Events.Run(k', rest));
    }
  }

  lemma ActionNotEmpty(a: Action, max: nat)
    requires Writable(a) && max > 0
    ensures Flatten(ActionChunks(a, max)) != []
  {}

  // ---- Sizes below four ----

  lemma TailFirst(c: seq<Byte>, left: seq<Byte>, max: nat)
    requires max > 0 && left != []
    ensures
      var k := Min(|left|, max);
      Flatten(Tail(c, left, max)) == (c + left[..k]) + Flatten(Tail(c, left[k..], max))
  {
    var k := Min(|left|, max);
    assert Tail(c, left, max)[1..] == Tail(c, left[k..], max);
  }

  lemma {:induction false} TailSize(c: seq<Byte>, left: seq<Byte>, max: nat)
    requires max > 0
    ensures |Flatten(Tail(c, left, max))| >= |left|
    decreases |left|
  {
    if left != [] {
      TailFirst(c, left, max);
      hide Tail, Flatten;
      TailSize(c, left[Min(|left|, max)..], max);
    }
  }

  /** What comes after the header of a message written in small chunks. */
  lemma SecondHeader(c: seq<Byte>, left: seq<Byte>, max: nat)
    requires max > 0 && left != [] && c != []
    ensures var t := Flatten(Tail(c, left, max)); |t| > |left| && t[0] == c[0]
  {
    hide Tail, Flatten;
    TailFirst(c, left, max);
    TailSize(c, left[Min(|left|, max)..], max);
  }

  lemma FirstOfMessage(m: Msg, max: nat)
    requires max > 0
    ensures
      var k := Min(|m.data|, max);
      Flatten(MessageChunks(2, m, max))
        == (Header0(2, m.timenow, m.msgtypeid, m.msgsid, |m.data|) + m.data[..k]) + Flatten(Tail(Header3(2, m.timenow), m.data[k..], max))
  {
    hide Header0, Header3, Tail;
    var k := Min(|m.data|, max);
    assert MessageChunks(2, m, max)[1..] == Tail(Header3(2, m.timenow), m.data[k..], max);
  }

  lemma BigByte(q: seq<Byte>, n: nat)
    requires n < 4 <= |q| && q[n] == 194
    ensures DecU32(q) >= 194
  {}

  lemma SmallSizeBytes(n: nat)
    requires 1 <= n < 4
    ensures
      var h := Header0(2, 0, SET_CHUNK_SIZE, 0, 4);
      var b := Flatten(MessageChunks(2, SizeMsg(n), n));
      |b| >= |h| + 4 && b == h + b[|h|..] && DecU32(b[|h|..]) != n
  {
    var h, c, d := Header0(2, 0, SET_CHUNK_SIZE, 0, 4), Header3(2, 0), EncU32(n);
    assert c == [194];
    hide Header0, Header3, Tail, Flatten, MessageChunks, EncU32, DecU32;
    var b, t := Flatten(MessageChunks(2, SizeMsg(n), n)), Flatten(Tail(c, d[n..], n));
    FirstOfMessage(SizeMsg(n), n);
    assert b == (h + d[..n]) + t;
    SecondHeader(c, d[n..], n);
    Assoc(h, d[..n], t);
    var q := d[..n] + t;
    assert b[|h|..] == q && q[n] == t[0];
    BigByte(q, n);
  }

  lemma ReadsSizeMsg(k: Session, q: seq<Byte>)
    requires Idle(k) && HasRoom(k, 2) && k.r.maxChunk >= 4 && |q| >= 4
    ensures
      var s := NextRound(k, Header0(2, 0, SET_CHUNK_SIZE, 0, 4) + q);
      s.Ok? && s.value.handled && s.value.k.r.maxChunk == DecU32(q)
  {
    var v := DecU32(q);
    SizeMsgBytes(q, k.r.maxChunk);
    U32Canonical(q);
    U32RoundTrip(v, []);
    assert EncU32(v) + [] == EncU32(v);
    NoAgg(k);
    assert HasRoom(k.(agg := None), 2);
    hide ReadMsg, MessageChunks, Idle, HasRoom, Flatten, Header0, NextRound, EncU32, DecU32;
    ReadsMessage(k.(agg := None), 2, SizeMsg(v), q[4..]);
    RoundOfMessage(k, Header0(2, 0, SET_CHUNK_SIZE, 0, 4) + q);
  }

  lemma SizeMsgBytes(q: seq<Byte>, max: nat)
    requires max >= 4 && |q| >= 4
    ensures Flatten(MessageChunks(2, SizeMsg(DecU32(q)), max)) + q[4..]
         == Header0(2, 0, SET_CHUNK_SIZE, 0, 4) + q
  {
    var h, p, m := Header0(2, 0, SET_CHUNK_SIZE, 0, 4), q[..4], SizeMsg(DecU32(q));
    U32Canonical(q);
    assert p[4..] == [] && p[..4] == p;
    assert MessageChunks(2, m, max) == [h + p];
    assert Flatten([h + p]) == h + p;
    assert p + q[4..] == q;
  }

  /** Exactly when a size change keeps the two sides in step: the reader ends
      up with the announced size if and only if it is at least four, because a
      smaller one cuts its own announcement into several chunks. */
  lemma SizeChangeInStep(k: Session, n: nat)
    requires Idle(k) && HasRoom(k, 2) && k.r.maxChunk >= 4 && 1 <= n < 0x1_0000_0000
    ensures
      var s := NextRound(k, Flatten(ActionChunks(SetSize(n), k.r.maxChunk)));
      s.Ok? && (s.value.k.r.maxChunk == n <==> n >= 4)
  {
    var b := Flatten(ActionChunks(SetSize(n), k.r.maxChunk));
    assert b + [] == b;
    if n >= 4 {
      OneAction(k, SetSize(n), []);
    } else {
      hide NextRound;
      SmallSizeBytes(n);
      ReadsSizeMsg(k, b[|Header0(2, 0, SET_CHUNK_SIZE, 0, 4)|..]);
    }
  }
}
