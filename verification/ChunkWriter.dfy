/** The writing side of the RTMP chunk layer (format/rtmp/msg.go, writeMsg2),
    and reassembly: however the chunks of several chunk streams are
    interleaved, readChunk returns every stream's messages intact.

    writeMsg2 only opens messages with type-0 headers (form 0 below). Peers also
    use the delta headers, so a sender here may open a message in any of the
    four forms; forms 1 to 3 need an earlier message on the same stream. */
module ChunkWriter {
  import opened Bytes
  import opened Wrappers
  import opened ChunkReader

  function TimeField(ts: U32): seq<Byte> { EncU24(if ts >= TS_EXT then TS_EXT else ts) }

  function TimeExt(ts: U32): seq<Byte> { if ts >= TS_EXT then EncU32(ts) else [] }

  /** fillChunkHeader0 with the message length in place, cut to its 24 bits. */
  function Header0(csid: nat, ts: U32, msgtypeid: Byte, msgsid: U32, msgdatalen: nat): seq<Byte>
  {
    [csid % 64] + TimeField(ts) + EncU24(msgdatalen % 0x100_0000) + [msgtypeid] + EncU32LE(msgsid) + TimeExt(ts)
  }

  /** fillChunkHeader3. */
  function Header3(csid: nat, ts: U32): seq<Byte> { [csid % 64 + 192] + TimeExt(ts) }

  /** One message as a sender hands it over; `ts` is a time or a delta. */
  datatype Send = Send(form: nat, ts: U32, msgsid: U32, msgtypeid: Byte, data: seq<Byte>)

  function Last(cs: Option<CS>): Hdr { if cs.None? then NewCS.h else cs.value.h }

  /** The header state after `s` when the previous one on the stream was `h`. */
  function NextHdr(h: Hdr, s: Send): Hdr
    requires |s.data| <= MAX_MSG
  {
    var x := SetExt(h, Time(s.ts, s.ts >= TS_EXT, 0));
    if s.form == 0 then
      x.(timenow := s.ts, msgsid := s.msgsid, msgtypeid := s.msgtypeid, msgdatalen := |s.data|, msghdrtype := 0)
    else if s.form == 1 then
      x.(timedelta := s.ts, timenow := Add32(h.timenow, s.ts), msgtypeid := s.msgtypeid,
         msgdatalen := |s.data|, msghdrtype := 1)
    else if s.form == 2 then
      x.(timedelta := s.ts, timenow := Add32(h.timenow, s.ts), msghdrtype := 2)
    else if h.msghdrtype != 0 then
      h.(timenow := Add32(h.timenow, h.timedelta))
    else if h.hastimeext then
      h.(timenow := s.ts, timeext := s.ts)
    else
      h
  }

  /** What a sender may put on a stream whose last header was `last`: the
      compressed forms leave out fields that must then be unchanged. */
  predicate Sendable(cs: Option<CS>, s: Send)
  {
    var h := Last(cs);
    && s.form <= 3 && |s.data| <= MAX_MSG
    && (s.form != 0 ==> cs.Some? && s.msgsid == h.msgsid)
    && (s.form >= 2 ==> |s.data| == h.msgdatalen && s.msgtypeid == h.msgtypeid)
    && (s.form == 3 && h.msghdrtype != 0 ==>
          s.ts == h.timedelta && (h.hastimeext ==> h.timeext == h.timedelta))
  }

  function Opening(csid: nat, h: Hdr, s: Send): (b: seq<Byte>)
    requires |s.data| <= MAX_MSG
    ensures |b| >= 1 && (s.form <= 3 ==> b[0] == csid % 64 + 64 * s.form)
  {
    if s.form == 0 then
      Header0(csid, s.ts, s.msgtypeid, s.msgsid, |s.data|)
    else if s.form == 1 then
      [csid % 64 + 64] + TimeField(s.ts) + EncU24(|s.data|) + [s.msgtypeid] + TimeExt(s.ts)
    else if s.form == 2 then
      [csid % 64 + 128] + TimeField(s.ts) + TimeExt(s.ts)
    else
      [csid % 64 + 192] + (if h.hastimeext then EncU32(s.ts) else [])
  }

  function Continuing(csid: nat, h: Hdr): seq<Byte>
  {
    [csid % 64 + 192] + (if h.hastimeext then EncU32(h.timeext) else [])
  }

  /** The chunks after the first: slices of what is left, each under `cont`. */
  function Tail(cont: seq<Byte>, left: seq<Byte>, max: nat): (r: seq<seq<Byte>>)
    requires max > 0
  {
    if left == [] then []
    else
      var k := Min(|left|, max);
      [cont + left[..k]] + Tail(cont, left[k..], max)
  }

  /** All chunks of one message. */
  function Chunks(head: seq<Byte>, cont: seq<Byte>, data: seq<Byte>, max: nat): (r: seq<seq<Byte>>)
    requires max > 0
  {
    var k := Min(|data|, max);
    [head + data[..k]] + Tail(cont, data[k..], max)
  }

  function SendChunks(csid: nat, cs: Option<CS>, s: Send, max: nat): seq<seq<Byte>>
    requires max > 0 && |s.data| <= MAX_MSG
  {
    Chunks(Opening(csid, Last(cs), s), Continuing(csid, NextHdr(Last(cs), s)), s.data, max)
  }

  /** Everything writeMsg2 writes for one message, chunk by chunk. */
  function MessageChunks(csid: nat, m: Msg, max: nat): seq<seq<Byte>>
    requires max > 0
  {
    Chunks(Header0(csid, m.timenow, m.msgtypeid, m.msgsid, |m.data|), Header3(csid, m.timenow), m.data, max)
  }

  /** writeMsg2 is the sender that always uses form 0. */
  lemma MessageIsSend(csid: nat, cs: Option<CS>, m: Msg, max: nat)
    requires max > 0 && |m.data| <= MAX_MSG
    ensures MessageChunks(csid, m, max)
         == SendChunks(csid, cs, Send(0, m.timenow, m.msgsid, m.msgtypeid, m.data), max)
  {}

  ghost predicate SendableAll(cs: Option<CS>, ss: seq<Send>)
    decreases |ss|
  {
    ss != [] ==>
      Sendable(cs, ss[0]) && SendableAll(Some(CS(NextHdr(Last(cs), ss[0]), ss[0].data)), ss[1..])
  }

  ghost function AllChunks(csid: nat, cs: Option<CS>, ss: seq<Send>, max: nat): seq<seq<Byte>>
    requires max > 0 && SendableAll(cs, ss)
    decreases |ss|
  {
    if ss == [] then []
    else
      SendChunks(csid, cs, ss[0], max)
      + AllChunks(csid, Some(CS(NextHdr(Last(cs), ss[0]), ss[0].data)), ss[1..], max)
  }

  /** The messages a list of sends stands for. */
  ghost function Messages(cs: Option<CS>, ss: seq<Send>): seq<Msg>
    requires SendableAll(cs, ss)
    decreases |ss|
  {
    if ss == [] then []
    else
      var c := CS(NextHdr(Last(cs), ss[0]), ss[0].data);
      [MsgOf(c)] + Messages(Some(c), ss[1..])
  }

  // ---- One chunk stream on its own ----

  datatype Run = Run(cs: Option<CS>, msgs: seq<Msg>)

  ghost predicate OkOpt(cs: Option<CS>) { cs.Some? ==> cs.value.Ok() }

  function Known(cs: Option<CS>): CS { if cs.None? then NewCS else cs.value }

  /** One whole chunk of stream `csid`, read by the per-stream part of
      readChunk; None when it is rejected or not consumed to its last byte. */
  ghost function CsStep(csid: nat, cs: Option<CS>, b: seq<Byte>, max: nat): (r: Option<OnCS>)
    requires OkOpt(cs)
    ensures r.Some? ==> r.value.cs.Ok()
  {
    var basic := ReadBasic(b);
    if basic.Err? || basic.value.csid != csid then None else
    var on := ReadOn(Known(cs), cs.None?, basic.value.fmt, b[basic.value.n..], max);
    if on.Err? || basic.value.n + on.value.n != |b| then None else Some(on.value)
  }

  function MsgList(m: Option<Msg>): seq<Msg> { if m.Some? then [m.value] else [] }

  ghost function CsRun(csid: nat, cs: Option<CS>, chunks: seq<seq<Byte>>, max: nat): (r: Option<Run>)
    requires OkOpt(cs)
    ensures r.Some? ==> OkOpt(r.value.cs)
    decreases |chunks|
  {
    if chunks == [] then Some(Run(cs, [])) else
    var on := CsStep(csid, cs, chunks[0], max);
    if on.None? then None else
    var rest := CsRun(csid, Some(on.value.cs), chunks[1..], max);
    if rest.None? then None else
    Some(Run(rest.value.cs, MsgList(on.value.msg) + rest.value.msgs))
  }

  lemma CsRunOne(csid: nat, cs: Option<CS>, b: seq<Byte>, rest: seq<seq<Byte>>, max: nat)
    requires OkOpt(cs) && CsStep(csid, cs, b, max).Some?
    ensures
      var on := CsStep(csid, cs, b, max).value;
      var rr := CsRun(csid, Some(on.cs), rest, max);
      CsRun(csid, cs, [b] + rest, max)
        == if rr.None? then None else Some(Run(rr.value.cs, MsgList(on.msg) + rr.value.msgs))
  {
    assert ([b] + rest)[1..] == rest;
  }

  lemma {:induction false} CsRunAppend(csid: nat, cs: Option<CS>, a: seq<seq<Byte>>, b: seq<seq<Byte>>, max: nat)
    requires OkOpt(cs) && CsRun(csid, cs, a, max).Some?
    ensures
      var ra := CsRun(csid, cs, a, max).value;
      var rb := CsRun(csid, ra.cs, b, max);
      CsRun(csid, cs, a + b, max) == if rb.None? then None else Some(Run(rb.value.cs, ra.msgs + rb.value.msgs))
    decreases |a|
  {
    hide CsStep;
    if a == [] {
      assert a + b == b;
      var rb := CsRun(csid, cs, b, max);
      if rb.Some? { assert [] + rb.value.msgs == rb.value.msgs; }
    } else {
      var on := CsStep(csid, cs, a[0], max).value;
      CsRunAppend(csid, Some(on.cs), a[1..], b, max);
      CsRunOne(csid, cs, a[0], a[1..] + b, max);
      assert a + b == [a[0]] + (a[1..] + b);
      var ra, rb := CsRun(csid, Some(on.cs), a[1..], max).value, CsRun(csid, Some(on.cs), a[1..] + b, max);
      if rb.Some? {
        var tail := CsRun(csid, ra.cs, b, max).value;
        assert MsgList(on.msg) + (ra.msgs + tail.msgs) == MsgList(on.msg) + ra.msgs + tail.msgs;
      }
    }
  }

  lemma ContinueStep(csid: nat, h: Hdr, got: seq<Byte>, p: seq<Byte>, max: nat)
    requires 2 <= csid < 64 && h.msghdrtype <= 2 && p != []
    requires |got| + |p| <= h.msgdatalen <= MAX_MSG && |p| == Min(h.msgdatalen - |got|, max)
    ensures
      var c := CS(h, got + p);
      CsStep(csid, Some(CS(h, got)), Continuing(csid, h) + p, max)
        == Some(OnCS(c, |Continuing(csid, h) + p| - 1, if c.Left() == 0 then Some(MsgOf(c)) else None))
  {
    var cont := Continuing(csid, h);
    assert (cont + p)[1..] == cont[1..] + p;
    if h.hastimeext { U32RoundTrip(h.timeext, p); }
    assert ReadHeader(CS(h, got), false, 3, cont[1..] + p) == Ok(Head(CS(h, got), |cont| - 1));
    assert (cont[1..] + p)[|cont| - 1..|cont| - 1 + |p|] == p;
  }

  /** Reading the chunks that continue a message. */
  lemma {:induction false} TailRun(csid: nat, h: Hdr, got: seq<Byte>, left: seq<Byte>, max: nat)
    requires 2 <= csid < 64 && max > 0 && h.msghdrtype <= 2
    requires |got| + |left| == h.msgdatalen <= MAX_MSG && left != []
    ensures CsRun(csid, Some(CS(h, got)), Tail(Continuing(csid, h), left, max), max)
         == Some(Run(Some(CS(h, got + left)), [MsgOf(CS(h, got + left))]))
    decreases |left|
  {
    hide CsStep, Continuing;
    var k := Min(|left|, max);
    var cont := Continuing(csid, h);
    ContinueStep(csid, h, got, left[..k], max);
    CsRunOne(csid, Some(CS(h, got)), cont + left[..k], Tail(cont, left[k..], max), max);
    assert got + left[..k] + left[k..] == got + left;
    if k < |left| {
      TailRun(csid, h, got + left[..k], left[k..], max);
      assert [] + [MsgOf(CS(h, got + left))] == [MsgOf(CS(h, got + left))];
    } else {
      assert left[..k] == left;
      assert [MsgOf(CS(h, got + left))] + [] == [MsgOf(CS(h, got + left))];
    }
  }

  lemma Header0Is(csid: nat, ts: U32, typ: Byte, sid: U32, len: U24, p: seq<Byte>)
    ensures
      var tf := if ts >= TS_EXT then TS_EXT else ts;
      Header0(csid, ts, typ, sid, len)[1..] + p == EncU24(tf) + (EncU24(len) + ([typ] + (EncU32LE(sid) + (TimeExt(ts) + p))))
  {
    assert len % 0x100_0000 == len;
    hide EncU24, EncU32LE, TimeExt;
  }

  lemma Header0Fields(csid: nat, ts: U32, typ: Byte, sid: U32, len: U24, p: seq<Byte>)
    ensures
      var tf := if ts >= TS_EXT then TS_EXT else ts;
      var b := Header0(csid, ts, typ, sid, len)[1..] + p;
      && |b| >= 11 && DecU24(b) == tf && DecU24(b[3..]) == len && b[6] == typ
      && DecU32LE(b[7..]) == sid && b[11..] == TimeExt(ts) + p
  {
    hide EncU24, DecU24, EncU32LE, DecU32LE, TimeExt, Header0;
    var tf, e := if ts >= TS_EXT then TS_EXT else ts, TimeExt(ts) + p;
    Header0Is(csid, ts, typ, sid, len, p);
    Eleven(EncU24(tf), EncU24(len), typ, EncU32LE(sid), e);
    U24RoundTrip(tf, EncU24(len) + ([typ] + (EncU32LE(sid) + e)));
    U24RoundTrip(len, [typ] + (EncU32LE(sid) + e));
    U32LERoundTrip(sid, e);
  }

  lemma Eleven(t: seq<Byte>, n: seq<Byte>, typ: Byte, sid: seq<Byte>, e: seq<Byte>)
    requires |t| == |n| == 3 && |sid| == 4
    ensures
      var b := t + (n + ([typ] + (sid + e)));
      |b| == 11 + |e| && b[3..] == n + ([typ] + (sid + e)) && b[6] == typ && b[7..] == sid + e && b[11..] == e
  {
    var b := t + (n + ([typ] + (sid + e)));
    assert b[3..] == n + ([typ] + (sid + e));
    assert b[7..] == sid + e;
    assert b[11..] == e;
  }

  lemma TimeReads(ts: U32, p: seq<Byte>)
    ensures ReadTime(if ts >= TS_EXT then TS_EXT else ts, TimeExt(ts) + p)
         == Ok(Time(ts, ts >= TS_EXT, |TimeExt(ts)|))
  {
    U32RoundTrip(ts, p);
  }

  lemma OpeningReads0(c: CS, csid: nat, s: Send, p: seq<Byte>)
    requires c.Ok() && c.Left() == 0 && s.form == 0 && |s.data| <= MAX_MSG
    ensures
      var b := Opening(csid, c.h, s)[1..];
      ReadHeader0(c, b + p) == Ok(Head(CS(NextHdr(c.h, s), []), |b|))
  {
    Header0Fields(csid, s.ts, s.msgtypeid, s.msgsid, |s.data|, p);
    TimeReads(s.ts, p);
    Header0Cases(c, Opening(csid, c.h, s)[1..] + p);
    hide Header0, DecU24, DecU32LE, ReadTime, TimeExt, ReadHeader0;
  }

  lemma Header1Fields(h: Hdr, csid: nat, s: Send, p: seq<Byte>)
    requires s.form == 1 && |s.data| <= MAX_MSG
    ensures
      var tf := if s.ts >= TS_EXT then TS_EXT else s.ts;
      var b := Opening(csid, h, s)[1..] + p;
      && |b| >= 7 && |Opening(csid, h, s)[1..]| == 7 + |TimeExt(s.ts)| && DecU24(b) == tf
      && DecU24(b[3..]) == |s.data| && b[6] == s.msgtypeid && b[7..] == TimeExt(s.ts) + p
  {
    var tf := if s.ts >= TS_EXT then TS_EXT else s.ts;
    var b, e, len: U24 := Opening(csid, h, s)[1..] + p, TimeExt(s.ts) + p, |s.data|;
    hide EncU24, DecU24, TimeExt;
    assert b == EncU24(tf) + (EncU24(len) + ([s.msgtypeid] + e));
    hide Opening;
    U24RoundTrip(tf, EncU24(len) + ([s.msgtypeid] + e));
    U24RoundTrip(len, [s.msgtypeid] + e);
    assert b[3..] == EncU24(len) + ([s.msgtypeid] + e);
    assert b[7..] == e;
  }

  lemma OpeningReads1(c: CS, csid: nat, s: Send, p: seq<Byte>)
    requires c.Ok() && c.Left() == 0 && s.form == 1 && |s.data| <= MAX_MSG
    ensures
      var b := Opening(csid, c.h, s)[1..];
      ReadHeader1(c, b + p) == Ok(Head(CS(NextHdr(c.h, s), []), |b|))
  {
    hide Opening, DecU24, ReadTime, TimeExt, ReadHeader1;
    Header1Fields(c.h, csid, s, p);
    TimeReads(s.ts, p);
    Header1Cases(c, Opening(csid, c.h, s)[1..] + p);
  }

  lemma OpeningReads2(c: CS, csid: nat, s: Send, p: seq<Byte>)
    requires c.Ok() && c.Left() == 0 && s.form == 2 && |s.data| == c.h.msgdatalen
    ensures
      var b := Opening(csid, c.h, s)[1..];
      ReadHeader2(c, b + p) == Ok(Head(CS(NextHdr(c.h, s), []), |b|))
  {
    var b := Opening(csid, c.h, s)[1..] + p;
    var tf := if s.ts >= TS_EXT then TS_EXT else s.ts;
    assert b == EncU24(tf) + (TimeExt(s.ts) + p);
    U24RoundTrip(tf, TimeExt(s.ts) + p);
    assert b[3..] == TimeExt(s.ts) + p;
    TimeReads(s.ts, p);
    Header2Cases(c, b);
    hide EncU24, DecU24, ReadTime, TimeExt, ReadHeader2;
  }

  lemma OpeningReads3(c: CS, csid: nat, s: Send, p: seq<Byte>)
    requires c.Ok() && c.Left() == 0 && s.form == 3 && Sendable(Some(c), s)
    ensures
      var b := Opening(csid, c.h, s)[1..];
      ReadHeader3(c, b + p) == Ok(Head(CS(NextHdr(c.h, s), []), |b|))
  {
    U32RoundTrip(s.ts, p);
  }

  /** The opening header of a message is read back as the header state the
      sender computed, whatever payload follows. */
  lemma OpeningReads(csid: nat, cs: Option<CS>, s: Send, p: seq<Byte>)
    requires OkOpt(cs) && Sendable(cs, s) && (cs.Some? ==> cs.value.Left() == 0)
    ensures
      var b := Opening(csid, Last(cs), s)[1..];
      ReadHeader(Known(cs), cs.None?, s.form, b + p) == Ok(Head(CS(NextHdr(Last(cs), s), []), |b|))
  {
    if s.form == 0 { OpeningReads0(Known(cs), csid, s, p); }
    if s.form == 1 { OpeningReads1(Known(cs), csid, s, p); }
    if s.form == 2 { OpeningReads2(Known(cs), csid, s, p); }
    if s.form == 3 { OpeningReads3(Known(cs), csid, s, p); }
  }

  lemma OnFromHead(c: CS, newcs: bool, fmt: nat, b: seq<Byte>, p: seq<Byte>, max: nat, h: Hdr)
    requires c.Ok() && fmt < 4 && CS(h, []).Ok() && |p| == Min(h.msgdatalen, max)
    requires ReadHeader(c, newcs, fmt, b + p) == Ok(Head(CS(h, []), |b|))
    ensures CS(h, p).Ok()
    ensures ReadOn(c, newcs, fmt, b + p, max)
         == Ok(OnCS(CS(h, p), |b + p|, if |p| == h.msgdatalen then Some(MsgOf(CS(h, p))) else None))
  {
    assert (b + p)[|b|..|b| + |p|] == p;
    assert [] + p == p;
  }

  lemma StepOf(csid: nat, cs: Option<CS>, b: seq<Byte>, fmt: nat, max: nat, on: OnCS)
    requires OkOpt(cs) && fmt < 4 && b != [] && ReadBasic(b) == Ok(Basic(fmt, csid, 1))
    requires ReadOn(Known(cs), cs.None?, fmt, b[1..], max) == Ok(on) && 1 + on.n == |b|
    ensures CsStep(csid, cs, b, max) == Some(on)
  {
    hide ReadOn, ReadBasic;
  }

  lemma NextOk(cs: Option<CS>, s: Send)
    requires Sendable(cs, s) && OkOpt(cs)
    ensures var h := NextHdr(Last(cs), s); h.msgdatalen == |s.data| <= MAX_MSG && h.msghdrtype <= 2
  {}

  lemma OpenStep(csid: nat, cs: Option<CS>, s: Send, max: nat)
    requires 2 <= csid < 64 && max > 0
    requires OkOpt(cs) && Sendable(cs, s) && (cs.Some? ==> cs.value.Left() == 0)
    ensures
      var p := s.data[..Min(|s.data|, max)];
      var c := CS(NextHdr(Last(cs), s), p);
      var b := Opening(csid, Last(cs), s) + p;
      && c.Ok() && c.h.msgdatalen == |s.data|
      && CsStep(csid, cs, b, max) == Some(OnCS(c, |b| - 1, if c.Left() == 0 then Some(MsgOf(c)) else None))
  {
    hide ReadHeader, ReadOn, Opening, NextHdr, CsStep;
    var p := s.data[..Min(|s.data|, max)];
    var head, h := Opening(csid, Last(cs), s), NextHdr(Last(cs), s);
    NextOk(cs, s);
    assert (head + p)[1..] == head[1..] + p;
    assert ReadBasic(head + p) == Ok(Basic(s.form, csid, 1));
    hide ReadBasic;
    OpeningReads(csid, cs, s, p);
    OnFromHead(Known(cs), cs.None?, s.form, head[1..], p, max, h);
    hide Sendable;
    var msg := if |p| == h.msgdatalen then Some(MsgOf(CS(h, p))) else None;
    StepOf(csid, cs, head + p, s.form, max, OnCS(CS(h, p), |head[1..] + p|, msg));
  }

  lemma NothingMore(csid: nat, c: CS, max: nat)
    requires c.Ok()
    ensures CsRun(csid, Some(c), [], max) == Some(Run(Some(c), []))
  {}

  lemma NoTail(cont: seq<Byte>, max: nat)
    requires max > 0
    ensures Tail(cont, [], max) == []
  {}

  /** One message, chunked, is one message on its stream. */
  lemma SendRun(csid: nat, cs: Option<CS>, s: Send, max: nat)
    requires 2 <= csid < 64 && max > 0
    requires OkOpt(cs) && Sendable(cs, s) && (cs.Some? ==> cs.value.Left() == 0)
    ensures
      var c := CS(NextHdr(Last(cs), s), s.data);
      && c.Ok() && c.Left() == 0
      && CsRun(csid, cs, SendChunks(csid, cs, s, max), max) == Some(Run(Some(c), [MsgOf(c)]))
  {
    hide NextHdr, CsStep, CsRun, Opening, Continuing, Tail;
    var h := NextHdr(Last(cs), s);
    var k := Min(|s.data|, max);
    NextOk(cs, s);
    OpenStep(csid, cs, s, max);
    var head, tail := Opening(csid, Last(cs), s) + s.data[..k], Tail(Continuing(csid, h), s.data[k..], max);
    CsRunOne(csid, cs, head, tail, max);
    assert s.data[..k] + s.data[k..] == s.data;
    if k < |s.data| {
      TailRun(csid, h, s.data[..k], s.data[k..], max);
      assert [] + [MsgOf(CS(h, s.data))] == [MsgOf(CS(h, s.data))];
    } else {
      assert s.data[..k] == s.data && s.data[k..] == [];
      NothingMore(csid, CS(h, s.data), max);
      NoTail(Continuing(csid, h), max);
      assert [MsgOf(CS(h, s.data))] + [] == [MsgOf(CS(h, s.data))];
    }
  }

  /** All messages of one stream, one after the other. */
  lemma {:induction false} StreamRun(csid: nat, cs: Option<CS>, ss: seq<Send>, max: nat)
    requires 2 <= csid < 64 && max > 0
    requires OkOpt(cs) && (cs.Some? ==> cs.value.Left() == 0) && SendableAll(cs, ss)
    ensures CsRun(csid, cs, AllChunks(csid, cs, ss, max), max).Some?
    ensures CsRun(csid, cs, AllChunks(csid, cs, ss, max), max).value.msgs == Messages(cs, ss)
    decreases |ss|
  {
    if ss != [] {
      var c := CS(NextHdr(Last(cs), ss[0]), ss[0].data);
      SendRun(csid, cs, ss[0], max);
      StreamRun(csid, Some(c), ss[1..], max);
      CsRunAppend(csid, cs, SendChunks(csid, cs, ss[0], max), AllChunks(csid, Some(c), ss[1..], max), max);
    }
  }

  // ---- Several chunk streams at once ----

  /** A chunk on the wire, and a delivered message, each with its stream. */
  datatype Piece = Piece(csid: nat, bytes: seq<Byte>)
  datatype Tagged = Tagged(csid: nat, msg: Msg)

  function Wire(w: seq<Piece>): seq<Byte>
  {
    if w == [] then [] else w[0].bytes + Wire(w[1..])
  }

  function Project(w: seq<Piece>, csid: nat): seq<seq<Byte>>
  {
    if w == [] then []
    else (if w[0].csid == csid then [w[0].bytes] else []) + Project(w[1..], csid)
  }

  function Delivered(out: seq<Tagged>, csid: nat): seq<Msg>
  {
    if out == [] then []
    else (if out[0].csid == csid then [out[0].msg] else []) + Delivered(out[1..], csid)
  }

  function Csids(w: seq<Piece>): set<nat> { set i | 0 <= i < |w| :: w[i].csid }

  datatype Outcome = Outcome(r: Reader, out: seq<Tagged>)

  /** Calling readChunk until the input is used up. */
  function ReadAll(r: Reader, b: seq<Byte>): Result<Outcome, ReadError>
    requires r.Ok()
    decreases |b|
  {
    if b == [] then Ok(Outcome(r, [])) else
    var ch :- ReadChunk(r, b);
    var rest :- ReadAll(ch.r, b[ch.n..]);
    Ok(Outcome(rest.r, TagList(ch.csid, ch.msg) + rest.out))
  }

  function Lookup(r: Reader, csid: nat): Option<CS> { if csid in r.cs then Some(r.cs[csid]) else None }

  /** The streams of `w` accept the chunks addressed to them. */
  ghost predicate EachAccepts(r: Reader, w: seq<Piece>)
    requires r.Ok()
  {
    forall c: nat :: CsRun(c, Lookup(r, c), Project(w, c), r.maxChunk).Some?
  }

  lemma FirstAccepted(r: Reader, w: seq<Piece>)
    requires r.Ok() && w != [] && EachAccepts(r, w)
    ensures CsStep(w[0].csid, Lookup(r, w[0].csid), w[0].bytes, r.maxChunk).Some?
  {
    hide CsStep;
    assert CsRun(w[0].csid, Lookup(r, w[0].csid), Project(w, w[0].csid), r.maxChunk).Some?;
    assert Project(w, w[0].csid)[0] == w[0].bytes;
  }

  lemma StepIsChunk(r: Reader, csid: nat, b: seq<Byte>)
    requires r.Ok() && (csid in r.cs || |r.cs| < MAX_CSIDS)
    requires CsStep(csid, Lookup(r, csid), b, r.maxChunk).Some?
    ensures
      var on := CsStep(csid, Lookup(r, csid), b, r.maxChunk).value;
      ReadChunk(r, b) == Ok(Chunk(Reader(r.cs[csid := on.cs], r.maxChunk), csid, |b|, on.msg))
  {
    hide ReadOn;
  }

  lemma FirstPiece(r: Reader, w: seq<Piece>)
    requires r.Ok() && w != [] && |r.cs.Keys + Csids(w)| <= MAX_CSIDS && EachAccepts(r, w)
    ensures
      var on := CsStep(w[0].csid, Lookup(r, w[0].csid), w[0].bytes, r.maxChunk);
      && on.Some?
      && ReadChunk(r, w[0].bytes) == Ok(Chunk(Reader(r.cs[w[0].csid := on.value.cs], r.maxChunk),
                                              w[0].csid, |w[0].bytes|, on.value.msg))
  {
    hide CsStep, ReadChunk, EachAccepts;
    var c0 := w[0].csid;
    FirstAccepted(r, w);
    assert c0 in Csids(w);
    CardinalityMonotone(r.cs.Keys + {c0}, r.cs.Keys + Csids(w));
    assert c0 !in r.cs ==> |r.cs.Keys + {c0}| == |r.cs| + 1;
    StepIsChunk(r, c0, w[0].bytes);
  }

  /** `out` holds for every stream what the stream alone makes of its chunks. */
  ghost predicate Agrees(r: Reader, w: seq<Piece>, out: seq<Tagged>)
    requires r.Ok() && EachAccepts(r, w)
  {
    forall c: nat :: Delivered(out, c) == CsRun(c, Lookup(r, c), Project(w, c), r.maxChunk).value.msgs
  }

  lemma StreamCons(r: Reader, w: seq<Piece>, r': Reader, on: OnCS, c: nat)
    requires r.Ok() && r'.Ok() && w != [] && EachAccepts(r, w)
    requires CsStep(w[0].csid, Lookup(r, w[0].csid), w[0].bytes, r.maxChunk) == Some(on)
    requires r' == Reader(r.cs[w[0].csid := on.cs], r.maxChunk)
    ensures CsRun(c, Lookup(r', c), Project(w[1..], c), r.maxChunk).Some?
    ensures CsRun(c, Lookup(r, c), Project(w, c), r.maxChunk).value.msgs
         == (if w[0].csid == c then MsgList(on.msg) else [])
            + CsRun(c, Lookup(r', c), Project(w[1..], c), r.maxChunk).value.msgs
  {
    hide CsStep;
    assert CsRun(c, Lookup(r, c), Project(w, c), r.maxChunk).Some?;
    if c == w[0].csid {
      CsRunOne(c, Lookup(r, c), w[0].bytes, Project(w[1..], c), r.maxChunk);
    } else {
      assert Project(w, c) == Project(w[1..], c);
    }
  }

  lemma RestAccepts(r: Reader, w: seq<Piece>, r': Reader, on: OnCS)
    requires r.Ok() && r'.Ok() && w != [] && EachAccepts(r, w)
    requires CsStep(w[0].csid, Lookup(r, w[0].csid), w[0].bytes, r.maxChunk) == Some(on)
    requires r' == Reader(r.cs[w[0].csid := on.cs], r.maxChunk)
    ensures EachAccepts(r', w[1..])
  {
    hide CsStep, CsRun;
    forall c: nat ensures CsRun(c, Lookup(r', c), Project(w[1..], c), r.maxChunk).Some? {
      StreamCons(r, w, r', on, c);
    }
  }

  lemma AgreesCons(r: Reader, w: seq<Piece>, r': Reader, on: OnCS, out: seq<Tagged>)
    requires r.Ok() && r'.Ok() && w != [] && EachAccepts(r, w)
    requires CsStep(w[0].csid, Lookup(r, w[0].csid), w[0].bytes, r.maxChunk) == Some(on)
    requires r' == Reader(r.cs[w[0].csid := on.cs], r.maxChunk)
    requires EachAccepts(r', w[1..]) && Agrees(r', w[1..], out)
    ensures Agrees(r, w, TagList(w[0].csid, on.msg) + out)
  {
    hide CsStep, CsRun;
    forall c: nat ensures Delivered(TagList(w[0].csid, on.msg) + out, c)
                       == CsRun(c, Lookup(r, c), Project(w, c), r.maxChunk).value.msgs {
      StreamCons(r, w, r', on, c);
      DeliveredCons(w[0].csid, on.msg, out, c);
    }
  }

  function TagList(csid: nat, m: Option<Msg>): seq<Tagged>
  {
    if m.Some? then [Tagged(csid, m.value)] else []
  }

  lemma DeliveredCons(csid: nat, m: Option<Msg>, out: seq<Tagged>, c: nat)
    ensures Delivered(TagList(csid, m) + out, c) == (if csid == c then MsgList(m) else []) + Delivered(out, c)
  {
    if m.Some? {
      assert (TagList(csid, m) + out)[1..] == out;
    } else {
      assert TagList(csid, m) + out == out;
    }
  }

  lemma ReadAllStep(r: Reader, b: seq<Byte>, rest: seq<Byte>)
    requires r.Ok() && ReadChunk(r, b).Ok? && ReadChunk(r, b).value.n == |b|
    ensures
      var ch := ReadChunk(r, b).value;
      var rr := ReadAll(ch.r, rest);
      ReadAll(r, b + rest)
        == if rr.Err? then Err(rr.error) else Ok(Outcome(rr.value.r, TagList(ch.csid, ch.msg) + rr.value.out))
  {
    ReadChunkStable(r, b, rest);
    assert (b + rest)[|b|..] == rest;
  }

  /** The reader is the product of its chunk streams: if every stream accepts
      the chunks addressed to it, the reader accepts the interleaving, uses up
      the input, and delivers to each stream what the stream alone would. */
  lemma {:induction false} ReaderIsProduct(r: Reader, w: seq<Piece>)
    requires r.Ok() && |r.cs.Keys + Csids(w)| <= MAX_CSIDS && EachAccepts(r, w)
    ensures ReadAll(r, Wire(w)).Ok? && Agrees(r, w, ReadAll(r, Wire(w)).value.out)
    decreases |w|
  {
    hide ReadChunk, CsStep, EachAccepts, Agrees, ReadAll;
    if w == [] {
      NothingAgrees(r);
    } else {
      FirstPiece(r, w);
      var ch := ReadChunk(r, w[0].bytes).value;
      var on := CsStep(w[0].csid, Lookup(r, w[0].csid), w[0].bytes, r.maxChunk).value;
      ReadAllStep(r, w[0].bytes, Wire(w[1..]));
      CsidsCons(w);
      assert r.cs.Keys + Csids(w) == ch.r.cs.Keys + Csids(w[1..]);
      RestAccepts(r, w, ch.r, on);
      ReaderIsProduct(ch.r, w[1..]);
      AgreesCons(r, w, ch.r, on, ReadAll(ch.r, Wire(w[1..])).value.out);
    }
  }

  lemma NothingAgrees(r: Reader)
    requires r.Ok() && EachAccepts(r, [])
    ensures ReadAll(r, Wire([])) == Ok(Outcome(r, [])) && Agrees(r, [], [])
  {}

  lemma CsidsCons(w: seq<Piece>)
    requires w != []
    ensures Csids(w) == {w[0].csid} + Csids(w[1..])
  {
    forall c | c in Csids(w) ensures c in {w[0].csid} + Csids(w[1..]) {
      var i :| 0 <= i < |w| && w[i].csid == c;
      if i > 0 { assert w[1..][i - 1].csid == c; }
    }
    forall c | c in Csids(w[1..]) ensures c in Csids(w) {
      var i :| 0 <= i < |w[1..]| && w[1..][i].csid == c;
      assert w[i + 1].csid == c;
    }
  }

  lemma {:induction false} CardinalityMonotone<T>(a: set<T>, b: set<T>)
    requires a <= b
    ensures |a| <= |b|
    decreases |a|
  {
    if a != {} {
      var x :| x in a;
      CardinalityMonotone(a - {x}, b - {x});
    }
  }

  lemma {:induction false} ProjectNonEmpty(w: seq<Piece>, i: nat)
    requires i < |w|
    ensures Project(w, w[i].csid) != []
    decreases i
  {
    if i > 0 { ProjectNonEmpty(w[1..], i - 1); }
  }

  /** Interleaved reassembly. `plan` says which messages go out on which chunk
      stream (at most 16 streams, ids 2 to 63); `w` is any order of their chunks
      that keeps each stream's own chunks in order. A new reader consumes the
      whole wire and delivers to every stream exactly its messages, in order,
      with time, stream id, type and bytes intact. */
  lemma InterleavedReassembly(plan: map<nat, seq<Send>>, w: seq<Piece>, max: nat)
    requires max > 0 && |plan| <= MAX_CSIDS
    requires forall c :: c in plan ==> 2 <= c < 64 && SendableAll(None, plan[c])
    requires forall c: nat :: Project(w, c) == if c in plan then AllChunks(c, None, plan[c], max) else []
    ensures ReadAll(Reader(map[], max), Wire(w)).Ok?
    ensures forall c: nat :: Delivered(ReadAll(Reader(map[], max), Wire(w)).value.out, c)
                          == if c in plan then Messages(None, plan[c]) else []
  {
    var r := Reader(map[], max);
    forall c: nat
      ensures CsRun(c, Lookup(r, c), Project(w, c), max).Some?
      ensures CsRun(c, Lookup(r, c), Project(w, c), max).value.msgs == if c in plan then Messages(None, plan[c]) else []
    {
      if c in plan { StreamRun(c, None, plan[c], max); }
    }
    assert r.cs.Keys + Csids(w) <= plan.Keys by {
      forall i | 0 <= i < |w| ensures w[i].csid in plan { ProjectNonEmpty(w, i); }
    }
    CardinalityMonotone(r.cs.Keys + Csids(w), plan.Keys);
    ReaderIsProduct(r, w);
  }

  // ---- What the delivered messages are ----

  /** writeMsg2 uses form 0 only: the delivered messages are then the sent ones
      field by field, whatever came before on the stream. */
  lemma {:induction false} Type0Messages(cs: Option<CS>, ss: seq<Send>)
    requires SendableAll(cs, ss) && forall i :: 0 <= i < |ss| ==> ss[i].form == 0
    ensures |Messages(cs, ss)| == |ss|
    ensures forall i :: 0 <= i < |ss| ==>
      Messages(cs, ss)[i] == Msg(ss[i].ts, ss[i].msgsid, ss[i].msgtypeid, ss[i].data)
    decreases |ss|
  {
    if ss != [] {
      Type0Messages(Some(CS(NextHdr(Last(cs), ss[0]), ss[0].data)), ss[1..]);
    }
  }

  lemma {:induction false} MessagesLength(cs: Option<CS>, ss: seq<Send>)
    requires SendableAll(cs, ss)
    ensures |Messages(cs, ss)| == |ss|
    decreases |ss|
  {
    if ss != [] { MessagesLength(Some(CS(NextHdr(Last(cs), ss[0]), ss[0].data)), ss[1..]); }
  }

  function SumDeltas(ss: seq<Send>): nat { if ss == [] then 0 else ss[0].ts + SumDeltas(ss[1..]) }

  predicate IsDelta(c: CS, s: Send) { s.form == 1 || s.form == 2 || (s.form == 3 && c.h.msghdrtype != 0) }

  /** Delta headers: after a message at time t, the i-th message sent with
      type-1, type-2 or repeating type-3 headers is at t plus the deltas up to
      and including its own, modulo 2^32. */
  lemma {:induction false} DeltaTimes(c: CS, ss: seq<Send>, i: nat)
    requires SendableAll(Some(c), ss) && i < |ss|
    requires IsDelta(c, ss[0]) && forall j :: 0 < j < |ss| ==> 1 <= ss[j].form <= 3
    ensures |Messages(Some(c), ss)| == |ss|
    ensures Messages(Some(c), ss)[i].timenow == (c.h.timenow + SumDeltas(ss[..i + 1])) % 0x1_0000_0000
    decreases |ss|
  {
    MessagesLength(Some(c), ss);
    var c' := CS(NextHdr(c.h, ss[0]), ss[0].data);
    assert c'.h.timenow == Add32(c.h.timenow, ss[0].ts) && c'.h.msghdrtype != 0;
    MessagesAt(Some(c), ss, i);
    hide NextHdr, Sendable, Messages;
    assert ss[..i + 1][1..] == ss[1..][..i];
    if i == 0 {
      assert SumDeltas(ss[..1]) == ss[0].ts;
    } else {
      DeltaTimes(c', ss[1..], i - 1);
      Add32Twice(c.h.timenow, ss[0].ts, SumDeltas(ss[1..][..i]));
    }
  }

  lemma MessagesAt(cs: Option<CS>, ss: seq<Send>, i: nat)
    requires SendableAll(cs, ss) && i < |ss| == |Messages(cs, ss)|
    ensures
      var c := CS(NextHdr(Last(cs), ss[0]), ss[0].data);
      Messages(cs, ss)[i] == if i == 0 then MsgOf(c) else Messages(Some(c), ss[1..])[i - 1]
  {
    hide NextHdr, Sendable;
  }

  lemma Add32Twice(a: U32, b: U32, c: nat)
    ensures (Add32(a, b) + c) % 0x1_0000_0000 == (a + (b + c)) % 0x1_0000_0000
  {}
}
