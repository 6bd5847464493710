/** The reading side of the RTMP chunk layer (format/rtmp/msg.go, readChunk),
    as a function of the state of the chunk streams and of the unread bytes. */
module ChunkReader {
  import opened Bytes
  import opened Wrappers

  const MAX_MSG := 4 * 1024 * 1024
  const MAX_CSIDS := 16
  const TS_EXT := 0xff_ffff

  datatype ReadError = ShortRead | TooManyCsid | MsgDataLeft | NoPrevChunk | MsgDataTooBig | EventTooShort

  /** The header fields a chunk stream remembers between chunks. */
  datatype Hdr = Hdr(
    timenow: U32, timedelta: U32, hastimeext: bool, timeext: U32,
    msgsid: U32, msgtypeid: Byte, msgdatalen: U24, msghdrtype: nat)

  /** A chunk stream: its last header and the payload received so far.
      msgdataleft is the part of msgdatalen that `got` does not cover. */
  datatype CS = CS(h: Hdr, got: seq<Byte>) {
    predicate Ok() { |got| <= h.msgdatalen <= MAX_MSG && h.msghdrtype <= 2 }

    function Left(): nat
      requires Ok()
    {
      h.msgdatalen - |got|
    }
  }

  const NewCS := CS(Hdr(0, 0, false, 0, 0, 0, 0, 0), [])

  datatype Msg = Msg(timenow: U32, msgsid: U32, msgtypeid: Byte, data: seq<Byte>)

  function MsgOf(c: CS): Msg { Msg(c.h.timenow, c.h.msgsid, c.h.msgtypeid, c.got) }

  /** The chunk basic header: two format bits and a csid of one to three bytes. */
  datatype Basic = Basic(fmt: nat, csid: nat, n: nat)

  function ReadBasic(b: seq<Byte>): (r: Result<Basic, ReadError>)
    ensures r.Ok? ==> r.value.fmt < 4 && 1 <= r.value.n <= 3 && r.value.n <= |b|
  {
    if |b| < 1 then Err(ShortRead) else
    var fmt, lo := b[0] / 64, b[0] % 64;
    if lo == 0 then
      if |b| < 2 then Err(ShortRead) else Ok(Basic(fmt, (b[1] as int) + 64, 2))
    else if lo == 1 then
      if |b| < 3 then Err(ShortRead) else Ok(Basic(fmt, DecU16(b[1..]) + 64, 3))
    else
      Ok(Basic(fmt, lo, 1))
  }

  /** The 24-bit time field `ts`, widened by four more bytes when it is all ones. */
  datatype Time = Time(ts: U32, ext: bool, n: nat)

  function ReadTime(ts: U24, b: seq<Byte>): (r: Result<Time, ReadError>)
    ensures r.Ok? ==> r.value.n <= 4 && r.value.n <= |b|
  {
    if ts != TS_EXT then Ok(Time(ts, false, 0))
    else if |b| < 4 then Err(ShortRead)
    else Ok(Time(DecU32(b), true, 4))
  }

  function SetExt(h: Hdr, t: Time): Hdr
  {
    if t.ext then h.(hastimeext := true, timeext := t.ts) else h.(hastimeext := false)
  }

  /** message.Start: a fresh empty buffer of the announced length. */
  function Start(h: Hdr): (r: Result<CS, ReadError>)
    requires h.msghdrtype <= 2
    ensures r.Ok? ==> r.value.Ok()
  {
    if h.msgdatalen > MAX_MSG then Err(MsgDataTooBig) else Ok(CS(h, []))
  }

  datatype Head = Head(cs: CS, n: nat)

  /** The header after the basic header: the four cases of the switch. */
  function ReadHeader(c: CS, newcs: bool, fmt: nat, b: seq<Byte>): (r: Result<Head, ReadError>)
    requires c.Ok() && fmt < 4
    ensures r.Ok? ==> r.value.cs.Ok() && r.value.n <= 15 && r.value.n <= |b|
  {
    if fmt == 0 then ReadHeader0(c, b)
    else if newcs then Err(NoPrevChunk)
    else if fmt == 1 then ReadHeader1(c, b)
    else if fmt == 2 then ReadHeader2(c, b)
    else if c.Left() == 0 then ReadHeader3(c, b)
    else if c.h.hastimeext then
      // peek-and-compare: the repeated extended time stamp is optional
      if |b| < 4 then Err(ShortRead)
      else Ok(Head(c, if DecU32(b) == c.h.timeext then 4 else 0))
    else Ok(Head(c, 0))
  }

  function ReadHeader0(c: CS, b: seq<Byte>): (r: Result<Head, ReadError>)
    requires c.Ok()
    ensures r.Ok? ==> r.value.cs.Ok() && r.value.n <= 15 && r.value.n <= |b|
  {
    if c.Left() != 0 then Err(MsgDataLeft) else
    if |b| < 11 then Err(ShortRead) else
    var t :- ReadTime(DecU24(b), b[11..]);
    var h := SetExt(c.h, t).(timenow := t.ts, msgdatalen := DecU24(b[3..]), msgtypeid := b[6],
                             msgsid := DecU32LE(b[7..]), msghdrtype := 0);
    var cs :- Start(h);
    Ok(Head(cs, 11 + t.n))
  }

  function ReadHeader1(c: CS, b: seq<Byte>): (r: Result<Head, ReadError>)
    requires c.Ok()
    ensures r.Ok? ==> r.value.cs.Ok() && r.value.n <= 11 && r.value.n <= |b|
  {
    if c.Left() != 0 then Err(MsgDataLeft) else
    if |b| < 7 then Err(ShortRead) else
    var t :- ReadTime(DecU24(b), b[7..]);
    var h := SetExt(c.h, t).(timedelta := t.ts, timenow := Add32(c.h.timenow, t.ts),
                             msgdatalen := DecU24(b[3..]), msgtypeid := b[6], msghdrtype := 1);
    var cs :- Start(h);
    Ok(Head(cs, 7 + t.n))
  }

  function ReadHeader2(c: CS, b: seq<Byte>): (r: Result<Head, ReadError>)
    requires c.Ok()
    ensures r.Ok? ==> r.value.cs.Ok() && r.value.n <= 7 && r.value.n <= |b|
  {
    if c.Left() != 0 then Err(MsgDataLeft) else
    if |b| < 3 then Err(ShortRead) else
    var t :- ReadTime(DecU24(b), b[3..]);
    var h := SetExt(c.h, t).(timedelta := t.ts, timenow := Add32(c.h.timenow, t.ts), msghdrtype := 2);
    var cs :- Start(h);
    Ok(Head(cs, 3 + t.n))
  }

  /** A type-3 chunk that opens a new message. After a type-0 header without
      extended time the time stays as it was; after a delta header the delta
      (or the extended field) is added again, and timeext is left alone. */
  function ReadHeader3(c: CS, b: seq<Byte>): (r: Result<Head, ReadError>)
    requires c.Ok()
    ensures r.Ok? ==> r.value.cs.Ok() && r.value.n <= 4 && r.value.n <= |b|
  {
    if c.h.hastimeext then
      if |b| < 4 then Err(ShortRead) else
      var ts := DecU32(b);
      var h := if c.h.msghdrtype == 0 then c.h.(timenow := ts, timeext := ts)
               else c.h.(timenow := Add32(c.h.timenow, ts));
      var cs :- Start(h);
      Ok(Head(cs, 4))
    else
      var h := if c.h.msghdrtype == 0 then c.h
               else c.h.(timenow := Add32(c.h.timenow, c.h.timedelta));
      var cs :- Start(h);
      Ok(Head(cs, 0))
  }

  /** What one chunk does to its own chunk stream. */
  datatype OnCS = OnCS(cs: CS, n: nat, msg: Option<Msg>)

  function ReadOn(c: CS, newcs: bool, fmt: nat, b: seq<Byte>, maxChunk: nat): (r: Result<OnCS, ReadError>)
    requires c.Ok() && fmt < 4
    ensures r.Ok? ==> r.value.cs.Ok() && r.value.n <= |b| && r.value.n <= 15 + MAX_MSG
    ensures r.Ok? ==> (r.value.msg == if r.value.cs.Left() == 0 then Some(MsgOf(r.value.cs)) else None)
  {
    var head :- ReadHeader(c, newcs, fmt, b);
    var size := Min(head.cs.Left(), maxChunk);
    if |b| - head.n < size then Err(ShortRead) else
    var cs := CS(head.cs.h, head.cs.got + b[head.n..head.n + size]);
    Ok(OnCS(cs, head.n + size, if cs.Left() == 0 then Some(MsgOf(cs)) else None))
  }

  datatype Reader = Reader(cs: map<nat, CS>, maxChunk: nat) {
    predicate Ok() { |cs| <= MAX_CSIDS && forall c :: c in cs ==> cs[c].Ok() }
  }

  function Get(cs: map<nat, CS>, csid: nat): CS { if csid in cs then cs[csid] else NewCS }

  datatype Chunk = Chunk(r: Reader, csid: nat, n: nat, msg: Option<Msg>)

  /** readChunk. On success `n` bytes were consumed; a message is returned
      exactly when this chunk completed it. Reader safety on arbitrary input is
      the postcondition: buffers never overflow, at most 16 chunk streams
      exist, every call makes progress and only the chunk's own stream moves. */
  function ReadChunk(r: Reader, b: seq<Byte>): (res: Result<Chunk, ReadError>)
    requires r.Ok()
    ensures res.Ok? ==>
      var v := res.value;
      && v.r.Ok() && v.r.maxChunk == r.maxChunk
      && 1 <= v.n <= |b| && v.n <= MAX_MSG + 18
      && v.r.cs.Keys == r.cs.Keys + {v.csid}
      && (forall c :: c in r.cs && c != v.csid ==> v.r.cs[c] == r.cs[c])
      && (v.msg.Some? <==> v.r.cs[v.csid].Left() == 0)
      && (v.msg.Some? ==> v.msg.value == MsgOf(v.r.cs[v.csid]))
  {
    var basic :- ReadBasic(b);
    var newcs := basic.csid !in r.cs;
    if |r.cs| + (if newcs then 1 else 0) > MAX_CSIDS then Err(TooManyCsid) else
    var on :- ReadOn(Get(r.cs, basic.csid), newcs, basic.fmt, b[basic.n..], r.maxChunk);
    var r' := Reader(r.cs[basic.csid := on.cs], r.maxChunk);
    assert r'.cs.Keys == r.cs.Keys + {basic.csid};
    Ok(Chunk(r', basic.csid, basic.n + on.n, on.msg))
  }

  // ---- The cases of one chunk, one level at a time ----

  function Opened(n: nat, cs: Result<CS, ReadError>): Result<Head, ReadError>
  {
    if cs.Err? then Err(cs.error) else Ok(Head(cs.value, n))
  }

  lemma Header0Cases(c: CS, b: seq<Byte>)
    requires c.Ok() && c.Left() == 0 && |b| >= 11
    ensures
      var t := ReadTime(DecU24(b), b[11..]);
      ReadHeader0(c, b) ==
        if t.Err? then Err(t.error)
        else Opened(11 + t.value.n, Start(SetExt(c.h, t.value).(timenow := t.value.ts, msgdatalen := DecU24(b[3..]), msgtypeid := b[6],
                                    msgsid := DecU32LE(b[7..]), msghdrtype := 0)))
  {}

  lemma Header1Cases(c: CS, b: seq<Byte>)
    requires c.Ok() && c.Left() == 0 && |b| >= 7
    ensures
      var t := ReadTime(DecU24(b), b[7..]);
      ReadHeader1(c, b) ==
        if t.Err? then Err(t.error)
        else Opened(7 + t.value.n, Start(SetExt(c.h, t.value).(timedelta := t.value.ts, timenow := Add32(c.h.timenow, t.value.ts),
                                    msgdatalen := DecU24(b[3..]), msgtypeid := b[6], msghdrtype := 1)))
  {}

  lemma Header2Cases(c: CS, b: seq<Byte>)
    requires c.Ok() && c.Left() == 0 && |b| >= 3
    ensures
      var t := ReadTime(DecU24(b), b[3..]);
      ReadHeader2(c, b) ==
        if t.Err? then Err(t.error)
        else Opened(3 + t.value.n, Start(SetExt(c.h, t.value).(timedelta := t.value.ts, timenow := Add32(c.h.timenow, t.value.ts), msghdrtype := 2)))
  {}

  /** What a chunk does after its basic header. */
  function StreamStep(r: Reader, csid: nat, fmt: nat, b: seq<Byte>): (s: Result<OnCS, ReadError>)
    requires r.Ok() && fmt < 4
    ensures s.Ok? ==> s.value.n <= |b|
  {
    var newcs := csid !in r.cs;
    if |r.cs| + (if newcs then 1 else 0) > MAX_CSIDS then Err(TooManyCsid)
    else ReadOn(Get(r.cs, csid), newcs, fmt, b, r.maxChunk)
  }

  lemma GetOk(r: Reader, csid: nat)
    requires r.Ok()
    ensures Get(r.cs, csid).Ok()
  {}

  lemma OnCases(c: CS, newcs: bool, fmt: nat, b: seq<Byte>, maxChunk: nat)
    requires c.Ok() && fmt < 4
    ensures
      var head := ReadHeader(c, newcs, fmt, b);
      ReadOn(c, newcs, fmt, b, maxChunk) ==
        if head.Err? then Err(head.error)
        else
          var rest, size := b[head.value.n..], Min(head.value.cs.Left(), maxChunk);
          if |rest| < size then Err(ShortRead)
          else
            var cs := CS(head.value.cs.h, head.value.cs.got + rest[..size]);
            Ok(OnCS(cs, head.value.n + size, if cs.Left() == 0 then Some(MsgOf(cs)) else None))
    ensures ReadOn(c, newcs, fmt, b, maxChunk).Ok? ==>
      var head := ReadHeader(c, newcs, fmt, b).value;
      b[head.n..][Min(head.cs.Left(), maxChunk)..] == b[head.n + Min(head.cs.Left(), maxChunk)..]
  {
    hide ReadHeader;
    var head := ReadHeader(c, newcs, fmt, b);
    if head.Ok? && |b[head.value.n..]| >= Min(head.value.cs.Left(), maxChunk) {
      var n, size := head.value.n, Min(head.value.cs.Left(), maxChunk);
      assert b[n..][..size] == b[n..n + size];
    }
  }

  lemma ChunkCases(r: Reader, b: seq<Byte>)
    requires r.Ok()
    ensures
      var basic := ReadBasic(b);
      ReadChunk(r, b) ==
        if basic.Err? then Err(basic.error)
        else
          var on := StreamStep(r, basic.value.csid, basic.value.fmt, b[basic.value.n..]);
          if on.Err? then Err(on.error)
          else Ok(Chunk(Reader(r.cs[basic.value.csid := on.value.cs], r.maxChunk), basic.value.csid,
                        basic.value.n + on.value.n, on.value.msg))
  {
    hide ReadBasic, ReadOn;
  }

  // ---- A successful read does not depend on what follows it ----

  lemma DropFront(a: seq<Byte>, rest: seq<Byte>, k: nat)
    requires k <= |a|
    ensures (a + rest)[k..] == a[k..] + rest
  {}

  lemma ReadTimeStable(ts: U24, b: seq<Byte>, rest: seq<Byte>)
    requires ReadTime(ts, b).Ok?
    ensures ReadTime(ts, b + rest) == ReadTime(ts, b)
  {}

  lemma ReadHeader0Stable(c: CS, b: seq<Byte>, rest: seq<Byte>)
    requires c.Ok() && ReadHeader0(c, b).Ok?
    ensures ReadHeader0(c, b + rest) == ReadHeader0(c, b)
  {
    DropFront(b, rest, 11); DropFront(b, rest, 3); DropFront(b, rest, 7);
    ReadTimeStable(DecU24(b), b[11..], rest);
    hide ReadTime, SetExt, Start;
  }

  lemma ReadHeader1Stable(c: CS, b: seq<Byte>, rest: seq<Byte>)
    requires c.Ok() && ReadHeader1(c, b).Ok?
    ensures ReadHeader1(c, b + rest) == ReadHeader1(c, b)
  {
    DropFront(b, rest, 7); DropFront(b, rest, 3);
    ReadTimeStable(DecU24(b), b[7..], rest);
    hide ReadTime, SetExt, Start;
  }

  lemma ReadHeader2Stable(c: CS, b: seq<Byte>, rest: seq<Byte>)
    requires c.Ok() && ReadHeader2(c, b).Ok?
    ensures ReadHeader2(c, b + rest) == ReadHeader2(c, b)
  {
    DropFront(b, rest, 3);
    ReadTimeStable(DecU24(b), b[3..], rest);
    hide ReadTime, SetExt, Start;
  }

  lemma ReadHeaderStable(c: CS, newcs: bool, fmt: nat, b: seq<Byte>, rest: seq<Byte>)
    requires c.Ok() && fmt < 4 && ReadHeader(c, newcs, fmt, b).Ok?
    ensures ReadHeader(c, newcs, fmt, b + rest) == ReadHeader(c, newcs, fmt, b)
  {
    hide ReadHeader0, ReadHeader1, ReadHeader2;
    if fmt == 0 { ReadHeader0Stable(c, b, rest); }
    if fmt == 1 { ReadHeader1Stable(c, b, rest); }
    if fmt == 2 { ReadHeader2Stable(c, b, rest); }
  }

  lemma ReadOnStable(c: CS, newcs: bool, fmt: nat, b: seq<Byte>, rest: seq<Byte>, maxChunk: nat)
    requires c.Ok() && fmt < 4 && ReadOn(c, newcs, fmt, b, maxChunk).Ok?
    ensures ReadOn(c, newcs, fmt, b + rest, maxChunk) == ReadOn(c, newcs, fmt, b, maxChunk)
  {
    hide ReadHeader;
    ReadHeaderStable(c, newcs, fmt, b, rest);
    var head := ReadHeader(c, newcs, fmt, b).value;
    var size := Min(head.cs.Left(), maxChunk);
    assert (b + rest)[head.n..head.n + size] == b[head.n..head.n + size];
  }

  lemma ReadBasicStable(b: seq<Byte>, rest: seq<Byte>)
    requires ReadBasic(b).Ok?
    ensures ReadBasic(b + rest) == ReadBasic(b)
  {
    DropFront(b, rest, 1);
  }

  /** Prefix stability: a chunk that parses is read the same way whatever
      bytes come after it, although readChunk peeks past the header. */
  lemma ReadChunkStable(r: Reader, b: seq<Byte>, rest: seq<Byte>)
    requires r.Ok() && ReadChunk(r, b).Ok?
    ensures ReadChunk(r, b + rest) == ReadChunk(r, b)
  {
    hide ReadBasic, ReadOn;
    ReadBasicStable(b, rest);
    var basic := ReadBasic(b).value;
    DropFront(b, rest, basic.n);
    ReadOnStable(Get(r.cs, basic.csid), basic.csid !in r.cs, basic.fmt, b[basic.n..], rest, r.maxChunk);
  }
}
