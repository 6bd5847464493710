/** The connection object (format/rtmp/msg.go, conn.go, wraprw.go): the methods
    that update it in place, each proved against the functions of ChunkReader,
    ChunkWriter and Events. */
module RtmpConn {
  import opened Bytes
  import opened Wrappers
  import opened ChunkReader
  import opened ChunkWriter
  import Events
  import LockStep

  /** The state of one chunk stream. The payload buffer is kept as the part of
      it that has been received; module Buffers is about sharing it. */
  class Message {
    var timenow: U32
    var timedelta: U32
    var hastimeext: bool
    var timeext: U32
    var msgsid: U32
    var msgtypeid: Byte
    var msgdatalen: U24
    var msgdataleft: U24
    var msghdrtype: nat
    var msgdata: seq<Byte>
    ghost const csid: nat

    ghost predicate Valid()
      reads this
    {
      |msgdata| + msgdataleft == msgdatalen <= MAX_MSG && msghdrtype <= 2
    }

    ghost function Header(): Hdr
      reads this
    {
      Hdr(timenow, timedelta, hastimeext, timeext, msgsid, msgtypeid, msgdatalen, msghdrtype)
    }

    ghost function Abs(): CS
      reads this
    {
      CS(Header(), msgdata)
    }

    constructor (ghost csid: nat)
      ensures Valid() && Abs() == NewCS && this.csid == csid
    {
      this.csid := csid;
      timenow, timedelta, hastimeext, timeext := 0, 0, false, 0;
      msgsid, msgtypeid, msgdatalen, msgdataleft, msghdrtype := 0, 0, 0, 0, 0;
      msgdata := [];
    }

    method Start() returns (err: Option<ReadError>)
      requires msghdrtype <= 2
      modifies this`msgdataleft, this`msgdata
      ensures ChunkReader.Start(Header()).Err? ==> err == Some(ChunkReader.Start(Header()).error)
      ensures ChunkReader.Start(Header()).Ok? ==> err.None? && Valid() && Abs() == ChunkReader.Start(Header()).value
    {
      msgdataleft := msgdatalen;
      if msgdatalen > MAX_MSG {
        return Some(MsgDataTooBig);
      }
      msgdata := [];
      return None;
    }
  }

  class Conn {
    var input: seq<Byte>  // what the peer has sent and was not read yet
    var out: seq<Byte>    // what was written to the peer
    var ackn: U32
    var lastackn: U32
    var readAckSize: U32
    var ReadMaxChunkSize: nat
    var writeMaxChunkSize: nat
    var readcsmap: map<nat, Message>
    var aggmsg: Option<Events.Agg>

    ghost var streams: map<nat, CS>     // what the chunk streams hold
    ghost var messages: set<Message>    // the objects that hold it

    ghost predicate Valid()
      reads this`readcsmap, this`streams, this`messages, messages
    {
      && |streams| <= MAX_CSIDS && streams.Keys == readcsmap.Keys
      && forall c :: c in readcsmap ==> Slot(c)
    }

    ghost predicate Slot(c: nat)
      requires c in readcsmap && streams.Keys == readcsmap.Keys
      reads this`readcsmap, this`streams, this`messages, messages
    {
      var m := readcsmap[c];
      m in messages && m.csid == c && m.Valid() && m.Abs() == streams[c] && streams[c].Ok()
    }

    ghost function AbsReader(): Reader
      reads this`streams, this`ReadMaxChunkSize
    {
      Reader(streams, ReadMaxChunkSize)
    }

    ghost function Abs(): Events.Session
      reads this
    {
      Events.Session(AbsReader(), Events.Acker(ackn, lastackn, readAckSize), aggmsg)
    }

    lemma ValidIsOk()
      requires Valid()
      ensures AbsReader().Ok() && Abs().Ok()
    {
      forall c | c in streams ensures streams[c].Ok() { assert Slot(c); }
    }

    constructor (input: seq<Byte>)
      ensures Valid() && this.input == input && out == [] && writeMaxChunkSize == 128
      ensures Abs() == Events.Session(Reader(map[], 128), Events.Acker(0, 0, 2500000), None)
    {
      this.input, out, ackn, lastackn, readAckSize := input, [], 0, 0, 2500000;
      ReadMaxChunkSize, writeMaxChunkSize, readcsmap, aggmsg := 128, 128, map[], None;
      streams, messages := map[], {};
    }

    /** wrapReadWriter.Read: all n bytes or none, counted in ackn. */
    method ReadFull(n: nat) returns (ok: bool, b: seq<Byte>)
      modifies this`input, this`ackn
      ensures ok <==> n <= |old(input)|
      ensures ok ==> b == old(input)[..n] && input == old(input)[n..] && ackn == Count32(old(ackn), n)
    {
      if |input| < n {
        return false, [];
      }
      b := input[..n];
      input, ackn := input[n..], Count32(ackn, n);
      return true, b;
    }

    /** The bytes taken by a step that succeeded. */
    twostate predicate Took(n: nat)
      reads this`input, this`ackn
    {
      n <= |old(input)| && input == old(input)[n..] && ackn == Count32(old(ackn), n)
    }

    method ReadBasic() returns (err: Option<ReadError>, fmt: nat, csid: nat)
      modifies this`input, this`ackn
      ensures
        var s := ChunkReader.ReadBasic(old(input));
        && (s.Err? ==> err == Some(s.error))
        && (s.Ok? ==> err.None? && fmt == s.value.fmt && csid == s.value.csid && Took(s.value.n))
    {
      hide Count32;
      var ok, b := ReadFull(1);
      if !ok { return Some(ShortRead), 0, 0; }
      fmt, csid := b[0] / 64, b[0] % 64;
      if csid == 0 {
        ok, b := ReadFull(1);
        if !ok { return Some(ShortRead), 0, 0; }
        csid := (b[0] as int) + 64;
        Count32Twice(old(ackn), 1, 1);
      } else if csid == 1 {
        ok, b := ReadFull(2);
        if !ok { return Some(ShortRead), 0, 0; }
        csid := DecU16(b) + 64;
        Count32Twice(old(ackn), 1, 2);
      }
      err := None;
    }

    /** The 24-bit time field and its extension, kept in the stream's state. */
    method ReadTime(cs: Message, field: U24) returns (err: Option<ReadError>, timestamp: U32)
      modifies this`input, this`ackn, cs`hastimeext, cs`timeext
      ensures
        var s := ChunkReader.ReadTime(field, old(input));
        && (s.Err? ==> err == Some(s.error))
        && (s.Ok? ==> err.None? && timestamp == s.value.ts && Took(s.value.n))
        && (s.Ok? ==> cs.Header() == SetExt(old(cs.Header()), s.value))
    {
      if field == TS_EXT {
        var ok, b := ReadFull(4);
        if !ok { return Some(ShortRead), 0; }
        timestamp := DecU32(b);
        cs.hastimeext := true;
        cs.timeext := timestamp;
        assert DecU32(old(input)) == timestamp;
      } else {
        timestamp := field;
        cs.hastimeext := false;
      }
      err := None;
    }

    twostate predicate HeadRead(cs: Message, s: Result<Head, ReadError>, new err: Option<ReadError>)
      reads this, cs
    {
      && (s.Err? ==> err == Some(s.error))
      && (s.Ok? ==> err.None? && cs.Valid() && cs.Abs() == s.value.cs && s.value.cs.Ok() && Took(s.value.n))
    }

    method ReadHeader0(cs: Message) returns (err: Option<ReadError>)
      requires cs.Valid()
      modifies this`input, this`ackn, cs
      ensures HeadRead(cs, ChunkReader.ReadHeader0(old(cs.Abs()), old(input)), err)
    {
      if cs.msgdataleft != 0 { return Some(MsgDataLeft); }
      var ok, h := ReadFull(11);
      if !ok { return Some(ShortRead); }
      hide DecU24, DecU32LE, DecU32, Count32, ChunkReader.ReadHeader0;
      Header0Cases(old(cs.Abs()), old(input));
      HeaderFields(old(input), |h|);
      cs.msghdrtype, cs.msgdatalen, cs.msgtypeid, cs.msgsid := 0, DecU24(h[3..]), h[6], DecU32LE(h[7..]);
      ghost var t := ChunkReader.ReadTime(DecU24(old(input)), input);
      var timestamp;
      err, timestamp := ReadTime(cs, DecU24(h));
      if err.Some? { return; }
      cs.timenow := timestamp;
      assert cs.Header() == SetExt(old(cs.Header()), t.value).(timenow := t.value.ts, msgdatalen := DecU24(old(input)[3..]), msgtypeid := old(input)[6],
                                                                 msgsid := DecU32LE(old(input)[7..]), msghdrtype := 0);
      assert input == old(input)[11 + t.value.n..];
      Count32Twice(old(ackn), 11, t.value.n);
      hide SetExt, ChunkReader.ReadTime;
      err := cs.Start();
    }

    method ReadHeader1(cs: Message) returns (err: Option<ReadError>)
      requires cs.Valid()
      modifies this`input, this`ackn, cs
      ensures HeadRead(cs, ChunkReader.ReadHeader1(old(cs.Abs()), old(input)), err)
    {
      if cs.msgdataleft != 0 { return Some(MsgDataLeft); }
      var ok, h := ReadFull(7);
      if !ok { return Some(ShortRead); }
      hide DecU24, DecU32LE, DecU32, Count32, ChunkReader.ReadHeader1;
      Header1Cases(old(cs.Abs()), old(input));
      HeaderFields(old(input), |h|);
      cs.msghdrtype, cs.msgdatalen, cs.msgtypeid := 1, DecU24(h[3..]), h[6];
      ghost var t := ChunkReader.ReadTime(DecU24(old(input)), input);
      var timestamp;
      err, timestamp := ReadTime(cs, DecU24(h));
      if err.Some? { return; }
      cs.timedelta, cs.timenow := timestamp, Add32(cs.timenow, timestamp);
      assert cs.Header() == SetExt(old(cs.Header()), t.value).(timedelta := t.value.ts, timenow := Add32(old(cs.timenow), t.value.ts),
                                                                 msgdatalen := DecU24(old(input)[3..]), msgtypeid := old(input)[6], msghdrtype := 1);
      assert input == old(input)[7 + t.value.n..];
      Count32Twice(old(ackn), 7, t.value.n);
      hide SetExt, ChunkReader.ReadTime;
      err := cs.Start();
    }

    method ReadHeader2(cs: Message) returns (err: Option<ReadError>)
      requires cs.Valid()
      modifies this`input, this`ackn, cs
      ensures HeadRead(cs, ChunkReader.ReadHeader2(old(cs.Abs()), old(input)), err)
    {
      if cs.msgdataleft != 0 { return Some(MsgDataLeft); }
      var ok, h := ReadFull(3);
      if !ok { return Some(ShortRead); }
      hide DecU24, DecU32LE, DecU32, Count32, ChunkReader.ReadHeader2;
      Header2Cases(old(cs.Abs()), old(input));
      HeaderFields(old(input), |h|);
      cs.msghdrtype := 2;
      ghost var t := ChunkReader.ReadTime(DecU24(old(input)), input);
      var timestamp;
      err, timestamp := ReadTime(cs, DecU24(h));
      if err.Some? { return; }
      cs.timedelta, cs.timenow := timestamp, Add32(cs.timenow, timestamp);
      assert cs.Header() == SetExt(old(cs.Header()), t.value).(timedelta := t.value.ts, timenow := Add32(old(cs.timenow), t.value.ts), msghdrtype := 2);
      assert input == old(input)[3 + t.value.n..];
      Count32Twice(old(ackn), 3, t.value.n);
      hide SetExt, ChunkReader.ReadTime;
      err := cs.Start();
    }

    method ReadHeader3(cs: Message) returns (err: Option<ReadError>)
      requires cs.Valid()
      modifies this`input, this`ackn, cs
      ensures HeadRead(cs, ChunkReader.ReadHeader3(old(cs.Abs()), old(input)), err)
    {
      if cs.hastimeext {
        var ok, b := ReadFull(4);
        if !ok { return Some(ShortRead); }
        var timestamp := DecU32(b);
        assert DecU32(old(input)) == timestamp;
        if cs.msghdrtype == 0 {
          cs.timenow, cs.timeext := timestamp, timestamp;
        } else {
          cs.timenow := Add32(cs.timenow, timestamp);
        }
      } else if cs.msghdrtype != 0 {
        cs.timenow := Add32(cs.timenow, cs.timedelta);
      }
      err := cs.Start();
    }

    method ReadHeader(cs: Message, newcs: bool, fmt: nat) returns (err: Option<ReadError>)
      requires cs.Valid() && fmt < 4
      modifies this`input, this`ackn, cs
      ensures HeadRead(cs, ChunkReader.ReadHeader(old(cs.Abs()), newcs, fmt, old(input)), err)
    {
      if fmt == 0 {
        err := ReadHeader0(cs);
      } else if newcs {
        err := Some(NoPrevChunk);
      } else if fmt == 1 {
        err := ReadHeader1(cs);
      } else if fmt == 2 {
        err := ReadHeader2(cs);
      } else if cs.msgdataleft == 0 {
        err := ReadHeader3(cs);
      } else if cs.hastimeext {
        if |input| < 4 { return Some(ShortRead); }
        if DecU32(input) == cs.timeext {
          var _, _ := ReadFull(4);
        }
        err := None;
      } else {
        err := None;
      }
    }

    /** The payload part of the chunk. */
    method ReadPayload(cs: Message) returns (err: Option<ReadError>)
      requires cs.Valid()
      modifies this`input, this`ackn, cs`msgdataleft, cs`msgdata
      ensures
        var c := old(cs.Abs());
        var size := Min(c.Left(), ReadMaxChunkSize);
        && (|old(input)| < size ==> err == Some(ShortRead))
        && (|old(input)| >= size ==> err.None? && cs.Valid() && Took(size))
        && (|old(input)| >= size ==> cs.Abs() == CS(c.h, c.got + old(input)[..size]))
    {
      var size := Min(cs.msgdataleft, ReadMaxChunkSize);
      var ok, b := ReadFull(size);
      if !ok { return Some(ShortRead); }
      cs.msgdata, cs.msgdataleft := cs.msgdata + b, cs.msgdataleft - size;
      return None;
    }

    /** Header and payload of one chunk on the stream `cs`. */
    method ReadOn(cs: Message, newcs: bool, fmt: nat) returns (err: Option<ReadError>)
      requires cs.Valid() && fmt < 4
      modifies this`input, this`ackn, cs
      ensures
        var s := ChunkReader.ReadOn(old(cs.Abs()), newcs, fmt, old(input), ReadMaxChunkSize);
        && (s.Err? ==> err == Some(s.error))
        && (s.Ok? ==> err.None? && cs.Valid() && cs.Abs() == s.value.cs && s.value.cs.Ok() && Took(s.value.n))
    {
      hide ChunkReader.ReadHeader, ChunkReader.ReadOn, Count32;
      OnCases(cs.Abs(), newcs, fmt, input, ReadMaxChunkSize);
      ghost var head := ChunkReader.ReadHeader(cs.Abs(), newcs, fmt, input);
      err := ReadHeader(cs, newcs, fmt);
      if err.Some? { return; }
      ghost var size := Min(cs.msgdataleft, ReadMaxChunkSize);
      err := ReadPayload(cs);
      Count32Twice(old(ackn), head.value.n, size);
    }

    /** A new chunk stream beside the others. */
    method AddStream(csid: nat)
      requires Valid() && csid !in readcsmap
      modifies this`readcsmap, this`streams, this`messages
      ensures csid in readcsmap && readcsmap[csid] in messages && fresh(messages - old(messages))
      ensures streams == old(streams)[csid := NewCS] && streams.Keys == readcsmap.Keys
      ensures forall c :: c in readcsmap ==> Slot(c)
    {
      var cs := new Message(csid);
      hide Message.Header, Message.Abs, Message.Valid;
      assert forall c :: c in readcsmap ==> Slot(c);
      readcsmap := readcsmap[csid := cs];
      streams, messages := streams[csid := NewCS], messages + {cs};
    }

    /** The chunk stream of `csid`, created on first use; false when that makes
        one too many. */
    method OpenStream(csid: nat) returns (room: bool, newcs: bool)
      requires Valid()
      modifies this`readcsmap, this`streams, this`messages
      ensures newcs <==> csid !in old(streams)
      ensures room <==> |old(streams)| + (if newcs then 1 else 0) <= MAX_CSIDS
      ensures csid in readcsmap && csid in streams && readcsmap[csid] in messages
      ensures room ==> Valid() && streams[csid].Ok()
      ensures streams == old(streams)[csid := Get(old(streams), csid)]
      ensures fresh(messages - old(messages))
    {
      newcs := csid !in readcsmap;
      if newcs {
        AddStream(csid);
      } else {
        assert streams == streams[csid := streams[csid]];
      }
      assert Slot(csid);
      hide Slot;
      assert |streams| == |streams.Keys| && |readcsmap| == |readcsmap.Keys|;
      room := |readcsmap| <= MAX_CSIDS;
    }

    /** Header and payload of one chunk on an open stream. */
    method ReadStream(csid: nat, newcs: bool, fmt: nat) returns (err: Option<ReadError>, msg: Option<Msg>)
      requires Valid() && csid in readcsmap && fmt < 4 && streams[csid].Ok()
      modifies this`input, this`ackn, this`streams, readcsmap[csid]
      ensures
        var s := ChunkReader.ReadOn(old(streams)[csid], newcs, fmt, old(input), ReadMaxChunkSize);
        && (s.Err? ==> err == Some(s.error))
        && (s.Ok? ==> err.None? && Valid() && Took(s.value.n) && streams == old(streams)[csid := s.value.cs])
        && (s.Ok? ==> msg == s.value.msg)
    {
      msg := None;
      hide ChunkReader.ReadOn, Took, Message.Header, Message.Abs, Message.Valid, CS.Ok;
      var cs := readcsmap[csid];
      assert Slot(csid);
      err := ReadOn(cs, newcs, fmt);
      if err.None? {
        streams := streams[csid := cs.Abs()];
        assert |streams| == |old(streams)|;
        forall c | c in readcsmap ensures Slot(c) {
          assert old(Slot(c));
        }
        msg := Completed(cs);
      }
    }

    /** The rest of a chunk whose basic header was read. */
    method ReadChunkOf(csid: nat, fmt: nat) returns (err: Option<ReadError>, msg: Option<Msg>)
      requires Valid() && AbsReader().Ok() && fmt < 4
      modifies this`input, this`ackn, this`readcsmap, this`streams, this`messages, messages
      ensures
        var s := StreamStep(old(AbsReader()), csid, fmt, old(input));
        && (s.Err? ==> err == Some(s.error))
        && (s.Ok? ==> err.None? && Valid() && Took(s.value.n) && streams == old(streams)[csid := s.value.cs])
        && (s.Ok? ==> msg == s.value.msg)
      ensures fresh(messages - old(messages))
    {
      hide ChunkReader.ReadOn, Valid, CS.Ok, Get;
      GetOk(AbsReader(), csid);
      var room, newcs := OpenStream(csid);
      if !room { return Some(TooManyCsid), None; }
      assert streams[csid] == Get(old(streams), csid);
      err, msg := ReadStream(csid, newcs, fmt);
      if err.None? { assert streams == old(streams)[csid := streams[csid]]; }
    }

    /** readChunk. */
    method ReadChunk() returns (err: Option<ReadError>, msg: Option<Msg>)
      requires Valid() && AbsReader().Ok()
      modifies this`input, this`ackn, this`readcsmap, this`streams, this`messages, messages
      ensures
        var res := ChunkReader.ReadChunk(old(AbsReader()), old(input));
        && (res.Err? ==> err == Some(res.error))
        && (res.Ok? ==> err.None? && Valid() && AbsReader() == res.value.r && Took(res.value.n) && msg == res.value.msg)
      ensures fresh(messages - old(messages))
    {
      hide ChunkReader.ReadBasic, StreamStep, ChunkReader.ReadChunk, Count32, Valid, Slot, Message.Valid, Message.Abs, CS.Ok, Reader.Ok;
      ghost var b0, a0, r := input, ackn, AbsReader();
      ghost var basic := ChunkReader.ReadBasic(b0);
      var fmt, csid;
      err, fmt, csid := ReadBasic();
      if err.Some? {
        assert ChunkReader.ReadChunk(r, b0) == Err(basic.error) by { ChunkCases(r, b0); }
        return err, None;
      }
      ghost var b1, a1, n := input, ackn, basic.value.n;
      ghost var on := StreamStep(r, csid, fmt, b1);
      err, msg := ReadChunkOf(csid, fmt);
      if err.Some? {
        assert ChunkReader.ReadChunk(r, b0) == Err(on.error) by { ChunkCases(r, b0); }
        return;
      }
      TakenTwice(b0, a0, n, b1, a1, on.value.n, input, ackn);
      assert ChunkReader.ReadChunk(r, b0) == Ok(Chunk(AbsReader(), csid, n + on.value.n, msg)) by { ChunkCases(r, b0); }
    }

    method Completed(cs: Message) returns (msg: Option<Msg>)
      requires cs.Valid()
      ensures msg == if cs.Abs().Left() == 0 then Some(MsgOf(cs.Abs())) else None
    {
      msg := if cs.msgdataleft != 0 then None else Some(Msg(cs.timenow, cs.msgsid, cs.msgtypeid, cs.msgdata));
    }

    method Write(b: seq<Byte>)
      modifies this`out
      ensures out == old(out) + b
    {
      out := out + b;
    }

    /** writeMsg2: `taghdr` stands for what the fillheader callback produces; the
        source panics when it is longer than a chunk. */
    method WriteMsg2(csid: nat, msg: Msg, taghdr: seq<Byte>)
      requires |taghdr| <= writeMaxChunkSize && 0 < writeMaxChunkSize
      modifies this`out
      ensures out == old(out) + Flatten(MessageChunks(csid, msg.(data := taghdr + msg.data), writeMaxChunkSize))
    {
      hide Chunks, Flatten, Header0, Header3, Tail, Rest;
      var msgdatalen := |taghdr| + |msg.data|;
      var msgdataleft := msgdatalen;
      ghost var all, max := taghdr + msg.data, writeMaxChunkSize;
      ghost var cont := Header3(csid, msg.timenow);
      ChunksSplit(Header0(csid, msg.timenow, msg.msgtypeid, msg.msgsid, msgdatalen), cont, all, |taghdr|, max);
      assert all[..|taghdr|] == taghdr && all[|taghdr|..] == msg.data;
      Write(Header0(csid, msg.timenow, msg.msgtypeid, msg.msgsid, msgdatalen) + taghdr);
      var chunkleft := writeMaxChunkSize - |taghdr|;
      msgdataleft := msgdataleft - |taghdr|;
      var i := 0;
      ghost var target := out + Rest([], cont, msg.data, chunkleft, max);
      assert target == old(out) + Flatten(MessageChunks(csid, msg.(data := all), max));
      assert msg.data[0..] == msg.data;
      while msgdataleft > 0
        invariant 0 <= msgdataleft <= |msg.data|
        invariant 0 <= chunkleft <= max && (i > 0 && msgdataleft > 0 ==> chunkleft == max)
        invariant target == out + Rest(if i == 0 then [] else cont, cont, msg.data[|msg.data| - msgdataleft..], chunkleft, max)
        decreases msgdataleft, if i == 0 then 1 else 0
      {
        var n := if msgdataleft > chunkleft then chunkleft else msgdataleft;
        var start := msgdatalen - msgdataleft - |taghdr|;
        WriteStep(out, cont, msg.data[start..], chunkleft, max);
        Slices(msg.data, start, n);
        if i > 0 {
          Write(Header3(csid, msg.timenow));
        }
        Write(msg.data[start..start + n]);
        chunkleft := chunkleft - n;
        msgdataleft := msgdataleft - n;
        if chunkleft == 0 {
          chunkleft := writeMaxChunkSize;
        }
        i := i + 1;
      }
      assert msg.data[|msg.data|..] == [];
      NothingLeft(cont, chunkleft, max);
      assert out + [] == out;
    }

    /** writeEvent2: an event goes out as one message on chunk stream 2. */
    method WriteEvent(msgtypeid: Byte, b: seq<Byte>)
      requires 0 < writeMaxChunkSize
      modifies this`out
      ensures out == old(out) + ReplyBytes([Events.Reply(msgtypeid, b)], writeMaxChunkSize)
    {
      assert [] + b == b;
      hide Flatten, MessageChunks;
      OneReply(Events.Reply(msgtypeid, b), writeMaxChunkSize);
      WriteMsg2(2, Msg(0, 0, msgtypeid, b), []);
    }

    /** setAndWriteChunkSize: the new size is in force before the message that
        announces it is written. */
    method SetAndWriteChunkSize(size: nat)
      requires 0 < size < 0x1_0000_0000 && 0 < writeMaxChunkSize
      modifies this`out, this`writeMaxChunkSize
      ensures writeMaxChunkSize == size
      ensures out == old(out) + Flatten(LockStep.ActionChunks(LockStep.SetSize(size), old(writeMaxChunkSize)))
    {
      hide Flatten, MessageChunks;
      writeMaxChunkSize := size;
      OneReply(Events.Reply(Events.SET_CHUNK_SIZE, EncU32(size)), size);
      WriteEvent(Events.SET_CHUNK_SIZE, EncU32(size));
    }

    /** One chunk, then the acknowledgement that readMsg may owe for it. */
    method ReadCounted() returns (err: Option<ReadError>, msg: Option<Msg>)
      requires Valid() && AbsReader().Ok() && 0 < writeMaxChunkSize
      modifies this`input, this`ackn, this`lastackn, this`out, this`readcsmap, this`streams, this`messages, messages
      ensures
        var res := ChunkReader.ReadChunk(old(AbsReader()), old(input));
        && (res.Err? ==> err == Some(res.error))
        && (res.Ok? ==> err.None? && Valid() && AbsReader().Ok() && input == old(input)[res.value.n..] && msg == res.value.msg)
        && (res.Ok? ==> Abs() == Events.AfterChunk(old(Abs()), res.value))
        && (res.Ok? ==> out == old(out) + ReplyBytes(Events.AckReplies(Events.AckStep(old(Abs()).acker, res.value.n).1), writeMaxChunkSize))
      ensures fresh(messages - old(messages))
    {
      hide ChunkReader.ReadChunk, ReplyBytes, Valid, CS.Ok, Count32, Sub32;
      NoReply(writeMaxChunkSize);
      err, msg := ReadChunk();
      if err.Some? { return; }
      if readAckSize != 0 && Sub32(ackn, lastackn) > readAckSize {
        WriteEvent(Events.ACK, EncU32(ackn));
        OneAck(ackn);
        lastackn := ackn;
      } else {
        assert out + [] == out;
      }
    }

    /** The method ended as `g` says: the same error, or the same state, input
        left, message and replies. */
    twostate predicate Outcome(g: Result<Events.Got, ReadError>, new err: Option<ReadError>, msg: Msg)
      requires 0 < writeMaxChunkSize
      reads this, messages
    {
      && (g.Err? ==> err == Some(g.error))
      && (g.Ok? ==> err.None? && Valid() && AbsReader().Ok() && Abs() == g.value.k && msg == g.value.msg)
      && (g.Ok? ==> g.value.n <= |old(input)| && input == old(input)[g.value.n..])
      && (g.Ok? ==> out == old(out) + ReplyBytes(g.value.replies, writeMaxChunkSize))
    }

    /** readMsg. */
    method ReadMsg() returns (err: Option<ReadError>, msg: Msg)
      requires Valid() && AbsReader().Ok() && 0 < writeMaxChunkSize
      modifies this`input, this`ackn, this`lastackn, this`out, this`readcsmap, this`streams, this`messages, messages
      ensures Outcome(Events.ReadMsg(old(Abs()), old(input)), err, msg)
      ensures fresh(messages - old(messages))
    {
      hide ChunkReader.ReadChunk, Events.ReadMsg, ReplyBytes, Valid, CS.Ok, Reader.Ok, Events.AfterChunk;
      ghost var n: nat, replies := 0, [];
      ghost var k0, b0, out0, max := Abs(), input, out, writeMaxChunkSize;
      NoReply(max);
      assert out0 + [] == out0;
      Events.ShiftZero(Events.ReadMsg(k0, b0));
      while true
        invariant Valid() && AbsReader().Ok() && fresh(messages - old(messages))
        invariant n <= |b0| && input == b0[n..] && out == out0 + ReplyBytes(replies, max)
        invariant Events.ReadMsg(k0, b0) == Events.Shift(Events.ReadMsg(Abs(), input), n, replies)
        decreases |input|
      {
        ghost var k, b := Abs(), input;
        Events.ReadMsgCases(k, b);
        var m;
        err, m := ReadCounted();
        if err.Some? {
          msg := Msg(0, 0, 0, []);
          return;
        }
        ghost var ch := ChunkReader.ReadChunk(k.r, b).value;
        ghost var acks := Events.AckReplies(Events.AckStep(k.acker, ch.n).1);
        RepliesAppend(out0, replies, acks, max);
        DropDrop(b0, n, ch.n);
        if m.Some? {
          msg := m.value;
          return;
        }
        Events.ShiftShift(Events.ReadMsg(Abs(), input), ch.n, acks, n, replies);
        n, replies := n + ch.n, replies + acks;
      }
    }

    /** nextAggPart. */
    method NextAggPart() returns (part: Option<Msg>)
      requires aggmsg.Some?
      modifies this`aggmsg
      ensures
        var p := Events.NextAggPart(old(aggmsg).value);
        && (p.None? ==> part.None? && aggmsg == old(aggmsg))
        && (p.Some? ==> part == Some(p.value.msg) && aggmsg == Some(p.value.next))
    {
      var a := aggmsg.value;
      var b := a.left;
      if |b| < Events.TAG_HEADER + Events.TAG_TRAILER { return None; }
      var typ, datalen, time, streamid := b[0], DecU24(b[1..]), Events.TagTime(b), DecU24(b[8..]);
      b := b[Events.TAG_HEADER..];
      if |b| < datalen + Events.TAG_TRAILER { return None; }
      var data := b[..datalen];
      var first := if a.idx == 0 then time else a.first;
      b := b[datalen + Events.TAG_TRAILER..];
      assert b == a.left[Events.TAG_HEADER + datalen + Events.TAG_TRAILER..];
      assert data == a.left[Events.TAG_HEADER..Events.TAG_HEADER + datalen];
      aggmsg := Some(Events.Agg(a.m, b, first, a.idx + 1));
      return Some(Msg((a.m.timenow + time - first) % 0x1_0000_0000, streamid, typ, data));
    }

    /** The inner loop of readMsgHandleEvent. */
    method Pull() returns (err: Option<ReadError>, msg: Msg)
      requires Valid() && AbsReader().Ok() && 0 < writeMaxChunkSize
      modifies this`input, this`ackn, this`lastackn, this`out, this`readcsmap, this`streams, this`messages, this`aggmsg, messages
      ensures Outcome(Events.Pull(old(Abs()), old(input)), err, msg)
      ensures fresh(messages - old(messages))
    {
      hide Events.ReadMsg, Events.Pull, Events.NextAggPart, ReplyBytes, Valid, CS.Ok, Reader.Ok;
      ghost var n: nat, replies := 0, [];
      ghost var k0, b0, out0, max := Abs(), input, out, writeMaxChunkSize;
      NoReply(max);
      assert out0 + [] == out0;
      Events.ShiftZero(Events.Pull(k0, b0));
      while true
        invariant Valid() && AbsReader().Ok() && fresh(messages - old(messages))
        invariant n <= |b0| && input == b0[n..] && out == out0 + ReplyBytes(replies, max)
        invariant Events.Pull(k0, b0) == Events.Shift(Events.Pull(Abs(), input), n, replies)
        decreases |input|
      {
        ghost var k, b := Abs(), input;
        Events.PullCases(k, b);
        if aggmsg.Some? {
          var part := NextAggPart();
          if part.Some? {
            assert replies + [] == replies;
            return None, part.value;
          }
          aggmsg := None;
        }
        err, msg := ReadMsg();
        if err.Some? { return; }
        ghost var g := Events.ReadMsg(k.(agg := None), b).value;
        RepliesAppend(out0, replies, g.replies, max);
        DropDrop(b0, n, g.n);
        if msg.msgtypeid != Events.AGGREGATE { return; }
        aggmsg := Some(Events.OpenAgg(msg));
        Events.ShiftShift(Events.Pull(Abs(), input), g.n, g.replies, n, replies);
        n, replies := n + g.n, replies + g.replies;
      }
    }

    /** handleEvent. */
    method HandleEvent(msg: Msg) returns (err: Option<ReadError>, handled: bool)
      requires 0 < writeMaxChunkSize
      modifies this`out, this`ReadMaxChunkSize, this`readAckSize
      ensures
        var h := Events.HandleEvent(old(Abs()), msg);
        && (h.Err? ==> err == Some(h.error))
        && (h.Ok? ==> err.None? && Abs() == h.value.k && handled == h.value.handled)
        && (h.Ok? ==> out == old(out) + ReplyBytes(h.value.replies, writeMaxChunkSize))
    {
      hide ReplyBytes, EncU32, EncU16;
      NoReply(writeMaxChunkSize);
      assert out + [] == out;
      err, handled := None, false;
      if msg.msgtypeid == Events.SET_CHUNK_SIZE {
        if |msg.data| < 4 { return Some(EventTooShort), false; }
        ReadMaxChunkSize, handled := DecU32(msg.data), true;
      } else if msg.msgtypeid == Events.WINDOW_ACK_SIZE {
        if |msg.data| < 4 { return Some(EventTooShort), false; }
        readAckSize, handled := DecU32(msg.data), true;
      } else if msg.msgtypeid == Events.USER_CONTROL {
        if |msg.data| < 2 { return Some(EventTooShort), false; }
        if DecU16(msg.data) == Events.PING_REQUEST {
          if |msg.data| < 6 { return Some(EventTooShort), false; }
          WriteEvent(Events.USER_CONTROL, EncU16(Events.PING_RESPONSE) + EncU32(DecU32(msg.data[2..])));
          handled := true;
        }
      }
    }

    /** readMsgHandleEvent. */
    method ReadMsgHandleEvent() returns (err: Option<ReadError>, msg: Msg)
      requires Valid() && AbsReader().Ok() && 0 < writeMaxChunkSize
      modifies this`input, this`ackn, this`lastackn, this`readAckSize, this`ReadMaxChunkSize, this`out
      modifies this`readcsmap, this`streams, this`messages, this`aggmsg, messages
      ensures Outcome(Events.ReadMsgHandleEvent(old(Abs()), old(input)), err, msg)
      ensures fresh(messages - old(messages))
    {
      hide Events.Pull, Events.HandleEvent, Events.ReadMsgHandleEvent, ReplyBytes, Valid, CS.Ok, Reader.Ok;
      ghost var n: nat, replies := 0, [];
      ghost var k0, b0, out0, max := Abs(), input, out, writeMaxChunkSize;
      NoReply(max);
      assert out0 + [] == out0;
      Events.ShiftZero(Events.ReadMsgHandleEvent(k0, b0));
      while true
        invariant Valid() && AbsReader().Ok() && fresh(messages - old(messages))
        invariant n <= |b0| && input == b0[n..] && out == out0 + ReplyBytes(replies, max)
        invariant Events.ReadMsgHandleEvent(k0, b0) == Events.Shift(Events.ReadMsgHandleEvent(Abs(), input), n, replies)
        decreases |input|, Events.AggLeft(Abs())
      {
        ghost var k, b := Abs(), input;
        Events.HandleCases(k, b);
        err, msg := Pull();
        if err.Some? { return; }
        ghost var g := Events.Pull(k, b).value;
        RepliesAppend(out0, replies, g.replies, max);
        DropDrop(b0, n, g.n);
        ghost var h := Events.HandleEvent(g.k, g.msg);
        var handled;
        err, handled := HandleEvent(msg);
        if err.Some? { return; }
        RepliesAppend(out0, replies + g.replies, h.value.replies, max);
        Assoc(replies, g.replies, h.value.replies);
        SameStreams(Abs(), g.k);
        if !handled { return; }
        Events.ShiftShift(Events.ReadMsgHandleEvent(Abs(), input), g.n, g.replies + h.value.replies, n, replies);
        n, replies := n + g.n, replies + (g.replies + h.value.replies);
      }
    }
  }

  /** The bytes of a list of replies, each a message on chunk stream 2. */
  function ReplyBytes(rs: seq<Events.Reply>, max: nat): seq<Byte>
    requires max > 0
  {
    if rs == [] then []
    else Flatten(MessageChunks(2, Msg(0, 0, rs[0].msgtypeid, rs[0].data), max)) + ReplyBytes(rs[1..], max)
  }

  lemma NoReply(max: nat)
    requires max > 0
    ensures ReplyBytes([], max) == []
  {}

  lemma OneReply(r: Events.Reply, max: nat)
    requires max > 0
    ensures ReplyBytes([r], max) == Flatten(MessageChunks(2, Msg(0, 0, r.msgtypeid, r.data), max))
  {
    hide Flatten, MessageChunks;
    var b := Flatten(MessageChunks(2, Msg(0, 0, r.msgtypeid, r.data), max));
    assert ReplyBytes([r][1..], max) == [];
    assert b + [] == b;
  }

  lemma OneAck(ackn: U32)
    ensures Events.AckReplies([ackn]) == [Events.Reply(Events.ACK, EncU32(ackn))]
  {
    assert Events.AckReplies([ackn][1..]) == [];
  }

  lemma {:induction false} ReplyBytesAppend(a: seq<Events.Reply>, b: seq<Events.Reply>, max: nat)
    requires max > 0
    ensures ReplyBytes(a + b, max) == ReplyBytes(a, max) + ReplyBytes(b, max)
  {
    hide Flatten, MessageChunks;
    if a == [] {
      assert a + b == b;
    } else {
      assert (a + b)[1..] == a[1..] + b;
      ReplyBytesAppend(a[1..], b, max);
    }
  }

  lemma RepliesAppend(out: seq<Byte>, a: seq<Events.Reply>, b: seq<Events.Reply>, max: nat)
    requires max > 0
    ensures out + ReplyBytes(a, max) + ReplyBytes(b, max) == out + ReplyBytes(a + b, max)
  {
    hide ReplyBytes;
    ReplyBytesAppend(a, b, max);
    Assoc(out, ReplyBytes(a, max), ReplyBytes(b, max));
  }

  /** Bytes taken off an input and counted, in two steps. */
  lemma TakenTwice(b0: seq<Byte>, a0: U32, m: nat, b1: seq<Byte>, a1: U32, n: nat, b2: seq<Byte>, a2: U32)
    requires m <= |b0| && b1 == b0[m..] && a1 == Count32(a0, m)
    requires n <= |b1| && b2 == b1[n..] && a2 == Count32(a1, n)
    ensures m + n <= |b0| && b2 == b0[m + n..] && a2 == Count32(a0, m + n)
  {
    Count32Twice(a0, m, n);
    hide Count32;
    DropDrop(b0, m, n);
  }

  lemma DropDrop(b: seq<Byte>, m: nat, n: nat)
    requires m + n <= |b|
    ensures b[m..][n..] == b[m + n..]
  {}

  lemma SameStreams(k: Events.Session, g: Events.Session)
    requires g.Ok() && k.r.cs == g.r.cs
    ensures k.Ok()
  {}

  /** The fields of a header copied out of the input are those of the input. */
  lemma HeaderFields(b: seq<Byte>, n: nat)
    requires 3 <= n <= |b|
    ensures DecU24(b[..n]) == DecU24(b)
    ensures n >= 7 ==> DecU24(b[..n][3..]) == DecU24(b[3..]) && b[..n][6] == b[6]
    ensures n >= 11 ==> DecU32LE(b[..n][7..]) == DecU32LE(b[7..])
  {}

  /** What writeMsg2 still has to write when `left` is unwritten, the current
      chunk takes `chunkleft` more bytes and `head` opens it. */
  function Rest(head: seq<Byte>, cont: seq<Byte>, left: seq<Byte>, chunkleft: nat, max: nat): seq<Byte>
    requires max > 0
  {
    if left == [] then []
    else
      var k := Min(|left|, chunkleft);
      head + left[..k] + Flatten(Tail(cont, left[k..], max))
  }

  lemma RestStep(cont: seq<Byte>, left: seq<Byte>, chunkleft: nat, max: nat)
    requires max > 0 && chunkleft <= max && left != []
    ensures
      var n := Min(|left|, chunkleft);
      var next := if chunkleft - n == 0 then max else chunkleft - n;
      && Rest([], cont, left, chunkleft, max) == left[..n] + Rest(cont, cont, left[n..], next, max)
      && Rest(cont, cont, left, chunkleft, max) == cont + (left[..n] + Rest(cont, cont, left[n..], next, max))
  {
    var n := Min(|left|, chunkleft);
    var rest := left[n..];
    if rest != [] {
      var k := Min(|rest|, max);
      assert Tail(cont, rest, max) == [cont + rest[..k]] + Tail(cont, rest[k..], max);
      assert Flatten(Tail(cont, rest, max)) == (cont + rest[..k]) + Flatten(Tail(cont, rest[k..], max));
    }
    assert Flatten(Tail(cont, rest, max)) == Rest(cont, cont, rest, if chunkleft - n == 0 then max else chunkleft - n, max);
  }

  lemma WriteStep(out: seq<Byte>, cont: seq<Byte>, left: seq<Byte>, chunkleft: nat, max: nat)
    requires max > 0 && chunkleft <= max && left != []
    ensures
      var n := Min(|left|, chunkleft);
      var next := Rest(cont, cont, left[n..], if chunkleft - n == 0 then max else chunkleft - n, max);
      && out + Rest([], cont, left, chunkleft, max) == out + left[..n] + next
      && out + Rest(cont, cont, left, chunkleft, max) == out + cont + left[..n] + next
  {
    hide Rest;
    var n := Min(|left|, chunkleft);
    var next := Rest(cont, cont, left[n..], if chunkleft - n == 0 then max else chunkleft - n, max);
    RestStep(cont, left, chunkleft, max);
    Assoc(out, cont, left[..n] + next);
    Assoc(out, left[..n], next);
    Assoc(out + cont, left[..n], next);
  }

  lemma Slices(data: seq<Byte>, start: nat, n: nat)
    requires start + n <= |data|
    ensures data[start..][..n] == data[start..start + n] && data[start..][n..] == data[start + n..]
  {}

  lemma NothingLeft(cont: seq<Byte>, chunkleft: nat, max: nat)
    requires max > 0
    ensures Rest([], cont, [], chunkleft, max) == Rest(cont, cont, [], chunkleft, max) == []
  {}

  lemma ChunksFlat(head: seq<Byte>, cont: seq<Byte>, data: seq<Byte>, max: nat)
    requires max > 0
    ensures
      var k := Min(|data|, max);
      Flatten(Chunks(head, cont, data, max)) == (head + data[..k]) + Flatten(Tail(cont, data[k..], max))
  {
    var k := Min(|data|, max);
    assert Chunks(head, cont, data, max)[1..] == Tail(cont, data[k..], max);
  }

  lemma TakeSplit(data: seq<Byte>, n: nat, k: nat)
    requires n <= k <= |data|
    ensures data[..k] == data[..n] + data[n..][..k - n] && data[n..][k - n..] == data[k..]
  {}

  lemma FourParts(a: seq<Byte>, b: seq<Byte>, c: seq<Byte>, d: seq<Byte>)
    ensures (a + (b + c)) + d == (a + b) + ([] + c + d)
  {}

  lemma RestCases(left: seq<Byte>, cont: seq<Byte>, chunkleft: nat, max: nat)
    requires max > 0
    ensures
      var k := Min(|left|, chunkleft);
      Rest([], cont, left, chunkleft, max) == [] + left[..k] + Flatten(Tail(cont, left[k..], max))
  {
    if left == [] { NoTail(cont, max); }
  }

  /** The first chunk of a message, its first `n` payload bytes apart. */
  lemma ChunksSplit(head: seq<Byte>, cont: seq<Byte>, data: seq<Byte>, n: nat, max: nat)
    requires n <= |data| && n <= max && max > 0
    ensures Flatten(Chunks(head, cont, data, max)) == head + data[..n] + Rest([], cont, data[n..], max - n, max)
  {
    hide Chunks, Flatten, Tail, Rest;
    var k, left := Min(|data|, max), data[n..];
    ChunksFlat(head, cont, data, max);
    TakeSplit(data, n, k);
    RestCases(left, cont, max - n, max);
    FourParts(head, data[..n], left[..k - n], Flatten(Tail(cont, data[k..], max)));
  }
}
