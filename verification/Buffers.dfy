/** Who may write a message's payload (format/rtmp/msg.go: message.Start and the
    end of readChunk). A chunk stream fills its buffer in place and hands the
    same buffer out; nothing read later changes it. */
module Buffers {
  import opened Bytes
  import opened Wrappers
  import opened ChunkReader

  /** A message that was handed out: its buffer and what it held then. */
  datatype Returned = Returned(buf: array<Byte>, data: seq<Byte>)

  /** The read into buf[off : off+len(b)]. */
  method WriteAt(buf: array<Byte>, off: nat, b: seq<Byte>)
    requires off + |b| <= buf.Length
    modifies buf
    ensures buf[..] == old(buf[..off]) + b + old(buf[off + |b|..])
    ensures |b| == 0 ==> buf[..] == old(buf[..])
  {
    forall k | 0 <= k < |b| {
      buf[off + k] := b[k];
    }
    assert buf[..off] == old(buf[..off]) && buf[off..off + |b|] == b && buf[off + |b|..] == old(buf[off + |b|..]);
    assert buf[..] == buf[..off] + buf[off..off + |b|] + buf[off + |b|..];
  }

  /** A buffer with `left` bytes to come carries what a chunk stream holds. */
  predicate Carries(b: seq<Byte>, left: nat, s: CS)
  {
    s.Ok() && |b| == s.h.msgdatalen && left == s.Left() && b[..|s.got|] == s.got
  }

  class Payloads {
    var msgdata: map<nat, array<Byte>>  // by chunk stream id
    var msgdataleft: map<nat, nat>
    ghost var returned: seq<Returned>
    ghost var owned: set<array<Byte>>

    ghost predicate Valid()
      reads this, owned
    {
      && msgdataleft.Keys == msgdata.Keys
      && (forall c :: c in msgdata ==> Current(c))
      && (forall c, d :: c in msgdata && d in msgdata && c != d ==> msgdata[c] != msgdata[d])
      && (forall i :: 0 <= i < |returned| ==> Intact(i))
    }

    ghost predicate Current(c: nat)
      requires c in msgdata && msgdataleft.Keys == msgdata.Keys
      reads this
    {
      msgdata[c] in owned && msgdataleft[c] <= msgdata[c].Length
    }

    /** The buffer still holds what was handed out, and if a chunk stream still
        points to it, that stream has nothing more to put there. */
    ghost predicate Intact(i: nat)
      requires i < |returned| && msgdataleft.Keys == msgdata.Keys
      reads this, owned
    {
      var r := returned[i];
      && r.buf in owned && r.buf[..] == r.data
      && forall c :: c in msgdata && msgdata[c] == r.buf ==> msgdataleft[c] == 0
    }

    /** The buffers hold what the reader's chunk streams hold. */
    ghost predicate Holds(cs: map<nat, CS>)
      reads this, owned
    {
      Valid() && cs.Keys == msgdata.Keys && forall c :: c in msgdata ==> HoldsAt(c, cs[c])
    }

    ghost predicate HoldsAt(c: nat, s: CS)
      requires c in msgdata && msgdataleft.Keys == msgdata.Keys
      reads this, owned
    {
      msgdata[c] in owned && Carries(msgdata[c][..], msgdataleft[c], s)
    }

    constructor ()
      ensures Valid() && returned == [] && fresh(owned) && owned == {} && Holds(map[])
    {
      msgdata, msgdataleft, returned, owned := map[], map[], [], {};
    }

    /** message.Start: a fresh buffer, never one that was handed out. */
    method Start(csid: nat, msgdatalen: nat)
      requires Valid()
      modifies this
      ensures Valid() && returned == old(returned) && fresh(owned - old(owned))
      ensures csid in msgdata && fresh(msgdata[csid]) && msgdata[csid].Length == msgdatalen
      ensures msgdata == old(msgdata)[csid := msgdata[csid]] && msgdataleft == old(msgdataleft)[csid := msgdatalen]
    {
      var b := new Byte[msgdatalen];
      msgdata, msgdataleft := msgdata[csid := b], msgdataleft[csid := msgdatalen];
      owned := owned + {b};
      forall c | c in msgdata ensures Current(c) {
        if c != csid { assert old(Current(c)); }
      }
      forall i | 0 <= i < |returned| ensures Intact(i) {
        assert old(Intact(i));
      }
    }

    /** The payload of one chunk, written behind what is there; the message is
        handed out when that completes it. */
    method Fill(csid: nat, b: seq<Byte>) returns (msg: array?<Byte>)
      requires Valid() && csid in msgdata && |b| <= msgdataleft[csid]
      modifies this, msgdata[csid]
      ensures Valid() && owned == old(owned) && msgdata == old(msgdata)
      ensures msgdataleft == old(msgdataleft)[csid := old(msgdataleft[csid]) - |b|]
      ensures var off := msgdata[csid].Length - old(msgdataleft[csid]);
        msgdata[csid][..] == old(msgdata[csid][..off]) + b + old(msgdata[csid][off + |b|..])
      ensures msg == if msgdataleft[csid] == 0 then msgdata[csid] else null
      ensures returned == old(returned) + if msg == null then [] else [Returned(msg, msg[..])]
      ensures forall i :: 0 <= i < |old(returned)| ==> old(returned)[i].buf[..] == old(returned)[i].data
    {
      var buf := msgdata[csid];
      assert Current(csid);
      var off := buf.Length - msgdataleft[csid];
      forall i | 0 <= i < |returned| ensures Intact(i) && (|b| > 0 ==> returned[i].buf != buf) {
        assert old(Intact(i));
      }
      WriteAt(buf, off, b);
      forall i | 0 <= i < |returned| ensures returned[i].buf[..] == returned[i].data {
        assert old(Intact(i));
      }
      msgdataleft := msgdataleft[csid := msgdataleft[csid] - |b|];
      msg := null;
      if msgdataleft[csid] == 0 {
        msg := buf;
        returned := returned + [Returned(buf, buf[..])];
      }
      forall c | c in msgdata ensures Current(c) {
        assert old(Current(c));
      }
      hide Current;
      forall i | 0 <= i < |returned| ensures Intact(i) {
        if i < |old(returned)| { assert old(Intact(i)); }
      }
    }

    /** The buffer side of a header that starts a message. */
    method Open(csid: nat, head: CS, ghost cs: map<nat, CS>)
      requires Holds(cs) && head.Ok() && head.got == []
      modifies this
      ensures Holds(cs[csid := head]) && returned == old(returned) && fresh(owned - old(owned))
    {
      Start(csid, head.h.msgdatalen);
      forall c | c in msgdata ensures HoldsAt(c, cs[csid := head][c]) {
        if c != csid { assert old(HoldsAt(c, cs[c])); }
        assert Current(c);
      }
    }

    /** The buffer side of a payload. */
    method Append(csid: nat, s: CS, data: seq<Byte>, ghost cs: map<nat, CS>) returns (msg: array?<Byte>)
      requires Holds(cs) && csid in cs && s == cs[csid] && s.Ok() && |data| <= s.Left()
      modifies this, msgdata[csid]
      ensures Holds(cs[csid := CS(s.h, s.got + data)]) && owned == old(owned)
      ensures msg != null <==> |data| == s.Left()
      ensures msg != null ==> msg[..] == s.got + data
      ensures old(returned) <= returned
      ensures forall i :: 0 <= i < |old(returned)| ==> old(returned)[i].buf[..] == old(returned)[i].data
    {
      hide Valid, Current, Intact;
      Apart(csid);
      assert HoldsAt(csid, s);
      ghost var buf := msgdata[csid][..];
      msg := Fill(csid, data);
      Apart(csid);
      Grown(buf, s, data);
      hide Carries;
      forall c | c in msgdata && c != csid ensures HoldsAt(c, cs[c]) {
        assert old(HoldsAt(c, cs[c]));
      }
    }

    lemma Apart(csid: nat)
      requires Valid() && csid in msgdata
      ensures msgdataleft.Keys == msgdata.Keys && msgdata[csid] in owned
      ensures forall c :: c in msgdata && c != csid ==> msgdata[c] != msgdata[csid]
    {
      assert Current(csid);
    }

    /** The buffer work of one readChunk: what was read goes into the stream's
        own buffer, the message handed out is the one ReadChunk returns, and no
        message handed out before changes. */
    method ReadChunk(r: Reader, b: seq<Byte>) returns (msg: array?<Byte>)
      requires r.Ok() && Holds(r.cs) && ChunkReader.ReadChunk(r, b).Ok?
      modifies this, owned
      ensures
        var ch := ChunkReader.ReadChunk(r, b).value;
        Holds(ch.r.cs) && (msg != null <==> ch.msg.Some?) && (msg != null ==> msg[..] == ch.msg.value.data)
      ensures fresh(owned - old(owned))
      ensures old(returned) <= returned
      ensures forall i :: 0 <= i < |old(returned)| ==> old(returned)[i].buf[..] == old(returned)[i].data
    {
      hide ChunkReader.ReadChunk, Valid, HoldsAt, Reader.Ok;
      var csid, c, head, data, opens := Parts(r, b);
      if opens {
        Open(csid, head, r.cs);
      } else {
        assert r.cs == r.cs[csid := head];
      }
      assert r.cs[csid := head][csid := CS(head.h, head.got + data)] == r.cs[csid := CS(head.h, head.got + data)];
      Apart(csid);
      msg := Append(csid, head, data, r.cs[csid := head]);
    }
  }

  lemma Grown(buf: seq<Byte>, s: CS, data: seq<Byte>)
    requires s.Ok() && |data| <= s.Left() && Carries(buf, s.Left(), s)
    ensures
      var off, next := |s.got|, CS(s.h, s.got + data);
      var b := buf[..off] + data + buf[off + |data|..];
      Carries(b, s.Left() - |data|, next) && (|data| == s.Left() ==> b == next.got)
  {}

  /** The parts of a chunk that can be read: the stream it belongs to, what the
      header makes of it, the payload, and whether a new message begins. */
  method Parts(r: Reader, b: seq<Byte>) returns (csid: nat, c: CS, head: CS, data: seq<Byte>, opens: bool)
    requires r.Ok() && ChunkReader.ReadChunk(r, b).Ok?
    ensures c == Get(r.cs, csid) && c.Ok() && head.Ok() && |data| <= head.Left() && (csid !in r.cs ==> opens)
    ensures if opens then head.got == [] else head == c
    ensures
      var ch, next := ChunkReader.ReadChunk(r, b).value, CS(head.h, head.got + data);
      && ch.r.cs == r.cs[csid := next]
      && ch.msg == if next.Left() == 0 then Some(MsgOf(next)) else None
  {
    hide ChunkReader.ReadBasic, ReadHeader, ReadOn, ChunkReader.ReadChunk;
    ChunkCases(r, b);
    var basic := ChunkReader.ReadBasic(b).value;
    csid := basic.csid;
    c := Get(r.cs, csid);
    var rest := b[basic.n..];
    OnCases(c, csid !in r.cs, basic.fmt, rest, r.maxChunk);
    var h := ReadHeader(c, csid !in r.cs, basic.fmt, rest).value;
    HeadOpens(c, csid !in r.cs, basic.fmt, rest);
    head, opens := h.cs, basic.fmt != 3 || c.Left() == 0;
    data := rest[h.n..][..Min(head.Left(), r.maxChunk)];
  }

  /** A header starts a message unless it continues one. */
  lemma HeadOpens(c: CS, newcs: bool, fmt: nat, b: seq<Byte>)
    requires c.Ok() && fmt < 4 && ReadHeader(c, newcs, fmt, b).Ok?
    ensures
      var head := ReadHeader(c, newcs, fmt, b).value.cs;
      if fmt != 3 || c.Left() == 0 then head.got == [] else head == c && !newcs
  {}
}
