/** FLV files (format/flv/flv.go): packets to tags and back, the muxer and the
    demuxer. The AMF3 parser is a parameter: only its outcome is used. */
module Flv {
  import opened Bytes
  import opened Wrappers
  import opened Packets
  import opened FlvTag
  import A = Amf0

  const MS := 1_000_000

  /** TimeToTs: nanoseconds to milliseconds, towards zero. */
  function TimeToTs(t: int): int { if t >= 0 then t / MS else -(-t / MS) }

  function TsToTime(ts: int): int { ts * MS }

  function ToU32(x: int): U32 { x % 0x1_0000_0000 }

  function ToI32(x: int): int
  {
    var v := x % 0x1_0000_0000;
    if v < 0x8000_0000 then v else v - 0x1_0000_0000
  }

  const SetDataFrame: seq<Byte> := [0x40, 0x73, 0x65, 0x74, 0x44, 0x61, 0x74, 0x61, 0x46, 0x72, 0x61, 0x6d, 0x65]
  const OnMetaData: seq<Byte> := [0x6f, 0x6e, 0x4d, 0x65, 0x74, 0x61, 0x44, 0x61, 0x74, 0x61]

  // ---- Packet to tag ----

  function AACTag(p: Packet, aacPacketType: Byte, time: U32): Tag
  {
    Tag(TAG_AUDIO, time, 0, Audio(SOUND_AAC, 3, 1, if p.stereo then 1 else 0, aacPacketType), p.data)
  }

  /** WritePacket: the tag it writes, if any; metadata that does not parse is
      dropped without an error. */
  function TagOf(p: Packet, publishing: bool): Option<Tag>
  {
    match p.kind
    case AAC => Some(AACTag(p, 1, ToU32(TimeToTs(p.time))))
    case AACConfig => Some(AACTag(p, 0, 0))
    case H264Config => Some(Tag(TAG_VIDEO, ToU32(TimeToTs(p.time)), 0, Video(1, VIDEO_H264, 0, 0), p.data))
    case H264 =>
      Some(Tag(TAG_VIDEO, ToU32(TimeToTs(p.time)), 0,
               Video(if p.key then 1 else 2, VIDEO_H264, 1, ToI32(TimeToTs(p.ctime))), p.data))
    case Metadata =>
      var arr := A.ParseAll(p.data, |p.data|);
      if arr.Err? then None
      else Some(Tag(TAG_AMF0, ToU32(TimeToTs(p.time)), 0, Other, A.EncVals(MetaVals(arr.value, publishing))))
    case H264Nalu => None
  }

  function MetaVals(arr: seq<A.Val>, publishing: bool): seq<A.Val>
  {
    (if publishing then [A.Str(SetDataFrame)] else []) + [A.Str(OnMetaData)] + arr
  }

  // ---- Tag to packet ----

  function Drop(arr: seq<A.Val>, s: seq<Byte>): seq<A.Val>
  {
    if arr != [] && arr[0] == A.Str(s) then arr[1..] else arr
  }

  /** convertToAMF0Metadata, after the parse. */
  function MetaOf(arr: seq<A.Val>): Option<seq<Byte>>
  {
    var a := Drop(arr, SetDataFrame);
    if a == [] || a[0] != A.Str(OnMetaData) then None
    else
      var b := a[1..];
      Some(A.EncVals(if b == [] then [A.Obj([])] else b))
  }

  type Amf3Parser = seq<Byte> -> Option<seq<A.Val>>

  /** ParseAMFVals: an AMF3 tag may switch to AMF0 with a zero byte in front. */
  function ParseVals(data: seq<Byte>, isamf3: bool, amf3: Amf3Parser): Option<seq<A.Val>>
  {
    if isamf3 && (|data| < 1 || data[0] != 0) then (if |data| < 1 then None else amf3(data))
    else
      var arr := if isamf3 then A.ParseAll(data[1..], |data|) else A.ParseAll(data, |data|);
      if arr.Err? then None else Some(arr.value)
  }

  /** The switch of ReadPacket: the packet in a tag, or nothing, and on to the
      next tag. */
  function PacketOf(t: Tag, amf3: Amf3Parser): Option<Packet>
  {
    var p := Header(AAC, t.data);
    if t.typ == TAG_AMF0 || t.typ == TAG_AMF3 then
      var arr := ParseVals(t.data, t.typ == TAG_AMF3, amf3);
      var meta := if arr.None? then None else MetaOf(arr.value);
      if meta.None? then None else Some(Header(Metadata, meta.value).(time := TsToTime(t.time)))
    else if t.body.Video? && t.body.format == VIDEO_H264 && t.body.avcPacketType == 0 then
      Some(p.(kind := H264Config))
    else if t.body.Video? && t.body.format == VIDEO_H264 && t.body.avcPacketType == 1 then
      Some(p.(kind := H264, time := TsToTime(t.time), ctime := TsToTime(t.body.ctime), key := t.body.frameType == 1))
    else if t.body.Audio? && t.body.format == SOUND_AAC && t.body.aacPacketType == 0 then
      Some(p.(kind := AACConfig))
    else if t.body.Audio? && t.body.format == SOUND_AAC && t.body.aacPacketType == 1 then
      Some(p.(time := TsToTime(t.time)))
    else
      None
  }

  // ---- What survives ----

  /** Whole milliseconds below 2^32. */
  predicate TimeFits(t: int) { 0 <= t < 0x1_0000_0000 * MS && t % MS == 0 }

  predicate CTimeFits(t: int) { -0x80_0000 * MS <= t < 0x80_0000 * MS && t % MS == 0 }

  /** The packets the format can carry. */
  predicate Fits(p: Packet, publishing: bool)
  {
    match p.kind
    case AAC => TimeFits(p.time) && |p.data| < 0x100_0000 - 2
    case H264 => TimeFits(p.time) && CTimeFits(p.ctime) && |p.data| < 0x100_0000 - 5
    case AACConfig => |p.data| < 0x100_0000 - 2
    case H264Config => TimeFits(p.time) && |p.data| < 0x100_0000 - 5
    case Metadata =>
      var arr := A.ParseAll(p.data, |p.data|);
      && TimeFits(p.time) && |p.data| < 0x100_0000
      && (arr.Ok? ==> arr.value != [] && A.NoDateVals(arr.value) && |A.EncVals(MetaVals(arr.value, publishing))| < 0x100_0000)
    case H264Nalu => true
  }

  /** What comes back: type, key flag (of video), times and data; metadata comes
      back in the printer's normal form, and configs with time 0. */
  function Kept(p: Packet): Packet
  {
    match p.kind
    case AAC => Header(AAC, p.data).(time := p.time)
    case H264 => Header(H264, p.data).(time := p.time, ctime := p.ctime, key := p.key)
    case Metadata =>
      var arr := A.ParseAll(p.data, |p.data|);
      Header(Metadata, if arr.Ok? then A.EncVals(arr.value) else []).(time := p.time)
    case _ => Header(p.kind, p.data)
  }

  lemma TimeBack(t: int)
    requires TimeFits(t)
    ensures TsToTime(ToU32(TimeToTs(t))) == t
  {}

  lemma CTimeBack(t: int)
    requires CTimeFits(t)
    ensures TsToTime(ToI32(TimeToTs(t))) == t && -0x80_0000 <= ToI32(TimeToTs(t)) < 0x80_0000
  {
    var ms := t / MS;
    assert t == ms * MS;
    assert -t == (-ms) * MS;
    assert TimeToTs(t) == ms;
  }

  lemma GoodCons(v: A.Val, vals: seq<A.Val>)
    requires A.Good(v) && A.GoodVals(vals)
    ensures A.GoodVals([v] + vals)
  {
    hide A.Shape, A.NoDate;
    assert ([v] + vals)[1..] == vals;
  }

  lemma MetaShape(arr: seq<A.Val>, publishing: bool)
    requires A.GoodVals(arr)
    ensures A.GoodVals(MetaVals(arr, publishing))
  {
    var a := [A.Str(OnMetaData)] + arr;
    assert A.Good(A.Str(OnMetaData)) && A.Good(A.Str(SetDataFrame));
    hide A.GoodVals, A.Good;
    GoodCons(A.Str(OnMetaData), arr);
    GoodCons(A.Str(SetDataFrame), a);
    assert MetaVals(arr, publishing) == if publishing then [A.Str(SetDataFrame)] + a else a;
  }

  /** The one exception: metadata without any value comes back as an empty map. */
  lemma EmptyMetadata(publishing: bool)
    ensures MetaOf(MetaVals([], publishing)) == Some(A.EncVals([A.Obj([])]))
  {
    var a := [A.Str(OnMetaData)];
    assert a[1..] == [] && SetDataFrame[0] != OnMetaData[0];
    if publishing {
      assert MetaVals([], publishing) == [A.Str(SetDataFrame)] + a;
      assert MetaVals([], publishing)[1..] == a;
    } else {
      assert MetaVals([], publishing) == a;
    }
    hide A.EncVals;
  }

  lemma MetaUnwraps(arr: seq<A.Val>, publishing: bool)
    requires arr != []
    ensures MetaOf(MetaVals(arr, publishing)) == Some(A.EncVals(arr))
  {
    var a := [A.Str(OnMetaData)] + arr;
    assert a[1..] == arr && SetDataFrame[0] != OnMetaData[0];
    if publishing {
      assert MetaVals(arr, publishing) == [A.Str(SetDataFrame)] + a;
      assert MetaVals(arr, publishing)[1..] == a;
    } else {
      assert MetaVals(arr, publishing) == a;
    }
  }

  lemma MetaRoundTrip(p: Packet, publishing: bool, amf3: Amf3Parser)
    requires p.kind == Metadata && Fits(p, publishing) && TagOf(p, publishing).Some?
    ensures PacketOf(TagOf(p, publishing).value, amf3) == Some(Kept(p))
  {
    var arr := A.ParseAll(p.data, |p.data|).value;
    hide A.ParseAll, A.EncVals, MetaOf, MetaVals;
    A.AllParsedShape(p.data, |p.data|);
    MetaShape(arr, publishing);
    A.WholeBuffer(MetaVals(arr, publishing), []);
    MetaUnwraps(arr, publishing);
    TimeBack(p.time);
  }

  /** One packet through a tag. */
  lemma PacketRoundTrip(p: Packet, publishing: bool, amf3: Amf3Parser)
    requires Fits(p, publishing) && TagOf(p, publishing).Some?
    ensures
      var t := TagOf(p, publishing).value;
      WellFormed(t) && |EncBody(t.body)| + |t.data| < 0x100_0000 && PacketOf(t, amf3) == Some(Kept(p))
  {
    hide A.ParseAll, A.EncVals, MetaVals;
    match p.kind
    case AAC => TimeBack(p.time);
    case H264 => TimeBack(p.time); CTimeBack(p.ctime);
    case Metadata => MetaRoundTrip(p, publishing, amf3);
    case _ =>
  }

  /** Nothing is lost the second time: what comes back comes back again as it is. */
  lemma KeptTwice(p: Packet)
    requires |p.data| < 0x1_0000_0000 && p.kind != H264Nalu
    requires p.kind == Metadata ==> A.ParseAll(p.data, |p.data|).Ok? && A.NoDateVals(A.ParseAll(p.data, |p.data|).value)
    ensures Kept(Kept(p)) == Kept(p)
  {
    hide A.ParseAll, A.EncVals, A.NoDateVals;
    if p.kind == Metadata {
      A.AllParsedShape(p.data, |p.data|);
      A.WholeBuffer(A.ParseAll(p.data, |p.data|).value, p.data);
    }
  }

  // ---- Whole files ----

  function TagBytes(p: Packet, publishing: bool): seq<Byte>
  {
    if TagOf(p, publishing).None? then [] else EncTag(TagOf(p, publishing).value)
  }

  /** Everything the muxer writes for `ps` after the file header. */
  function TagsOf(ps: seq<Packet>, publishing: bool): seq<Byte>
  {
    if ps == [] then [] else TagBytes(ps[0], publishing) + TagsOf(ps[1..], publishing)
  }

  ghost predicate AllFit(ps: seq<Packet>, publishing: bool) { forall i :: 0 <= i < |ps| ==> Fits(ps[i], publishing) }

  /** The packets that leave a tag behind, as they come back. */
  function KeptAll(ps: seq<Packet>, publishing: bool): seq<Packet>
  {
    if ps == [] then []
    else (if TagOf(ps[0], publishing).None? then [] else [Kept(ps[0])]) + KeptAll(ps[1..], publishing)
  }

  datatype Read1 = Read1(pkt: Packet, n: nat)

  /** ReadPacket: tags until one holds a packet. */
  function NextPacket(b: seq<Byte>, amf3: Amf3Parser): (r: Result<Read1, ReadError>)
    ensures r.Ok? ==> 0 < r.value.n <= |b|
    decreases |b|
  {
    var g :- DecTag(b);
    var p := PacketOf(g.tag, amf3);
    if p.Some? then Ok(Read1(p.value, g.n)) else
    var rest :- NextPacket(b[g.n..], amf3);
    Ok(Read1(rest.pkt, g.n + rest.n))
  }

  /** Packets until the input is used up. */
  function ReadAll(b: seq<Byte>, amf3: Amf3Parser): Result<seq<Packet>, ReadError>
    decreases |b|
  {
    if b == [] then Ok([]) else
    var r :- NextPacket(b, amf3);
    var rest :- ReadAll(b[r.n..], amf3);
    Ok([r.pkt] + rest)
  }

  lemma ReadFirst(p: Packet, publishing: bool, rest: seq<Byte>, amf3: Amf3Parser)
    requires Fits(p, publishing) && TagOf(p, publishing).Some?
    ensures
      var t := EncTag(TagOf(p, publishing).value);
      NextPacket(t + rest, amf3) == Ok(Read1(Kept(p), |t|)) && t + rest != []
  {
    PacketRoundTrip(p, publishing, amf3);
    TagRoundTrip(TagOf(p, publishing).value, rest);
    hide TagOf, EncTag, DecTag, PacketOf, Kept;
  }

  /** File round trip: the demuxer returns the packets the muxer was given, in
      order, with type, key flag, time, composition time and data. */
  lemma {:induction false} BodyRoundTripAll(ps: seq<Packet>, publishing: bool, amf3: Amf3Parser)
    requires AllFit(ps, publishing)
    ensures ReadAll(TagsOf(ps, publishing), amf3) == Ok(KeptAll(ps, publishing))
    decreases |ps|
  {
    if ps != [] {
      var rest := TagsOf(ps[1..], publishing);
      BodyRoundTripAll(ps[1..], publishing, amf3);
      assert Fits(ps[0], publishing);
      if TagOf(ps[0], publishing).Some? {
        ReadFirst(ps[0], publishing, rest, amf3);
        hide TagOf, EncTag, NextPacket, Kept, Fits;
        var t := EncTag(TagOf(ps[0], publishing).value);
        assert (t + rest)[|t|..] == rest;
      } else {
        hide TagOf, EncTag, NextPacket, Kept, Fits;
        assert [] + rest == rest && [] + KeptAll(ps[1..], publishing) == KeptAll(ps[1..], publishing);
      }
    }
  }

  // ---- The muxer and the demuxer ----

  class Muxer {
    var W: seq<Byte>  // what was written
    var filehdrwritten: bool
    var HasVideo: bool
    var HasAudio: bool
    const Publishing: bool

    constructor (publishing: bool, hasVideo: bool, hasAudio: bool)
      ensures W == [] && !filehdrwritten && Publishing == publishing && HasVideo == hasVideo && HasAudio == hasAudio
    {
      W, filehdrwritten, HasVideo, HasAudio, Publishing := [], false, hasVideo, hasAudio, publishing;
    }

    function Flags(): Byte
      reads this
    {
      (if HasVideo then FLAG_VIDEO else 0) + (if HasAudio then FLAG_AUDIO else 0)
    }

    /** What the next tag has in front of it. */
    function Pending(): seq<Byte>
      reads this
    {
      if filehdrwritten then [] else FileHeader(Flags())
    }

    method WriteFileHeader()
      modifies this`W, this`filehdrwritten
      ensures filehdrwritten && W == old(W) + old(Pending())
    {
      assert W + [] == W;
      if filehdrwritten { return; }
      var flags := 0;
      if HasVideo {
        flags := flags + FLAG_VIDEO;
      }
      if HasAudio {
        flags := flags + FLAG_AUDIO;
      }
      W := W + FileHeader(flags);
      filehdrwritten := true;
    }

    method WriteTag(tag: Tag)
      modifies this`W, this`filehdrwritten
      ensures filehdrwritten && W == old(W) + old(Pending()) + EncTag(tag)
    {
      hide EncBody, EncHeader, EncU32;
      WriteFileHeader();
      var hdr := EncBody(tag.body);
      var datalen := |tag.data| + |hdr|;
      W := W + (EncHeader(tag.typ, datalen, tag.time, tag.streamId) + hdr);
      W := W + tag.data;
      W := W + EncU32((datalen + 11) % 0x1_0000_0000);
    }

    /** One file header before the first tag, and only if there is a tag. */
    method WritePacket(p: Packet)
      modifies this`W, this`filehdrwritten
      ensures TagOf(p, Publishing).None? ==> W == old(W) && filehdrwritten == old(filehdrwritten)
      ensures TagOf(p, Publishing).Some? ==> filehdrwritten && W == old(W) + old(Pending()) + TagBytes(p, Publishing)
    {
      hide EncTag;
      var tag := TagOf(p, Publishing);
      if tag.Some? { WriteTag(tag.value); }
    }

    method WriteAll(ps: seq<Packet>)
      modifies this`W, this`filehdrwritten
      ensures filehdrwritten == (old(filehdrwritten) || TagsOf(ps, Publishing) != [])
      ensures W == old(W) + (if filehdrwritten then old(Pending()) else []) + TagsOf(ps, Publishing)
    {
      hide TagOf, EncTag, TagsOf;
      ghost var w0, head, pre: seq<Byte>, done: seq<Byte> := W, Pending(), [], [];
      assert ps[0..] == ps && [] + TagsOf(ps, Publishing) == TagsOf(ps, Publishing) && W == w0 + [] + [];
      for i := 0 to |ps|
        invariant HasVideo == old(HasVideo) && HasAudio == old(HasAudio)
        invariant filehdrwritten == (old(filehdrwritten) || done != [])
        invariant pre == if filehdrwritten then head else []
        invariant W == w0 + pre + done && done + TagsOf(ps[i..], Publishing) == TagsOf(ps, Publishing)
      {
        NextTag(done, ps, i, Publishing);
        TagNotEmpty(ps[i], Publishing);
        ghost var t, pending := TagBytes(ps[i], Publishing), Pending();
        WritePacket(ps[i]);
        if t == [] {
          assert done + t == done;
        } else {
          Appended(w0, pre, done, pending, t, head);
          pre := head;
        }
        done := done + t;
      }
      NoTags(ps[|ps|..], Publishing);
      assert done + [] == done;
    }
  }

  lemma NoTags(ps: seq<Packet>, publishing: bool)
    requires ps == []
    ensures TagsOf(ps, publishing) == []
  {}

  lemma Appended(w0: seq<Byte>, pre: seq<Byte>, done: seq<Byte>, pending: seq<Byte>, t: seq<Byte>, head: seq<Byte>)
    requires (pending == [] && pre == head) || (pre == done == [] && pending == head)
    ensures w0 + pre + done + pending + t == w0 + head + (done + t)
  {}

  lemma TagNotEmpty(p: Packet, publishing: bool)
    ensures TagOf(p, publishing).Some? <==> TagBytes(p, publishing) != []
  {}

  lemma NextTag(done: seq<Byte>, ps: seq<Packet>, i: nat, publishing: bool)
    requires i < |ps|
    ensures done + TagsOf(ps[i..], publishing) == done + TagBytes(ps[i], publishing) + TagsOf(ps[i + 1..], publishing)
  {
    hide TagBytes;
    assert ps[i..][1..] == ps[i + 1..];
    Assoc(done, TagBytes(ps[i], publishing), TagsOf(ps[i + 1..], publishing));
  }

  class Demuxer {
    var r: seq<Byte>  // what was not read yet
    var gotfilehdr: bool
    const amf3: Amf3Parser

    constructor (b: seq<Byte>, amf3: Amf3Parser)
      ensures r == b && !gotfilehdr && this.amf3 == amf3
    {
      r, gotfilehdr, this.amf3 := b, false, amf3;
    }

    /** What is left after the file header, if it can be read. */
    function AfterHeader(): (b: Option<seq<Byte>>)
      reads this
    {
      if gotfilehdr then Some(r)
      else if |r| < 13 then None
      else
        var h := ParseFileHeader(r[..13]);
        if h.None? || |r| < 13 + h.value.skip then None else Some(r[13 + h.value.skip..])
    }

    method ReadFileHeader() returns (ok: bool)
      modifies this
      ensures ok <==> old(AfterHeader()).Some?
      ensures ok ==> gotfilehdr && r == old(AfterHeader()).value
    {
      if gotfilehdr { return true; }
      if |r| < 13 { return false; }
      var h := ParseFileHeader(r[..13]);
      if h.None? || |r| < 13 + h.value.skip { return false; }
      r, gotfilehdr := r[13 + h.value.skip..], true;
      return true;
    }

    method ReadTag() returns (ok: bool, tag: Tag)
      modifies this
      ensures
        var b := old(AfterHeader());
        && (ok <==> b.Some? && DecTag(b.value).Ok?)
        && (ok ==> gotfilehdr && tag == DecTag(b.value).value.tag && r == b.value[DecTag(b.value).value.n..])
    {
      hide DecTag, ParseFileHeader;
      tag := Tag(0, 0, 0, Other, []);
      ok := ReadFileHeader();
      if !ok { return; }
      var g := DecTag(r);
      if g.Err? { return false, tag; }
      tag, r := g.value.tag, r[g.value.n..];
    }

    method ReadPacket() returns (ok: bool, pkt: Packet)
      modifies this
      ensures
        var b := old(AfterHeader());
        && (ok <==> b.Some? && NextPacket(b.value, amf3).Ok?)
        && (ok ==> gotfilehdr && pkt == NextPacket(b.value, amf3).value.pkt)
        && (ok ==> r == b.value[NextPacket(b.value, amf3).value.n..])
    {
      hide DecTag, ParseFileHeader, PacketOf;
      pkt := Header(Metadata, []);
      ghost var b := AfterHeader();
      ghost var n := 0;
      if b.Some? { assert b.value[0..] == b.value; }
      while true
        invariant AfterHeader().Some? == b.Some?
        invariant b.Some? ==> n <= |b.value| && AfterHeader().value == b.value[n..]
        invariant b.Some? ==> NextPacket(b.value, amf3) == Later(n, NextPacket(b.value[n..], amf3))
        decreases if AfterHeader().Some? then |AfterHeader().value| else 0
      {
        ghost var rest := AfterHeader();
        var tag;
        ok, tag := ReadTag();
        if !ok { return; }
        ghost var k := DecTag(rest.value).value.n;
        assert rest.value[k..] == b.value[n + k..];
        var p := PacketOf(tag, amf3);
        if p.Some? { return true, p.value; }
        n := n + k;
      }
    }
  }

  function Later(n: nat, r: Result<Read1, ReadError>): Result<Read1, ReadError>
  {
    if r.Err? then r else Ok(Read1(r.value.pkt, n + r.value.n))
  }

  /** The demuxer finds its place behind the muxer's file header. */
  lemma HeaderThenBody(d: Demuxer, flags: Byte, body: seq<Byte>)
    requires !d.gotfilehdr && d.r == FileHeader(flags) + body
    ensures d.AfterHeader() == Some(body)
  {
    FileHeaderRoundTrip(flags, body);
    hide ParseFileHeader, FileHeader;
    assert d.r[13..] == body;
  }

  /** A muxer and a demuxer back to back: the file is one header and the tags, or
      nothing when there are no tags, and read until it is used up it gives the
      packets that were written, in order. */
  method MuxThenDemux(ps: seq<Packet>, publishing: bool, hasVideo: bool, hasAudio: bool, amf3: Amf3Parser)
    returns (file: seq<Byte>, out: seq<Packet>, ok: bool)
    requires AllFit(ps, publishing)
    ensures
      var flags := (if hasVideo then FLAG_VIDEO else 0) + (if hasAudio then FLAG_AUDIO else 0);
      file == if TagsOf(ps, publishing) == [] then [] else FileHeader(flags) + TagsOf(ps, publishing)
    ensures ok && out == KeptAll(ps, publishing)
  {
    hide TagOf, EncTag, Fits, Kept, DecTag, ParseFileHeader, FileHeader, AllFit;
    var m := new Muxer(publishing, hasVideo, hasAudio);
    ghost var head := FileHeader(m.Flags());
    m.WriteAll(ps);
    file := m.W;
    assert [] + head == head;
    assert [] + [] + TagsOf(ps, publishing) == TagsOf(ps, publishing);
    BodyRoundTripAll(ps, publishing, amf3);
    var d := new Demuxer(m.W, amf3);
    out, ok := [], true;
    if m.W == [] {
      return;
    }
    ghost var body := TagsOf(ps, publishing);
    HeaderThenBody(d, m.Flags(), body);
    var more := true;
    assert [] + KeptAll(ps, publishing) == KeptAll(ps, publishing);
    while more
      invariant d.amf3 == amf3 && (more ==> d.AfterHeader().Some?)
      invariant more ==> d.AfterHeader().value != []
      invariant more ==> MoreOf(out, ReadAll(d.AfterHeader().value, amf3)) == Ok(KeptAll(ps, publishing))
      invariant !more ==> ok && out == KeptAll(ps, publishing)
      decreases more, if d.AfterHeader().Some? then |d.AfterHeader().value| else 0
    {
      ghost var b := d.AfterHeader().value;
      var pkt;
      ReadAllCases(b, amf3);
      ok, pkt := d.ReadPacket();
      assert ok;
      AddOne(out, pkt, ReadAll(d.r, amf3));
      out := out + [pkt];
      more := d.r != [];
      assert d.AfterHeader() == Some(d.r);
      if !more { assert out + [] == out; }
    }
  }

  function MoreOf(out: seq<Packet>, r: Result<seq<Packet>, ReadError>): Result<seq<Packet>, ReadError>
  {
    if r.Err? then r else Ok(out + r.value)
  }

  lemma AddOne(out: seq<Packet>, p: Packet, r: Result<seq<Packet>, ReadError>)
    ensures MoreOf(out, MoreOf([p], r)) == MoreOf(out + [p], r)
  {
    if r.Ok? { assert out + ([p] + r.value) == out + [p] + r.value; }
  }

  lemma ReadAllCases(b: seq<Byte>, amf3: Amf3Parser)
    requires b != []
    ensures
      var r := NextPacket(b, amf3);
      ReadAll(b, amf3) == if r.Err? then Err(r.error) else MoreOf([r.value.pkt], ReadAll(b[r.value.n..], amf3))
  {
    hide DecTag, PacketOf;
  }
}
