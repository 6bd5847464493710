/** FLV tags (format/flv/flvio/flvio.go): the tag header, the audio and video
    sub-headers, the trailer and the file header. */
module FlvTag {
  import opened Bytes
  import opened Wrappers

  const TAG_AUDIO := 8
  const TAG_VIDEO := 9
  const TAG_AMF3 := 15
  const TAG_AMF0 := 18
  const SOUND_AAC := 10
  const VIDEO_H264 := 7
  const VIDEO_H265 := 12

  /** The fields that belong to the tag type; the others are zero in Go. */
  datatype Body =
    | Audio(format: nat, rate: nat, size: nat, typ: nat, aacPacketType: Byte)
    | Video(frameType: nat, format: nat, avcPacketType: Byte, ctime: int)
    | Other

  datatype Tag = Tag(typ: Byte, time: U32, streamId: U24, body: Body, data: seq<Byte>)

  /** Values that fit their bit fields, and nothing set that is not encoded. */
  predicate WellFormed(t: Tag)
  {
    match t.body
    case Audio(format, rate, size, typ, p) =>
      t.typ == TAG_AUDIO && format < 16 && rate < 4 && size < 2 && typ < 2 && (format != SOUND_AAC ==> p == 0)
    case Video(frameType, format, p, ctime) =>
      && t.typ == TAG_VIDEO && frameType < 16 && format < 16 && -0x80_0000 <= ctime < 0x80_0000
      && (format != VIDEO_H264 && format != VIDEO_H265 ==> p == 0 && ctime == 0)
    case Other => t.typ != TAG_AUDIO && t.typ != TAG_VIDEO
  }

  /** FillHeader: the sub-header; shifts are on uint8 and the time on 24 bits. */
  function EncBody(body: Body): (b: seq<Byte>)
    ensures |b| <= 5
  {
    match body
    case Audio(format, rate, size, typ, p) =>
      [(format * 16 + rate * 4 + size * 2 + typ) % 0x100] + if format == SOUND_AAC then [p] else []
    case Video(frameType, format, p, ctime) =>
      [(frameType * 16 + format) % 0x100] + if format == VIDEO_H264 || format == VIDEO_H265 then [p] + EncU24(ctime % 0x100_0000) else []
    case Other => []
  }

  /** FillTagHeader: the time is split into 24 bits and a high byte. */
  function EncHeader(typ: Byte, datalen: nat, time: U32, streamId: U24): (b: seq<Byte>)
    ensures |b| == 11
  {
    [typ] + EncU24(datalen % 0x100_0000) + EncU24(time % 0x100_0000) + [time / 0x100_0000] + EncU24(streamId)
  }

  /** WriteTag. */
  function EncTag(t: Tag): seq<Byte>
  {
    var n := |EncBody(t.body)| + |t.data|;
    EncHeader(t.typ, n, t.time, t.streamId) + EncBody(t.body) + t.data + EncU32((n + 11) % 0x1_0000_0000)
  }

  function DecI24(b: seq<Byte>): int
    requires |b| >= 3
  {
    var v := DecU24(b);
    if v < 0x80_0000 then v else v - 0x100_0000
  }

  datatype Body0 = Body0(body: Body, n: nat)

  /** ParseHeader: the sub-header at the front of the tag's data. */
  function ParseBody(typ: Byte, b: seq<Byte>): (r: Option<Body0>)
    ensures r.Some? ==> r.value.n <= |b|
  {
    if typ == TAG_AUDIO then
      if |b| < 1 then None else
      var f := b[0] as int;
      if f / 16 != SOUND_AAC then Some(Body0(Audio(f / 16, f / 4 % 4, f / 2 % 2, f % 2, 0), 1))
      else if |b| < 2 then None
      else Some(Body0(Audio(f / 16, f / 4 % 4, f / 2 % 2, f % 2, b[1]), 2))
    else if typ == TAG_VIDEO then
      if |b| < 1 then None else
      var f := b[0] as int;
      if f % 16 != VIDEO_H264 && f % 16 != VIDEO_H265 then Some(Body0(Video(f / 16, f % 16, 0, 0), 1))
      else if |b| < 5 then None
      else Some(Body0(Video(f / 16, f % 16, b[1], DecI24(b[2..])), 5))
    else Some(Body0(Other, 0))
  }

  datatype ReadError = EndOfInput | BadHeader

  datatype Got = Got(tag: Tag, n: nat)

  /** ReadTag. */
  function DecTag(b: seq<Byte>): (r: Result<Got, ReadError>)
    ensures r.Ok? ==> 15 <= r.value.n <= |b|
  {
    if |b| < 11 then Err(EndOfInput) else
    var datalen := DecU24(b[1..]);
    if |b| < 11 + datalen then Err(EndOfInput) else
    var data := b[11..11 + datalen];
    var h := ParseBody(b[0], data);
    if h.None? then Err(BadHeader) else
    if |b| < 15 + datalen then Err(EndOfInput) else
    Ok(Got(Tag(b[0], DecU24(b[4..]) + (b[7] as int) * 0x100_0000, DecU24(b[8..]), h.value.body, data[h.value.n..]), 15 + datalen))
  }

  lemma BodyRoundTrip(t: Tag)
    requires WellFormed(t)
    ensures ParseBody(t.typ, EncBody(t.body) + t.data) == Some(Body0(t.body, |EncBody(t.body)|))
  {
    var b := EncBody(t.body) + t.data;
    if t.body.Audio? {
      AudioFlags(t.body.format, t.body.rate, t.body.size, t.body.typ);
    } else if t.body.Video? {
      VideoFlags(t.body.frameType, t.body.format);
      if t.body.format == VIDEO_H264 || t.body.format == VIDEO_H265 {
        assert b[2..] == EncU24(t.body.ctime % 0x100_0000) + t.data;
        U24RoundTrip(t.body.ctime % 0x100_0000, t.data);
        SignExtends(t.body.ctime);
        hide EncU24, DecU24;
      }
    }
  }

  lemma AudioFlags(format: nat, rate: nat, size: nat, typ: nat)
    requires format < 16 && rate < 4 && size < 2 && typ < 2
    ensures var f := (format * 16 + rate * 4 + size * 2 + typ) % 0x100; f / 16 == format && f / 4 % 4 == rate && f / 2 % 2 == size && f % 2 == typ
  {
    var f := format * 16 + rate * 4 + size * 2 + typ;
    assert f < 0x100 && f % 0x100 == f;
    assert f / 2 == format * 8 + rate * 2 + size;
    assert f / 4 == format * 4 + rate;
    assert f / 16 == format;
  }

  lemma VideoFlags(frameType: nat, format: nat)
    requires frameType < 16 && format < 16
    ensures var f := (frameType * 16 + format) % 0x100; f / 16 == frameType && f % 16 == format
  {}

  lemma SignExtends(c: int)
    requires -0x80_0000 <= c < 0x80_0000
    ensures var v := c % 0x100_0000; (if v < 0x80_0000 then v else v - 0x100_0000) == c
  {}

  /** The header fields of an encoded tag, wherever they are read. */
  lemma HeaderFields(typ: Byte, n: nat, time: U32, streamId: U24, rest: seq<Byte>)
    requires n < 0x100_0000
    ensures
      var b := EncHeader(typ, n, time, streamId) + rest;
      && b[0] == typ && DecU24(b[1..]) == n && DecU24(b[4..]) + (b[7] as int) * 0x100_0000 == time && DecU24(b[8..]) == streamId
      && b[11..] == rest
  {
    var lo, hi := time % 0x100_0000, time / 0x100_0000;
    var b := EncHeader(typ, n, time, streamId) + rest;
    assert n % 0x100_0000 == n;
    U24RoundTrip(n, EncU24(lo) + [hi] + EncU24(streamId) + rest);
    U24RoundTrip(lo, [hi] + EncU24(streamId) + rest);
    U24RoundTrip(streamId, rest);
    hide EncU24, DecU24;
    assert b[1..] == EncU24(n) + (EncU24(lo) + [hi] + EncU24(streamId) + rest);
    assert b[4..] == EncU24(lo) + ([hi] + EncU24(streamId) + rest);
    assert b[8..] == EncU24(streamId) + rest;
  }

  /** ReadTag undoes WriteTag, whatever follows, when the data fits 24 bits. */
  lemma TagRoundTrip(t: Tag, rest: seq<Byte>)
    requires WellFormed(t) && |EncBody(t.body)| + |t.data| < 0x100_0000
    ensures DecTag(EncTag(t) + rest) == Ok(Got(t, |EncTag(t)|))
  {
    var data := EncBody(t.body) + t.data;
    var n := |data|;
    var tail := EncU32((n + 11) % 0x1_0000_0000) + rest;
    var b := EncTag(t) + rest;
    BodyRoundTrip(t);
    HeaderFields(t.typ, n, t.time, t.streamId, data + tail);
    hide EncBody, ParseBody, EncU32, EncHeader, DecU24;
    assert b == EncHeader(t.typ, n, t.time, t.streamId) + (data + tail);
    assert b[11..11 + n] == data;
    assert data[|EncBody(t.body)|..] == t.data;
  }

  // ---- The file header ----

  const FLAG_AUDIO := 4
  const FLAG_VIDEO := 1

  function FileHeader(flags: Byte): (b: seq<Byte>)
    ensures |b| == 13
  {
    EncU32(0x464c5601) + [flags] + EncU32(9) + EncU32(0)
  }

  datatype FileStart = FileStart(flags: Byte, skip: nat)

  /** ParseFileHeader, on the first thirteen bytes. */
  function ParseFileHeader(b: seq<Byte>): Option<FileStart>
    requires |b| >= 13
  {
    if DecU24(b) != 0x464c56 then None else
    var skip := DecU32(b[5..]) - 9;
    if skip < 0 then None else Some(FileStart(b[4], skip))
  }

  lemma FileHeaderRoundTrip(flags: Byte, rest: seq<Byte>)
    ensures ParseFileHeader((FileHeader(flags) + rest)[..13]) == Some(FileStart(flags, 0))
  {
    var b := (FileHeader(flags) + rest)[..13];
    assert b == FileHeader(flags);
    assert EncU32(0x464c5601) == [0x46, 0x4c, 0x56, 0x01];
    U32RoundTrip(9, EncU32(0));
    assert b[5..] == EncU32(9) + EncU32(0);
  }
}
