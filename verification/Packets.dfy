/** Media packets (av/av.go). A nil slice is the empty sequence: the program
    compares headers with bytes.Compare, which does not tell them apart. */
module Packets {
  import opened Bytes

  datatype Kind = H264 | AAC | H264Config | H264Nalu | AACConfig | Metadata

  /** Times are in nanoseconds; `stereo` stands for an attached AAC codec with
      more than one channel. */
  datatype Packet = Packet(
    kind: Kind, key: bool, time: int, ctime: int, data: seq<Byte>,
    aseq: seq<Byte>, vseq: seq<Byte>, meta: seq<Byte>, stereo: bool)

  predicate Media(p: Packet) { p.kind == H264 || p.kind == AAC }

  /** A packet with only a type and data. */
  function Header(kind: Kind, data: seq<Byte>): Packet { Packet(kind, false, 0, 0, data, [], [], [], false) }

  /** The payload of the last packet of the given type. */
  function Last(ps: seq<Packet>, kind: Kind): seq<Byte>
  {
    if ps == [] then []
    else
      var p := ps[|ps| - 1];
      if p.kind == kind then p.data else Last(ps[..|ps| - 1], kind)
  }

  function MediaOf(ps: seq<Packet>): seq<Packet>
  {
    if ps == [] then []
    else
      var p := ps[|ps| - 1];
      MediaOf(ps[..|ps| - 1]) + if Media(p) then [p] else []
  }

  lemma LastSnoc(ps: seq<Packet>, p: Packet, kind: Kind)
    ensures Last(ps + [p], kind) == if p.kind == kind then p.data else Last(ps, kind)
  {
    assert (ps + [p])[..|ps|] == ps;
  }

  lemma MediaOfSnoc(ps: seq<Packet>, p: Packet)
    ensures MediaOf(ps + [p]) == MediaOf(ps) + if Media(p) then [p] else []
  {
    assert (ps + [p])[..|ps|] == ps;
  }

  lemma {:induction false} MediaOfAppend(a: seq<Packet>, b: seq<Packet>)
    ensures MediaOf(a + b) == MediaOf(a) + MediaOf(b)
  {
    if b == [] {
      assert a + b == a;
    } else {
      var b0, p := b[..|b| - 1], b[|b| - 1];
      MediaOfAppend(a, b0);
      MediaOfSnoc(a + b0, p);
      MediaOfSnoc(b0, p);
      hide MediaOf, Media;
      assert b == b0 + [p];
      Assoc(a, b0, [p]);
      Assoc(MediaOf(a), MediaOf(b0), if Media(p) then [p] else []);
    }
  }

  lemma {:induction false} MediaOfMedia(ps: seq<Packet>)
    requires forall p :: p in ps ==> Media(p)
    ensures MediaOf(ps) == ps
  {
    if ps != [] {
      MediaOfMedia(ps[..|ps| - 1]);
      assert ps == ps[..|ps| - 1] + [ps[|ps| - 1]];
    }
  }
}
