/** Sequence headers in the pub/sub relay (cmd/avtool/pubsub.go): mergeSeqhdr
    attaches the headers in force to every packet on the way in, splitSeqhdr
    turns them back into header packets on the way out. */
module SeqHdr {
  import opened Bytes
  import opened Packets
  import opened Wrappers

  datatype Hdrs = Hdrs(aseq: seq<Byte>, vseq: seq<Byte>, meta: seq<Byte>)

  /** The headers in force after the packets `ps`: the last of each kind. */
  function InForce(ps: seq<Packet>): Hdrs
  {
    Hdrs(Last(ps, AACConfig), Last(ps, H264Config), Last(ps, Metadata))
  }

  lemma InForceSnoc(ps: seq<Packet>, p: Packet)
    ensures
      var h := InForce(ps);
      InForce(ps + [p]) == match p.kind
        case AACConfig => h.(aseq := p.data)
        case H264Config => h.(vseq := p.data)
        case Metadata => h.(meta := p.data)
        case _ => h
  {
    LastSnoc(ps, p, AACConfig); LastSnoc(ps, p, H264Config); LastSnoc(ps, p, Metadata);
  }

  // ---- Merging ----

  function Attach(p: Packet, h: Hdrs): Packet
  {
    if p.kind == AAC then p.(meta := h.meta, aseq := h.aseq)
    else if p.key then p.(meta := h.meta, vseq := h.vseq)
    else p.(meta := h.meta)
  }

  /** What a publisher's packets `raw` put into the cache. */
  function Merged(raw: seq<Packet>): (ps: seq<Packet>)
    ensures forall p :: p in ps ==> Media(p)
  {
    if raw == [] then []
    else
      var n := |raw| - 1;
      Merged(raw[..n]) + if Media(raw[n]) then [Attach(raw[n], InForce(raw[..n]))] else []
  }

  class MergeSeqhdr {
    var hdrpkt: Hdrs
    ghost var seen: seq<Packet>

    ghost predicate Valid()
      reads this
    {
      hdrpkt == InForce(seen)
    }

    constructor ()
      ensures Valid() && seen == []
    {
      hdrpkt, seen := Hdrs([], [], []), [];
    }

    /** do: the callback, when there is one, is what `Merged` appends. */
    method Do(pkt: Packet) returns (cb: Option<Packet>)
      requires Valid()
      modifies this
      ensures Valid() && seen == old(seen) + [pkt]
      ensures Merged(seen) == Merged(old(seen)) + if cb.Some? then [cb.value] else []
    {
      InForceSnoc(seen, pkt);
      assert (seen + [pkt])[..|seen|] == seen;
      seen := seen + [pkt];
      cb := None;
      match pkt.kind
      case H264Config =>
        hdrpkt := hdrpkt.(vseq := pkt.data);
      case H264 =>
        var p := pkt.(meta := hdrpkt.meta);
        if p.key {
          p := p.(vseq := hdrpkt.vseq);
        }
        cb := Some(p);
      case AACConfig =>
        hdrpkt := hdrpkt.(aseq := pkt.data);
      case AAC =>
        cb := Some(pkt.(meta := hdrpkt.meta, aseq := hdrpkt.aseq));
      case Metadata =>
        hdrpkt := hdrpkt.(meta := pkt.data);
      case H264Nalu =>
    }
  }

  /** Where the k-th packet put comes from, and that it carries exactly the
      headers that were in force there. */
  lemma {:induction false} MergedFrom(raw: seq<Packet>, k: nat) returns (j: nat)
    requires k < |Merged(raw)|
    ensures j < |raw| && Media(raw[j]) && |Merged(raw[..j])| == k
    ensures Merged(raw)[k] == Attach(raw[j], InForce(raw[..j]))
  {
    var n := |raw| - 1;
    if k < |Merged(raw[..n])| {
      j := MergedFrom(raw[..n], k);
      assert raw[..n][..j] == raw[..j];
    } else {
      j := n;
    }
  }

  lemma MergedSnoc(raw: seq<Packet>, p: Packet)
    ensures Merged(raw + [p]) == Merged(raw) + if Media(p) then [Attach(p, InForce(raw))] else []
  {
    assert (raw + [p])[..|raw|] == raw;
  }

  // ---- Splitting ----

  /** What is right about packet i of an output, given what was sent before:
      media packets find their headers in force, header packets bring news. */
  predicate Fits(out: seq<Packet>, i: nat)
    requires i < |out|
  {
    var p, h := out[i], InForce(out[..i]);
    match p.kind
    case H264 => h.meta == p.meta && (p.key ==> h.vseq == p.vseq)
    case AAC => h.meta == p.meta && h.aseq == p.aseq
    case H264Config => p == Header(H264Config, p.data) && p.data != h.vseq
    case AACConfig => p == Header(AACConfig, p.data) && p.data != h.aseq
    case Metadata => p == Header(Metadata, p.data) && p.data != h.meta
    case H264Nalu => false
  }

  ghost predicate WellHeaded(out: seq<Packet>) { forall i :: 0 <= i < |out| ==> Fits(out, i) }

  lemma WellHeadedSnoc(out: seq<Packet>, p: Packet)
    requires WellHeaded(out) && Fits(out + [p], |out|)
    ensures WellHeaded(out + [p])
  {
    forall i | 0 <= i < |out| ensures Fits(out + [p], i) {
      assert Fits(out, i);
      assert (out + [p])[..i] == out[..i];
    }
  }

  /** The headers the splitter has to send before `p`, and all it sends for it. */
  function NewMeta(h: Hdrs, p: Packet): seq<Packet>
  {
    if Media(p) && h.meta != p.meta then [Header(Metadata, p.meta)] else []
  }

  function NewConfig(h: Hdrs, p: Packet): seq<Packet>
  {
    if p.kind == AAC && h.aseq != p.aseq then [Header(AACConfig, p.aseq)]
    else if p.kind == H264 && p.key && h.vseq != p.vseq then [Header(H264Config, p.vseq)]
    else []
  }

  /** One packet through the splitter, as a function of the headers sent last. */
  function Split(h: Hdrs, p: Packet): (r: (Hdrs, seq<Packet>))
  {
    var h1 := if Media(p) then h.(meta := p.meta) else h;
    var h2 := if p.kind == AAC then h1.(aseq := p.aseq) else if p.kind == H264 && p.key then h1.(vseq := p.vseq) else h1;
    (h2, NewMeta(h, p) + NewConfig(h, p) + if Media(p) then [p] else [])
  }

  function SplitAll(h: Hdrs, ps: seq<Packet>): (r: (Hdrs, seq<Packet>))
  {
    if ps == [] then (h, [])
    else
      var n := |ps| - 1;
      var (h1, o1) := SplitAll(h, ps[..n]);
      var (h2, o2) := Split(h1, ps[n]);
      (h2, o1 + o2)
  }

  /** The writer behind the callback accepts `room` packets and then fails. */
  class SplitSeqhdr {
    var hdrpkt: Hdrs
    var room: nat
    var out: seq<Packet>

    ghost predicate Valid()
      reads this
    {
      hdrpkt == InForce(out) && WellHeaded(out)
    }

    constructor (room: nat)
      ensures Valid() && out == [] && this.room == room
    {
      hdrpkt, out, this.room := Hdrs([], [], []), [], room;
    }

    method Write(p: Packet) returns (ok: bool)
      modifies this`room, this`out
      ensures ok <==> old(room) > 0
      ensures out == if ok then old(out) + [p] else old(out)
      ensures room == if ok then old(room) - 1 else 0
    {
      if room == 0 { return false; }
      room, out := room - 1, out + [p];
      return true;
    }

    method SendHeader(kind: Kind, data: seq<Byte>) returns (ok: bool)
      requires Valid() && (kind == AACConfig || kind == H264Config || kind == Metadata)
      requires data != Last(out, kind)
      modifies this`room, this`out, this`hdrpkt
      ensures Valid()
      ensures out == if ok then old(out) + [Header(kind, data)] else old(out)
      ensures ok <==> old(room) > 0
      ensures room == if ok then old(room) - 1 else 0
    {
      ok := Write(Header(kind, data));
      if ok {
        InForceSnoc(old(out), Header(kind, data));
        assert (old(out) + [Header(kind, data)])[..|old(out)|] == old(out);
        WellHeadedSnoc(old(out), Header(kind, data));
        match kind
        case AACConfig => hdrpkt := hdrpkt.(aseq := data);
        case H264Config => hdrpkt := hdrpkt.(vseq := data);
        case Metadata => hdrpkt := hdrpkt.(meta := data);
        case _ =>
      }
    }

    method SendMedia(p: Packet) returns (ok: bool)
      requires Valid() && Media(p) && hdrpkt.meta == p.meta
      requires if p.kind == AAC then hdrpkt.aseq == p.aseq else p.key ==> hdrpkt.vseq == p.vseq
      modifies this`room, this`out
      ensures Valid()
      ensures ok <==> old(room) > 0
      ensures out == if ok then old(out) + [p] else old(out)
      ensures room == if ok then old(room) - 1 else 0
    {
      ok := Write(p);
      if ok {
        InForceSnoc(old(out), p);
        assert (old(out) + [p])[..|old(out)|] == old(out);
        WellHeadedSnoc(old(out), p);
      }
    }

    /** sendmeta. */
    method SendMeta(p: Packet) returns (ok: bool)
      requires Valid() && Media(p)
      modifies this
      ensures Valid() && Sent(NewMeta(old(hdrpkt), p), ok)
      ensures ok ==> hdrpkt == old(hdrpkt).(meta := p.meta)
    {
      assert out + [] == out;
      if hdrpkt.meta != p.meta {
        ok := SendHeader(Metadata, p.meta);
      } else {
        ok := true;
      }
    }

    method SendConfig(p: Packet) returns (ok: bool)
      requires Valid() && Media(p)
      modifies this
      ensures Valid() && Sent(NewConfig(old(hdrpkt), p), ok)
      ensures ok ==> hdrpkt.meta == old(hdrpkt.meta)
      ensures ok ==> hdrpkt.aseq == if p.kind == AAC then p.aseq else old(hdrpkt.aseq)
      ensures ok ==> hdrpkt.vseq == if p.kind == H264 && p.key then p.vseq else old(hdrpkt.vseq)
    {
      assert out + [] == out;
      ok := true;
      if p.kind == AAC {
        if hdrpkt.aseq != p.aseq {
          ok := SendHeader(AACConfig, p.aseq);
        }
      } else if p.key && hdrpkt.vseq != p.vseq {
        ok := SendHeader(H264Config, p.vseq);
      }
    }

    /** Of the packets `ps` the writer took all, or as many as it had room for. */
    twostate predicate Sent(ps: seq<Packet>, ok: bool)
      reads this
    {
      && (ok <==> old(room) >= |ps|)
      && (ok ==> out == old(out) + ps && room == old(room) - |ps|)
      && (!ok ==> out == old(out) + ps[..old(room)] && room == 0)
    }

    /** do: when the writer takes everything the whole of `Split` comes out, and
        when it does not, a proper prefix; the output is well headed either way. */
    method Do(pkt: Packet) returns (ok: bool)
      requires Valid()
      modifies this
      ensures Valid() && Sent(Split(old(hdrpkt), pkt).1, ok)
      ensures ok ==> hdrpkt == Split(old(hdrpkt), pkt).0
    {
      hide Valid, NewMeta, NewConfig;
      ghost var a, b := NewMeta(hdrpkt, pkt), NewConfig(hdrpkt, pkt);
      NothingToSend(hdrpkt, pkt);
      if !Media(pkt) {
        assert out + [] == out;
        return true;
      }
      ok := SendMeta(pkt);
      if !ok {
        assert (a + b + [pkt])[..old(room)] == a[..old(room)];
        return;
      }
      ok := SendConfig(pkt);
      if !ok {
        assert (a + b + [pkt])[..old(room)] == a + b[..old(room) - |a|];
        return;
      }
      ok := SendMedia(pkt);
      assert !ok ==> (a + b + [pkt])[..old(room)] == a + b;
    }
  }

  lemma NothingToSend(h: Hdrs, p: Packet)
    ensures !Media(p) ==> NewMeta(h, p) == NewConfig(h, p) == []
    ensures NewConfig(h.(meta := p.meta), p) == NewConfig(h, p)
  {}

  lemma HeaderSent(out: seq<Packet>, kind: Kind, data: seq<Byte>)
    requires WellHeaded(out) && (kind == AACConfig || kind == H264Config || kind == Metadata)
    requires data != Last(out, kind)
    ensures WellHeaded(out + [Header(kind, data)])
  {
    assert (out + [Header(kind, data)])[..|out|] == out;
    WellHeadedSnoc(out, Header(kind, data));
  }

  lemma SplitOne(out: seq<Packet>, p: Packet)
    requires WellHeaded(out)
    ensures
      var s := Split(InForce(out), p);
      WellHeaded(out + s.1) && InForce(out + s.1) == s.0
  {
    hide WellHeaded, Last;
    var h := InForce(out);
    var a, b := NewMeta(h, p), NewConfig(h, p);
    assert out + [] == out;
    if a != [] {
      HeaderSent(out, Metadata, p.meta);
      InForceSnoc(out, a[0]);
    }
    var out1 := out + a;
    assert InForce(out1) == if Media(p) then h.(meta := p.meta) else h;
    assert out1 + [] == out1;
    if b != [] {
      HeaderSent(out1, b[0].kind, b[0].data);
      InForceSnoc(out1, b[0]);
    }
    var out2 := out1 + b;
    assert out2 == out + (a + b);
    if Media(p) {
      InForceSnoc(out2, p);
      assert (out2 + [p])[..|out2|] == out2;
      WellHeadedSnoc(out2, p);
      assert out2 + [p] == out + (a + b + [p]);
    } else {
      assert a + b + [] == [];
    }
  }

  lemma MediaOfOne(p: Packet)
    ensures MediaOf([p]) == if Media(p) then [p] else []
  {
    MediaOfSnoc([], p);
    assert [] + [p] == [p];
  }

  lemma SplitMedia(h: Hdrs, p: Packet)
    ensures MediaOf(Split(h, p).1) == if Media(p) then [p] else []
  {
    var a, b, c := NewMeta(h, p), NewConfig(h, p), if Media(p) then [p] else [];
    MediaOfOne(Header(Metadata, p.meta));
    MediaOfOne(Header(AACConfig, p.aseq));
    MediaOfOne(Header(H264Config, p.vseq));
    MediaOfOne(p);
    assert MediaOf(a) == [] && MediaOf(b) == [] && MediaOf(c) == c;
    hide MediaOf;
    MediaOfAppend(a + b, c);
    MediaOfAppend(a, b);
    assert [] + [] + c == c;
  }

  /** Late join: whatever media packets a subscriber is handed, its output is
      well headed, no header is repeated unchanged, and without the headers the
      output is exactly the packets handed over. */
  lemma {:induction false} LateJoin(ps: seq<Packet>)
    ensures
      var s := SplitAll(Hdrs([], [], []), ps);
      WellHeaded(s.1) && InForce(s.1) == s.0 && MediaOf(s.1) == MediaOf(ps)
  {
    if ps != [] {
      var n := |ps| - 1;
      LateJoin(ps[..n]);
      var s := SplitAll(Hdrs([], [], []), ps[..n]);
      SplitOne(s.1, ps[n]);
      SplitMedia(s.0, ps[n]);
      MediaOfAppend(s.1, Split(s.0, ps[n]).1);
    }
  }
}
