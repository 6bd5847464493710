/** NAL unit framing (codec/h264/h264.go): the AVCC form, where a length comes
    before every unit, and the Annex B byte stream form, where a start code does. */
module Nalu {
  import opened Bytes
  import opened Wrappers

  /** NALUInfo. NALUStart is left out: for Annex B it is the start of the
      following start code, and nothing depends on it. */
  datatype Info = Info(start: nat, end: nat, data: seq<Byte>)

  function DataOf(out: seq<Info>): seq<seq<Byte>>
  {
    if out == [] then [] else DataOf(out[..|out| - 1]) + [out[|out| - 1].data]
  }

  lemma DataOfSnoc(out: seq<Info>, x: Info)
    ensures DataOf(out + [x]) == DataOf(out) + [x.data]
  {
    assert (out + [x])[..|out|] == out;
  }

  /** Ranges of b, in order and disjoint, with their contents. */
  ghost predicate Ranges(b: seq<Byte>, out: seq<Info>)
  {
    && (forall k :: 0 <= k < |out| ==> out[k].start <= out[k].end <= |b| && out[k].data == b[out[k].start..out[k].end])
    && (forall k :: 0 < k < |out| ==> out[k - 1].end <= out[k].start)
  }

  lemma NoRanges(b: seq<Byte>)
    ensures Ranges(b, []) && DataOf([]) == []
  {}

  lemma RangesSnoc(b: seq<Byte>, out: seq<Info>, x: Info)
    requires Ranges(b, out) && x.start <= x.end <= |b| && x.data == b[x.start..x.end]
    requires out != [] ==> out[|out| - 1].end <= x.start
    ensures Ranges(b, out + [x])
  {}

  // ---- AVCC ----

  function SplitAVCC(b: seq<Byte>): (r: Option<seq<seq<Byte>>>)
    decreases |b|
  {
    if |b| < 4 then None else
    var blen := DecU32(b);
    if blen > (|b| - 4) % 0x1_0000_0000 then None else
    var data, rest := b[4..4 + blen], b[4 + blen..];
    if rest == [] then Some([data]) else More([data], SplitAVCC(rest))
  }

  function More(us: seq<seq<Byte>>, r: Option<seq<seq<Byte>>>): Option<seq<seq<Byte>>>
  {
    if r.None? then None else Some(us + r.value)
  }

  function JoinAVCC(us: seq<seq<Byte>>): seq<Byte>
  {
    if us == [] then [] else EncU32(|us[0]| % 0x1_0000_0000) + us[0] + JoinAVCC(us[1..])
  }

  method SplitAVCCLoop(b: seq<Byte>) returns (out: seq<Info>, ok: bool)
    ensures ok <==> SplitAVCC(b).Some?
    ensures ok ==> DataOf(out) == SplitAVCC(b).value
    ensures Ranges(b, out)
  {
    hide SplitAVCC, DecU32, More, Ranges, DataOf;
    out, ok := [], false;
    NoRanges(b);
    var i := 0;
    assert b[0..] == b;
    MoreMore([], [], SplitAVCC(b));
    while true
      invariant 0 <= i <= |b| && Ranges(b, out) && (out != [] ==> out[|out| - 1].end <= i)
      invariant SplitAVCC(b) == More(DataOf(out), SplitAVCC(b[i..]))
      decreases |b| - i
    {
      ghost var rest := b[i..];
      AVCCCases(rest);
      NoMore(DataOf(out));
      if |b| - i < 4 { return; }
      var blen := DecU32(b[i..]);
      i := i + 4;
      if blen > (|b| - i) % 0x1_0000_0000 { return; }
      var info := Info(i, i + blen, b[i..i + blen]);
      RangesSnoc(b, out, info);
      DataOfSnoc(out, info);
      assert rest[4..4 + blen] == info.data && rest[4 + blen..] == b[info.end..];
      MoreMore(DataOf(out), info.data, SplitAVCC(b[info.end..]));
      out := out + [info];
      i := info.end;
      if |b| - i == 0 {
        ok := true;
        return;
      }
    }
  }

  lemma NoMore(us: seq<seq<Byte>>)
    ensures More(us, None) == None
  {}

  lemma AVCCCases(b: seq<Byte>)
    ensures SplitAVCC(b) ==
      if |b| < 4 || DecU32(b) > (|b| - 4) % 0x1_0000_0000 then None
      else
        var data, rest := b[4..4 + DecU32(b)], b[4 + DecU32(b)..];
        if rest == [] then Some([data]) else More([data], SplitAVCC(rest))
  {}

  lemma MoreMore(us: seq<seq<Byte>>, u: seq<Byte>, r: Option<seq<seq<Byte>>>)
    ensures More(us, More([u], r)) == More(us + [u], r)
    ensures More(us, Some([u])) == Some(us + [u]) && More([], r) == r
  {
    if r.Some? { assert [] + r.value == r.value; }
    if r.Some? { assert us + ([u] + r.value) == us + [u] + r.value; }
  }

  lemma JoinSnocFront(u: seq<Byte>, us: seq<seq<Byte>>)
    ensures JoinAVCC([u] + us) == EncU32(|u| % 0x1_0000_0000) + u + JoinAVCC(us)
  {
    assert ([u] + us)[1..] == us;
  }

  lemma Cut3(b: seq<Byte>, m: nat, n: nat)
    requires m <= n <= |b|
    ensures b == b[..m] + b[m..n] + b[n..]
  {}

  lemma AVCCFirst(b: seq<Byte>) returns (data: seq<Byte>, rest: seq<Byte>)
    requires SplitAVCC(b).Some?
    ensures |rest| < |b| && b == EncU32(|data| % 0x1_0000_0000) + data + rest
    ensures SplitAVCC(b) == if rest == [] then Some([data]) else More([data], SplitAVCC(rest))
  {
    AVCCCases(b);
    hide SplitAVCC, More;
    var blen: nat := DecU32(b);
    data, rest := b[4..4 + blen], b[4 + blen..];
    Cut3(b, 4, 4 + blen);
    assert |data| == blen && blen % 0x1_0000_0000 == blen;
    hide DecU32, EncU32;
    U32Canonical(b);
  }

  /** splitAVCC is a partition: what it accepts is the join of what it returns. */
  lemma {:induction false} AVCCIsJoin(b: seq<Byte>)
    requires SplitAVCC(b).Some?
    ensures SplitAVCC(b).value != [] && JoinAVCC(SplitAVCC(b).value) == b
    decreases |b|
  {
    hide SplitAVCC, EncU32, JoinAVCC;
    var data, rest := AVCCFirst(b);
    if rest == [] {
      NoJoin(data);
    } else {
      AVCCIsJoin(rest);
      JoinSnocFront(data, SplitAVCC(rest).value);
    }
  }

  lemma NoJoin(data: seq<Byte>)
    ensures JoinAVCC([data]) == EncU32(|data| % 0x1_0000_0000) + data + []
  {
    assert [data] + [] == [data];
    JoinSnocFront(data, []);
  }

  lemma Parts(a: seq<Byte>, u: seq<Byte>, rest: seq<Byte>)
    ensures (a + u + rest)[|a|..|a| + |u|] == u && (a + u + rest)[|a| + |u|..] == rest && a + u + rest == a + (u + rest)
  {}

  lemma AVCCCut(b: seq<Byte>, n: nat)
    requires 4 + n <= |b| < 0x1_0000_0000 && DecU32(b) == n
    ensures SplitAVCC(b) == if b[4 + n..] == [] then Some([b[4..4 + n]]) else More([b[4..4 + n]], SplitAVCC(b[4 + n..]))
  {
    hide SplitAVCC, More, DecU32;
    AVCCCases(b);
  }

  lemma AVCCFront(u: seq<Byte>, rest: seq<Byte>)
    requires 4 + |u| + |rest| < 0x1_0000_0000
    ensures SplitAVCC(EncU32(|u|) + u + rest) == if rest == [] then Some([u]) else More([u], SplitAVCC(rest))
  {
    hide SplitAVCC, More, DecU32;
    assert |EncU32(|u|)| == 4;
    U32RoundTrip(|u|, u + rest);
    hide EncU32;
    Parts(EncU32(|u|), u, rest);
    AVCCCut(EncU32(|u|) + u + rest, |u|);
  }

  lemma JoinCases(us: seq<seq<Byte>>)
    ensures JoinAVCC(us) == if us == [] then [] else EncU32(|us[0]| % 0x1_0000_0000) + us[0] + JoinAVCC(us[1..])
    ensures us != [] ==> |JoinAVCC(us)| == 4 + |us[0]| + |JoinAVCC(us[1..])|
  {
    hide EncU32;
  }

  lemma JoinFront(us: seq<seq<Byte>>)
    requires us != [] && |JoinAVCC(us)| < 0x1_0000_0000
    ensures JoinAVCC(us) == EncU32(|us[0]|) + us[0] + JoinAVCC(us[1..])
    ensures |JoinAVCC(us)| == 4 + |us[0]| + |JoinAVCC(us[1..])|
    ensures us[1..] == [] <==> JoinAVCC(us[1..]) == []
  {
    hide EncU32, JoinAVCC;
    JoinCases(us);
    JoinCases(us[1..]);
    assert |us[0]| % 0x1_0000_0000 == |us[0]|;
  }

  lemma {:induction false} JoinIsAVCC(us: seq<seq<Byte>>)
    requires us != [] && |JoinAVCC(us)| < 0x1_0000_0000
    ensures SplitAVCC(JoinAVCC(us)) == Some(us)
  {
    JoinFront(us);
    hide SplitAVCC, EncU32, JoinAVCC, DecU32;
    var u, rest := us[0], us[1..];
    AVCCFront(u, JoinAVCC(rest));
    if rest == [] {
      assert us == [u];
    } else {
      JoinIsAVCC(rest);
      assert us == [u] + rest;
    }
  }

  /** Below 4 GiB splitAVCC accepts exactly the joins of non-empty lists, and
      returns exactly the list. */
  lemma AVCCExact(b: seq<Byte>, us: seq<seq<Byte>>)
    requires |b| < 0x1_0000_0000
    ensures SplitAVCC(b) == Some(us) <==> us != [] && JoinAVCC(us) == b
  {
    if SplitAVCC(b) == Some(us) { AVCCIsJoin(b); }
    if us != [] && JoinAVCC(us) == b { JoinIsAVCC(us); }
  }

  // ---- Annex B ----

  /** A start code prefix, two zeros and a one, ends just before position e. */
  predicate CodeAt(b: seq<Byte>, e: nat)
  {
    3 <= e <= |b| && b[e - 3] == 0 && b[e - 2] == 0 && b[e - 1] == 1
  }

  ghost predicate NoCode(b: seq<Byte>) { forall e :: 0 <= e <= |b| ==> !CodeAt(b, e) }

  function NextCode(b: seq<Byte>, from: nat): (e: Option<nat>)
    ensures e.Some? ==> from <= e.value && CodeAt(b, e.value)
    ensures forall k :: from <= k <= |b| && (e.None? || k < e.value) ==> !CodeAt(b, k)
    decreases |b| - from
  {
    if from > |b| then None
    else if CodeAt(b, from) then Some(from)
    else NextCode(b, from + 1)
  }

  /** The start code at e includes a third zero when there is one before it. */
  function CodeLen(b: seq<Byte>, e: nat): nat
    requires CodeAt(b, e)
  {
    if e >= 4 && b[e - 4] == 0 then 4 else 3
  }

  function NonEmpty(u: seq<Byte>): seq<seq<Byte>> { if u == [] then [] else [u] }

  /** The reference form of splitAnnexb: what lies between start codes. */
  function Units(b: seq<Byte>): (us: seq<seq<Byte>>)
    decreases |b|
  {
    var e := NextCode(b, 0);
    if e.None? then NonEmpty(b)
    else NonEmpty(b[..e.value - CodeLen(b, e.value)]) + Units(b[e.value..])
  }

  function SplitAnnexb(b: seq<Byte>): Option<seq<seq<Byte>>>
  {
    if NextCode(b, 0).None? then None else Some(Units(b))
  }

  /** What the scanner's counter means: the zeros just before i, up to three. */
  predicate ZeroRun(b: seq<Byte>, from: nat, i: nat, s: nat)
    requires from <= i <= |b|
  {
    && s <= 3 && s <= i - from
    && (forall k :: i - s <= k < i ==> b[k] == 0)
    && (s < 3 && i - s > from ==> b[i - s - 1] != 0)
  }

  ghost predicate NoCodeUpTo(b: seq<Byte>, n: nat) { forall k: nat :: k <= n ==> !CodeAt(b, k) }

  lemma CutHere(b: seq<Byte>, from: nat, i: nat, s: nat)
    requires from <= i < |b| && ZeroRun(b, from, i, s) && s >= 2 && b[i] == 1
    requires NoCodeUpTo(b[from..], i - from)
    ensures NextCode(b[from..], 0).Some?
    ensures Units(b[from..]) == NonEmpty(b[from..i - s]) + Units(b[i + 1..])
  {
    var c, e := b[from..], i + 1 - from;
    assert CodeAt(c, e);
    assert NextCode(c, 0) == Some(e);
    assert CodeLen(c, e) == s + 1;
    assert c[e..] == b[i + 1..] && c[..e - (s + 1)] == b[from..i - s];
  }

  lemma NoCutHere(b: seq<Byte>, from: nat, i: nat, s: nat)
    requires from <= i < |b| && ZeroRun(b, from, i, s) && (s < 2 || b[i] != 1)
    requires NoCodeUpTo(b[from..], i - from)
    ensures NoCodeUpTo(b[from..], i + 1 - from)
  {}

  lemma LastUnit(b: seq<Byte>, from: nat)
    requires from <= |b| && NoCodeUpTo(b[from..], |b| - from)
    ensures NextCode(b[from..], 0).None? && Units(b[from..]) == NonEmpty(b[from..])
  {}

  /** splitAnnexb. */
  method SplitAnnexbLoop(b: seq<Byte>) returns (out: seq<Info>, ok: bool)
    ensures ok <==> SplitAnnexb(b).Some?
    ensures ok ==> DataOf(out) == SplitAnnexb(b).value
    ensures Ranges(b, out)
  {
    hide Units, NextCode, Ranges, DataOf, CodeAt, NonEmpty, NoCodeUpTo;
    var s, from := 0, 0;
    out, ok := [], false;
    NoRanges(b);
    assert b[0..] == b && [] + Units(b) == Units(b);
    NoCodeYet(b);
    for i := 0 to |b|
      invariant from <= i && ZeroRun(b, from, i, s) && NoCodeUpTo(b[from..], i - from)
      invariant Ranges(b, out) && (out != [] ==> out[|out| - 1].end <= from)
      invariant Units(b) == DataOf(out) + Units(b[from..])
      invariant from > 0 ==> NextCode(b, 0).Some?
    {
      var c := b[i];
      if c == 1 && s >= 2 {
        CutHere(b, from, i, s);
        assert from == 0 ==> b[from..] == b;
        Assoc(DataOf(out), NonEmpty(b[from..i - s]), Units(b[i + 1..]));
        out := Cut(b, out, from, i - s);
        from := i + 1;
        s := 0;
        NoCodeYet(b[from..]);
      } else {
        NoCutHere(b, from, i, s);
        if c == 0 {
          if s < 3 {
            s := s + 1;
          }
        } else {
          s := 0;
        }
      }
    }
    LastUnit(b, from);
    assert b[from..|b|] == b[from..];
    if from > 0 {
      out := Cut(b, out, from, |b|);
      ok := true;
    }
  }

  lemma NoCodeYet(b: seq<Byte>)
    ensures NoCodeUpTo(b, 0)
  {}

  /** The closure cut: an empty unit is dropped. */
  method Cut(b: seq<Byte>, out: seq<Info>, from: nat, to: nat) returns (r: seq<Info>)
    requires from <= to <= |b| && Ranges(b, out) && (out != [] ==> out[|out| - 1].end <= from)
    ensures Ranges(b, r) && (r != [] ==> r[|r| - 1].end <= to)
    ensures DataOf(r) == DataOf(out) + NonEmpty(b[from..to])
  {
    if from < to {
      var info := Info(from, to, b[from..to]);
      RangesSnoc(b, out, info);
      DataOfSnoc(out, info);
      r := out + [info];
    } else {
      r := out;
    }
  }
}
