/** Round trips through the Annex B byte stream and emulation prevention
    (codec/h264/h264.go, ITU-T H.264 section 7.4.1). */
module AnnexB {
  import opened Bytes
  import opened Wrappers
  import opened Nalu
  import opened Pio

  const StartCode: seq<Byte> := [0, 0, 1]

  function JoinAnnexb(us: seq<seq<Byte>>): seq<Byte>
  {
    if us == [] then [] else StartCode + us[0] + JoinAnnexb(us[1..])
  }

  // ---- Split is a partition ----

  /** A stretch of the stream: data and the start code that ends it. */
  datatype Seg = Seg(data: seq<Byte>, code: seq<Byte>)

  function FlattenSegs(segs: seq<Seg>): seq<Byte>
  {
    if segs == [] then [] else segs[0].data + segs[0].code + FlattenSegs(segs[1..])
  }

  function NonEmptyData(segs: seq<Seg>): seq<seq<Byte>>
  {
    if segs == [] then [] else NonEmpty(segs[0].data) + NonEmptyData(segs[1..])
  }

  /** A start code of two or three zeros and a one; with two, the data before it
      does not end in a zero. */
  ghost predicate SegOk(s: Seg)
  {
    && NoCode(s.data)
    && (s.code == [0, 0, 0, 1] || (s.code == StartCode && (s.data == [] || s.data[|s.data| - 1] != 0)))
  }

  ghost predicate SegsOk(segs: seq<Seg>) { forall k :: 0 <= k < |segs| ==> SegOk(segs[k]) }

  lemma FirstSeg(b: seq<Byte>) returns (s: Seg)
    requires NextCode(b, 0).Some?
    ensures SegOk(s)
    ensures b == s.data + s.code + b[NextCode(b, 0).value..]
    ensures Units(b) == NonEmpty(s.data) + Units(b[NextCode(b, 0).value..])
  {
    var e := NextCode(b, 0).value;
    var n := e - CodeLen(b, e);
    s := Seg(b[..n], b[n..e]);
    assert NoCodeUpTo(b, n);
    hide Units, NonEmpty, NextCode;
    UnitsCases(b);
    Cut3(b, n, e);
    NoCodeBefore(b, n);
    CodeIs(b, e);
  }

  lemma UnitsCases(b: seq<Byte>)
    ensures
      var e := NextCode(b, 0);
      Units(b) == if e.None? then NonEmpty(b)
                  else NonEmpty(b[..e.value - CodeLen(b, e.value)]) + Units(b[e.value..])
  {}

  lemma CodeIs(b: seq<Byte>, e: nat)
    requires CodeAt(b, e)
    ensures b[e - CodeLen(b, e)..e] == if CodeLen(b, e) == 4 then [0, 0, 0, 1] else StartCode
    ensures CodeLen(b, e) == 3 && e > 3 ==> b[e - 4] != 0
  {}

  lemma NoCodeBefore(b: seq<Byte>, n: nat)
    requires n <= |b| && NoCodeUpTo(b, n)
    ensures NoCode(b[..n])
  {
    forall k: nat | k <= n ensures !CodeAt(b[..n], k) {
      assert !CodeAt(b, k);
    }
  }

  lemma NoCodeAtAll(b: seq<Byte>)
    requires NextCode(b, 0).None?
    ensures NoCode(b) && Units(b) == NonEmpty(b)
  {}

  /** The units that splitAnnexb returns, alternated with the start codes it
      removed, rebuild the stream; no unit contains a start code. */
  lemma {:induction false} AnnexbRebuilds(b: seq<Byte>) returns (segs: seq<Seg>, last: seq<Byte>)
    ensures SegsOk(segs) && NoCode(last) && (NextCode(b, 0).Some? <==> segs != [])
    ensures FlattenSegs(segs) + last == b
    ensures Units(b) == NonEmptyData(segs) + NonEmpty(last)
    decreases |b|
  {
    hide Units, NextCode, NonEmpty;
    if NextCode(b, 0).None? {
      NoCodeAtAll(b);
      segs, last := [], b;
      assert [] + b == b && [] + NonEmpty(b) == NonEmpty(b);
    } else {
      var s := FirstSeg(b);
      var rest := b[NextCode(b, 0).value..];
      var more;
      more, last := AnnexbRebuilds(rest);
      segs := [s] + more;
      assert segs[1..] == more;
      Assoc(s.data + s.code, FlattenSegs(more), last);
      Assoc(NonEmpty(s.data), NonEmptyData(more), NonEmpty(last));
    }
  }

  // ---- When join and split are inverse ----

  /** The exact condition on the units of a stream. */
  ghost predicate Clean(us: seq<seq<Byte>>) { forall k :: 0 <= k < |us| ==> CleanUnit(us[k], k == |us| - 1) }

  ghost predicate CleanUnit(u: seq<Byte>, last: bool)
  {
    u != [] && NoCode(u) && (last || u[|u| - 1] != 0)
  }

  function AfterCode(us: seq<seq<Byte>>): seq<Byte>
    requires us != []
  {
    us[0] + JoinAnnexb(us[1..])
  }

  lemma AfterFirstCode(us: seq<seq<Byte>>)
    requires us != []
    ensures JoinAnnexb(us) == StartCode + AfterCode(us)
    ensures NextCode(JoinAnnexb(us), 0).Some? && Units(JoinAnnexb(us)) == Units(AfterCode(us))
  {
    var b := JoinAnnexb(us);
    Assoc(StartCode, us[0], JoinAnnexb(us[1..]));
    assert CodeAt(b, 3) && !CodeAt(b, 0) && !CodeAt(b, 1) && !CodeAt(b, 2);
    assert NextCode(b, 0) == Some(3);
    assert b[3..] == AfterCode(us) && b[..0] == [];
    assert [] + Units(AfterCode(us)) == Units(AfterCode(us));
  }

  lemma CleanFront(u: seq<Byte>, rest: seq<Byte>)
    requires CleanUnit(u, false)
    ensures Units(u + StartCode + rest) == [u] + Units(rest)
  {
    var b, e := u + StartCode + rest, |u| + 3;
    assert CodeAt(b, e);
    forall k: nat | k < e ensures !CodeAt(b, k) {
      if k <= |u| {
        assert !CodeAt(u, k);
      } else {
        assert b[k - 1] == 0;
      }
    }
    assert NextCode(b, 0) == Some(e);
    assert b[e - 4] == u[|u| - 1];
    assert b[e..] == rest && b[..|u|] == u;
  }

  lemma {:induction false} CleanUnits(us: seq<seq<Byte>>)
    requires us != [] && Clean(us)
    ensures Units(AfterCode(us)) == us
    decreases |us|
  {
    var u := us[0];
    assert CleanUnit(u, |us| == 1);
    if |us| == 1 {
      assert us[1..] == [] && u + [] == u;
      LastUnit(u, 0);
      assert u[0..] == u && us == [u];
    } else {
      var rest := us[1..];
      assert Clean(rest) by {
        forall k | 0 <= k < |rest| ensures CleanUnit(rest[k], k == |rest| - 1) {
          assert CleanUnit(us[k + 1], k + 1 == |us| - 1);
        }
      }
      AfterFirstCode(rest);
      Assoc(u, StartCode, AfterCode(rest));
      CleanFront(u, AfterCode(rest));
      CleanUnits(rest);
      assert us == [u] + rest;
    }
  }

  function SumLen(us: seq<seq<Byte>>): nat
  {
    if us == [] then 0 else |us[0]| + SumLen(us[1..])
  }

  lemma SumLenCons(u: seq<Byte>, us: seq<seq<Byte>>)
    ensures SumLen([u] + us) == |u| + SumLen(us)
  {
    assert ([u] + us)[1..] == us;
  }

  /** Bytes of the stream beyond its units and one three-byte code between two. */
  function Slack(b: seq<Byte>): int { |b| - SumLen(Units(b)) - 3 * (|Units(b)| - 1) }

  lemma {:induction false} SlackIsWaste(b: seq<Byte>)
    ensures Slack(b) >= 0
    ensures forall k :: 0 <= k < |Units(b)| ==> CleanUnit(Units(b)[k], Slack(b) > 0 || k == |Units(b)| - 1)
    decreases |b|
  {
    if NextCode(b, 0).None? {
      LastUnit(b, 0);
      assert b[0..] == b;
      if b != [] { SumLenCons(b, []); assert [b] + [] == [b]; }
      assert NoCode(b);
    } else {
      var s := FirstSeg(b);
      var rest := b[NextCode(b, 0).value..];
      hide Units;
      SlackIsWaste(rest);
      if s.data == [] {
        assert [] + Units(rest) == Units(rest);
      } else {
        SumLenCons(s.data, Units(rest));
      }
    }
  }

  lemma {:induction false} JoinLength(us: seq<seq<Byte>>)
    ensures |JoinAnnexb(us)| == SumLen(us) + 3 * |us|
  {
    if us != [] { JoinLength(us[1..]); }
  }

  /** splitAnnexb undoes JoinNALUsAnnexb exactly on clean lists: no unit empty,
      none containing a start code, none but the last ending in a zero. */
  lemma AnnexbRoundTrip(us: seq<seq<Byte>>)
    requires us != []
    ensures SplitAnnexb(JoinAnnexb(us)) == Some(us) <==> Clean(us)
  {
    AfterFirstCode(us);
    if Clean(us) { CleanUnits(us); }
    if Units(AfterCode(us)) == us {
      JoinLength(us);
      SlackIsWaste(AfterCode(us));
      assert Slack(AfterCode(us)) == 0;
    }
  }

  // ---- Emulation prevention ----

  /** Section 7.4.1: after two zeros a byte of at most three is preceded by a
      three; z counts the zeros just written. */
  function Escape(z: nat, raw: seq<Byte>): seq<Byte>
    requires z <= 2
    decreases |raw|
  {
    if raw == [] then []
    else
      var c := raw[0];
      if z == 2 && c <= 3 then [3, c] + Escape(if c == 0 then 1 else 0, raw[1..])
      else [c] + Escape(if c == 0 then z + 1 else 0, raw[1..])
  }

  /** The reference form of RemoveH264orH265EmulationBytes. */
  function Remove(b: seq<Byte>): (r: seq<Byte>)
    ensures |r| <= |b|
  {
    if |b| >= 3 && b[0] == 0 && b[1] == 0 && b[2] == 3 then [0, 0] + Remove(b[3..])
    else if b == [] then []
    else [b[0]] + Remove(b[1..])
  }

  lemma RemoveNothing(out: seq<Byte>)
    ensures out + Remove([]) == out
  {}

  method RemoveEmulationBytes(b: array<Byte>) returns (out: seq<Byte>)
    ensures out == Remove(b[..])
  {
    hide Remove;
    var j, i := 0, 0;
    var r := new Byte[b.Length];
    assert b[0..] == b[..] && [] + Remove(b[..]) == Remove(b[..]);
    while i < b.Length && j < b.Length
      invariant 0 <= j <= i <= b.Length
      invariant Remove(b[..]) == r[..j] + Remove(b[i..])
    {
      ghost var before, rest := r[..j], b[i..];
      if i + 2 < b.Length && b[i] == 0 && b[i + 1] == 0 && b[i + 2] == 3 {
        r[j] := 0;
        r[j + 1] := 0;
        assert r[..j + 2] == before + [0, 0];
        assert rest == [0, 0, 3] + b[i + 3..];
        RemoveThree(b[i + 3..]);
        Assoc(before, [0, 0], Remove(b[i + 3..]));
        j := j + 2;
        i := i + 3;
      } else {
        r[j] := b[i];
        assert r[..j + 1] == before + [b[i]];
        assert rest == [b[i]] + b[i + 1..];
        RemoveOther(b[i], b[i + 1..]);
        Assoc(before, [b[i]], Remove(b[i + 1..]));
        j := j + 1;
        i := i + 1;
      }
    }
    out := r[..j];
    assert b[b.Length..] == [];
    RemoveNothing(out);
  }

  function Zeros(z: nat): seq<Byte> { if z == 0 then [] else [0] + Zeros(z - 1) }

  lemma RemoveOther(c: Byte, b: seq<Byte>)
    requires !(c == 0 && |b| >= 2 && b[0] == 0 && b[1] == 3)
    ensures Remove([c] + b) == [c] + Remove(b)
  {
    assert ([c] + b)[1..] == b;
  }

  lemma RemoveThree(b: seq<Byte>)
    ensures Remove([0, 0, 3] + b) == [0, 0] + Remove(b)
  {
    assert ([0, 0, 3] + b)[3..] == b;
  }

  /** z zeros already written and what the encoder adds for `raw`. */
  function Escaped(z: nat, raw: seq<Byte>): seq<Byte>
    requires z <= 2
  {
    Zeros(z) + Escape(z, raw)
  }

  lemma ZerosAre()
    ensures Zeros(0) == [] && Zeros(1) == [0] && Zeros(2) == [0, 0]
  {}

  lemma EscapedNothing(z: nat)
    requires z <= 2
    ensures Escaped(z, []) == Zeros(z)
  {
    assert Zeros(z) + [] == Zeros(z);
  }

  lemma EscapeFirst(z: nat, c: Byte, raw: seq<Byte>)
    requires z <= 2
    ensures Escape(z, [c] + raw) ==
      if z == 2 && c <= 3 then [3, c] + Escape(if c == 0 then 1 else 0, raw)
      else [c] + Escape(if c == 0 then z + 1 else 0, raw)
  {
    assert ([c] + raw)[1..] == raw;
  }

  lemma ThreeIn(c: Byte, next: seq<Byte>)
    ensures [0, 0] + ([3, c] + next) == [0, 0, 3] + ([c] + next)
  {
    assert [3, c] == [3] + [c] && [0, 0] + [3] == [0, 0, 3];
    Assoc([3], [c], next);
    Assoc([0, 0], [3], [c] + next);
  }

  // The four ways the encoder goes on.

  lemma EscapedZero(z: nat, raw: seq<Byte>)
    requires z < 2
    ensures Escaped(z, [0] + raw) == Escaped(z + 1, raw)
  {
    EscapeFirst(z, 0, raw);
    ZerosAre();
    hide Escape, Zeros;
    assert Zeros(z) + [0] == Zeros(z + 1);
    Assoc(Zeros(z), [0], Escape(z + 1, raw));
  }

  lemma EscapedThreeZero(raw: seq<Byte>)
    ensures Escaped(2, [0] + raw) == [0, 0, 3] + Escaped(1, raw)
  {
    EscapeFirst(2, 0, raw);
    ZerosAre();
    hide Escape, Zeros;
    ThreeIn(0, Escape(1, raw));
  }

  lemma EscapedThree(c: Byte, raw: seq<Byte>)
    requires 0 < c <= 3
    ensures Escaped(2, [c] + raw) == [0, 0, 3] + ([c] + Escaped(0, raw))
  {
    EscapeFirst(2, c, raw);
    ZerosAre();
    hide Escape, Zeros;
    var next := Escape(0, raw);
    assert [] + next == next;
    ThreeIn(c, next);
  }

  lemma EscapedOther(z: nat, c: Byte, raw: seq<Byte>)
    requires z <= 2 && c != 0 && (z < 2 || c > 3)
    ensures Escaped(z, [c] + raw) == Zeros(z) + ([c] + Escaped(0, raw))
  {
    EscapeFirst(z, c, raw);
    ZerosAre();
    hide Escape, Zeros;
    var next := Escape(0, raw);
    assert [] + next == next;
  }

  lemma {:induction false} RemoveEscape(z: nat, raw: seq<Byte>)
    requires z <= 2
    ensures Remove(Escaped(z, raw)) == Zeros(z) + raw
    decreases |raw|
  {
    hide Escaped, Escape, Remove, Zeros;
    ZerosAre();
    if raw == [] {
      EscapedNothing(z);
      assert Zeros(z) + [] == Zeros(z);
      RemoveZeros(z);
    } else {
      var c, rest := raw[0], raw[1..];
      assert raw == [c] + rest;
      if c == 0 {
        RemoveEscape(if z < 2 then z + 1 else 1, rest);
        if z < 2 {
          EscapedZero(z, rest);
          assert Zeros(z) + ([0] + rest) == Zeros(z + 1) + rest;
        } else {
          EscapedThreeZero(rest);
          RemoveThree(Escaped(1, rest));
        }
      } else {
        RemoveEscape(0, rest);
        assert [] + rest == rest;
        RemoveOther(c, Escaped(0, rest));
        if z == 2 && c <= 3 {
          EscapedThree(c, rest);
          RemoveThree([c] + Escaped(0, rest));
        } else {
          EscapedOther(z, c, rest);
          RemoveZerosBefore(z, c, Escaped(0, rest));
        }
      }
    }
  }

  lemma RemoveZeros(z: nat)
    requires z <= 2
    ensures Remove(Zeros(z)) == Zeros(z)
  {
    ZerosAre();
    assert [0, 0][1..] == [0] && [0][1..] == [];
  }

  lemma RemoveZerosBefore(z: nat, c: Byte, b: seq<Byte>)
    requires z <= 2 && c != 0 && (z < 2 || c != 3)
    ensures Remove(Zeros(z) + ([c] + b)) == Zeros(z) + Remove([c] + b)
  {
    ZerosAre();
    hide Remove, Zeros;
    var t := [c] + b;
    if z == 0 {
      assert [] + t == t && [] + Remove(t) == Remove(t);
    } else if z == 1 {
      RemoveOther(0, t);
    } else {
      RemoveOther(0, t);
      RemoveOther(0, [0] + t);
      assert [0] + ([0] + t) == [0, 0] + t;
      assert [0] + ([0] + Remove(t)) == [0, 0] + Remove(t);
    }
  }

  /** RemoveH264orH265EmulationBytes undoes emulation prevention. */
  lemma Unescape(raw: seq<Byte>)
    ensures Remove(Escape(0, raw)) == raw
  {
    RemoveEscape(0, raw);
    ZerosAre();
    assert [] + Escape(0, raw) == Escape(0, raw) && [] + raw == raw;
  }

  lemma NoCodeCons(c: Byte, b: seq<Byte>)
    requires NoCode(b) && !(c == 0 && |b| >= 2 && b[0] == 0 && b[1] == 1)
    ensures NoCode([c] + b)
  {
    var d := [c] + b;
    forall e: nat | e <= |d| ensures !CodeAt(d, e) {
      if e > 3 { assert !CodeAt(b, e - 1); }
    }
  }

  /** The encoder's output contains no start code. */
  lemma {:induction false} EscapedIsClean(z: nat, raw: seq<Byte>)
    requires z <= 2
    ensures NoCode(Escaped(z, raw))
    decreases |raw|
  {
    hide Escaped, Escape, NoCode;
    if raw == [] {
      EscapedNothing(z);
      NoCodeInZeros(z);
    } else {
      var c, rest := raw[0], raw[1..];
      assert raw == [c] + rest;
      if c == 0 {
        EscapedIsClean(if z < 2 then z + 1 else 1, rest);
        if z < 2 {
          EscapedZero(z, rest);
        } else {
          EscapedThreeZero(rest);
          NoCodeThree(Escaped(1, rest));
        }
      } else {
        EscapedIsClean(0, rest);
        NoCodeCons(c, Escaped(0, rest));
        if z == 2 && c <= 3 {
          EscapedThree(c, rest);
          NoCodeThree([c] + Escaped(0, rest));
        } else {
          EscapedOther(z, c, rest);
          NoCodeZeros(z, [c] + Escaped(0, rest));
        }
      }
    }
  }

  lemma NoCodeInZeros(z: nat)
    requires z <= 2
    ensures NoCode(Zeros(z))
  {
    ZerosAre();
  }

  /** The encoder keeps the last byte. */
  lemma {:induction false} EscapeLast(z: nat, raw: seq<Byte>)
    requires z <= 2 && raw != []
    ensures Escape(z, raw) != [] && Escape(z, raw)[|Escape(z, raw)| - 1] == raw[|raw| - 1]
    decreases |raw|
  {
    var c, rest := raw[0], raw[1..];
    assert raw == [c] + rest;
    EscapeFirst(z, c, rest);
    var z1 := if c != 0 then 0 else if z == 2 then 1 else z + 1;
    if rest == [] {
      assert Escape(z1, rest) == [];
    } else {
      EscapeLast(z1, rest);
    }
  }

  lemma NoCodeThree(b: seq<Byte>)
    requires NoCode(b)
    ensures NoCode([0, 0, 3] + b)
  {
    NoCodeCons(3, b);
    NoCodeCons(0, [3] + b);
    NoCodeCons(0, [0] + ([3] + b));
    assert [0, 0, 3] + b == [0] + ([0] + ([3] + b));
  }

  lemma NoCodeZeros(z: nat, b: seq<Byte>)
    requires z <= 2 && NoCode(b) && b != [] && b[0] != 0 && (z == 2 ==> b[0] != 1)
    ensures NoCode(Zeros(z) + b)
  {
    ZerosAre();
    if z == 0 {
      assert [] + b == b;
    } else if z == 1 {
      NoCodeCons(0, b);
    } else {
      NoCodeCons(0, b);
      NoCodeCons(0, [0] + b);
      assert [0, 0] + b == [0] + ([0] + b);
    }
  }

  function EscapeAll(us: seq<seq<Byte>>): (r: seq<seq<Byte>>)
    ensures |r| == |us| && forall k :: 0 <= k < |us| ==> r[k] == Escape(0, us[k])
  {
    if us == [] then [] else [Escape(0, us[0])] + EscapeAll(us[1..])
  }

  lemma EscapedUnit(u: seq<Byte>)
    requires u != [] && u[|u| - 1] != 0
    ensures CleanUnit(Escape(0, u), false) && Remove(Escape(0, u)) == u
  {
    EscapedIsClean(0, u);
    EscapeLast(0, u);
    ZerosAre();
    assert [] + Escape(0, u) == Escape(0, u);
    hide Escape, Remove, NoCode;
    Unescape(u);
  }

  /** Annex B composed with emulation prevention: escaped units that end in a
      non-zero byte survive join and split, and unescaping gives the originals. */
  lemma EscapedRoundTrip(us: seq<seq<Byte>>)
    requires us != [] && forall k :: 0 <= k < |us| ==> us[k] != [] && us[k][|us[k]| - 1] != 0
    ensures SplitAnnexb(JoinAnnexb(EscapeAll(us))) == Some(EscapeAll(us))
    ensures forall k :: 0 <= k < |us| ==> Remove(EscapeAll(us)[k]) == us[k]
  {
    hide Escape, Remove, NoCode, SplitAnnexb, JoinAnnexb;
    var es := EscapeAll(us);
    forall k | 0 <= k < |us| ensures CleanUnit(es[k], k == |es| - 1) && Remove(es[k]) == us[k] {
      EscapedUnit(us[k]);
    }
    AnnexbRoundTrip(es);
  }

  // ---- Which form a stream is taken for ----

  datatype Form = AVCC | ANNEXB | RAW

  /** SplitNALUs: AVCC is tried first. */
  function SplitNALUs(b: seq<Byte>): (seq<seq<Byte>>, Form)
  {
    if SplitAVCC(b).Some? then (SplitAVCC(b).value, AVCC)
    else if SplitAnnexb(b).Some? then (SplitAnnexb(b).value, ANNEXB)
    else ([b], RAW)
  }

  /** SplitNALUsRetInfo and SplitNALUs: every range is in bounds and in order. */
  method SplitNALUsRetInfo(b: seq<Byte>) returns (infos: seq<Info>, form: Form)
    ensures Ranges(b, infos) && (DataOf(infos), form) == SplitNALUs(b)
  {
    var ok;
    infos, ok := SplitAVCCLoop(b);
    if ok { return infos, AVCC; }
    infos, ok := SplitAnnexbLoop(b);
    if ok { return infos, ANNEXB; }
    NoRanges(b);
    assert b[0..|b|] == b;
    RangesSnoc(b, [], Info(0, |b|, b));
    DataOfSnoc([], Info(0, |b|, b));
    assert [] + [Info(0, |b|, b)] == [Info(0, |b|, b)] && [] + [b] == [b];
    return [Info(0, |b|, b)], RAW;
  }

  /** A joined Annex B stream under 260 bytes is never taken for AVCC: its first
      four bytes are a length of at least 256. */
  lemma SmallAnnexbIsNotAVCC(us: seq<seq<Byte>>)
    requires us != [] && |JoinAnnexb(us)| < 260
    ensures SplitAVCC(JoinAnnexb(us)).None?
    ensures SplitNALUs(JoinAnnexb(us)) == (us, ANNEXB) <==> Clean(us)
  {
    AnnexbRoundTrip(us);
    AfterFirstCode(us);
    NotALength(AfterCode(us));
    hide JoinAnnexb, SplitAVCC, Units, Clean;
  }

  /** Exactly when a join below 4 GiB is split again as what it is: its units are
      clean, and the same bytes are not the AVCC form of any list. */
  lemma AnnexbIsTaken(us: seq<seq<Byte>>)
    requires us != [] && |JoinAnnexb(us)| < 0x1_0000_0000
    ensures SplitNALUs(JoinAnnexb(us)) == (us, ANNEXB)
        <==> Clean(us) && forall vs: seq<seq<Byte>> :: vs != [] ==> JoinAVCC(vs) != JoinAnnexb(us)
  {
    hide JoinAnnexb, JoinAVCC, SplitAVCC, SplitAnnexb, Clean;
    var b := JoinAnnexb(us);
    AnnexbRoundTrip(us);
    if SplitAVCC(b).Some? {
      AVCCExact(b, SplitAVCC(b).value);
    } else {
      forall vs: seq<seq<Byte>> | vs != [] ensures JoinAVCC(vs) != b { AVCCExact(b, vs); }
    }
  }

  lemma NotALength(rest: seq<Byte>)
    requires |rest| < 257
    ensures SplitAVCC(StartCode + rest).None?
  {
    hide SplitAVCC, DecU32, More;
    var b := StartCode + rest;
    AVCCCases(b);
    if |b| >= 4 { CodeAsLength(b); }
  }

  lemma CodeAsLength(b: seq<Byte>)
    requires |b| >= 4 && b[0] == 0 && b[1] == 0 && b[2] == 1
    ensures DecU32(b) == 256 + b[3] as int
  {}

  /** At 260 bytes it can be. */
  lemma Annexb260IsAVCC() returns (u: seq<Byte>)
    ensures |JoinAnnexb([u])| == 260 && SplitAVCC(JoinAnnexb([u])) == Some([JoinAnnexb([u])[4..]])
  {
    u := seq(257, i => 0);
    var b := JoinAnnexb([u]);
    assert JoinAnnexb([u][1..]) == [];
    assert b == StartCode + u;
    assert DecU32(b) == 256;
    assert b[4..260] == b[4..];
  }

  // ---- The joins as they run ----

  lemma JoinRest(before: seq<Byte>, us: seq<seq<Byte>>, i: nat)
    requires i < |us|
    ensures before + JoinAnnexb(us[i..]) == before + StartCode + us[i] + JoinAnnexb(us[i + 1..])
  {
    hide JoinAnnexb;
    JoinAnnexbCons(us[i..]);
    assert us[i..][1..] == us[i + 1..];
    Assoc(before, StartCode + us[i], JoinAnnexb(us[i + 1..]));
    Assoc(before, StartCode, us[i]);
  }

  lemma JoinAnnexbCons(us: seq<seq<Byte>>)
    ensures JoinAnnexb(us) == if us == [] then [] else StartCode + us[0] + JoinAnnexb(us[1..])
  {}

  /** JoinNALUsAnnexb: a first pass sizes the buffer, a second fills it exactly. */
  method JoinNALUsAnnexb(nalus: seq<seq<Byte>>) returns (b: array<Byte>)
    ensures b[..] == JoinAnnexb(nalus)
  {
    hide JoinAnnexb, Splice, StartCode;
    var n := 0;
    for i := 0 to |nalus|
      invariant n + |JoinAnnexb(nalus[i..])| == |JoinAnnexb(nalus)|
    {
      JoinRest([], nalus, i);
      n := n + |nalus[i]| + |StartCode|;
    }
    JoinAnnexbCons(nalus[|nalus|..]);
    b := new Byte[n];
    ghost var s0, done: seq<Byte> := b[..], [];
    SpliceNothing(s0, 0);
    var m := 0;
    for i := 0 to |nalus|
      invariant Filled(b, s0, 0, done, m) && done + JoinAnnexb(nalus[i..]) == JoinAnnexb(nalus)
    {
      JoinRest(done, nalus, i);
      m := Put(b, m, StartCode, s0, 0, done);
      m := Put(b, m, nalus[i], s0, 0, done + StartCode);
      done := done + StartCode + nalus[i];
    }
    assert done + [] == done;
    SpliceAll(s0, done);
  }

  lemma JoinAVCCRest(before: seq<Byte>, us: seq<seq<Byte>>, i: nat)
    requires i < |us|
    ensures before + JoinAVCC(us[i..]) == before + EncU32(|us[i]| % 0x1_0000_0000) + us[i] + JoinAVCC(us[i + 1..])
  {
    hide JoinAVCC, EncU32;
    JoinCases(us[i..]);
    assert us[i..][1..] == us[i + 1..];
    Assoc(before, EncU32(|us[i]| % 0x1_0000_0000) + us[i], JoinAVCC(us[i + 1..]));
    Assoc(before, EncU32(|us[i]| % 0x1_0000_0000), us[i]);
  }

  /** JoinNALUsAVCC. */
  method JoinNALUsAVCC(nalus: seq<seq<Byte>>) returns (b: array<Byte>)
    ensures b[..] == JoinAVCC(nalus)
  {
    hide JoinAVCC, Splice, EncU32;
    var n := 0;
    for i := 0 to |nalus|
      invariant n + |JoinAVCC(nalus[i..])| == |JoinAVCC(nalus)|
    {
      JoinAVCCRest([], nalus, i);
      n := n + |nalus[i]| + 4;
    }
    JoinCases(nalus[|nalus|..]);
    b := new Byte[n];
    ghost var s0, done: seq<Byte> := b[..], [];
    SpliceNothing(s0, 0);
    var m := 0;
    for i := 0 to |nalus|
      invariant Filled(b, s0, 0, done, m) && done + JoinAVCC(nalus[i..]) == JoinAVCC(nalus)
    {
      JoinAVCCRest(done, nalus, i);
      ghost var len := EncU32(|nalus[i]| % 0x1_0000_0000);
      m := Put(b, m, EncU32(|nalus[i]| % 0x1_0000_0000), s0, 0, done);
      m := Put(b, m, nalus[i], s0, 0, done + len);
      done := done + len + nalus[i];
    }
    assert done + [] == done;
    SpliceAll(s0, done);
  }
}
