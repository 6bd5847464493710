/** The H.264 parameter sets and the decoder configuration record
    (codec/h264/h264.go, ISO/IEC 14496-15 section 5.2.4.1). */
module DecoderConfig {
  import opened Bytes
  import opened Wrappers
  import opened Pio

  const NALU_SPS := 7
  const NALU_PPS := 8

  /** ParseSPS and ParsePPS, as far as the maps need them: the id of a set, or
      nothing when it does not parse. */
  datatype Ids = Ids(sps: seq<Byte> -> Option<nat>, pps: seq<Byte> -> Option<nat>)

  datatype Sets = Sets(sps: map<nat, seq<Byte>>, pps: map<nat, seq<Byte>>)

  const NoSets := Sets(map[], map[])

  function NALUType(b: seq<Byte>): nat { if |b| > 0 then b[0] % 32 else 0 }

  /** What AddSPSPPS does to the maps. */
  function Add(ids: Ids, c: Sets, b: seq<Byte>): Sets
  {
    if NALUType(b) == NALU_SPS && ids.sps(b).Some? then c.(sps := c.sps[ids.sps(b).value := b])
    else if NALUType(b) == NALU_PPS && ids.pps(b).Some? then c.(pps := c.pps[ids.pps(b).value := b])
    else c
  }

  function AddAll(ids: Ids, c: Sets, bs: seq<seq<Byte>>): Sets
    decreases |bs|
  {
    if bs == [] then c else AddAll(ids, Add(ids, c, bs[0]), bs[1..])
  }

  /** Every set is stored under its own parsed id. */
  ghost predicate WellKeyed(ids: Ids, c: Sets)
  {
    && (forall id :: id in c.sps ==> NALUType(c.sps[id]) == NALU_SPS && ids.sps(c.sps[id]) == Some(id))
    && (forall id :: id in c.pps ==> NALUType(c.pps[id]) == NALU_PPS && ids.pps(c.pps[id]) == Some(id))
  }

  lemma AddKeyed(ids: Ids, c: Sets, b: seq<Byte>)
    requires WellKeyed(ids, c)
    ensures WellKeyed(ids, Add(ids, c, b))
  {}

  lemma {:induction false} AddAllKeyed(ids: Ids, c: Sets, bs: seq<seq<Byte>>)
    requires WellKeyed(ids, c)
    ensures WellKeyed(ids, AddAll(ids, c, bs))
    decreases |bs|
  {
    if bs != [] { AddAllKeyed(ids, Add(ids, c, bs[0]), bs[1..]); }
  }

  // ---- Map2arr ----

  function MinOf(s: set<nat>): (m: nat)
    requires s != {}
    ensures m in s && forall x :: x in s ==> m <= x
  {
    MinExists(s);
    var m :| m in s && forall x :: x in s ==> m <= x;
    m
  }

  lemma MinExists(s: set<nat>)
    requires s != {}
    ensures exists m :: m in s && forall x :: x in s ==> m <= x
  {
    var m := FindMin(s);
  }

  lemma {:induction false} FindMin(s: set<nat>) returns (m: nat)
    requires s != {}
    ensures m in s && forall x :: x in s ==> m <= x
    decreases |s|
  {
    var y :| y in s;
    var t := s - {y};
    assert s == t + {y};
    m := y;
    if t != {} {
      var k := FindMin(t);
      if k < y { m := k; }
    }
  }

  /** The values of a map in the order of their ids. */
  function Map2arr<T>(m: map<nat, T>): (r: seq<T>)
    ensures |r| == |m|
    decreases |m|
  {
    if m == map[] then []
    else
      var id := MinOf(m.Keys);
      Without(m, id);
      [m[id]] + Map2arr(m - {id})
  }

  lemma Without<T>(m: map<nat, T>, id: nat)
    requires id in m
    ensures |m - {id}| == |m| - 1 && (m - {id}).Keys == m.Keys - {id}
  {
    assert |m.Keys - {id}| == |m.Keys| - 1;
  }

  lemma Map2arrFirst<T>(m: map<nat, T>) returns (id: nat)
    requires m != map[]
    ensures id in m && (forall x :: x in m ==> id <= x) && |m - {id}| < |m|
    ensures Map2arr(m) == [m[id]] + Map2arr(m - {id}) && Map2arr(m)[1..] == Map2arr(m - {id})
  {
    id := MinOf(m.Keys);
    Without(m, id);
  }

  ghost predicate Sorted(e: seq<nat>) { forall i, j :: 0 <= i < j < |e| ==> e[i] < e[j] }

  function ElemsOf(e: seq<nat>): set<nat> { set x | x in e }

  function ValuesOf<T>(m: map<nat, T>, e: seq<nat>): seq<T>
    requires ElemsOf(e) <= m.Keys
  {
    seq(|e|, i requires 0 <= i < |e| => assert e[i] in ElemsOf(e); m[e[i]])
  }

  ghost predicate Below(id: nat, s: set<nat>) { forall x :: x in s ==> id < x }

  lemma BelowPlus(id: nat, x: nat, s: set<nat>)
    ensures id < x && Below(id, s) ==> Below(id, {x} + s) && Below(id, s + {x})
    ensures id < x && Below(x, s) ==> Below(id, {x} + s)
  {}

  lemma ElemsOfCons(id: nat, e: seq<nat>)
    ensures ElemsOf([id] + e) == {id} + ElemsOf(e)
    ensures Sorted([id] + e) <==> Sorted(e) && Below(id, ElemsOf(e))
  {
    var r := [id] + e;
    if Sorted(r) {
      forall i, j | 0 <= i < j < |e| ensures e[i] < e[j] { assert r[i + 1] < r[j + 1]; }
      forall x | x in ElemsOf(e) ensures id < x {
        var i :| 0 <= i < |e| && e[i] == x;
        assert r[0] < r[i + 1];
      }
    }
    if Sorted(e) && forall x :: x in ElemsOf(e) ==> id < x {
      forall i, j | 0 <= i < j < |r| ensures r[i] < r[j] {
        assert e[j - 1] in ElemsOf(e);
      }
    }
  }

  lemma ValuesOfCons<T>(m: map<nat, T>, id: nat, e: seq<nat>)
    requires ElemsOf([id] + e) <= m.Keys && id !in ElemsOf(e)
    ensures id in m && ElemsOf(e) <= (m - {id}).Keys && ValuesOf(m, [id] + e) == [m[id]] + ValuesOf(m - {id}, e)
  {
    assert id in ElemsOf([id] + e);
    forall x | x in ElemsOf(e) ensures x in (m - {id}).Keys { assert x in ElemsOf([id] + e); }
    var a, b := ValuesOf(m, [id] + e), ValuesOf(m - {id}, e);
    forall i | 0 <= i < |e| ensures a[i + 1] == b[i] {
      assert e[i] in ElemsOf(e);
    }
  }

  lemma {:induction false} SortedIsMap2arr<T>(m: map<nat, T>, e: seq<nat>)
    requires Sorted(e) && ElemsOf(e) == m.Keys
    ensures ValuesOf(m, e) == Map2arr(m)
    decreases |e|
  {
    if e == [] {
      assert m == map[];
    } else {
      var x, rest := e[0], e[1..];
      assert e == [x] + rest && x in ElemsOf(e);
      var id := Map2arrFirst(m);
      hide Map2arr, Sorted, ElemsOf, ValuesOf;
      ElemsOfCons(x, rest);
      FirstIsMin(m.Keys, x, ElemsOf(rest), id);
      Without(m, id);
      ValuesOfCons(m, id, rest);
      SortedIsMap2arr(m - {id}, rest);
    }
  }

  lemma FirstIsMin(keys: set<nat>, x: nat, rest: set<nat>, id: nat)
    requires keys == {x} + rest && Below(x, rest)
    requires id in keys && forall y :: y in keys ==> id <= y
    ensures id == x && rest == keys - {id} && id !in rest
  {
    assert x in keys;
  }

  function Insert(e: seq<nat>, id: nat): seq<nat>
  {
    if e == [] || id < e[0] then [id] + e else [e[0]] + Insert(e[1..], id)
  }

  lemma {:induction false} InsertSorted(e: seq<nat>, id: nat)
    requires Sorted(e) && id !in ElemsOf(e)
    ensures Sorted(Insert(e, id)) && ElemsOf(Insert(e, id)) == ElemsOf(e) + {id}
    decreases |e|
  {
    if e == [] {
      ElemsOfCons(id, e);
    } else {
      var x, rest := e[0], e[1..];
      assert e == [x] + rest;
      ElemsOfCons(x, rest);
      assert id != x;
      hide Sorted, ElemsOf, Below;
      if id < x {
        BelowPlus(id, x, ElemsOf(rest));
        ElemsOfCons(id, e);
      } else {
        InsertSorted(rest, id);
        BelowPlus(x, id, ElemsOf(rest));
        ElemsOfCons(x, Insert(rest, id));
      }
    }
  }

  /** The map is walked in any order; sort.Slice is stood for by insertion into a
      sorted list. The result does not depend on the order. */
  method Map2arrLoop(m: map<nat, seq<Byte>>) returns (a: seq<seq<Byte>>)
    ensures a == Map2arr(m)
  {
    var todo, e := m.Keys, [];
    while todo != {}
      invariant todo <= m.Keys && Sorted(e) && ElemsOf(e) == m.Keys - todo
      decreases |todo|
    {
      var id :| id in todo;
      InsertSorted(e, id);
      e, todo := Insert(e, id), todo - {id};
    }
    SortedIsMap2arr(m, e);
    a := ValuesOf(m, e);
  }

  // ---- The record ----

  function EncSet(b: seq<Byte>): seq<Byte> { EncU16(|b| % 0x1_0000) + b }

  function EncSets(bs: seq<seq<Byte>>): seq<Byte>
  {
    if bs == [] then [] else EncSet(bs[0]) + EncSets(bs[1..])
  }

  function ByteAt(b: seq<Byte>, i: nat): Byte { if |b| > i then b[i] else 0 }

  /** ToConfig; `first` is the SPS that happens to come first out of the map. */
  function Config(c: Sets, first: seq<Byte>): seq<Byte>
  {
    ConfigHead(|c.sps|, first) + EncSets(Map2arr(c.sps)) + [|c.pps| % 256] + EncSets(Map2arr(c.pps))
  }

  function ConfigHead(count: nat, first: seq<Byte>): (b: seq<Byte>)
    ensures |b| == 6 && b[5] % 32 == count % 32
  {
    [1, ByteAt(first, 1), ByteAt(first, 2), ByteAt(first, 3), 0xff, 0xe0 + count % 32]
  }

  datatype Read = Read(bs: seq<seq<Byte>>, rest: seq<Byte>)

  function ReadSets(b: seq<Byte>, count: nat): Option<Read>
    decreases count
  {
    if count == 0 then Some(Read([], b))
    else if |b| < 2 || |b| < 2 + DecU16(b) then None
    else
      var len: nat := DecU16(b);
      var r := ReadSets(b[2 + len..], count - 1);
      if r.None? then None else Some(Read([b[2..2 + len]] + r.value.bs, r.value.rest))
  }

  /** FromDecoderConfig. */
  function FromConfig(ids: Ids, b: seq<Byte>): Option<Sets>
  {
    if |b| < 6 then None else
    var sps := ReadSets(b[6..], b[5] % 32);
    if sps.None? || |sps.value.rest| < 1 then None else
    var pps := ReadSets(sps.value.rest[1..], sps.value.rest[0]);
    if pps.None? then None else
    Some(AddAll(ids, AddAll(ids, NoSets, sps.value.bs), pps.value.bs))
  }

  lemma FromConfigKeyed(ids: Ids, b: seq<Byte>)
    ensures FromConfig(ids, b).Some? ==> WellKeyed(ids, FromConfig(ids, b).value)
  {
    if FromConfig(ids, b).Some? {
      var sps := ReadSets(b[6..], b[5] % 32).value;
      var pps := ReadSets(sps.rest[1..], sps.rest[0]).value;
      AddAllKeyed(ids, NoSets, sps.bs);
      AddAllKeyed(ids, AddAll(ids, NoSets, sps.bs), pps.bs);
    }
  }

  ghost predicate Short(bs: seq<seq<Byte>>) { forall i :: 0 <= i < |bs| ==> |bs[i]| < 0x1_0000 }

  lemma ReadFirst(x: seq<Byte>, more: seq<Byte>, count: nat)
    requires count > 0 && |x| < 0x1_0000
    ensures ReadSets(EncU16(|x|) + x + more, count) ==
      var r := ReadSets(more, count - 1);
      if r.None? then None else Some(Read([x] + r.value.bs, r.value.rest))
  {
    hide EncU16, DecU16;
    U16RoundTrip(|x|, x + more);
    Parts(EncU16(|x|), x, more);
    hide ReadSets;
    ReadCases(EncU16(|x|) + x + more, count);
  }

  lemma Parts(a: seq<Byte>, x: seq<Byte>, more: seq<Byte>)
    ensures (a + x + more)[|a|..|a| + |x|] == x && (a + x + more)[|a| + |x|..] == more && a + x + more == a + (x + more)
  {}

  lemma ReadCases(b: seq<Byte>, count: nat)
    requires count > 0 && |b| >= 2 && |b| >= 2 + DecU16(b)
    ensures ReadSets(b, count) ==
      var len: nat := DecU16(b);
      var r := ReadSets(b[2 + len..], count - 1);
      if r.None? then None else Some(Read([b[2..2 + len]] + r.value.bs, r.value.rest))
  {
    hide DecU16;
  }

  lemma EncSetsCons(bs: seq<seq<Byte>>)
    requires bs != [] && |bs[0]| < 0x1_0000
    ensures EncSets(bs) == EncU16(|bs[0]|) + bs[0] + EncSets(bs[1..])
  {
    hide EncU16;
    assert |bs[0]| % 0x1_0000 == |bs[0]|;
  }

  lemma {:induction false} SetsRoundTrip(bs: seq<seq<Byte>>, rest: seq<Byte>)
    requires Short(bs)
    ensures ReadSets(EncSets(bs) + rest, |bs|) == Some(Read(bs, rest))
    decreases |bs|
  {
    if bs == [] {
      assert [] + rest == rest;
    } else {
      EncSetsCons(bs);
      hide EncU16, EncSets, ReadSets;
      SetsRoundTrip(bs[1..], rest);
      ReadFirst(bs[0], EncSets(bs[1..]) + rest, |bs|);
      Assoc(EncU16(|bs[0]|) + bs[0], EncSets(bs[1..]), rest);
      assert [bs[0]] + bs[1..] == bs;
    }
  }

  lemma AddAllCons(ids: Ids, c: Sets, b: seq<Byte>, bs: seq<seq<Byte>>)
    ensures AddAll(ids, c, [b] + bs) == AddAll(ids, Add(ids, c, b), bs)
  {
    assert ([b] + bs)[1..] == bs;
  }

  ghost predicate SPSKeyed(ids: Ids, m: map<nat, seq<Byte>>)
  {
    forall id :: id in m ==> NALUType(m[id]) == NALU_SPS && ids.sps(m[id]) == Some(id)
  }

  ghost predicate PPSKeyed(ids: Ids, m: map<nat, seq<Byte>>)
  {
    forall id :: id in m ==> NALUType(m[id]) == NALU_PPS && ids.pps(m[id]) == Some(id)
  }

  lemma PutBack(a: map<nat, seq<Byte>>, m: map<nat, seq<Byte>>, id: nat)
    requires id in m
    ensures a[id := m[id]] + (m - {id}) == a + m
  {}

  lemma {:induction false} AddSPS(ids: Ids, c: Sets, m: map<nat, seq<Byte>>)
    requires SPSKeyed(ids, m)
    ensures AddAll(ids, c, Map2arr(m)) == c.(sps := c.sps + m)
    decreases |m|
  {
    if m == map[] {
      assert c.sps + m == c.sps;
    } else {
      var id := Map2arrFirst(m);
      hide Map2arr, AddAll;
      AddAllCons(ids, c, m[id], Map2arr(m - {id}));
      AddSPS(ids, c.(sps := c.sps[id := m[id]]), m - {id});
      PutBack(c.sps, m, id);
    }
  }

  lemma {:induction false} AddPPS(ids: Ids, c: Sets, m: map<nat, seq<Byte>>)
    requires PPSKeyed(ids, m)
    ensures AddAll(ids, c, Map2arr(m)) == c.(pps := c.pps + m)
    decreases |m|
  {
    if m == map[] {
      assert c.pps + m == c.pps;
    } else {
      var id := Map2arrFirst(m);
      hide Map2arr, AddAll;
      AddAllCons(ids, c, m[id], Map2arr(m - {id}));
      AddPPS(ids, c.(pps := c.pps[id := m[id]]), m - {id});
      PutBack(c.pps, m, id);
    }
  }

  lemma ReadsRecord(ids: Ids, head: seq<Byte>, sps: seq<seq<Byte>>, pps: seq<seq<Byte>>)
    requires |head| == 6 && head[5] % 32 == |sps| && |pps| <= 255 && Short(sps) && Short(pps)
    ensures FromConfig(ids, head + EncSets(sps) + [|pps|] + EncSets(pps)) == Some(AddAll(ids, AddAll(ids, NoSets, sps), pps))
  {
    hide EncSets, ReadSets, AddAll, Short;
    var n: seq<Byte> := [|pps|];
    var tail := n + EncSets(pps);
    SetsRoundTrip(sps, tail);
    SetsRoundTrip(pps, []);
    assert EncSets(pps) + [] == EncSets(pps) && tail[1..] == EncSets(pps);
    var b := head + (EncSets(sps) + tail);
    assert b[6..] == EncSets(sps) + tail && b[5] == head[5];
    assert b == head + EncSets(sps) + n + EncSets(pps);
  }

  lemma NothingPlus(m: map<nat, seq<Byte>>)
    ensures map[] + m == m
  {}

  lemma AddBoth(ids: Ids, c: Sets)
    requires WellKeyed(ids, c)
    ensures AddAll(ids, AddAll(ids, NoSets, Map2arr(c.sps)), Map2arr(c.pps)) == c
  {
    hide AddAll, Map2arr, Add;
    NothingPlus(c.sps);
    NothingPlus(c.pps);
    AddSPS(ids, NoSets, c.sps);
    AddPPS(ids, Sets(c.sps, map[]), c.pps);
  }

  /** FromDecoderConfig of ToConfig rebuilds the maps, whichever SPS gave the
      profile bytes, for at most 31 SPS and 255 PPS under 65536 bytes. */
  lemma ConfigRoundTrip(ids: Ids, c: Sets, first: seq<Byte>)
    requires WellKeyed(ids, c) && |c.sps| <= 31 && |c.pps| <= 255
    requires Short(Map2arr(c.sps)) && Short(Map2arr(c.pps))
    ensures FromConfig(ids, Config(c, first)) == Some(c)
  {
    hide FromConfig, EncSets, AddAll, Map2arr, Short, Add, ConfigHead, WellKeyed;
    ReadsRecord(ids, ConfigHead(|c.sps|, first), Map2arr(c.sps), Map2arr(c.pps));
    AddBoth(ids, c);
  }

  // ---- The codec object ----

  /** What is hashed: all sets in the order of their ids. */
  function HashInput(c: Sets): seq<Byte> { Flatten(Map2arr(c.sps)) + Flatten(Map2arr(c.pps)) }

  class Codec {
    var SPS: map<nat, seq<Byte>>
    var PPS: map<nat, seq<Byte>>
    var hashed: seq<Byte>  // what `hash` is the SHA-1 of
    const ids: Ids

    ghost function Abs(): Sets
      reads this
    {
      Sets(SPS, PPS)
    }

    ghost predicate Valid()
      reads this
    {
      WellKeyed(ids, Abs()) && hashed == HashInput(Abs())
    }

    constructor (ids: Ids)
      ensures Valid() && Abs() == NoSets && this.ids == ids
    {
      this.ids := ids;
      SPS, PPS, hashed := map[], map[], [];
    }

    method AddSPSPPS(b: seq<Byte>)
      requires Valid()
      modifies this
      ensures Valid() && Abs() == Add(ids, old(Abs()), b)
    {
      AddKeyed(ids, Abs(), b);
      hide Map2arr, Flatten, WellKeyed;
      if NALUType(b) == NALU_SPS {
        if ids.sps(b).Some? {
          SPS := SPS[ids.sps(b).value := b];
        }
      } else if NALUType(b) == NALU_PPS {
        if ids.pps(b).Some? {
          PPS := PPS[ids.pps(b).value := b];
        }
      }
      var sps := Map2arrLoop(SPS);
      var pps := Map2arrLoop(PPS);
      hashed := Flatten(sps) + Flatten(pps);
    }

    /** ToConfig: into the buffer at the cursor, or only counting. */
    method ToConfig(b: array?<Byte>, n: nat) returns (m: nat, first: seq<Byte>)
      requires b != null ==> n + |Config(Abs(), [])| <= b.Length
      modifies b
      ensures Filled(b, old(Held(b)), n, Config(old(Abs()), first), m)
      ensures if SPS == map[] then first == [] else first in SPS.Values
    {
      hide ByteAt, EncSets, Map2arr, Splice;
      ghost var c, s0 := Abs(), Held(b);
      first := [];
      if SPS.Keys != {} {
        var id :| id in SPS.Keys;
        first := SPS[id];
        assert first in SPS.Values;
      }
      if b != null { SpliceNothing(s0, n); }
      ghost var head := ConfigHead(|SPS|, first);
      assert |Config(c, first)| == |Config(c, [])|;
      assert [] + head == head;
      var spsCount, ppsCount := |SPS|, |PPS|;
      var sps := Map2arrLoop(SPS);
      var pps := Map2arrLoop(PPS);
      m := Put(b, n, ConfigHead(spsCount, first), s0, n, []);
      m := WriteSets(b, m, sps, s0, n, head);
      m := Put(b, m, [ppsCount % 256], s0, n, head + EncSets(sps));
      m := WriteSets(b, m, pps, s0, n, head + EncSets(sps) + [ppsCount % 256]);
    }
  }

  method WriteSets(b: array?<Byte>, at: nat, sets: seq<seq<Byte>>, ghost s0: seq<Byte>, ghost n: nat, ghost before: seq<Byte>)
    returns (m: nat)
    requires Filled(b, s0, n, before, at) && (b != null ==> at + |EncSets(sets)| <= b.Length)
    modifies b
    ensures Filled(b, s0, n, before + EncSets(sets), m)
  {
    hide Splice, EncU16;
    m := at;
    ghost var done := before;
    assert sets[0..] == sets;
    for i := 0 to |sets|
      invariant Filled(b, s0, n, done, m) && done + EncSets(sets[i..]) == before + EncSets(sets)
    {
      ghost var len := EncU16(|sets[i]| % 0x1_0000);
      assert sets[i..][1..] == sets[i + 1..];
      assert done + EncSets(sets[i..]) == done + len + sets[i] + EncSets(sets[i + 1..]);
      m := Put(b, m, EncU16(|sets[i]| % 0x1_0000), s0, n, done);
      m := Put(b, m, sets[i], s0, n, done + len);
      done := done + len + sets[i];
    }
    assert sets[|sets|..] == [] && done + [] == done;
  }

  /** FromDecoderConfig. The five bytes before the SPS count are read and dropped. */
  method FromDecoderConfig(ids: Ids, b: seq<Byte>) returns (c: Codec?)
    ensures c == null <==> FromConfig(ids, b).None?
    ensures c != null ==> fresh(c) && c.Valid() && c.ids == ids && c.Abs() == FromConfig(ids, b).value
  {
    hide WellKeyed, Add, HashInput;
    var nc := new Codec(ids);
    if |b| < 6 { return null; }
    var n := 6;
    var ok;
    ok, n := ReadInto(nc, b, n, b[5] % 32);
    if !ok || |b| < n + 1 { return null; }
    n := n + 1;
    assert b[n - 1..][1..] == b[n..] && b[n - 1..][0] == b[n - 1];
    ok, n := ReadInto(nc, b, n, b[n - 1]);
    if !ok { return null; }
    c := nc;
  }

  /** One of the two loops: `count` sets, each added as it is read. */
  method ReadInto(c: Codec, b: seq<Byte>, n: nat, count: nat) returns (ok: bool, m: nat)
    requires c.Valid() && n <= |b|
    modifies c
    ensures ok <==> ReadSets(b[n..], count).Some?
    ensures ok ==>
      var r := ReadSets(b[n..], count).value;
      n <= m <= |b| && b[m..] == r.rest && c.Valid() && c.Abs() == AddAll(c.ids, old(c.Abs()), r.bs)
  {
    hide WellKeyed, Add, HashInput, DecU16, ReadSets;
    m := n;
    ghost var got := [];
    NoneRead(ReadSets(b[n..], count));
    for i := 0 to count
      invariant n <= m <= |b| && c.Valid() && c.Abs() == AddAll(c.ids, old(c.Abs()), got)
      invariant ReadSets(b[n..], count) == ReadMore(got, ReadSets(b[m..], count - i))
    {
      ghost var rest := b[m..];
      ReadStep(rest, count - i);
      if |b| < m + 2 { return false, m; }
      var len: nat := DecU16(b[m..]);
      m := m + 2;
      if |b| < m + len { return false, m; }
      var x := b[m..m + len];
      assert rest[2..2 + len] == x && rest[2 + len..] == b[m + len..];
      c.AddSPSPPS(x);
      AddAllSnoc(c.ids, old(c.Abs()), got, x);
      ReadMoreOne(got, x, ReadSets(b[m + len..], count - i - 1));
      got := got + [x];
      m := m + len;
    }
    ReadEnd(b[m..], got);
    ok := true;
  }

  /** An outcome with the sets `bs` already read. */
  function ReadMore(bs: seq<seq<Byte>>, r: Option<Read>): Option<Read>
  {
    if r.None? then None else Some(Read(bs + r.value.bs, r.value.rest))
  }

  lemma NoneRead(r: Option<Read>)
    ensures ReadMore([], r) == r
  {
    if r.Some? { assert [] + r.value.bs == r.value.bs; }
  }

  lemma ReadMoreOne(bs: seq<seq<Byte>>, x: seq<Byte>, r: Option<Read>)
    ensures ReadMore(bs, ReadMore([x], r)) == ReadMore(bs + [x], r)
  {
    if r.Some? { assert bs + ([x] + r.value.bs) == bs + [x] + r.value.bs; }
  }

  lemma ReadStep(b: seq<Byte>, count: nat)
    requires count > 0
    ensures ReadSets(b, count) ==
      if |b| < 2 || |b| < 2 + DecU16(b) then None
      else ReadMore([b[2..2 + DecU16(b)]], ReadSets(b[2 + DecU16(b)..], count - 1))
  {
    hide DecU16;
  }

  lemma ReadEnd(b: seq<Byte>, bs: seq<seq<Byte>>)
    ensures ReadMore(bs, ReadSets(b, 0)) == Some(Read(bs, b))
  {
    assert bs + [] == bs;
  }

  lemma {:induction false} AddAllSnoc(ids: Ids, c: Sets, bs: seq<seq<Byte>>, x: seq<Byte>)
    ensures AddAll(ids, c, bs + [x]) == Add(ids, AddAll(ids, c, bs), x)
    decreases |bs|
  {
    hide Add;
    if bs == [] {
      assert [] + [x] == [x] && [x][1..] == [];
    } else {
      assert (bs + [x])[1..] == bs[1..] + [x];
      AddAllSnoc(ids, Add(ids, c, bs[0]), bs[1..], x);
    }
  }
}
