/** The AMF0 codec (format/flv/flvio/amf0.go) on values: what the printer
    writes, what the parser reads, and why one undoes the other. */
module Amf0 {
  import opened Bytes
  import opened Wrappers

  /** A number is its 64-bit pattern. A date is the pattern it was read from;
      the conversion to time.Time is not modelled. */
  datatype Val =
    | Null | Bool(b: bool) | Num(bits: U64) | Str(s: seq<Byte>)
    | Obj(kvs: seq<Kv>) | Arr(vals: seq<Val>) | Date(ms: U64)

  datatype Kv = Kv(k: seq<Byte>, v: Val)

  const NUMBER := 0
  const BOOLEAN := 1
  const STRING := 2
  const OBJECT := 3
  const NULL := 5
  const UNDEFINED := 6
  const ECMA_ARRAY := 8
  const OBJECT_END := 9
  const STRICT_ARRAY := 10
  const DATE := 11
  const LONG_STRING := 12

  // ---- AMFMap ----

  /** The index of the first entry with key k, the length when there is none. */
  function Find(a: seq<Kv>, k: seq<Byte>): (i: nat)
    ensures i <= |a| && (i < |a| ==> a[i].k == k)
    ensures forall j :: 0 <= j < i ==> a[j].k != k
  {
    if a == [] then 0 else if a[0].k == k then 0 else 1 + Find(a[1..], k)
  }

  function Get(a: seq<Kv>, k: seq<Byte>): Option<Val>
  {
    if Find(a, k) < |a| then Some(a[Find(a, k)].v) else None
  }

  /** Set replaces in place or appends. */
  function Set(a: seq<Kv>, k: seq<Byte>, v: Val): seq<Kv>
  {
    if Find(a, k) < |a| then a[Find(a, k) := Kv(k, v)] else a + [Kv(k, v)]
  }

  function Del(a: seq<Kv>, k: seq<Byte>): seq<Kv>
  {
    if a == [] then [] else (if a[0].k != k then [a[0]] else []) + Del(a[1..], k)
  }

  ghost predicate Distinct(a: seq<Kv>) { forall i, j :: 0 <= i < j < |a| ==> a[i].k != a[j].k }

  lemma SetGet(a: seq<Kv>, k: seq<Byte>, v: Val, k2: seq<Byte>)
    ensures Get(Set(a, k, v), k2) == if k2 == k then Some(v) else Get(a, k2)
    ensures Distinct(a) ==> Distinct(Set(a, k, v))
  {
    var b, n := Set(a, k, v), Find(a, k);
    assert forall j :: 0 <= j < |a| ==> b[j].k == a[j].k;
    assert b[n] == Kv(k, v);
    if k2 != k {
      var i, j := Find(a, k2), Find(b, k2);
      if i < |a| { assert b[i].k == k2; }
      if j < |b| { assert b[j] == a[j]; }
    }
  }

  lemma {:induction false} DelGet(a: seq<Kv>, k: seq<Byte>, k2: seq<Byte>)
    ensures Get(Del(a, k), k2) == if k2 == k then None else Get(a, k2)
  {
    if a != [] {
      DelGet(a[1..], k, k2);
      GetCons(a[0], a[1..], k2);
      assert [a[0]] + a[1..] == a;
      if a[0].k != k {
        GetCons(a[0], Del(a[1..], k), k2);
      } else {
        assert [] + Del(a[1..], k) == Del(a[1..], k);
      }
    }
  }

  lemma GetCons(x: Kv, a: seq<Kv>, k: seq<Byte>)
    ensures Get([x] + a, k) == if x.k == k then Some(x.v) else Get(a, k)
  {
    assert ([x] + a)[1..] == a;
  }

  // ---- The printer ----

  function Enc(v: Val): (b: seq<Byte>)
    ensures |b| >= 1
    decreases v
  {
    match v
    case Null => [NULL]
    case Bool(x) => [BOOLEAN, if x then 1 else 0]
    case Num(bits) => [NUMBER] + EncU64(bits)
    case Str(s) => EncString(s)
    case Obj(kvs) => [OBJECT] + EncKvs(kvs) + [0, 0, OBJECT_END]
    case Arr(vals) => [STRICT_ARRAY] + EncU32(Trunc32(|vals|)) + EncVals(vals)
    case Date(ms) => [DATE] + EncU64(ms) + [0, 0]
  }

  function EncString(s: seq<Byte>): seq<Byte>
  {
    if |s| < 65536 then [STRING] + EncU16(|s|) + s
    else [LONG_STRING] + EncU32(Trunc32(|s|)) + s
  }

  /** The entries of a map; those with an empty key are skipped. */
  function EncKvs(kvs: seq<Kv>): seq<Byte>
    decreases kvs
  {
    if kvs == [] then [] else EncKv(kvs[0]) + EncKvs(kvs[1..])
  }

  function EncKv(kv: Kv): seq<Byte>
    decreases kv
  {
    if kv.k == [] then [] else EncU16(|kv.k| % 65536) + kv.k + Enc(kv.v)
  }

  function EncVals(vals: seq<Val>): seq<Byte>
    decreases vals
  {
    if vals == [] then [] else Enc(vals[0]) + EncVals(vals[1..])
  }

  // ---- The parser ----

  datatype ParseError = Truncated | TooBig | InvalidMarker

  datatype Parsed<T> = Parsed(v: T, n: nat)

  /** parseAMF0Val on the bytes `b` from the cursor on; `total` is the length of
      the whole input, against which counts are checked as uint32. */
  function Parse(b: seq<Byte>, total: nat): (r: Result<Parsed<Val>, ParseError>)
    ensures r.Ok? ==> 1 <= r.value.n <= |b|
    decreases |b|, 0
  {
    if |b| < 1 then Err(Truncated) else
    var marker, rest := b[0], b[1..];
    if marker == NUMBER then
      if |rest| < 8 then Err(Truncated) else Ok(Parsed(Num(DecU64(rest)), 9))
    else if marker == BOOLEAN then
      if |rest| < 1 then Err(Truncated) else Ok(Parsed(Bool(rest[0] != 0), 2))
    else if marker == STRING then
      if |rest| < 2 then Err(Truncated) else
      var len := DecU16(rest);
      if |rest| < 2 + len then Err(Truncated) else Ok(Parsed(Str(rest[2..2 + len]), 3 + len))
    else if marker == OBJECT then
      var o :- ParseKvs(rest, total, []);
      Ok(Parsed(Obj(o.v), 1 + o.n))
    else if marker == NULL || marker == UNDEFINED then
      Ok(Parsed(Null, 1))
    else if marker == ECMA_ARRAY then
      if |rest| < 4 then Err(Truncated) else
      var o :- ParseKvs(rest[4..], total, []);
      Ok(Parsed(Obj(o.v), 5 + o.n))
    else if marker == OBJECT_END then
      if |rest| < 3 then Err(Truncated) else Ok(Parsed(Null, 4))
    else if marker == STRICT_ARRAY then
      if |rest| < 4 then Err(Truncated) else
      var count := DecU32(rest);
      if count > total % 0x1_0000_0000 then Err(TooBig) else
      var a :- ParseVals(rest[4..], total, count);
      Ok(Parsed(Arr(a.v), 5 + a.n))
    else if marker == DATE then
      if |rest| < 10 then Err(Truncated) else Ok(Parsed(Date(DecU64(rest)), 11))
    else if marker == LONG_STRING then
      if |rest| < 4 then Err(Truncated) else
      var len: nat := DecU32(rest);
      if len > total % 0x1_0000_0000 then Err(TooBig) else
      if |rest| < 4 + len then Err(Truncated) else Ok(Parsed(Str(rest[4..4 + len]), 5 + len))
    else
      Err(InvalidMarker)
  }

  /** The entry loop of an object, up to and including the end marker. */
  function ParseKvs(b: seq<Byte>, total: nat, obj: seq<Kv>): (r: Result<Parsed<seq<Kv>>, ParseError>)
    ensures r.Ok? ==> 3 <= r.value.n <= |b|
    decreases |b|, 1
  {
    if |b| < 2 then Err(Truncated) else
    var len := DecU16(b);
    if len == 0 then
      if |b| < 3 then Err(Truncated) else Ok(Parsed(obj, 3))
    else if |b| < 2 + len then Err(Truncated) else
    var v :- Parse(b[2 + len..], total);
    var rest :- ParseKvs(b[2 + len + v.n..], total, Set(obj, b[2..2 + len], v.v));
    Ok(Parsed(rest.v, 2 + len + v.n + rest.n))
  }

  function ParseVals(b: seq<Byte>, total: nat, count: nat): (r: Result<Parsed<seq<Val>>, ParseError>)
    ensures r.Ok? ==> r.value.n <= |b| && |r.value.v| == count
    decreases |b|, 1
  {
    if count == 0 then Ok(Parsed([], 0)) else
    var v :- Parse(b, total);
    var rest :- ParseVals(b[v.n..], total, count - 1);
    Ok(Parsed([v.v] + rest.v, v.n + rest.n))
  }

  /** ParseAMFVals for AMF0. */
  function ParseAll(b: seq<Byte>, total: nat): Result<seq<Val>, ParseError>
    decreases |b|
  {
    if b == [] then Ok([]) else
    var v :- Parse(b, total);
    var rest :- ParseAll(b[v.n..], total);
    Ok([v.v] + rest)
  }

  // ---- Round trip ----

  /** Keys distinct, not empty and under 65536 bytes, all the way down. */
  ghost predicate Shape(v: Val)
    decreases v
  {
    match v
    case Obj(kvs) => Distinct(kvs) && ShapeKvs(kvs)
    case Arr(vals) => ShapeVals(vals)
    case _ => true
  }

  ghost predicate ShapeKvs(kvs: seq<Kv>)
    decreases kvs
  {
    kvs == [] || (0 < |kvs[0].k| < 65536 && Shape(kvs[0].v) && ShapeKvs(kvs[1..]))
  }

  ghost predicate ShapeVals(vals: seq<Val>)
    decreases vals
  {
    vals == [] || (Shape(vals[0]) && ShapeVals(vals[1..]))
  }

  predicate NoDate(v: Val)
    decreases v
  {
    match v
    case Obj(kvs) => NoDateKvs(kvs)
    case Arr(vals) => NoDateVals(vals)
    case _ => !v.Date?
  }

  predicate NoDateKvs(kvs: seq<Kv>)
    decreases kvs
  {
    kvs == [] || (NoDate(kvs[0].v) && NoDateKvs(kvs[1..]))
  }

  predicate NoDateVals(vals: seq<Val>)
    decreases vals
  {
    vals == [] || (NoDate(vals[0]) && NoDateVals(vals[1..]))
  }

  /** The values the promise is made for. */
  ghost predicate Good(v: Val) { Shape(v) && NoDate(v) }
  ghost predicate GoodKvs(kvs: seq<Kv>) { ShapeKvs(kvs) && NoDateKvs(kvs) }
  ghost predicate GoodVals(vals: seq<Val>) { ShapeVals(vals) && NoDateVals(vals) }

  lemma ParseStringIs(rest: seq<Byte>, total: nat)
    ensures |rest| >= 2 && |rest| >= 2 + DecU16(rest) ==>
      Parse([STRING] + rest, total) == Ok(Parsed(Str(rest[2..2 + DecU16(rest)]), 3 + DecU16(rest)))
    ensures |rest| >= 4 && |rest| >= 4 + DecU32(rest) as nat && DecU32(rest) <= total < 0x1_0000_0000 ==>
      Parse([LONG_STRING] + rest, total) == Ok(Parsed(Str(rest[4..4 + DecU32(rest) as nat]), 5 + DecU32(rest) as nat))
  {
    hide DecU16, DecU32, ParseKvs, ParseVals;
    assert ([STRING] + rest)[1..] == rest && ([LONG_STRING] + rest)[1..] == rest;
  }

  lemma Regroup(x: seq<Byte>, len: seq<Byte>, s: seq<Byte>, post: seq<Byte>)
    ensures x + len + s + post == x + (len + (s + post))
    ensures (len + (s + post))[|len|..|len| + |s|] == s
  {}

  lemma ParseShort(s: seq<Byte>, post: seq<Byte>, total: nat)
    requires |s| < 65536
    ensures Parse([STRING] + EncU16(|s|) + s + post, total) == Ok(Parsed(Str(s), 3 + |s|))
  {
    hide Parse, EncU16, DecU16;
    U16RoundTrip(|s|, s + post);
    ParseStringIs(EncU16(|s|) + (s + post), total);
    Regroup([STRING], EncU16(|s|), s, post);
  }

  lemma ParseLong(s: seq<Byte>, post: seq<Byte>, total: nat)
    requires |s| <= total < 0x1_0000_0000
    ensures Parse([LONG_STRING] + EncU32(|s|) + s + post, total) == Ok(Parsed(Str(s), 5 + |s|))
  {
    hide Parse, EncU32, DecU32;
    U32RoundTrip(|s|, s + post);
    ParseStringIs(EncU32(|s|) + (s + post), total);
    Regroup([LONG_STRING], EncU32(|s|), s, post);
  }

  lemma ParseString(s: seq<Byte>, post: seq<Byte>, total: nat)
    requires |s| <= total < 0x1_0000_0000
    ensures Parse(EncString(s) + post, total) == Ok(Parsed(Str(s), |EncString(s)|))
  {
    hide Parse, EncU16, EncU32, Trunc32;
    if |s| < 65536 {
      ParseShort(s, post, total);
    } else {
      Trunc32Small(|s|);
      ParseLong(s, post, total);
    }
  }

  lemma ParseNum(bits: U64, post: seq<Byte>, total: nat)
    ensures Parse(Enc(Num(bits)) + post, total) == Ok(Parsed(Num(bits), 9))
  {
    var b := Enc(Num(bits)) + post;
    U64RoundTrip(bits, post);
    hide EncU64, DecU64;
    assert b[1..] == EncU64(bits) + post;
  }

  lemma ParseObjIs(body: seq<Byte>, total: nat)
    ensures Parse([OBJECT] + body, total) ==
      var o := ParseKvs(body, total, []);
      if o.Err? then Err(o.error) else Ok(Parsed(Obj(o.value.v), 1 + o.value.n))
  {
    assert ([OBJECT] + body)[1..] == body;
  }

  lemma ParseArrIs(count: U32, body: seq<Byte>, total: nat)
    requires count <= total < 0x1_0000_0000
    ensures Parse([STRICT_ARRAY] + EncU32(count) + body, total) ==
      var a := ParseVals(body, total, count);
      if a.Err? then Err(a.error) else Ok(Parsed(Arr(a.value.v), 5 + a.value.n))
  {
    var b := [STRICT_ARRAY] + EncU32(count) + body;
    U32RoundTrip(count, body);
    hide EncU32, DecU32, ParseVals;
    assert b[1..] == EncU32(count) + body && b[1..][4..] == body;
  }

  lemma ParseKvsIs(b: seq<Byte>, total: nat, obj: seq<Kv>)
    requires |b| >= 2 && 0 < DecU16(b) && 2 + DecU16(b) <= |b|
    ensures ParseKvs(b, total, obj) ==
      var len := DecU16(b);
      var v := Parse(b[2 + len..], total);
      if v.Err? then Err(v.error)
      else KvThen(2 + len + v.value.n, ParseKvs(b[2 + len + v.value.n..], total, Set(obj, b[2..2 + len], v.value.v)))
  {
    hide Parse, DecU16, Set;
  }

  function KvThen(n: nat, rest: Result<Parsed<seq<Kv>>, ParseError>): Result<Parsed<seq<Kv>>, ParseError>
  {
    if rest.Err? then rest else Ok(Parsed(rest.value.v, n + rest.value.n))
  }

  lemma ParseKvsAt(b: seq<Byte>, total: nat, obj: seq<Kv>, k: seq<Byte>, v: Val, n: nat, rest: seq<Byte>)
    requires 0 < |k| && 2 + |k| <= |b| && DecU16(b) == |k| && b[2..2 + |k|] == k
    requires Parse(b[2 + |k|..], total) == Ok(Parsed(v, n)) && b[2 + |k| + n..] == rest
    ensures ParseKvs(b, total, obj) == KvThen(2 + |k| + n, ParseKvs(rest, total, Set(obj, k, v)))
  {
    hide DecU16, Parse, ParseKvs, Set, KvThen;
    ParseKvsIs(b, total, obj);
  }

  lemma KvParts(k: seq<Byte>, enc: seq<Byte>, rest: seq<Byte>)
    requires |k| < 65536
    ensures
      var b := EncU16(|k|) + k + enc + rest;
      && |b| >= 2 + |k| + |enc| && DecU16(b) == |k| && b[2..2 + |k|] == k
      && b[2 + |k|..] == enc + rest && b[2 + |k| + |enc|..] == rest
  {
    hide EncU16, DecU16;
    FourParts(EncU16(|k|), k, enc, rest);
    U16RoundTrip(|k|, k + enc + rest);
  }

  lemma ParseKvIs(k: seq<Byte>, v: Val, enc: seq<Byte>, rest: seq<Byte>, total: nat, obj: seq<Kv>)
    requires 0 < |k| < 65536 && Parse(enc + rest, total) == Ok(Parsed(v, |enc|))
    ensures ParseKvs(EncU16(|k|) + k + enc + rest, total, obj) == KvThen(2 + |k| + |enc|, ParseKvs(rest, total, Set(obj, k, v)))
  {
    hide EncU16, DecU16, Parse, ParseKvs, Set, KvThen;
    KvParts(k, enc, rest);
    ParseKvsAt(EncU16(|k|) + k + enc + rest, total, obj, k, v, |enc|, rest);
  }

  lemma FourParts(a: seq<Byte>, b: seq<Byte>, c: seq<Byte>, d: seq<Byte>)
    ensures (a + b + c + d)[|a|..|a| + |b|] == b && (a + b + c + d)[|a| + |b|..] == c + d
    ensures (a + b + c + d)[|a| + |b| + |c|..] == d && a + b + c + d == a + (b + c + d)
  {}

  lemma ParseValsIs(b: seq<Byte>, total: nat, count: nat)
    requires count > 0
    ensures ParseVals(b, total, count) ==
      var v := Parse(b, total);
      if v.Err? then Err(v.error)
      else
        var rest := ParseVals(b[v.value.n..], total, count - 1);
        if rest.Err? then Err(rest.error) else Ok(Parsed([v.value.v] + rest.value.v, v.value.n + rest.value.n))
  {
    hide Parse;
  }

  lemma EndOfObject(post: seq<Byte>, total: nat, obj: seq<Kv>)
    ensures ParseKvs([0, 0, OBJECT_END] + post, total, obj) == Ok(Parsed(obj, 3))
  {}

  lemma ObjRoundTrip(kvs: seq<Kv>, post: seq<Byte>, total: nat)
    requires ParseKvs(EncKvs(kvs) + [0, 0, OBJECT_END] + post, total, []) == Ok(Parsed([] + kvs, |EncKvs(kvs)| + 3))
    ensures Parse(Enc(Obj(kvs)) + post, total) == Ok(Parsed(Obj(kvs), |Enc(Obj(kvs))|))
  {
    assert Enc(Obj(kvs)) == [OBJECT] + EncKvs(kvs) + [0, 0, OBJECT_END];
    hide Parse, ParseKvs, Enc, EncKvs;
    assert [OBJECT] + EncKvs(kvs) + [0, 0, OBJECT_END] + post == [OBJECT] + (EncKvs(kvs) + [0, 0, OBJECT_END] + post);
    ParseObjIs(EncKvs(kvs) + [0, 0, OBJECT_END] + post, total);
    assert [] + kvs == kvs;
  }

  lemma EncArr(vals: seq<Val>)
    requires |vals| < 0x1_0000_0000
    ensures Enc(Arr(vals)) == [STRICT_ARRAY] + EncU32(|vals|) + EncVals(vals)
  {
    hide EncU32, EncVals, Trunc32;
    Trunc32Small(|vals|);
  }

  lemma ArrRoundTrip(vals: seq<Val>, post: seq<Byte>, total: nat)
    requires |vals| <= total < 0x1_0000_0000
    requires ParseVals(EncVals(vals) + post, total, |vals|) == Ok(Parsed(vals, |EncVals(vals)|))
    ensures Parse(Enc(Arr(vals)) + post, total) == Ok(Parsed(Arr(vals), |Enc(Arr(vals))|))
  {
    hide Parse, ParseVals, Enc, EncU32, EncVals;
    EncArr(vals);
    Assoc([STRICT_ARRAY] + EncU32(|vals|), EncVals(vals), post);
    ParseArrIs(|vals|, EncVals(vals) + post, total);
  }

  /** The parser reads back what the printer wrote, and exactly that. */
  lemma {:induction false} RoundTrip(v: Val, post: seq<Byte>, total: nat)
    requires Good(v) && |Enc(v)| <= total < 0x1_0000_0000
    ensures Parse(Enc(v) + post, total) == Ok(Parsed(v, |Enc(v)|))
    decreases v
  {
    EncSize(v);
    hide Parse, ParseKvs, ParseVals, Enc, EncKvs, EncVals;
    match v
    case Null => NullRoundTrip(post, total);
    case Bool(x) => BoolRoundTrip(x, post, total);
    case Num(bits) => ParseNum(bits, post, total);
    case Str(s) => ParseString(s, post, total); EncIsString(s);
    case Obj(kvs) =>
      assert [] + kvs == kvs;
      KvsRoundTrip(kvs, [], post, total);
      ObjRoundTrip(kvs, post, total);
    case Arr(vals) =>
      CountFits(vals);
      ValsRoundTrip(vals, post, total);
      ArrRoundTrip(vals, post, total);
  }

  lemma EncIsString(s: seq<Byte>)
    ensures Enc(Str(s)) == EncString(s)
  {}

  /** The parts of an encoding are shorter than the whole. */
  lemma EncSize(v: Val)
    ensures v.Str? ==> |v.s| < |Enc(v)|
    ensures v.Num? ==> |Enc(v)| == 9
    ensures v.Bool? ==> |Enc(v)| == 2
    ensures v.Null? ==> |Enc(v)| == 1
    ensures v.Obj? ==> |EncKvs(v.kvs)| + 4 == |Enc(v)|
    ensures v.Arr? ==> |EncVals(v.vals)| + 5 == |Enc(v)|
  {
    hide EncKvs, EncVals, EncU32, EncU64, EncU16;
  }

  lemma NullRoundTrip(post: seq<Byte>, total: nat)
    ensures Parse(Enc(Null) + post, total) == Ok(Parsed(Null, 1))
  {}

  lemma BoolRoundTrip(x: bool, post: seq<Byte>, total: nat)
    ensures Parse(Enc(Bool(x)) + post, total) == Ok(Parsed(Bool(x), 2))
  {}

  lemma {:induction false} CountFits(vals: seq<Val>)
    ensures |vals| <= |EncVals(vals)|
    decreases |vals|
  {
    if vals != [] { CountFits(vals[1..]); }
  }

  lemma EncKvsCons(kvs: seq<Kv>)
    requires kvs != [] && 0 < |kvs[0].k| < 65536
    ensures EncKvs(kvs) == EncU16(|kvs[0].k|) + kvs[0].k + Enc(kvs[0].v) + EncKvs(kvs[1..])
  {
    hide Enc, EncU16;
  }

  lemma {:induction false} KvsRoundTrip(kvs: seq<Kv>, obj: seq<Kv>, post: seq<Byte>, total: nat)
    requires GoodKvs(kvs) && Distinct(obj + kvs) && |EncKvs(kvs)| <= total < 0x1_0000_0000
    ensures ParseKvs(EncKvs(kvs) + [0, 0, OBJECT_END] + post, total, obj) == Ok(Parsed(obj + kvs, |EncKvs(kvs)| + 3))
    decreases kvs
  {
    hide Parse, ParseKvs, Enc, EncU16, EncKvs, Set, Distinct;
    if kvs == [] {
      EndOfObject(post, total, obj);
      NoKvs(post, obj);
    } else {
      var kv, rest, len := kvs[0], kvs[1..], |kvs[0].k|;
      var end := EncKvs(rest) + [0, 0, OBJECT_END] + post;
      EncKvsCons(kvs);
      RoundTrip(kv.v, end, total);
      NewKey(obj, kvs);
      KvsRoundTrip(rest, obj + [kv], post, total);
      ParseKvIs(kv.k, kv.v, Enc(kv.v), end, total, obj);
      assert EncKvs(kvs) + [0, 0, OBJECT_END] + post == EncU16(len) + kv.k + Enc(kv.v) + end;
    }
  }

  lemma NoKvs(post: seq<Byte>, obj: seq<Kv>)
    ensures EncKvs([]) + [0, 0, OBJECT_END] + post == [0, 0, OBJECT_END] + post && obj + [] == obj && EncKvs([]) == []
  {}

  lemma NewKey(obj: seq<Kv>, kvs: seq<Kv>)
    requires kvs != [] && Distinct(obj + kvs)
    ensures Set(obj, kvs[0].k, kvs[0].v) == obj + [kvs[0]]
    ensures Distinct(obj + [kvs[0]] + kvs[1..]) && obj + [kvs[0]] + kvs[1..] == obj + kvs
  {
    assert obj + [kvs[0]] + kvs[1..] == obj + kvs;
    forall i | 0 <= i < |obj| ensures obj[i].k != kvs[0].k {
      assert (obj + kvs)[i] == obj[i] && (obj + kvs)[|obj|] == kvs[0];
    }
    assert Kv(kvs[0].k, kvs[0].v) == kvs[0];
  }

  lemma {:induction false} ValsRoundTrip(vals: seq<Val>, post: seq<Byte>, total: nat)
    requires GoodVals(vals) && |EncVals(vals)| <= total < 0x1_0000_0000
    ensures ParseVals(EncVals(vals) + post, total, |vals|) == Ok(Parsed(vals, |EncVals(vals)|))
    decreases vals
  {
    if vals == [] {
      NoVals(post, total);
    } else {
      var v, rest := vals[0], vals[1..];
      var end := EncVals(rest) + post;
      assert EncVals(vals) == Enc(v) + EncVals(rest);
      hide Parse, ParseVals, Enc, EncVals;
      RoundTrip(v, end, total);
      ValsRoundTrip(rest, post, total);
      ParseValsIs(EncVals(vals) + post, total, |vals|);
      Assoc(Enc(v), EncVals(rest), post);
      assert (Enc(v) + end)[|Enc(v)|..] == end;
      assert [v] + rest == vals;
    }
  }

  lemma NoVals(post: seq<Byte>, total: nat)
    ensures ParseVals(EncVals([]) + post, total, 0) == Ok(Parsed([], |EncVals([])|))
  {}

  /** An ECMA array, laid out as section 2.10 of the AMF 0 specification says,
      is read as a map; the count it announces does not matter. */
  lemma EcmaArrayIsMap(kvs: seq<Kv>, count: U32, post: seq<Byte>, total: nat)
    requires Distinct(kvs) && GoodKvs(kvs) && |EncKvs(kvs)| <= total < 0x1_0000_0000
    ensures Parse([ECMA_ARRAY] + EncU32(count) + (EncKvs(kvs) + [0, 0, OBJECT_END] + post), total)
         == Ok(Parsed(Obj(kvs), 8 + |EncKvs(kvs)|))
  {
    var body := EncKvs(kvs) + [0, 0, OBJECT_END] + post;
    hide Parse, ParseKvs, EncKvs, EncU32, GoodKvs, Distinct;
    assert [] + kvs == kvs;
    KvsRoundTrip(kvs, [], post, total);
    EcmaIs(EncU32(count), body, total);
  }

  lemma EcmaIs(count: seq<Byte>, body: seq<Byte>, total: nat)
    requires |count| == 4
    ensures Parse([ECMA_ARRAY] + count + body, total) ==
      var o := ParseKvs(body, total, []);
      if o.Err? then Err(o.error) else Ok(Parsed(Obj(o.value.v), 5 + o.value.n))
  {
    hide ParseKvs;
    var b := [ECMA_ARRAY] + count + body;
    assert b[1..] == count + body && b[1..][4..] == body;
  }

  // ---- Normal form: what the parser returns can be printed ----

  lemma EncKvsFirst(kvs: seq<Kv>)
    requires kvs != []
    ensures EncKvs(kvs) == EncKv(kvs[0]) + EncKvs(kvs[1..])
  {
    hide EncKv;
  }

  lemma {:induction false} SetSize(obj: seq<Kv>, k: seq<Byte>, v: Val)
    ensures |EncKvs(Set(obj, k, v))| <= |EncKvs(obj)| + |EncKv(Kv(k, v))|
    decreases |obj|
  {
    hide EncKv;
    var r := Set(obj, k, v);
    if obj == [] {
      assert r == [Kv(k, v)] && r[1..] == [];
    } else {
      EncKvsFirst(obj);
      EncKvsFirst(r);
      SetSize(obj[1..], k, v);
      hide EncKvs;
      if obj[0].k == k {
        assert r[1..] == obj[1..];
      } else {
        assert r[1..] == Set(obj[1..], k, v);
      }
    }
  }

  lemma {:induction false} SetShape(obj: seq<Kv>, k: seq<Byte>, v: Val)
    requires ShapeKvs(obj) && 0 < |k| < 65536 && Shape(v)
    ensures ShapeKvs(Set(obj, k, v))
    decreases |obj|
  {
    var r := Set(obj, k, v);
    if obj == [] {
      assert r == [Kv(k, v)] && r[1..] == [];
    } else {
      SetShape(obj[1..], k, v);
      hide Shape;
      if obj[0].k == k {
        assert r[0] == Kv(k, v) && r[1..] == obj[1..];
      } else {
        assert r[0] == obj[0] && r[1..] == Set(obj[1..], k, v);
      }
    }
  }

  /** What was read has the shape the printer can handle and, printed, takes no
      more bytes than it was read from. */
  lemma {:induction false} ParsedShape(b: seq<Byte>, total: nat)
    requires Parse(b, total).Ok?
    ensures var r := Parse(b, total).value; Shape(r.v) && |Enc(r.v)| <= r.n
    decreases |b|, 0
  {
    ParseCases(b, total);
    var r := Parse(b, total).value;
    hide Parse, ParseKvs, ParseVals, Enc, Distinct;
    EncSize(r.v);
    if r.v.Obj? {
      var skip := if b[0] == OBJECT then 1 else 5;
      NoEntries();
      KvsParsedShape(b[skip..], total, []);
    } else if r.v.Arr? {
      ValsParsedShape(b[5..], total, |r.v.vals|);
    }
  }

  lemma NoEntries()
    ensures Distinct([]) && ShapeKvs([]) && EncKvs([]) == []
  {}

  lemma ParseCases(b: seq<Byte>, total: nat)
    requires Parse(b, total).Ok?
    ensures
      var r := Parse(b, total).value;
      var skip := if b[0] == OBJECT then 1 else 5;
      && (r.v.Bool? ==> r.n == 2) && (r.v.Num? ==> r.n == 9) && (r.v.Date? ==> r.n == 11)
      && (r.v.Str? ==> r.n == 3 + |r.v.s| || (r.n == 5 + |r.v.s| && |r.v.s| < 0x1_0000_0000))
      && (r.v.Obj? ==> |b| >= skip && ParseKvs(b[skip..], total, []) == Ok(Parsed(r.v.kvs, r.n - skip)))
      && (r.v.Arr? ==> |b| >= 5 && ParseVals(b[5..], total, |r.v.vals|) == Ok(Parsed(r.v.vals, r.n - 5)))
  {
    hide ParseKvs, ParseVals, DecU16, DecU32, DecU64;
    assert |b| >= 5 ==> b[1..][4..] == b[5..];
  }

  lemma KvsCases(b: seq<Byte>, total: nat, obj: seq<Kv>)
    requires ParseKvs(b, total, obj).Ok?
    ensures |b| >= 2
    ensures DecU16(b) == 0 ==> ParseKvs(b, total, obj) == Ok(Parsed(obj, 3))
    ensures DecU16(b) > 0 ==> 2 + DecU16(b) <= |b| && Parse(b[2 + DecU16(b)..], total).Ok?
  {
    hide Parse, DecU16, Set;
  }

  lemma {:induction false} KvsParsedShape(b: seq<Byte>, total: nat, obj: seq<Kv>)
    requires ParseKvs(b, total, obj).Ok? && Distinct(obj) && ShapeKvs(obj)
    ensures
      var r := ParseKvs(b, total, obj).value;
      Distinct(r.v) && ShapeKvs(r.v) && |EncKvs(r.v)| + 3 <= |EncKvs(obj)| + r.n
    decreases |b|, 1
  {
    hide Parse, ParseKvs, Set, Distinct, Shape, ShapeKvs, Enc, EncKvs, DecU16;
    KvsCases(b, total, obj);
    if DecU16(b) > 0 {
      var k, v, rest := FirstKv(b, total, obj);
      SetKeeps(obj, k, v.v);
      KvsParsedShape(rest, total, Set(obj, k, v.v));
    }
  }

  /** The first entry of an object that parses. */
  lemma FirstKv(b: seq<Byte>, total: nat, obj: seq<Kv>) returns (k: seq<Byte>, v: Parsed<Val>, rest: seq<Byte>)
    requires ParseKvs(b, total, obj).Ok? && |b| >= 2 && DecU16(b) > 0
    ensures 0 < |k| < 65536 && Shape(v.v) && |Enc(v.v)| <= v.n && |rest| < |b|
    ensures ParseKvs(b, total, obj) == KvThen(2 + |k| + v.n, ParseKvs(rest, total, Set(obj, k, v.v)))
    decreases |b|, 0
  {
    hide Parse, ParseKvs, Set, Shape, Enc, DecU16;
    KvsCases(b, total, obj);
    ParseKvsIs(b, total, obj);
    var len: nat := DecU16(b);
    k, v := b[2..2 + len], Parse(b[2 + len..], total).value;
    rest := b[2 + len + v.n..];
    ParsedShape(b[2 + len..], total);
  }

  lemma SetKeeps(obj: seq<Kv>, k: seq<Byte>, v: Val)
    requires Distinct(obj) && ShapeKvs(obj) && 0 < |k| < 65536 && Shape(v)
    ensures Distinct(Set(obj, k, v)) && ShapeKvs(Set(obj, k, v))
    ensures |EncKvs(Set(obj, k, v))| <= |EncKvs(obj)| + 2 + |k| + |Enc(v)|
  {
    hide Distinct, Shape, ShapeKvs, Enc, EncKvs, Set;
    SetGet(obj, k, v, k);
    SetShape(obj, k, v);
    SetSize(obj, k, v);
    KvSize(k, v);
  }

  lemma KvSize(k: seq<Byte>, v: Val)
    requires |k| > 0
    ensures |EncKv(Kv(k, v))| == 2 + |k| + |Enc(v)|
  {
    hide Enc;
  }

  lemma {:induction false} ValsParsedShape(b: seq<Byte>, total: nat, count: nat)
    requires ParseVals(b, total, count).Ok?
    ensures var r := ParseVals(b, total, count).value; ShapeVals(r.v) && |EncVals(r.v)| <= r.n
    decreases |b|, 1
  {
    if count > 0 {
      ParseValsIs(b, total, count);
      hide ParseVals, Parse, Enc, Shape;
      var v := Parse(b, total).value;
      ParsedShape(b, total);
      ValsParsedShape(b[v.n..], total, count - 1);
      var rest := ParseVals(b[v.n..], total, count - 1).value;
      assert ([v.v] + rest.v)[1..] == rest.v;
    }
  }

  /** Normal form: whatever bytes a value without dates was read from, printing
      it and reading it again gives the same value. */
  lemma NormalForm(b: seq<Byte>)
    requires |b| < 0x1_0000_0000 && Parse(b, |b|).Ok? && NoDate(Parse(b, |b|).value.v)
    ensures var v := Parse(b, |b|).value.v; Parse(Enc(v), |Enc(v)|) == Ok(Parsed(v, |Enc(v)|))
  {
    hide Parse, Enc;
    var v := Parse(b, |b|).value.v;
    ParsedShape(b, |b|);
    RoundTrip(v, [], |Enc(v)|);
    assert Enc(v) + [] == Enc(v);
  }

  // ---- Whole buffers ----

  lemma {:induction false} AllRoundTrip(vals: seq<Val>, total: nat)
    requires GoodVals(vals) && |EncVals(vals)| <= total < 0x1_0000_0000
    ensures ParseAll(EncVals(vals), total) == Ok(vals)
    decreases |vals|
  {
    if vals != [] {
      hide Parse, Enc;
      RoundTrip(vals[0], EncVals(vals[1..]), total);
      AllRoundTrip(vals[1..], total);
      var b := Enc(vals[0]) + EncVals(vals[1..]);
      assert b[|Enc(vals[0])|..] == EncVals(vals[1..]);
      assert [vals[0]] + vals[1..] == vals;
    }
  }

  lemma {:induction false} AllParsedShape(b: seq<Byte>, total: nat)
    requires ParseAll(b, total).Ok?
    ensures var vs := ParseAll(b, total).value; ShapeVals(vs) && |EncVals(vs)| <= |b|
    decreases |b|
  {
    if b != [] {
      hide Parse, Enc, Shape;
      ParsedShape(b, total);
      var v := Parse(b, total).value;
      AllParsedShape(b[v.n..], total);
      var rest := ParseAll(b[v.n..], total).value;
      assert ([v.v] + rest)[1..] == rest;
    }
  }

  /** ParseAMFVals inverts FillAMF0Vals, and what it returns for any bytes is a
      normal form. */
  lemma WholeBuffer(vals: seq<Val>, b: seq<Byte>)
    requires |EncVals(vals)| < 0x1_0000_0000 && |b| < 0x1_0000_0000
    ensures GoodVals(vals) ==> ParseAll(EncVals(vals), |EncVals(vals)|) == Ok(vals)
    ensures ParseAll(b, |b|) == Ok(vals) && NoDateVals(vals) ==> ParseAll(EncVals(vals), |EncVals(vals)|) == Ok(vals)
  {
    if ParseAll(b, |b|) == Ok(vals) { AllParsedShape(b, |b|); }
    if GoodVals(vals) { AllRoundTrip(vals, |EncVals(vals)|); }
  }
}
