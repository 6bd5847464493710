/** The AMF0 printer and parser as they run (format/flv/flvio/amf0.go): the
    printer fills a buffer, or only counts when there is none; the parser moves
    a cursor over its input. Both are proved against module Amf0. */
module Amf0Codec {
  import opened Bytes
  import opened Wrappers
  import opened Amf0
  import opened Pio

  method FillString(b: array?<Byte>, n: nat, s: seq<Byte>) returns (m: nat)
    requires b != null ==> n + |EncString(s)| <= b.Length
    modifies b
    ensures Filled(b, old(Held(b)), n, EncString(s), m)
  {
    hide Filled, EncU16, EncU32, Trunc32;
    if |s| < 65536 {
      m := Fill3(b, n, [STRING], EncU16(|s|), s);
    } else {
      m := Fill3(b, n, [LONG_STRING], EncU32(Trunc32(|s|)), s);
    }
  }

  method FillVal(b: array?<Byte>, n: nat, val: Val) returns (m: nat)
    requires b != null ==> n + |Enc(val)| <= b.Length
    modifies b
    ensures Filled(b, old(Held(b)), n, Enc(val), m)
    decreases val
  {
    hide Filled, EncU64, EncString, EncKvs, EncVals;
    match val
    case Null =>
      assert [NULL] + [] + [] == [NULL];
      m := Fill3(b, n, [NULL], [], []);
    case Bool(x) =>
      assert [BOOLEAN] + [if x then 1 else 0] + [] == [BOOLEAN, if x then 1 else 0];
      m := Fill3(b, n, [BOOLEAN], [if x then 1 else 0], []);
    case Num(bits) =>
      assert [NUMBER] + EncU64(bits) + [] == [NUMBER] + EncU64(bits);
      m := Fill3(b, n, [NUMBER], EncU64(bits), []);
    case Str(s) =>
      m := FillString(b, n, s);
    case Obj(kvs) =>
      m := FillObj(b, n, kvs);
    case Arr(vals) =>
      m := FillArr(b, n, vals);
    case Date(ms) =>
      m := Fill3(b, n, [DATE], EncU64(ms), [0, 0]);
  }

  method FillObj(b: array?<Byte>, n: nat, kvs: seq<Kv>) returns (m: nat)
    requires b != null ==> n + |Enc(Obj(kvs))| <= b.Length
    modifies b
    ensures Filled(b, old(Held(b)), n, Enc(Obj(kvs)), m)
    decreases kvs, 1
  {
    hide EncKv, EncU16, Splice;
    ghost var s0, end, all := Held(b), [0, 0, OBJECT_END as Byte], Enc(Obj(kvs));
    assert all == [OBJECT] + EncKvs(kvs) + end;
    if b != null { SpliceNothing(s0, n); }
    m := Put(b, n, [OBJECT], s0, n, []);
    ghost var done: seq<Byte> := [OBJECT];
    assert [] + done == done && kvs[0..] == kvs;
    for i := 0 to |kvs|
      invariant Filled(b, s0, n, done, m) && done + EncKvs(kvs[i..]) + end == all
    {
      NextKv(done, kvs, i, end);
      m := FillKv(b, m, kvs[i], s0, n, done);
      done := done + EncKv(kvs[i]);
    }
    assert kvs[|kvs|..] == [] && EncKvs([]) == [] && done + [] == done;
    m := Put(b, m, [0, 0, OBJECT_END], s0, n, done);
  }

  lemma NextKv(done: seq<Byte>, kvs: seq<Kv>, i: nat, end: seq<Byte>)
    requires i < |kvs|
    ensures done + EncKvs(kvs[i..]) + end == done + EncKv(kvs[i]) + EncKvs(kvs[i + 1..]) + end
    ensures |done + EncKv(kvs[i])| <= |done + EncKvs(kvs[i..]) + end|
  {
    hide EncKv;
    assert kvs[i..][1..] == kvs[i + 1..];
    EncKvsFirst(kvs[i..]);
    Assoc(done, EncKv(kvs[i]), EncKvs(kvs[i + 1..]));
  }

  method FillKv(b: array?<Byte>, at: nat, kv: Kv, ghost s0: seq<Byte>, ghost n: nat, ghost done: seq<Byte>)
    returns (m: nat)
    requires Filled(b, s0, n, done, at) && (b != null ==> at + |EncKv(kv)| <= b.Length)
    modifies b
    ensures Filled(b, s0, n, done + EncKv(kv), m)
    decreases kv, 0
  {
    hide Enc, Splice;
    m := at;
    if |kv.k| > 0 {
      ghost var len := EncU16(|kv.k| % 65536);
      m := Put(b, m, EncU16(|kv.k| % 65536), s0, n, done);
      m := Put(b, m, kv.k, s0, n, done + len);
      ghost var before := Held(b);
      var from := m;
      m := FillVal(b, from, kv.v);
      FilledTwice(b, s0, n, done + len + kv.k, before, Enc(kv.v));
      assert done + len + kv.k + Enc(kv.v) == done + (len + kv.k + Enc(kv.v));
    } else {
      assert done + [] == done;
    }
  }

  method FillArr(b: array?<Byte>, n: nat, vals: seq<Val>) returns (m: nat)
    requires b != null ==> n + |Enc(Arr(vals))| <= b.Length
    modifies b
    ensures Filled(b, old(Held(b)), n, Enc(Arr(vals)), m)
    decreases vals, 1
  {
    hide Splice, EncU32, Trunc32;
    ghost var s0, all := Held(b), Enc(Arr(vals));
    ghost var done: seq<Byte> := [STRICT_ARRAY] + EncU32(Trunc32(|vals|));
    assert all == done + EncVals(vals);
    if b != null { SpliceNothing(s0, n); }
    assert [] + [STRICT_ARRAY as Byte] == [STRICT_ARRAY];
    m := Put(b, n, [STRICT_ARRAY], s0, n, []);
    m := Put(b, m, EncU32(Trunc32(|vals|)), s0, n, [STRICT_ARRAY]);
    assert vals[0..] == vals;
    for i := 0 to |vals|
      invariant Filled(b, s0, n, done, m) && done + EncVals(vals[i..]) == all
    {
      NextVal(done, vals, i);
      ghost var before := Held(b);
      var from := m;
      m := FillVal(b, from, vals[i]);
      FilledTwice(b, s0, n, done, before, Enc(vals[i]));
      done := done + Enc(vals[i]);
    }
    assert vals[|vals|..] == [] && EncVals([]) == [] && done + [] == done;
  }

  lemma NextVal(done: seq<Byte>, vals: seq<Val>, i: nat)
    requires i < |vals|
    ensures done + EncVals(vals[i..]) == done + Enc(vals[i]) + EncVals(vals[i + 1..])
  {
    hide Enc;
    assert vals[i..][1..] == vals[i + 1..];
    Assoc(done, Enc(vals[i]), EncVals(vals[i + 1..]));
  }

  /** FillAMF0Vals. */
  method FillVals(b: array?<Byte>, vals: seq<Val>) returns (m: nat)
    requires b != null ==> |EncVals(vals)| <= b.Length
    modifies b
    ensures Filled(b, old(Held(b)), 0, EncVals(vals), m)
  {
    hide Splice;
    ghost var s0, done: seq<Byte> := Held(b), [];
    if b != null { SpliceNothing(s0, 0); }
    assert vals[0..] == vals && [] + EncVals(vals) == EncVals(vals);
    m := 0;
    for i := 0 to |vals|
      invariant Filled(b, s0, 0, done, m) && done + EncVals(vals[i..]) == EncVals(vals)
    {
      NextVal(done, vals, i);
      ghost var before := Held(b);
      var from := m;
      m := FillVal(b, from, vals[i]);
      FilledTwice(b, s0, 0, done, before, Enc(vals[i]));
      done := done + Enc(vals[i]);
    }
    assert vals[|vals|..] == [] && EncVals([]) == [] && done + [] == done;
  }

  /** FillAMF0ValsMalloc: the first pass counts, the second fills the buffer
      exactly. */
  method FillValsMalloc(vals: seq<Val>) returns (b: array<Byte>)
    ensures b[..] == EncVals(vals)
  {
    var n := FillVals(null, vals);
    b := new Byte[n];
    ghost var s0 := b[..];
    n := FillVals(b, vals);
    SpliceAll(s0, EncVals(vals));
  }

  // ---- The parser ----

  /** The cursor form of a parse that started at n: the same error, or the same
      value with the cursor behind it. */
  ghost predicate Moved<T(!new)>(r: Result<Parsed<T>, ParseError>, n: nat, err: Option<ParseError>, v: T, m: nat)
  {
    && (r.Err? ==> err == Some(r.error))
    && (r.Ok? ==> err.None? && v == r.value.v && m == n + r.value.n)
  }

  method ParseVal(b: seq<Byte>, n: nat) returns (err: Option<ParseError>, v: Val, m: nat)
    requires n <= |b|
    ensures Moved(Parse(b[n..], |b|), n, err, v, m)
    decreases |b| - n, 0
  {
    hide ParseKvs, ParseVals, DecU16, DecU32, DecU64;
    err, v, m := Some(Truncated), Null, n;
    ghost var rest := b[n..];
    if |b| < m + 1 { return; }
    var marker := b[m];
    m := m + 1;
    assert rest[0] == marker && rest[1..] == b[m..];
    if marker == NUMBER {
      if |b| < m + 8 { return; }
      v, m := Num(DecU64(b[m..])), m + 8;
    } else if marker == BOOLEAN {
      if |b| < m + 1 { return; }
      v, m := Bool(b[m] != 0), m + 1;
    } else if marker == STRING {
      if |b| < m + 2 { return; }
      var len: nat := DecU16(b[m..]);
      m := m + 2;
      if |b| < m + len { return; }
      SliceOfDrop(b, n + 1, 2, 2 + len);
      v, m := Str(b[m..m + len]), m + len;
    } else if marker == OBJECT {
      var kvs;
      err, kvs, m := ParseEntries(b, m);
      v := Obj(kvs);
      return;
    } else if marker == NULL || marker == UNDEFINED {
    } else if marker == ECMA_ARRAY {
      if |b| < m + 4 { return; }
      SliceOfDrop(b, n + 1, 4, 4);
      var kvs;
      err, kvs, m := ParseEntries(b, m + 4);
      v := Obj(kvs);
      return;
    } else if marker == OBJECT_END {
      if |b| < m + 3 { return; }
      m := m + 3;
    } else if marker == STRICT_ARRAY {
      if |b| < m + 4 { return; }
      var count: nat := DecU32(b[m..]);
      if count > |b| % 0x1_0000_0000 { return Some(TooBig), Null, m; }
      SliceOfDrop(b, n + 1, 4, 4);
      var vals;
      err, vals, m := ParseElements(b, m + 4, count);
      v := Arr(vals);
      return;
    } else if marker == DATE {
      if |b| < m + 10 { return; }
      v, m := Date(DecU64(b[m..])), m + 10;
    } else if marker == LONG_STRING {
      if |b| < m + 4 { return; }
      var len: nat := DecU32(b[m..]);
      if len > |b| % 0x1_0000_0000 { return Some(TooBig), Null, m; }
      m := m + 4;
      if |b| < m + len { return; }
      SliceOfDrop(b, n + 1, 4, 4 + len);
      v, m := Str(b[m..m + len]), m + len;
    } else {
      return Some(InvalidMarker), Null, m;
    }
    err := None;
  }

  /** The entry loop. */
  method ParseEntries(b: seq<Byte>, n: nat) returns (err: Option<ParseError>, obj: seq<Kv>, m: nat)
    requires n <= |b|
    ensures Moved(ParseKvs(b[n..], |b|, []), n, err, obj, m)
    decreases |b| - n, 1
  {
    hide Parse, ParseKvs, DecU16, Set;
    err, obj, m := Some(Truncated), [], n;
    NoShift(ParseKvs(b[n..], |b|, []));
    while true
      invariant n <= m <= |b| && err == Some(Truncated)
      invariant ParseKvs(b[n..], |b|, []) == KvThen(m - n, ParseKvs(b[m..], |b|, obj))
      decreases |b| - m
    {
      ghost var rest := b[m..];
      EntryCases(rest, |b|, obj);
      if |b| < m + 2 { return; }
      var len := DecU16(b[m..]);
      if len == 0 {
        if |b| < m + 3 { return; }
        err, m := None, m + 3;
        return;
      }
      if |b| < m + 2 + len { return; }
      var key := b[m + 2..m + 2 + len];
      assert rest[2..2 + len] == key && rest[2 + len..] == b[m + 2 + len..];
      var val, k;
      err, val, k := ParseVal(b, m + 2 + len);
      if err.Some? { return; }
      assert rest[k - m..] == b[k..];
      ShiftTwice(m - n, k - m, ParseKvs(b[k..], |b|, Set(obj, key, val)));
      obj, m, err := Set(obj, key, val), k, Some(Truncated);
    }
  }

  lemma EntryCases(b: seq<Byte>, total: nat, obj: seq<Kv>)
    ensures ParseKvs(b, total, obj) ==
      if |b| < 2 then Err(Truncated)
      else
        var len := DecU16(b);
        if len == 0 then if |b| < 3 then Err(Truncated) else Ok(Parsed(obj, 3))
        else if |b| < 2 + len then Err(Truncated)
        else
          var v := Parse(b[2 + len..], total);
          if v.Err? then Err(v.error)
          else KvThen(2 + len + v.value.n, ParseKvs(b[2 + len + v.value.n..], total, Set(obj, b[2..2 + len], v.value.v)))
  {
    hide Parse, DecU16, Set;
  }

  lemma NoShift(r: Result<Parsed<seq<Kv>>, ParseError>)
    ensures KvThen(0, r) == r
  {}

  lemma ShiftTwice(m: nat, n: nat, r: Result<Parsed<seq<Kv>>, ParseError>)
    ensures KvThen(m, KvThen(n, r)) == KvThen(m + n, r)
  {}

  /** The element loop of a strict array. */
  method ParseElements(b: seq<Byte>, n: nat, count: nat) returns (err: Option<ParseError>, arr: seq<Val>, m: nat)
    requires n <= |b|
    ensures Moved(ParseVals(b[n..], |b|, count), n, err, arr, m)
    decreases |b| - n, 1
  {
    hide Parse, ParseVals;
    err, arr, m := None, [], n;
    NoAfter(ParseVals(b[n..], |b|, count));
    for i := 0 to count
      invariant n <= m <= |b| && err.None? && |arr| == i
      invariant ParseVals(b[n..], |b|, count) == After(arr, m - n, ParseVals(b[m..], |b|, count - i))
    {
      ParseValsIs(b[m..], |b|, count - i);
      var v, k;
      err, v, k := ParseVal(b, m);
      if err.Some? { return; }
      assert b[m..][k - m..] == b[k..];
      AfterOne(arr, m - n, v, k - m, ParseVals(b[k..], |b|, count - i - 1));
      arr, m := arr + [v], k;
    }
    NoMoreVals(b[m..], |b|, arr, m - n);
  }

  /** An outcome with `arr` already read from the n bytes before. */
  function After(arr: seq<Val>, n: nat, r: Result<Parsed<seq<Val>>, ParseError>): Result<Parsed<seq<Val>>, ParseError>
  {
    if r.Err? then r else Ok(Parsed(arr + r.value.v, n + r.value.n))
  }

  lemma NoAfter(r: Result<Parsed<seq<Val>>, ParseError>)
    ensures After([], 0, r) == r
  {
    if r.Ok? { assert [] + r.value.v == r.value.v; }
  }

  lemma AfterOne(arr: seq<Val>, m: nat, v: Val, n: nat, r: Result<Parsed<seq<Val>>, ParseError>)
    ensures After(arr, m, if r.Err? then Err(r.error) else Ok(Parsed([v] + r.value.v, n + r.value.n)))
         == After(arr + [v], m + n, r)
  {
    if r.Ok? { assert arr + ([v] + r.value.v) == arr + [v] + r.value.v; }
  }

  lemma NoMoreVals(b: seq<Byte>, total: nat, arr: seq<Val>, n: nat)
    ensures After(arr, n, ParseVals(b, total, 0)) == Ok(Parsed(arr, n))
  {
    assert arr + [] == arr;
  }

  /** ParseAMFVals for AMF0. */
  method ParseValsLoop(b: seq<Byte>) returns (err: Option<ParseError>, arr: seq<Val>)
    ensures
      var r := ParseAll(b, |b|);
      (r.Err? ==> err == Some(r.error)) && (r.Ok? ==> err.None? && arr == r.value)
  {
    hide Parse;
    err, arr := None, [];
    var n := 0;
    assert b[0..] == b;
    NoPrefix(ParseAll(b, |b|));
    while n < |b|
      invariant 0 <= n <= |b| && err.None?
      invariant ParseAll(b, |b|) == Prefix(arr, ParseAll(b[n..], |b|))
    {
      var v, m;
      err, v, m := ParseVal(b, n);
      if err.Some? { return; }
      assert b[n..][m - n..] == b[m..];
      PrefixOne(arr, v, ParseAll(b[m..], |b|));
      arr, n := arr + [v], m;
    }
    assert arr + [] == arr;
  }

  function Prefix(arr: seq<Val>, r: Result<seq<Val>, ParseError>): Result<seq<Val>, ParseError>
  {
    if r.Err? then r else Ok(arr + r.value)
  }

  lemma NoPrefix(r: Result<seq<Val>, ParseError>)
    ensures Prefix([], r) == r
  {
    if r.Ok? { assert [] + r.value == r.value; }
  }

  lemma PrefixOne(arr: seq<Val>, v: Val, r: Result<seq<Val>, ParseError>)
    ensures Prefix(arr, Prefix([v], r)) == Prefix(arr + [v], r)
  {
    if r.Ok? { assert arr + ([v] + r.value) == arr + [v] + r.value; }
  }
}
