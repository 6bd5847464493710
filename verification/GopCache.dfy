/** The GOP cache (cmd/avtool/pubsub.go): a Go slice that is appended to while
    earlier snapshots share its backing array, and the cursors that read it. */
module Gops {
  import opened Packets
  import opened Wrappers

  /** The index of the last key frame of a history, 0 when there is none. */
  function GopStart(h: seq<Packet>): (s: nat)
    ensures s <= |h| && (h != [] ==> s < |h|)
    ensures s > 0 ==> h[s].key
    ensures forall i :: s < i < |h| ==> !h[i].key
  {
    if h == [] || h[|h| - 1].key then (if h == [] then 0 else |h| - 1)
    else GopStart(h[..|h| - 1])
  }

  /** The group of pictures at the end of a history. */
  function Gop(h: seq<Packet>): seq<Packet> { h[GopStart(h)..] }

  lemma GopSnoc(h: seq<Packet>, p: Packet)
    ensures Gop(h + [p]) == (if p.key then [] else Gop(h)) + [p]
  {
    assert (h + [p])[..|h|] == h;
  }

  /** A slice header: the first `len` elements of a backing array. */
  datatype Snapshot = Snapshot(arr: array<Packet>, len: nat, idx: nat)

  class GopCache {
    var arr: array<Packet>
    var len: nat
    var idx: nat
    var curst: Option<Snapshot>

    ghost var hist: seq<Packet>         // every packet put so far
    ghost var published: seq<Snapshot>  // every snapshot stored so far
    ghost var arrays: set<array<Packet>>

    ghost predicate Valid()
      reads this, arrays
    {
      && arr in arrays && len <= arr.Length && arr[..len] == Gop(hist) && idx == |hist| == |published|
      && curst == (if published == [] then None else Some(published[|published| - 1]))
      && forall i :: 0 <= i < |published| ==> Holds(i)
    }

    /** Snapshot i shows the group of pictures as it was when it was stored, and
        lies behind the part of the array that is still being appended to. */
    ghost predicate Holds(i: nat)
      requires i < |published| <= |hist|
      reads this, arrays
    {
      var s := published[i];
      && s.arr in arrays && s.len <= s.arr.Length && s.idx == i + 1
      && s.arr[..s.len] == Gop(hist[..i + 1])
      && (s.arr == arr ==> s.len <= len)
    }

    constructor ()
      ensures Valid() && hist == [] && fresh(arrays)
    {
      var a := new Packet[0];
      arr, len, idx, curst := a, 0, 0, None;
      hist, published, arrays := [], [], {a};
    }

    /** append: in place while there is capacity, else into a bigger copy. */
    method Append(pkt: Packet)
      requires len <= arr.Length && arr in arrays
      modifies this`arr, this`len, this`arrays, arr
      ensures len == old(len) + 1 <= arr.Length && arr[..len] == old(arr[..len]) + [pkt]
      ensures arr == old(arr) || fresh(arr)
      ensures arrays == old(arrays) + {arr}
      ensures forall a, n: nat :: a in old(arrays) && n <= a.Length && (a == old(arr) ==> n <= old(len)) ==> a[..n] == old(a[..n])
    {
      if len == arr.Length {
        var cap: nat :| cap > len;
        var from, n := arr, len;
        var a := new Packet[cap](i requires from.Length == n reads from => if 0 <= i < n then from[i] else pkt);
        assert a[..n] == from[..n];
        arr, arrays := a, arrays + {a};
      }
      arr[len] := pkt;
      len := len + 1;
    }

    ghost predicate Behind(s: Snapshot, arr: array<Packet>, len: nat)
      reads this
    {
      s.arr in arrays && s.len <= s.arr.Length && (s.arr == arr ==> s.len <= len)
    }

    twostate predicate Unmoved(s: Snapshot)
      reads s.arr
    {
      s.len <= s.arr.Length && s.arr[..s.len] == old(s.arr[..s.len])
    }

    /** The key-frame test and the append: none of the earlier snapshots `snaps`
        is touched. */
    method AppendTo(pkt: Packet, ghost snaps: seq<Snapshot>)
      requires arr in arrays && len <= arr.Length
      requires forall i :: 0 <= i < |snaps| ==> Behind(snaps[i], arr, len)
      modifies this`arr, this`len, this`arrays, arrays
      ensures arr in arrays && len <= arr.Length && fresh(arrays - old(arrays)) && old(arrays) <= arrays
      ensures arr[..len] == (if pkt.key then [] else old(arr[..len])) + [pkt]
      ensures forall i :: 0 <= i < |snaps| ==> Unmoved(snaps[i]) && Behind(snaps[i], arr, len)
    {
      if pkt.key {
        var a := new Packet[0];
        arr, len, arrays := a, 0, arrays + {a};
      }
      Append(pkt);
      forall i | 0 <= i < |snaps| ensures Unmoved(snaps[i]) && Behind(snaps[i], arr, len) {
        assert old(Behind(snaps[i], arr, len));
      }
    }

    method Put(pkt: Packet)
      requires Valid()
      modifies this, arrays
      ensures Valid() && hist == old(hist) + [pkt]
      ensures published == old(published) + [curst.value] && curst.Some? && fresh(arrays - old(arrays))
      ensures forall i :: 0 <= i < |old(published)| ==> Unmoved(old(published)[i])
    {
      hide Gop, GopStart;
      GopSnoc(hist, pkt);
      ghost var before := published;
      forall i | 0 <= i < |before| ensures Behind(before[i], arr, len) { assert Holds(i); }
      AppendTo(pkt, before);
      var st := Snapshot(arr, len, idx + 1);
      idx, hist := idx + 1, hist + [pkt];
      curst, published := Some(st), before + [st];
      forall i | 0 <= i < |before| ensures Holds(i) {
        StillHolds(i);
      }
      assert hist[..|before| + 1] == hist;
      assert Holds(|before|);
    }

    twostate lemma StillHolds(i: nat)
      requires i < |old(published)| <= |old(hist)| && old(Holds(i))
      requires |old(published)| <= |published| <= |hist| && old(published)[i] == published[i]
      requires old(hist) <= hist && Unmoved(published[i]) && Behind(published[i], arr, len)
      ensures Holds(i)
    {
      hide Gop, GopStart;
      assert hist[..i + 1] == old(hist)[..i + 1];
    }
  }

  function Max(a: nat, b: nat): nat { if a < b then b else a }

  /** advance: the part of a snapshot that a cursor at `lastidx` has not seen. */
  function Batch(lastidx: nat, pkts: seq<Packet>, idx: nat): seq<Packet>
    requires lastidx <= idx
  {
    if idx - lastidx <= |pkts| then pkts[|pkts| - (idx - lastidx)..] else pkts
  }

  class GopCacheReadCursor {
    var lastidx: nat

    constructor ()
      ensures lastidx == 0
    {
      lastidx := 0;
    }

    method Advance(cur: Snapshot) returns (pkts: seq<Packet>)
      requires cur.len <= cur.arr.Length && lastidx <= cur.idx
      modifies this
      ensures lastidx == cur.idx
      ensures pkts == Batch(old(lastidx), cur.arr[..cur.len], cur.idx)
    {
      var diff := cur.idx - lastidx;
      lastidx := cur.idx;
      if diff <= cur.len {
        return cur.arr[cur.len - diff..cur.len];
      } else {
        return cur.arr[..cur.len];
      }
    }
  }

  lemma BatchOfTail(lastidx: nat, h: seq<Packet>, s: nat)
    requires lastidx <= |h| && s <= |h|
    ensures Batch(lastidx, h[s..], |h|) == h[Max(lastidx, s)..]
  {
    assert |h[s..]| == |h| - s;
    if lastidx >= s { assert h[s..][lastidx - s..] == h[lastidx..]; }
  }

  /** Cursor refinement: over the cache of a history the batch is exactly the
      history from the cursor, or from the last key frame if that is later. */
  lemma BatchIs(lastidx: nat, h: seq<Packet>)
    requires lastidx <= |h|
    ensures Batch(lastidx, Gop(h), |h|) == h[Max(lastidx, GopStart(h))..]
  {
    hide GopStart, Batch;
    BatchOfTail(lastidx, h, GopStart(h));
  }

  // ---- A cursor over a growing history ----

  function Indices(from: nat, to: nat): (r: seq<nat>)
    requires from <= to
  {
    seq(to - from, i requires 0 <= i => from + i)
  }

  /** The delivery of `got` (indices into the history) to one cursor: nothing
      twice, nothing out of order, nothing left out except to skip to a key
      frame, and nothing pending before the cursor. */
  ghost predicate Faithful(h: seq<Packet>, got: seq<nat>, lastidx: nat)
  {
    && lastidx <= |h|
    && (if got == [] then lastidx == 0 else got[|got| - 1] == lastidx - 1)
    && forall i :: 0 <= i < |got| ==> Follows(h, got, i)
  }

  predicate Follows(h: seq<Packet>, got: seq<nat>, i: nat)
    requires i < |got|
  {
    && got[i] < |h|
    && (got[i] == (if i == 0 then 0 else got[i - 1] + 1) || (h[got[i]].key && (i > 0 ==> got[i] > got[i - 1] + 1)))
  }

  lemma FaithfulStart(h: seq<Packet>)
    ensures Faithful(h, [], 0)
  {}

  lemma FaithfulGrows(h: seq<Packet>, more: seq<Packet>, got: seq<nat>, lastidx: nat)
    requires Faithful(h, got, lastidx)
    ensures Faithful(h + more, got, lastidx)
  {
    forall i | 0 <= i < |got| ensures Follows(h + more, got, i) {
      assert Follows(h, got, i);
    }
  }

  lemma AdvanceFollows(h: seq<Packet>, got: seq<nat>, lastidx: nat, start: nat, i: nat)
    requires Faithful(h, got, lastidx) && start <= |h| && (0 < start < |h| ==> h[start].key)
    requires i < |got| + |h| - Max(lastidx, start)
    ensures Follows(h, got + Indices(Max(lastidx, start), |h|), i)
  {
    var all := got + Indices(Max(lastidx, start), |h|);
    if i < |got| { assert Follows(h, got, i); }
    assert i > |got| ==> all[i] == all[i - 1] + 1;
  }

  lemma AdvanceLast(h: seq<Packet>, got: seq<nat>, lastidx: nat, start: nat)
    requires Faithful(h, got, lastidx) && start <= |h| && (h != [] ==> start < |h|)
    ensures
      var all := got + Indices(Max(lastidx, start), |h|);
      |all| == |got| + |h| - Max(lastidx, start) && (if all == [] then |h| == 0 else all[|all| - 1] == |h| - 1)
  {}

  lemma AdvanceFaithful(h: seq<Packet>, got: seq<nat>, lastidx: nat)
    requires Faithful(h, got, lastidx)
    ensures Faithful(h, got + Indices(Max(lastidx, GopStart(h)), |h|), |h|)
  {
    var start := GopStart(h);
    hide GopStart, Follows, Indices;
    var all := got + Indices(Max(lastidx, start), |h|);
    AdvanceLast(h, got, lastidx, start);
    forall i: nat | i < |all| ensures Follows(h, all, i) {
      AdvanceFollows(h, got, lastidx, start, i);
    }
  }

  /** A cursor that is not behind has been handed the whole last group. */
  lemma {:induction false} WholeGroup(h: seq<Packet>, got: seq<nat>, j: nat)
    requires Faithful(h, got, |h|) && GopStart(h) <= j < |h|
    ensures |got| >= |h| - j && got[|got| - (|h| - j)] == j
    decreases |h| - j
  {
    if j < |h| - 1 {
      WholeGroup(h, got, j + 1);
      assert Follows(h, got, |got| - (|h| - j - 1));
    }
  }
}
