/** One stream of the relay (cmd/avtool/pubsub.go: addSub, notifySub, setPub) as
    a state machine. Every atomic action of a publisher or a subscriber is one
    step, and any interleaving of enabled steps is a run. */
module Fanout {
  import opened Packets
  import opened Wrappers
  import opened SeqHdr
  import opened Gops

  type PubId = nat
  type SubId = nat

  datatype Snap = Snap(pkts: seq<Packet>, idx: nat)

  /** A publisher reads its next packet, or has stored a snapshot that it did
      not announce yet, or is announcing it to the subscribers in `pending`. */
  datatype PubPhase = Reading | Stored | Notifying(pending: set<SubId>)

  /** `raw` records every packet read; the cache and the headers follow from it. */
  datatype Pub = Pub(phase: PubPhase, raw: seq<Packet>, hdrpkt: Hdrs, pkts: seq<Packet>, idx: nat, curst: Option<Snap>)

  const NewPub := Pub(Reading, [], Hdrs([], [], []), [], 0, None)

  /** The loop of addSub: load the publisher, load its snapshot, then write what
      is new or, when there is nothing, wait in the select. A cursor ahead of
      the snapshot would make the slice expression in advance panic. */
  datatype SubPhase = LoadPub | LoadSnap | Writing | Waiting | Panicked

  /** `handed` is everything the cursors returned, `done` how much of it went
      through the splitter; `got` and `base` record the part of it that came
      from the publisher `lastsp`, as indices of what that publisher put. */
  datatype Sub = Sub(
    phase: SubPhase, token: bool, lastsp: Option<PubId>, lastidx: nat,
    handed: seq<Packet>, done: nat, hdrpkt: Hdrs, out: seq<Packet>, base: nat, got: seq<nat>)

  const NoHdrs := Hdrs([], [], [])
  const NewSub := Sub(LoadPub, false, None, 0, [], 0, NoHdrs, [], 0, [])

  datatype State = State(pub: Option<PubId>, pubs: map<PubId, Pub>, subs: map<SubId, Sub>)

  const Init := State(None, map[], map[])

  datatype Step =
    | SetPub(p: PubId)              // SwapPointer of a new publisher
    | Read(p: PubId, pkt: Packet)   // ReadPacket, merge, put, StorePointer
    | Announce(p: PubId)            // Range starts
    | Notify(p: PubId, s: SubId)    // Range visits a subscriber
    | Announced(p: PubId)           // Range ends
    | AddSub(s: SubId)              // sub.Store
    | GetPub(s: SubId)              // LoadPointer of the publisher
    | GetSnap(s: SubId)             // LoadPointer of its snapshot, advance
    | Write(s: SubId)               // the splitter takes one packet
    | Wake(s: SubId)                // <-ss.notify
    | Leave(s: SubId)               // <-close or a write error, then sub.Delete

  // ---- The steps ----

  /** What this publisher has put into its cache. */
  function Put(p: Pub): seq<Packet> { Merged(p.raw) }

  function ReadStep(p: Pub, pkt: Packet): Pub
  {
    var h := p.hdrpkt;
    var q := p.(raw := p.raw + [pkt]);
    match pkt.kind
    case H264Config => q.(hdrpkt := h.(vseq := pkt.data))
    case AACConfig => q.(hdrpkt := h.(aseq := pkt.data))
    case Metadata => q.(hdrpkt := h.(meta := pkt.data))
    case H264Nalu => q
    case _ =>
      var pkts := (if pkt.key then [] else p.pkts) + [Attach(pkt, h)];
      q.(phase := Stored, pkts := pkts, idx := p.idx + 1, curst := Some(Snap(pkts, p.idx + 1)))
  }

  function GetPubStep(s: Sub, pub: Option<PubId>): Sub
  {
    var t := s.(phase := LoadSnap);
    if pub == s.lastsp then t else t.(lastsp := pub, lastidx := 0, base := |s.handed|, got := [])
  }

  function GetSnapStep(s: Sub, cur: Option<Snap>): Sub
  {
    if cur.None? then s.(phase := Waiting)
    else if cur.value.idx < s.lastidx then s.(phase := Panicked)
    else
      var pkts := Batch(s.lastidx, cur.value.pkts, cur.value.idx);
      var t := s.(lastidx := cur.value.idx, handed := s.handed + pkts,
                  got := s.got + Indices(cur.value.idx - Min(|pkts|, cur.value.idx), cur.value.idx));
      t.(phase := if pkts == [] then Waiting else Writing)
  }

  function Min(a: nat, b: nat): nat { if a < b then a else b }

  function WriteStep(s: Sub): Sub
    requires s.done < |s.handed|
  {
    var r := Split(s.hdrpkt, s.handed[s.done]);
    s.(done := s.done + 1, hdrpkt := r.0, out := s.out + r.1, phase := if s.done + 1 == |s.handed| then LoadPub else Writing)
  }

  function Snapshot(st: State, s: Sub): Option<Snap>
  {
    if s.lastsp.Some? && s.lastsp.value in st.pubs then st.pubs[s.lastsp.value].curst else None
  }

  predicate Enabled(st: State, a: Step)
  {
    match a
    case SetPub(p) => p !in st.pubs
    case Read(p, pkt) => p in st.pubs && st.pubs[p].phase.Reading?
    case Announce(p) => p in st.pubs && st.pubs[p].phase.Stored?
    case Notify(p, s) => p in st.pubs && st.pubs[p].phase.Notifying? && s in st.subs
    case Announced(p) => p in st.pubs && st.pubs[p].phase.Notifying? && st.pubs[p].phase.pending * st.subs.Keys == {}
    case AddSub(s) => s !in st.subs
    case GetPub(s) => s in st.subs && st.subs[s].phase.LoadPub?
    case GetSnap(s) => s in st.subs && st.subs[s].phase.LoadSnap?
    case Write(s) => s in st.subs && st.subs[s].phase.Writing? && st.subs[s].done < |st.subs[s].handed|
    case Wake(s) => s in st.subs && st.subs[s].phase.Waiting? && st.subs[s].token
    case Leave(s) => s in st.subs && (st.subs[s].phase.Waiting? || st.subs[s].phase.Writing?)
  }

  function Next(st: State, a: Step): State
    requires Enabled(st, a)
  {
    match a
    case SetPub(p) => st.(pub := Some(p), pubs := st.pubs[p := NewPub])
    case Read(p, pkt) => st.(pubs := st.pubs[p := ReadStep(st.pubs[p], pkt)])
    case Announce(p) => st.(pubs := st.pubs[p := st.pubs[p].(phase := Notifying(st.subs.Keys))])
    case Notify(p, s) =>
      st.(pubs := st.pubs[p := st.pubs[p].(phase := Notifying(st.pubs[p].phase.pending - {s}))],
          subs := st.subs[s := st.subs[s].(token := true)])
    case Announced(p) => st.(pubs := st.pubs[p := st.pubs[p].(phase := Reading)])
    case AddSub(s) => st.(subs := st.subs[s := NewSub])
    case GetPub(s) => st.(subs := st.subs[s := GetPubStep(st.subs[s], st.pub)])
    case GetSnap(s) => st.(subs := st.subs[s := GetSnapStep(st.subs[s], Snapshot(st, st.subs[s]))])
    case Write(s) => st.(subs := st.subs[s := WriteStep(st.subs[s])])
    case Wake(s) => st.(subs := st.subs[s := st.subs[s].(phase := LoadPub, token := false)])
    case Leave(s) => st.(subs := st.subs - {s})
  }

  predicate CanRun(st: State, run: seq<Step>)
    decreases |run|
  {
    run == [] || (Enabled(st, run[0]) && CanRun(Next(st, run[0]), run[1..]))
  }

  function RunFrom(st: State, run: seq<Step>): State
    requires CanRun(st, run)
    decreases |run|
  {
    if run == [] then st else RunFrom(Next(st, run[0]), run[1..])
  }

  // ---- What every step keeps ----

  ghost predicate PubOk(p: Pub)
  {
    && p.hdrpkt == InForce(p.raw)
    && p.pkts == Gop(Put(p)) && p.idx == |Put(p)|
    && p.curst == if Put(p) == [] then None else Some(Snap(Gop(Put(p)), |Put(p)|))
  }

  /** What the subscriber's current publisher has put. */
  function Source(st: State, s: Sub): seq<Packet>
  {
    if s.lastsp.Some? && s.lastsp.value in st.pubs then Put(st.pubs[s.lastsp.value]) else []
  }

  ghost predicate Drawn(st: State, x: Packet) { exists p :: p in st.pubs && x in Put(st.pubs[p]) }

  /** What was handed over since the publisher last changed is a faithful
      delivery of what that publisher has put. */
  ghost predicate InStep(st: State, s: Sub)
  {
    && Faithful(Source(st, s), s.got, s.lastidx)
    && s.base + |s.got| == |s.handed|
    && (forall i :: 0 <= i < |s.got| ==> s.got[i] < |Source(st, s)| && s.handed[s.base + i] == Source(st, s)[s.got[i]])
  }

  ghost predicate SubOk(st: State, s: Sub)
  {
    && (s.lastsp.Some? ==> s.lastsp.value in st.pubs)
    && InStep(st, s)
    && (forall x :: x in s.handed ==> Drawn(st, x))
    && !s.phase.Panicked? && s.done <= |s.handed| && (s.phase.Writing? <==> s.done < |s.handed|)
    && SplitAll(NoHdrs, s.handed[..s.done]) == (s.hdrpkt, s.out)
  }

  /** The current publisher has put packets that `s` did not see when it last
      looked, and `s` will not look again before it goes to sleep. */
  ghost predicate Behind(st: State, s: Sub)
  {
    && st.pub.Some? && st.pub.value in st.pubs
    && (s.phase.Waiting? || (s.phase.LoadSnap? && s.lastsp != st.pub))
    && |Put(st.pubs[st.pub.value])| > (if s.lastsp == st.pub then s.lastidx else 0)
  }

  /** A token is waiting, or the publisher has yet to announce or to visit. */
  ghost predicate Notified(st: State, id: SubId)
    requires id in st.subs && st.pub.Some? && st.pub.value in st.pubs
  {
    var ph := st.pubs[st.pub.value].phase;
    st.subs[id].token || ph.Stored? || (ph.Notifying? && id in ph.pending)
  }

  ghost predicate NoLostWakeup(st: State)
  {
    forall id :: id in st.subs && Behind(st, st.subs[id]) ==> Notified(st, id)
  }

  ghost predicate PubsOk(st: State)
  {
    (st.pub.Some? ==> st.pub.value in st.pubs) && forall p :: p in st.pubs ==> PubOk(st.pubs[p])
  }

  ghost predicate SubsOk(st: State) { forall id :: id in st.subs ==> SubOk(st, st.subs[id]) }

  ghost predicate Inv(st: State) { PubsOk(st) && SubsOk(st) && NoLostWakeup(st) }

  // ---- Publishers only add ----

  ghost predicate Grows(st: State, st2: State)
  {
    forall p :: p in st.pubs ==> p in st2.pubs && Put(st.pubs[p]) <= Put(st2.pubs[p])
  }

  lemma SubOkGrows(st: State, st2: State, s: Sub)
    requires SubOk(st, s) && Grows(st, st2)
    ensures SubOk(st2, s)
  {
    hide SplitAll, Faithful, Merged;
    if s.lastsp.Some? {
      var h, h2 := Source(st, s), Source(st2, s);
      assert h <= h2;
      assert h2 == h + h2[|h|..];
      FaithfulGrows(h, h2[|h|..], s.got, s.lastidx);
      forall i | 0 <= i < |s.got| ensures s.got[i] < |h2| && s.handed[s.base + i] == h2[s.got[i]] {}
    }
    forall x | x in s.handed ensures Drawn(st2, x) {
      var p :| p in st.pubs && x in Put(st.pubs[p]);
      assert x in Put(st2.pubs[p]);
    }
  }

  lemma ReadKeepsPub(p: Pub, pkt: Packet)
    requires PubOk(p)
    ensures
      var q := ReadStep(p, pkt);
      && PubOk(q) && Put(p) <= Put(q)
      && (!Media(pkt) ==> Put(q) == Put(p) && q.phase == p.phase)
      && (Media(pkt) ==> q.phase.Stored?)
  {
    hide Gop;
    MergedSnoc(p.raw, pkt);
    InForceSnoc(p.raw, pkt);
    if Media(pkt) {
      GopSnoc(Put(p), Attach(pkt, p.hdrpkt));
    } else {
      assert Put(p) + [] == Put(p);
    }
  }

  // ---- What a subscriber does to itself ----

  lemma NewSubOk(st: State)
    ensures SubOk(st, NewSub)
  {}

  lemma GetPubOk(st: State, s: Sub)
    requires SubOk(st, s) && PubsOk(st) && s.phase.LoadPub?
    ensures SubOk(st, GetPubStep(s, st.pub))
  {
    hide SplitAll, Merged, Faithful, PubOk, Drawn;
    var t := GetPubStep(s, st.pub);
    assert t.handed == s.handed && t.done == s.done;
    if st.pub != s.lastsp { FaithfulStart(Source(st, t)); }
  }

  lemma GetSnapOk(st: State, s: Sub)
    requires SubOk(st, s) && PubsOk(st) && s.phase.LoadSnap?
    ensures
      var t := GetSnapStep(s, Snapshot(st, s));
      SubOk(st, t) && (t.phase.Waiting? ==> t.lastidx == |Source(st, s)|)
  {
    var h := Source(st, s);
    SnapshotIs(st, s);
    if h == [] {
      hide SplitAll, Faithful, Merged, Drawn;
    } else {
      hide SubOk, Gop, Merged, PubOk;
      AdvanceFaithful(h, s.got, s.lastidx);
      Handed(st, s, GetSnapStep(s, Snapshot(st, s)), Max(s.lastidx, GopStart(h)));
    }
  }

  /** What looking at the snapshot does, in terms of the publisher's history. */
  lemma SnapshotIs(st: State, s: Sub)
    requires SubOk(st, s) && PubsOk(st) && s.phase.LoadSnap?
    ensures
      var h, t := Source(st, s), GetSnapStep(s, Snapshot(st, s));
      && s.lastidx <= |h| && Faithful(h, s.got, s.lastidx) && s.done == |s.handed|
      && (h == [] ==> t == s.(phase := Waiting))
      && (h != [] ==>
            var from := Max(s.lastidx, GopStart(h));
            && s.lastsp.Some? && from <= |h|
            && t == s.(phase := if from == |h| then Waiting else Writing, lastidx := |h|,
                       handed := s.handed + h[from..], got := s.got + Indices(from, |h|)))
  {
    hide SplitAll, Gop, Merged, Drawn;
    var h, t := Source(st, s), GetSnapStep(s, Snapshot(st, s));
    if s.lastsp.Some? {
      assert PubOk(st.pubs[s.lastsp.value]);
      if h != [] {
        BatchIs(s.lastidx, h);
        var from := Max(s.lastidx, GopStart(h));
        assert |h| - Min(|h| - from, |h|) == from;
      }
    }
  }

  lemma Handed(st: State, s: Sub, t: Sub, from: nat)
    requires SubOk(st, s) && s.lastsp.Some? && from <= |Source(st, s)|
    requires var h := Source(st, s);
      t == s.(phase := t.phase, lastidx := |h|, handed := s.handed + h[from..], got := s.got + Indices(from, |h|))
    requires Faithful(Source(st, s), t.got, t.lastidx) && s.done == |s.handed|
    requires t.phase == if from == |Source(st, s)| then Waiting else Writing
    ensures SubOk(st, t)
  {
    hide SplitAll, Faithful, Merged;
    var h := Source(st, s);
    forall x | x in t.handed ensures Drawn(st, x) {
      if x !in s.handed { assert x in Put(st.pubs[s.lastsp.value]); }
    }
    assert t.handed[..t.done] == s.handed[..s.done];
    forall i | 0 <= i < |t.got| ensures t.got[i] < |h| && t.handed[t.base + i] == h[t.got[i]] {
      if i >= |s.got| { assert t.handed[t.base + i] == h[from..][i - |s.got|]; }
    }
  }

  lemma WriteOk(st: State, s: Sub)
    requires SubOk(st, s) && s.phase.Writing?
    ensures SubOk(st, WriteStep(s))
  {
    hide Faithful, Merged, Split;
    assert s.handed[..s.done + 1][..s.done] == s.handed[..s.done];
  }

  // ---- Every step keeps the invariant ----

  lemma PubStepKeeps(st: State, a: Step)
    requires PubsOk(st) && SubsOk(st) && Enabled(st, a)
    ensures PubsOk(Next(st, a)) && Grows(st, Next(st, a))
  {
    hide SubOk, Gop, Merged, InForce;
    match a
    case SetPub(p) => NewPubOk();
    case Read(p, pkt) => ReadKeepsPub(st.pubs[p], pkt);
    case _ =>
  }

  lemma NewPubOk()
    ensures PubOk(NewPub) && Put(NewPub) == []
  {}

  lemma SubStepKeeps(st: State, a: Step)
    requires PubsOk(st) && SubsOk(st) && Enabled(st, a) && Grows(st, Next(st, a))
    ensures SubsOk(Next(st, a))
  {
    var st2 := Next(st, a);
    forall id | id in st2.subs ensures SubOk(st2, st2.subs[id]) {
      if id in st.subs && st2.subs[id] == st.subs[id] {
        SubOkGrows(st, st2, st.subs[id]);
      } else {
        OwnStepOk(st, a, id);
      }
    }
  }

  lemma OwnStepOk(st: State, a: Step, id: SubId)
    requires PubsOk(st) && SubsOk(st) && Enabled(st, a) && id in Next(st, a).subs
    requires id in st.subs ==> st.subs[id] != Next(st, a).subs[id]
    ensures SubOk(Next(st, a), Next(st, a).subs[id])
  {
    hide PubOk, SubOk, Source, Snapshot, GetSnapStep, GetPubStep, WriteStep;
    OwnStepIsOk(st, a, id);
    SamePubs(st, a, Next(st, a).subs[id]);
  }

  /** The subscriber's own step, with the publishers as they were. */
  lemma OwnStepIsOk(st: State, a: Step, id: SubId)
    requires PubsOk(st) && SubsOk(st) && Enabled(st, a) && id in Next(st, a).subs
    requires id in st.subs ==> st.subs[id] != Next(st, a).subs[id]
    ensures SubOk(st, Next(st, a).subs[id]) && !a.SetPub? && !a.Read?
  {
    hide PubOk, SubOk, Source, Snapshot, GetSnapStep, GetPubStep, WriteStep;
    match a
    case AddSub(s) => NewSubOk(st);
    case GetPub(s) => GetPubOk(st, st.subs[s]);
    case GetSnap(s) => GetSnapOk(st, st.subs[s]);
    case Write(s) => WriteOk(st, st.subs[s]);
    case Wake(s) => TokenOk(st, st.subs[s]);
    case Notify(p, s) => TokenOk(st, st.subs[s]);
    case _ =>
  }

  lemma TokenOk(st: State, s: Sub)
    requires SubOk(st, s)
    ensures SubOk(st, s.(token := true))
    ensures s.phase.Waiting? ==> SubOk(st, s.(phase := LoadPub, token := false))
  {
    hide Faithful, SplitAll, Drawn, Merged;
  }

  lemma SamePubs(st: State, a: Step, s: Sub)
    requires SubOk(st, s) && Enabled(st, a) && !a.SetPub? && !a.Read?
    ensures SubOk(Next(st, a), s)
  {
    hide SubOk, GetSnapStep, GetPubStep, WriteStep;
    assert Grows(st, Next(st, a));
    SubOkGrows(st, Next(st, a), s);
  }

  lemma WakeupStepKeeps(st: State, a: Step)
    requires Inv(st) && Enabled(st, a)
    ensures NoLostWakeup(Next(st, a))
  {
    var st2 := Next(st, a);
    forall id | id in st2.subs && Behind(st2, st2.subs[id]) ensures Notified(st2, id) {
      StaysNotified(st, a, id);
    }
  }

  lemma StaysNotified(st: State, a: Step, id: SubId)
    requires Inv(st) && Enabled(st, a) && id in Next(st, a).subs && Behind(Next(st, a), Next(st, a).subs[id])
    ensures Notified(Next(st, a), id)
  {
    match a
    case SetPub(p) => NewPubOk();
    case Read(p, pkt) => ReadNotifies(st, p, pkt, id);
    case GetSnap(s) => if s == id { NowSees(st, s); } else { OtherSteps(st, a, id); }
    case _ => OtherSteps(st, a, id);
  }

  lemma ReadNotifies(st: State, p: PubId, pkt: Packet, id: SubId)
    requires Inv(st) && Enabled(st, Read(p, pkt)) && id in st.subs
    requires Behind(Next(st, Read(p, pkt)), st.subs[id])
    ensures Notified(Next(st, Read(p, pkt)), id)
  {
    hide SubOk, Merged, PubOk, ReadStep;
    assert PubOk(st.pubs[p]);
    ReadKeepsPub(st.pubs[p], pkt);
    assert Behind(st, st.subs[id]) ==> Notified(st, id);
  }

  /** The other steps neither add packets nor let `id` look away. */
  lemma OtherSteps(st: State, a: Step, id: SubId)
    requires Inv(st) && Enabled(st, a) && !a.SetPub? && !a.Read? && a != GetSnap(id)
    requires id in Next(st, a).subs && Behind(Next(st, a), Next(st, a).subs[id])
    ensures Notified(Next(st, a), id)
  {
    hide SubOk, Merged, PubOk, Split;
    assert id in st.subs ==> (Behind(st, st.subs[id]) ==> Notified(st, id));
    if a.Announced? {
      var pending := st.pubs[a.p].phase.pending;
      assert id in pending && id in st.subs ==> id in pending * st.subs.Keys;
    }
  }

  /** Having looked at a snapshot, a subscriber sleeps only if it saw it all. */
  lemma NowSees(st: State, id: SubId)
    requires Inv(st) && Enabled(st, GetSnap(id)) && Behind(Next(st, GetSnap(id)), Next(st, GetSnap(id)).subs[id])
    ensures Notified(Next(st, GetSnap(id)), id)
  {
    hide Merged, Faithful, SplitAll, Drawn, Gop;
    var s := st.subs[id];
    GetSnapOk(st, s);
    assert s.lastsp != st.pub ==> Behind(st, s);
  }

  lemma StepKeeps(st: State, a: Step)
    requires Inv(st) && Enabled(st, a)
    ensures Inv(Next(st, a))
  {
    PubStepKeeps(st, a);
    SubStepKeeps(st, a);
    WakeupStepKeeps(st, a);
  }

  lemma {:induction false} RunKeeps(st: State, run: seq<Step>)
    requires Inv(st) && CanRun(st, run)
    ensures Inv(RunFrom(st, run))
    decreases |run|
  {
    if run != [] {
      StepKeeps(st, run[0]);
      RunKeeps(Next(st, run[0]), run[1..]);
    }
  }

  // ---- The theorems, for every run from the initial state ----

  /** No lost wakeup: a subscriber asleep (or about to look at the snapshot of a
      publisher that was replaced) while the current publisher has stored
      packets it did not see has a token, or is about to be given one. */
  lemma NeverMissed(run: seq<Step>, id: SubId)
    requires CanRun(Init, run) && id in RunFrom(Init, run).subs
    ensures var st := RunFrom(Init, run); Behind(st, st.subs[id]) ==> Notified(st, id)
  {
    RunKeeps(Init, run);
    hide CanRun, RunFrom;
  }

  /** Everything is quiet: `id` sleeps without a token and the current publisher,
      which has put something, has announced all of it. */
  ghost predicate Quiet(st: State, id: SubId)
  {
    && id in st.subs && st.subs[id].phase.Waiting? && !st.subs[id].token
    && st.pub.Some? && st.pub.value in st.pubs && st.pubs[st.pub.value].phase.Reading?
    && Put(st.pubs[st.pub.value]) != []
  }

  /** A subscriber asleep in a quiet state has been handed, and has written, the
      whole current group of pictures of the current publisher to its last packet. */
  lemma CaughtUp(run: seq<Step>, id: SubId)
    requires CanRun(Init, run) && Quiet(RunFrom(Init, run), id)
    ensures
      var st := RunFrom(Init, run);
      var h, s := Put(st.pubs[st.pub.value]), st.subs[id];
      s.lastsp == st.pub && s.lastidx == |h| && s.done == |s.handed| && EndsWith(s.handed, Gop(h))
  {
    RunKeeps(Init, run);
    QuietIsCaughtUp(RunFrom(Init, run), id);
  }

  ghost predicate EndsWith(s: seq<Packet>, t: seq<Packet>) { |s| >= |t| && s[|s| - |t|..] == t }

  lemma QuietIsCaughtUp(st: State, id: SubId)
    requires Inv(st) && Quiet(st, id)
    ensures
      var h, s := Put(st.pubs[st.pub.value]), st.subs[id];
      s.lastsp == st.pub && s.lastidx == |h| && s.done == |s.handed| && EndsWith(s.handed, Gop(h))
  {
    hide Merged, Gop, Drawn, SplitAll, EndsWith;
    var h, s := Put(st.pubs[st.pub.value]), st.subs[id];
    assert SubOk(st, s) && !Behind(st, s);
    assert s.lastsp == st.pub;
    HandedGroup(st, s);
  }

  lemma HandedGroup(st: State, s: Sub)
    requires SubOk(st, s) && s.lastidx == |Source(st, s)| > 0
    ensures EndsWith(s.handed, Gop(Source(st, s)))
  {
    hide SplitAll, Merged, Drawn, Faithful;
    var h := Source(st, s);
    var from := GopStart(h);
    var n := |h| - from;
    WholeGroup(h, s.got, from);
    var tail := s.handed[|s.handed| - n..];
    forall k | 0 <= k < n ensures tail[k] == h[from..][k] {
      WholeGroup(h, s.got, from + k);
      var i := |s.got| - n + k;
      assert s.got[i] == from + k;
      assert s.handed[s.base + i] == h[s.got[i]];
    }
    assert tail == h[from..];
  }

  /** Cursor refinement for whole runs: no duplicate, no reordering, no gap but
      to a key frame; and the slice expression in advance never panics. */
  lemma InOrder(run: seq<Step>, id: SubId)
    requires CanRun(Init, run) && id in RunFrom(Init, run).subs
    ensures InStep(RunFrom(Init, run), RunFrom(Init, run).subs[id]) && !RunFrom(Init, run).subs[id].phase.Panicked?
  {
    RunKeeps(Init, run);
    hide CanRun, RunFrom, InStep;
    assert SubOk(RunFrom(Init, run), RunFrom(Init, run).subs[id]);
  }

  /** Late join: whenever a subscriber came, whatever it skipped and however
      often the publisher changed, its output is well headed (no packet without
      its headers, no header sent twice) and without the headers is what it was
      handed; and every packet handed to it is a packet of some publisher with
      the headers that were in force where that publisher read it. */
  lemma HeadersInForce(run: seq<Step>, id: SubId)
    requires CanRun(Init, run) && id in RunFrom(Init, run).subs
    ensures
      var st := RunFrom(Init, run);
      var s := st.subs[id];
      && s.done <= |s.handed| && WellHeaded(s.out) && MediaOf(s.out) == s.handed[..s.done]
      && forall x :: x in s.handed ==> Original(st, x)
  {
    RunKeeps(Init, run);
    var st := RunFrom(Init, run);
    assert SubOk(st, st.subs[id]);
    hide SubOk, CanRun, RunFrom;
    WrittenIsHeaded(st, st.subs[id]);
  }

  lemma WrittenIsHeaded(st: State, s: Sub)
    requires SubOk(st, s)
    ensures s.done <= |s.handed| && WellHeaded(s.out) && MediaOf(s.out) == s.handed[..s.done]
    ensures forall x :: x in s.handed ==> Original(st, x)
  {
    hide Faithful;
    LateJoin(s.handed[..s.done]);
    assert WellHeaded(s.out);
    hide SplitAll, Merged, WellHeaded;
    forall x | x in s.handed ensures Media(x) && Original(st, x) {
      DrawnIsOriginal(st, x);
    }
    MediaOfMedia(s.handed[..s.done]);
  }

  lemma DrawnIsOriginal(st: State, x: Packet)
    requires Drawn(st, x)
    ensures Media(x) && Original(st, x)
  {
    var p :| p in st.pubs && x in Put(st.pubs[p]);
    var k :| 0 <= k < |Put(st.pubs[p])| && Put(st.pubs[p])[k] == x;
    var j := MergedFrom(st.pubs[p].raw, k);
    assert IsFrom(st.pubs[p].raw, j, x);
  }

  ghost predicate IsFrom(raw: seq<Packet>, j: nat, x: Packet)
  {
    j < |raw| && Media(raw[j]) && x == Attach(raw[j], InForce(raw[..j]))
  }

  ghost predicate Original(st: State, x: Packet)
  {
    exists p, j :: p in st.pubs && IsFrom(st.pubs[p].raw, j, x)
  }
}
