/** The command dialogue (format/rtmp/cmd.go, handshake.go): the client program
    (connectPublish or connectPlay) and the server program (readConnect, then
    writePublishOrPlayResult) as two machines over FIFO streams with a write
    buffer and an explicit flush. URLs are valid and the streams lossless. */
module Dialogue {

  datatype Name = Connect | Result | ReleaseStream | FCPublish | CreateStream | Publish | Play | OnStatus

  /** The first parameter of a command, as far as the peer looks at it. */
  datatype Arg = NoArg | App | Path | Level(status: bool) | StreamId(sid: nat)

  datatype Item =
    | C0 | C1 | C2 | S0S1S2
    | WindowAckSize | SetChunkSize           // handled by handleEvent
    | SetPeerBandwidth | UserControl | Data  // not handled, not commands
    | Cmd(name: Name, transid: nat, arg: Arg)

  // Stage
  const INIT := 0
  const HANDSHAKE_DONE := 1
  const GOT_COMMAND := 2
  const COMMAND_DONE := 3

  /** How the session was set up: what the client wants, whether the server was
      told to refuse it (PubPlayErr), and SendSampleAccess. */
  datatype Setup = Setup(publish: bool, refused: bool, sampleAccess: bool)

  datatype ClientPc =
    | C_SendC0C1 | C_FlushC0C1 | C_RecvS | C_SendC2
    | C_SendConnect | C_FlushConnect | C_WaitConnect
    | C_SendCreate | C_FlushCreate | C_WaitCreate
    | C_SendCommand | C_FlushCommand | C_WaitStatus
    | C_Done | C_Failed

  datatype ServerPc =
    | S_RecvC0 | S_RecvC1 | S_SendS | S_FlushS | S_RecvC2
    | S_WaitConnect | S_SendConf | S_FlushConf
    | S_WaitCommand | S_SendCreated | S_FlushCreated
    | S_SendResult | S_FlushResult
    | S_Done | S_Failed

  /** `buf` is written but not flushed; `read` counts the items taken so far. */
  datatype Client = Client(pc: ClientPc, buf: seq<Item>, read: nat, stage: nat, avmsgsid: nat, publishing: bool)
  datatype Server = Server(
    pc: ServerPc, buf: seq<Item>, read: nat, stage: nat, avmsgsid: nat, publishing: bool, transid: nat)

  datatype State = State(c: Client, s: Server, toServer: seq<Item>, toClient: seq<Item>)

  const Init := State(
    Client(C_SendC0C1, [], 0, INIT, 0, false), Server(S_RecvC0, [], 0, INIT, 0, false, 0), [], [])

  // ---- The client ----

  const BasicConf := [WindowAckSize, SetPeerBandwidth, SetChunkSize]

  function CreateTransid(x: Setup): nat { if x.publish then 4 else 2 }

  /** The commands between connect and createStream's answer, and the last one. */
  function CreateItems(x: Setup): seq<Item>
  {
    if x.publish then
      [Cmd(ReleaseStream, 2, Path), Cmd(FCPublish, 3, Path), Cmd(CreateStream, 4, NoArg)]
    else
      [Cmd(CreateStream, 2, NoArg), UserControl]
  }

  function LastItem(x: Setup): Item { if x.publish then Cmd(Publish, 5, Path) else Cmd(Play, 0, Path) }

  predicate ClientReads(pc: ClientPc) { pc.C_RecvS? || pc.C_WaitConnect? || pc.C_WaitCreate? || pc.C_WaitStatus? }

  function ClientWrites(x: Setup, pc: ClientPc): seq<Item>
  {
    match pc
    case C_SendC0C1 => [C0, C1]
    case C_SendC2 => [C2]
    case C_SendConnect => BasicConf + [Cmd(Connect, 1, App)]
    case C_SendCreate => CreateItems(x)
    case C_SendCommand => [LastItem(x)]
    case _ => []
  }

  function ClientNext(pc: ClientPc): ClientPc
  {
    match pc
    case C_SendC0C1 => C_FlushC0C1 case C_FlushC0C1 => C_RecvS case C_RecvS => C_SendC2
    case C_SendC2 => C_SendConnect case C_SendConnect => C_FlushConnect case C_FlushConnect => C_WaitConnect
    case C_WaitConnect => C_SendCreate case C_SendCreate => C_FlushCreate case C_FlushCreate => C_WaitCreate
    case C_WaitCreate => C_SendCommand case C_SendCommand => C_FlushCommand case C_FlushCommand => C_WaitStatus
    case C_WaitStatus => C_Done case C_Done => C_Done case C_Failed => C_Failed
  }

  /** A step that writes or flushes. */
  function ClientSend(x: Setup, st: State): State
    requires !ClientReads(st.c.pc) && !st.c.pc.C_Done? && !st.c.pc.C_Failed?
  {
    var c := st.c;
    var next := c.(pc := ClientNext(c.pc));
    if c.pc.C_FlushC0C1? || c.pc.C_FlushConnect? || c.pc.C_FlushCreate? || c.pc.C_FlushCommand? then
      st.(c := next.(buf := []), toServer := st.toServer + c.buf)
    else
      var sent := next.(buf := c.buf + ClientWrites(x, c.pc));
      st.(c := if c.pc.C_SendC2? then sent.(stage := HANDSHAKE_DONE) else sent)
  }

  /** What the client makes of one item. */
  function ClientTakes(x: Setup, c: Client, i: Item): Client
  {
    var d := c.(read := c.read + 1);
    match c.pc
    case C_RecvS => if i.S0S1S2? then d.(pc := C_SendC2) else d.(pc := C_Failed)
    case C_WaitConnect =>
      if !i.Cmd? || i.name != Result then d
      else if i.arg == Level(true) then d.(pc := C_SendCreate)
      else d.(pc := C_Failed)
    case C_WaitCreate =>
      if !i.Cmd? || i.name != Result || (x.publish && i.transid != CreateTransid(x)) then d
      else if i.arg.NoArg? then d.(pc := C_Failed)
      else d.(pc := C_SendCommand, avmsgsid := if i.arg.StreamId? then i.arg.sid else 0)
    case C_WaitStatus =>
      if !i.Cmd? || i.name != OnStatus then d
      else if i.arg == Level(true) then d.(pc := C_Done, publishing := x.publish, stage := COMMAND_DONE)
      else d.(pc := C_Failed)
    case _ => d
  }

  predicate Handled(i: Item) { i.WindowAckSize? || i.SetChunkSize? }

  /** A handled event also makes the reader flush. */
  function ClientRecv(x: Setup, st: State): State
    requires ClientReads(st.c.pc) && st.toClient != []
  {
    var i := st.toClient[0];
    var c := ClientTakes(x, st.c, i);
    if Handled(i) && !st.c.pc.C_RecvS? then
      st.(c := c.(buf := []), toClient := st.toClient[1..], toServer := st.toServer + c.buf)
    else
      st.(c := c, toClient := st.toClient[1..])
  }

  // ---- The server ----

  predicate ServerReads(pc: ServerPc)
  {
    pc.S_RecvC0? || pc.S_RecvC1? || pc.S_RecvC2? || pc.S_WaitConnect? || pc.S_WaitCommand?
  }

  function Status(s: Server): Item { Cmd(OnStatus, s.transid, Level(true)) }

  /** writePublishOrPlayResult: the level is "status" even when it refuses. */
  function ResultItems(x: Setup, s: Server): seq<Item>
  {
    if x.refused || s.publishing then [Status(s)]
    else [UserControl, UserControl, Status(s), Status(s)] + (if x.sampleAccess then [Data] else []) + [Status(s)]
  }

  function ServerWrites(x: Setup, s: Server): seq<Item>
  {
    match s.pc
    case S_SendS => [S0S1S2]
    case S_SendConf => BasicConf + [Cmd(Result, s.transid, Level(true))]
    case S_SendCreated => [Cmd(Result, s.transid, StreamId(s.avmsgsid))]
    case S_SendResult => ResultItems(x, s)
    case _ => []
  }

  function ServerSend(x: Setup, st: State): State
    requires !ServerReads(st.s.pc) && !st.s.pc.S_Done? && !st.s.pc.S_Failed?
  {
    var s := st.s;
    match s.pc
    case S_FlushS => st.(s := s.(pc := S_RecvC2, buf := []), toClient := st.toClient + s.buf)
    case S_FlushConf => st.(s := s.(pc := S_WaitCommand, buf := []), toClient := st.toClient + s.buf)
    case S_FlushCreated => st.(s := s.(pc := S_WaitCommand, buf := []), toClient := st.toClient + s.buf)
    case S_FlushResult => st.(s := s.(pc := S_Done, buf := [], stage := COMMAND_DONE), toClient := st.toClient + s.buf)
    case _ =>
      var next := if s.pc.S_SendS? then S_FlushS else if s.pc.S_SendConf? then S_FlushConf
                  else if s.pc.S_SendCreated? then S_FlushCreated else S_FlushResult;
      st.(s := s.(pc := next, buf := s.buf + ServerWrites(x, s)))
  }

  function ServerTakes(s: Server, i: Item): Server
  {
    var d := s.(read := s.read + 1);
    var e := if i.Cmd? then d.(transid := i.transid) else d;
    match s.pc
    case S_RecvC0 => if i.C0? then d.(pc := S_RecvC1) else d.(pc := S_Failed)
    case S_RecvC1 => if i.C1? then d.(pc := S_SendS) else d.(pc := S_Failed)
    case S_RecvC2 => if i.C2? then d.(pc := S_WaitConnect, stage := HANDSHAKE_DONE) else d.(pc := S_Failed)
    case S_WaitConnect =>
      if !i.Cmd? then d
      else if i.name == Connect && i.arg.App? then e.(pc := S_SendConf)
      else d.(pc := S_Failed)
    case S_WaitCommand =>
      if !i.Cmd? then d
      else if i.name == CreateStream then e.(pc := S_SendCreated, avmsgsid := 1)
      else if i.name == Publish || i.name == Play then
        if i.arg.NoArg? then d.(pc := S_Failed)
        else e.(pc := S_SendResult, publishing := i.name == Publish, stage := GOT_COMMAND)
      else e
    case _ => d
  }

  function ServerRecv(st: State): State
    requires ServerReads(st.s.pc) && st.toServer != []
  {
    var i := st.toServer[0];
    var s := ServerTakes(st.s, i);
    if Handled(i) && (st.s.pc.S_WaitConnect? || st.s.pc.S_WaitCommand?) then
      st.(s := s.(buf := []), toServer := st.toServer[1..], toClient := st.toClient + s.buf)
    else
      st.(s := s, toServer := st.toServer[1..])
  }

  // ---- The pair ----

  /** A step of either side, or the buffered writer flushing by itself a part of
      what it holds. */
  datatype Step = ClientStep | ServerStep | ClientSpill(n: nat) | ServerSpill(n: nat)

  predicate Enabled(st: State, a: Step)
  {
    match a
    case ClientStep => !st.c.pc.C_Done? && !st.c.pc.C_Failed? && (ClientReads(st.c.pc) ==> st.toClient != [])
    case ServerStep => !st.s.pc.S_Done? && !st.s.pc.S_Failed? && (ServerReads(st.s.pc) ==> st.toServer != [])
    case ClientSpill(n) => 0 < n <= |st.c.buf|
    case ServerSpill(n) => 0 < n <= |st.s.buf|
  }

  function Next(x: Setup, st: State, a: Step): State
    requires Enabled(st, a)
  {
    match a
    case ClientStep => if ClientReads(st.c.pc) then ClientRecv(x, st) else ClientSend(x, st)
    case ServerStep => if ServerReads(st.s.pc) then ServerRecv(st) else ServerSend(x, st)
    case ClientSpill(n) => st.(c := st.c.(buf := st.c.buf[n..]), toServer := st.toServer + st.c.buf[..n])
    case ServerSpill(n) => st.(s := st.s.(buf := st.s.buf[n..]), toClient := st.toClient + st.s.buf[..n])
  }

  predicate CanRun(x: Setup, st: State, run: seq<Step>)
    decreases |run|
  {
    run == [] || (Enabled(st, run[0]) && CanRun(x, Next(x, st, run[0]), run[1..]))
  }

  function RunFrom(x: Setup, st: State, run: seq<Step>): State
    requires CanRun(x, st, run)
    decreases |run|
  {
    if run == [] then st else RunFrom(x, Next(x, st, run[0]), run[1..])
  }

  // ---- The two scripts ----

  /** Everything the client ever writes, and everything the server does. */
  function ClientScript(x: Setup): seq<Item>
  {
    [C0, C1, C2] + BasicConf + [Cmd(Connect, 1, App)] + CreateItems(x) + [LastItem(x)]
  }

  function ServerScript(x: Setup): seq<Item>
  {
    var status := Cmd(OnStatus, if x.publish then 5 else 0, Level(true));
    [S0S1S2] + BasicConf + [Cmd(Result, 1, Level(true)), Cmd(Result, CreateTransid(x), StreamId(1))]
    + (if x.refused || x.publish then [status]
       else [UserControl, UserControl, status, status] + (if x.sampleAccess then [Data] else []) + [status])
  }

  /** How much of its script the client has written at a point of its program. */
  function ClientWrote(x: Setup, pc: ClientPc): nat
  {
    var k := |CreateItems(x)|;
    match pc
    case C_SendC0C1 => 0
    case C_FlushC0C1 => 2 case C_RecvS => 2 case C_SendC2 => 2
    case C_SendConnect => 3
    case C_FlushConnect => 7 case C_WaitConnect => 7 case C_SendCreate => 7
    case C_FlushCreate => 7 + k case C_WaitCreate => 7 + k case C_SendCommand => 7 + k
    case _ => 8 + k
  }

  function ServerWrote(x: Setup, s: Server): nat
  {
    match s.pc
    case S_RecvC0 => 0 case S_RecvC1 => 0 case S_SendS => 0
    case S_FlushS => 1 case S_RecvC2 => 1 case S_WaitConnect => 1 case S_SendConf => 1
    case S_FlushConf => 5 case S_SendCreated => 5
    case S_WaitCommand => if s.avmsgsid == 0 then 5 else 6
    case S_FlushCreated => 6 case S_SendResult => 6
    case _ => |ServerScript(x)|
  }

  /** Where in the server's script the client can be: it waits for the items 0,
      4, 5 and for the first onStatus. */
  function StatusAt(x: Setup): nat { if x.publish || x.refused then 6 else 8 }

  predicate ClientReadOk(x: Setup, c: Client)
  {
    match c.pc
    case C_SendC0C1 => c.read == 0 case C_FlushC0C1 => c.read == 0 case C_RecvS => c.read == 0
    case C_SendC2 => c.read == 1 case C_SendConnect => c.read == 1 case C_FlushConnect => c.read == 1
    case C_WaitConnect => 1 <= c.read <= 4
    case C_SendCreate => c.read == 5 case C_FlushCreate => c.read == 5 case C_WaitCreate => c.read == 5
    case C_SendCommand => c.read == 6 case C_FlushCommand => c.read == 6
    case C_WaitStatus => 6 <= c.read <= StatusAt(x)
    case C_Done => c.read == StatusAt(x) + 1
    case C_Failed => false
  }

  predicate ServerReadOk(x: Setup, s: Server)
  {
    var create := if x.publish then 9 else 7;
    match s.pc
    case S_RecvC0 => s.read == 0 case S_RecvC1 => s.read == 1
    case S_SendS => s.read == 2 case S_FlushS => s.read == 2 case S_RecvC2 => s.read == 2
    case S_WaitConnect => 3 <= s.read <= 6
    case S_SendConf => s.read == 7 case S_FlushConf => s.read == 7
    case S_WaitCommand => if s.avmsgsid == 0 then 7 <= s.read <= create else create < s.read < |ClientScript(x)|
    case S_SendCreated => s.read == create + 1 case S_FlushCreated => s.read == create + 1
    case S_SendResult => s.read == |ClientScript(x)| case S_FlushResult => s.read == |ClientScript(x)|
    case S_Done => s.read == |ClientScript(x)|
    case S_Failed => false
  }

  predicate ClientOk(x: Setup, c: Client)
  {
    && ClientReadOk(x, c)
    && (ClientReads(c.pc) || c.pc.C_Done? ==> c.buf == [])
    && c.stage == (if c.pc.C_Done? then COMMAND_DONE
                   else if c.read == 0 || c.pc.C_SendC2? then INIT else HANDSHAKE_DONE)
    && (c.pc.C_SendCommand? || c.pc.C_FlushCommand? || c.pc.C_WaitStatus? || c.pc.C_Done? ==> c.avmsgsid == 1)
    && (c.pc.C_Done? ==> c.publishing == x.publish)
  }

  predicate ServerOk(x: Setup, s: Server)
  {
    && ServerReadOk(x, s)
    && (ServerReads(s.pc) || s.pc.S_Done? ==> s.buf == [])
    && s.stage == (if s.pc.S_Done? then COMMAND_DONE
                   else if s.pc.S_SendResult? || s.pc.S_FlushResult? then GOT_COMMAND
                   else if s.read <= 2 then INIT else HANDSHAKE_DONE)
    && s.avmsgsid == (if s.read > (if x.publish then 9 else 7) then 1 else 0)
    && (s.pc.S_SendConf? || s.pc.S_FlushConf? ==> s.transid == 1)
    && (s.pc.S_SendCreated? || s.pc.S_FlushCreated? ==> s.transid == CreateTransid(x))
    && (s.pc.S_SendResult? || s.pc.S_FlushResult? || s.pc.S_Done? ==>
          s.transid == (if x.publish then 5 else 0) && s.publishing == x.publish)
  }

  /** Unread, in flight or still buffered: exactly the next part of the script. */
  predicate StreamsOk(x: Setup, st: State)
  {
    && st.s.read <= ClientWrote(x, st.c.pc) && ClientWrote(x, st.c.pc) <= |ClientScript(x)|
    && st.toServer + st.c.buf == ClientScript(x)[st.s.read..ClientWrote(x, st.c.pc)]
    && st.c.read <= ServerWrote(x, st.s) && ServerWrote(x, st.s) <= |ServerScript(x)|
    && st.toClient + st.s.buf == ServerScript(x)[st.c.read..ServerWrote(x, st.s)]
  }

  predicate Inv(x: Setup, st: State) { ClientOk(x, st.c) && ServerOk(x, st.s) && StreamsOk(x, st) }

  lemma InitInv(x: Setup)
    ensures Inv(x, Init)
  {}

  lemma ClientSpillOk(x: Setup, c: Client, n: nat)
    requires ClientOk(x, c) && 0 < n <= |c.buf|
    ensures ClientOk(x, c.(buf := c.buf[n..]))
  {
    hide ClientScript, ServerScript;
  }

  lemma ServerSpillOk(x: Setup, s: Server, n: nat)
    requires ServerOk(x, s) && 0 < n <= |s.buf|
    ensures ServerOk(x, s.(buf := s.buf[n..])) && ServerWrote(x, s.(buf := s.buf[n..])) == ServerWrote(x, s)
  {
    hide ClientScript, ServerScript;
  }

  lemma SpillKeeps(x: Setup, st: State, a: Step)
    requires Inv(x, st) && Enabled(st, a) && (a.ClientSpill? || a.ServerSpill?)
    ensures Inv(x, Next(x, st, a))
  {
    hide ClientScript, ServerScript, ClientOk, ServerOk, ClientWrote, ServerWrote;
    if a.ClientSpill? {
      ClientSpillOk(x, st.c, a.n);
      assert st.toServer + st.c.buf[..a.n] + st.c.buf[a.n..] == st.toServer + st.c.buf;
    } else {
      ServerSpillOk(x, st.s, a.n);
      assert st.toClient + st.s.buf[..a.n] + st.s.buf[a.n..] == st.toClient + st.s.buf;
    }
  }

  // ---- One step of each side ----

  lemma Glue(script: seq<Item>, sent: seq<Item>, buf: seq<Item>, more: seq<Item>, from: nat, mid: nat, to: nat)
    requires from <= mid <= to <= |script| && sent + buf == script[from..mid] && more == script[mid..to]
    ensures sent + (buf + more) == script[from..to]
  {
    assert sent + (buf + more) == (sent + buf) + more;
    assert script[from..mid] + script[mid..to] == script[from..to];
  }

  lemma HeadOf(script: seq<Item>, q: seq<Item>, buf: seq<Item>, from: nat, to: nat)
    requires from <= to <= |script| && q + buf == script[from..to] && q != []
    ensures from < to && q[0] == script[from] && q[1..] + buf == script[from + 1..to]
  {
    assert (q + buf)[0] == script[from];
    assert (q + buf)[1..] == q[1..] + buf;
  }

  /** The client's script, cut where the client writes. */
  lemma ClientParts(x: Setup)
    ensures
      var t, k := ClientScript(x), |CreateItems(x)|;
      && |t| == 8 + k && t[0..2] == [C0, C1] && t[2..3] == [C2] && t[3..7] == BasicConf + [Cmd(Connect, 1, App)]
      && t[7..7 + k] == CreateItems(x) && t[7 + k..8 + k] == [LastItem(x)]
  {
    hide CreateItems, LastItem;
  }

  lemma EmptySlice(s: seq<Item>, i: nat)
    requires i <= |s|
    ensures s[i..i] == []
  {}

  lemma ClientSlice(x: Setup, pc: ClientPc)
    requires !ClientReads(pc) && !pc.C_Done? && !pc.C_Failed?
    ensures
      var a, b := ClientWrote(x, pc), ClientWrote(x, ClientNext(pc));
      a <= b <= |ClientScript(x)| && ClientScript(x)[a..b] == ClientWrites(x, pc)
  {
    ClientParts(x);
    hide ClientScript, CreateItems, LastItem;
    EmptySlice(ClientScript(x), ClientWrote(x, pc));
  }

  lemma ClientSendOk(x: Setup, st: State)
    requires ClientOk(x, st.c) && !ClientReads(st.c.pc) && !st.c.pc.C_Done?
    ensures ClientOk(x, ClientSend(x, st).c) && ClientSend(x, st).c.pc == ClientNext(st.c.pc)
    ensures ClientSend(x, st).s == st.s && ClientSend(x, st).toClient == st.toClient
    ensures ClientSend(x, st).toServer + ClientSend(x, st).c.buf == st.toServer + (st.c.buf + ClientWrites(x, st.c.pc))
    ensures ClientSend(x, st).c.read == st.c.read
  {
    hide ClientScript, ServerScript, ClientWrote;
    assert st.c.buf + [] == st.c.buf;
  }

  lemma ClientSendKeeps(x: Setup, st: State)
    requires Inv(x, st) && !ClientReads(st.c.pc) && !st.c.pc.C_Done?
    ensures Inv(x, ClientSend(x, st))
  {
    ClientSlice(x, st.c.pc);
    ClientSendOk(x, st);
    Glue(ClientScript(x), st.toServer, st.c.buf, ClientWrites(x, st.c.pc), st.s.read, ClientWrote(x, st.c.pc), ClientWrote(x, ClientNext(st.c.pc)));
    hide ClientScript, ServerScript, ClientOk, ServerOk, ClientSend, ClientWrote, ClientNext, ServerWrote, ClientWrites;
  }

  /** What the server's script says at each place where the client looks. */
  lemma ServerScriptAt(x: Setup)
    ensures
      var t := ServerScript(x);
      && |t| > StatusAt(x) && t[0] == S0S1S2 && t[1] == WindowAckSize && t[2] == SetPeerBandwidth && t[3] == SetChunkSize
      && t[4] == Cmd(Result, 1, Level(true)) && t[5] == Cmd(Result, CreateTransid(x), StreamId(1))
      && (StatusAt(x) == 8 ==> t[6] == UserControl && t[7] == UserControl)
      && t[StatusAt(x)] == Cmd(OnStatus, if x.publish then 5 else 0, Level(true))
  {}

  lemma ClientTakesOk(x: Setup, c: Client, i: Item)
    requires ClientOk(x, c) && ClientReads(c.pc) && c.read < |ServerScript(x)| && i == ServerScript(x)[c.read]
    ensures ClientOk(x, ClientTakes(x, c, i)) && ClientTakes(x, c, i).read == c.read + 1
    ensures ClientWrote(x, ClientTakes(x, c, i).pc) == ClientWrote(x, c.pc) && ClientTakes(x, c, i).buf == c.buf == []
  {
    ServerScriptAt(x);
    hide ServerScript;
  }

  /** With nothing buffered, the flush behind a handled event changes nothing. */
  lemma ClientRecvIs(x: Setup, st: State)
    requires ClientReads(st.c.pc) && st.toClient != [] && ClientTakes(x, st.c, st.toClient[0]).buf == []
    ensures ClientRecv(x, st) == st.(c := ClientTakes(x, st.c, st.toClient[0]), toClient := st.toClient[1..])
  {
    var c := ClientTakes(x, st.c, st.toClient[0]);
    hide ClientTakes;
    assert c.(buf := []) == c;
    assert st.toServer + [] == st.toServer;
  }

  lemma ClientRecvKeeps(x: Setup, st: State)
    requires Inv(x, st) && ClientReads(st.c.pc) && st.toClient != []
    ensures Inv(x, ClientRecv(x, st))
  {
    HeadOf(ServerScript(x), st.toClient, st.s.buf, st.c.read, ServerWrote(x, st.s));
    ClientTakesOk(x, st.c, st.toClient[0]);
    ClientRecvIs(x, st);
    hide ClientScript, ServerScript, ClientTakes, ClientRecv, ClientOk, ServerOk, ClientWrote, ServerWrote;
  }

  lemma ServerSlice(x: Setup, st: State)
    requires ServerOk(x, st.s) && !ServerReads(st.s.pc) && !st.s.pc.S_Done?
    ensures
      var s, t := st.s, ServerSend(x, st).s;
      && ServerWrote(x, s) <= ServerWrote(x, t) <= |ServerScript(x)| && ServerOk(x, t) && t.read == s.read
      && ServerScript(x)[ServerWrote(x, s)..ServerWrote(x, t)] == ServerWrites(x, s)
  {
    Lengths(x);
    ServerParts(x);
    hide ClientScript, ServerScript;
    var t := ServerScript(x);
    assert t[1..1] == [] && t[5..5] == [] && t[6..6] == [] && t[|t|..|t|] == [];
  }

  /** The server's script, cut where the server writes. */
  lemma ServerParts(x: Setup)
    ensures
      var t, s := ServerScript(x), Init.s.(transid := if x.publish then 5 else 0, publishing := x.publish);
      && t[0..1] == [S0S1S2] && t[1..5] == BasicConf + [Cmd(Result, 1, Level(true))]
      && t[5..6] == [Cmd(Result, CreateTransid(x), StreamId(1))] && t[6..|t|] == ResultItems(x, s)
  {}

  lemma ServerSendIs(x: Setup, st: State)
    requires ServerOk(x, st.s) && !ServerReads(st.s.pc) && !st.s.pc.S_Done?
    ensures ServerSend(x, st).c == st.c && ServerSend(x, st).toServer == st.toServer
    ensures ServerSend(x, st).toClient + ServerSend(x, st).s.buf == st.toClient + (st.s.buf + ServerWrites(x, st.s))
  {
    hide ClientScript, ServerScript, ServerWrote;
    assert st.s.buf + [] == st.s.buf;
  }

  lemma ServerSendKeeps(x: Setup, st: State)
    requires Inv(x, st) && !ServerReads(st.s.pc) && !st.s.pc.S_Done?
    ensures Inv(x, ServerSend(x, st))
  {
    ServerSlice(x, st);
    ServerSendIs(x, st);
    Glue(ServerScript(x), st.toClient, st.s.buf, ServerWrites(x, st.s), st.c.read, ServerWrote(x, st.s), ServerWrote(x, ServerSend(x, st).s));
    hide ClientScript, ServerScript, ClientOk, ServerOk, ServerSend, ClientWrote, ServerWrote, ServerWrites;
  }

  lemma ClientScriptAt(x: Setup)
    ensures
      var t := ClientScript(x);
      && t[..7] == [C0, C1, C2, WindowAckSize, SetPeerBandwidth, SetChunkSize, Cmd(Connect, 1, App)]
      && (x.publish ==> t[7..] == [Cmd(ReleaseStream, 2, Path), Cmd(FCPublish, 3, Path), Cmd(CreateStream, 4, NoArg), Cmd(Publish, 5, Path)])
      && (!x.publish ==> t[7..] == [Cmd(CreateStream, 2, NoArg), UserControl, Cmd(Play, 0, Path)])
  {}

  lemma ServerTakesOk(x: Setup, s: Server, i: Item)
    requires ServerOk(x, s) && ServerReads(s.pc) && s.read < |ClientScript(x)| && i == ClientScript(x)[s.read]
    ensures ServerOk(x, ServerTakes(s, i)) && ServerTakes(s, i).read == s.read + 1
    ensures ServerWrote(x, ServerTakes(s, i)) == ServerWrote(x, s) && ServerTakes(s, i).buf == s.buf == []
  {
    ClientScriptAt(x);
    Lengths(x);
    hide ServerScript, ClientScript;
    var t := ClientScript(x);
    assert s.read < 7 ==> i == t[..7][s.read];
    assert s.read >= 7 ==> i == t[7..][s.read - 7];
  }

  lemma ServerRecvIs(st: State)
    requires ServerReads(st.s.pc) && st.toServer != [] && ServerTakes(st.s, st.toServer[0]).buf == []
    ensures ServerRecv(st) == st.(s := ServerTakes(st.s, st.toServer[0]), toServer := st.toServer[1..])
  {
    var s := ServerTakes(st.s, st.toServer[0]);
    hide ServerTakes;
    assert s.(buf := []) == s;
    assert st.toClient + [] == st.toClient;
  }

  lemma ServerRecvKeeps(x: Setup, st: State)
    requires Inv(x, st) && ServerReads(st.s.pc) && st.toServer != []
    ensures Inv(x, ServerRecv(st))
  {
    HeadOf(ClientScript(x), st.toServer, st.c.buf, st.s.read, ClientWrote(x, st.c.pc));
    ServerTakesOk(x, st.s, st.toServer[0]);
    ServerRecvIs(st);
    hide ClientScript, ServerScript, ServerTakes, ServerRecv, ClientOk, ServerOk, ClientWrote, ServerWrote;
  }

  lemma StepKeeps(x: Setup, st: State, a: Step)
    requires Inv(x, st) && Enabled(st, a)
    ensures Inv(x, Next(x, st, a))
  {
    match a
    case ClientStep => if ClientReads(st.c.pc) { ClientRecvKeeps(x, st); } else { ClientSendKeeps(x, st); }
    case ServerStep => if ServerReads(st.s.pc) { ServerRecvKeeps(x, st); } else { ServerSendKeeps(x, st); }
    case _ => SpillKeeps(x, st, a);
  }

  lemma {:induction false} RunKeeps(x: Setup, st: State, run: seq<Step>)
    requires Inv(x, st) && CanRun(x, st, run)
    ensures Inv(x, RunFrom(x, st, run))
    decreases |run|
  {
    if run != [] {
      StepKeeps(x, st, run[0]);
      RunKeeps(x, Next(x, st, run[0]), run[1..]);
    }
  }

  // ---- The theorems ----

  /** Whenever a side stops to read, everything it wrote has been flushed; no
      reachable state has failed. */
  lemma NothingHeldBack(x: Setup, run: seq<Step>)
    requires CanRun(x, Init, run)
    ensures
      var st := RunFrom(x, Init, run);
      && (ClientReads(st.c.pc) ==> st.c.buf == []) && (ServerReads(st.s.pc) ==> st.s.buf == [])
      && !st.c.pc.C_Failed? && !st.s.pc.S_Failed?
  {
    InitInv(x);
    RunKeeps(x, Init, run);
  }

  /** No deadlock: until both sides are done one of them can take a step of its
      own, without waiting for a buffer to spill. */
  lemma NoDeadlock(x: Setup, run: seq<Step>)
    requires CanRun(x, Init, run)
    ensures
      var st := RunFrom(x, Init, run);
      (st.c.pc.C_Done? && st.s.pc.S_Done?) || Enabled(st, ClientStep) || Enabled(st, ServerStep)
  {
    InitInv(x);
    RunKeeps(x, Init, run);
    SomeoneMoves(x, RunFrom(x, Init, run));
  }

  lemma SomeoneMoves(x: Setup, st: State)
    requires Inv(x, st)
    ensures (st.c.pc.C_Done? && st.s.pc.S_Done?) || Enabled(st, ClientStep) || Enabled(st, ServerStep)
  {
    Lengths(x);
    hide ClientScript, ServerScript;
    if !Enabled(st, ClientStep) && !Enabled(st, ServerStep) {
      assert ClientReads(st.c.pc) ==> |st.toClient + st.s.buf| == |st.s.buf|;
      assert ServerReads(st.s.pc) ==> |st.toServer + st.c.buf| == |st.c.buf|;
    }
  }

  lemma Lengths(x: Setup)
    ensures |ClientScript(x)| == (if x.publish then 11 else 10)
    ensures |ServerScript(x)| == (if x.publish || x.refused then 7 else if x.sampleAccess then 12 else 11)
    ensures |CreateItems(x)| == (if x.publish then 3 else 2)
  {}

  /** What is left to do. Every step, a spill included, makes it smaller. */
  function Work(x: Setup, st: State): int
  {
    100 * (ClientRank(st.c.pc) + 20 * (|ServerScript(x)| - st.c.read) + ServerRank(st.s.pc) + 20 * (|ClientScript(x)| - st.s.read))
    + |st.c.buf| + |st.s.buf|
  }

  function ClientRank(pc: ClientPc): nat
  {
    match pc
    case C_SendC0C1 => 13 case C_FlushC0C1 => 12 case C_RecvS => 11 case C_SendC2 => 10
    case C_SendConnect => 9 case C_FlushConnect => 8 case C_WaitConnect => 7
    case C_SendCreate => 6 case C_FlushCreate => 5 case C_WaitCreate => 4
    case C_SendCommand => 3 case C_FlushCommand => 2 case C_WaitStatus => 1 case _ => 0
  }

  function ServerRank(pc: ServerPc): nat
  {
    match pc
    case S_RecvC0 => 13 case S_RecvC1 => 12 case S_SendS => 11 case S_FlushS => 10 case S_RecvC2 => 9
    case S_WaitConnect => 8 case S_SendConf => 7 case S_FlushConf => 6
    case S_WaitCommand => 3 case S_SendCreated => 5 case S_FlushCreated => 4
    case S_SendResult => 2 case S_FlushResult => 1 case _ => 0
  }

  lemma StepWorks(x: Setup, st: State, a: Step)
    requires Inv(x, st) && Enabled(st, a)
    ensures 0 <= Work(x, Next(x, st, a)) < Work(x, st)
  {
    Lengths(x);
    StepKeeps(x, st, a);
    hide ClientScript, ServerScript;
    match a
    case ClientStep => if ClientReads(st.c.pc) { ClientRecvWorks(x, st); } else { ClientSendWorks(x, st); }
    case ServerStep => if ServerReads(st.s.pc) { ServerRecvWorks(x, st); } else { ServerSendWorks(x, st); }
    case _ => WorkLeft(x, Next(x, st, a));
  }

  lemma WorkLeft(x: Setup, st: State)
    requires Inv(x, st)
    ensures Work(x, st) >= 0
  {
    hide ClientScript, ServerScript;
  }

  lemma ClientSendWorks(x: Setup, st: State)
    requires Inv(x, st) && !ClientReads(st.c.pc) && !st.c.pc.C_Done?
    ensures 0 <= Work(x, ClientSend(x, st)) < Work(x, st)
  {
    ClientSendKeeps(x, st);
    WorkLeft(x, ClientSend(x, st));
    assert !st.c.pc.C_Failed?;
    ClientSendRank(x, st);
    hide ClientScript, ServerScript, Inv, ClientSend, ClientRank, ServerRank;
  }

  lemma ClientSendRank(x: Setup, st: State)
    requires !ClientReads(st.c.pc) && !st.c.pc.C_Done? && !st.c.pc.C_Failed?
    ensures
      var t := ClientSend(x, st);
      ClientRank(t.c.pc) < ClientRank(st.c.pc) && t.c.read == st.c.read && |t.c.buf| <= |st.c.buf| + 4 && t.s == st.s
  {
    hide ClientScript, ServerScript;
  }

  lemma ClientRecvWorks(x: Setup, st: State)
    requires Inv(x, st) && ClientReads(st.c.pc) && st.toClient != []
    ensures 0 <= Work(x, ClientRecv(x, st)) < Work(x, st)
  {
    ClientRecvKeeps(x, st);
    WorkLeft(x, ClientRecv(x, st));
    ClientRecvRank(x, st);
    hide ClientScript, ServerScript, Inv, ClientRecv, ClientRank, ServerRank;
  }

  lemma ClientRecvRank(x: Setup, st: State)
    requires ClientReads(st.c.pc) && st.toClient != []
    ensures
      var t := ClientRecv(x, st);
      ClientRank(t.c.pc) <= ClientRank(st.c.pc) && t.c.read == st.c.read + 1 && |t.c.buf| <= |st.c.buf| && t.s == st.s
  {
    hide ClientScript, ServerScript;
  }

  lemma ServerSendWorks(x: Setup, st: State)
    requires Inv(x, st) && !ServerReads(st.s.pc) && !st.s.pc.S_Done?
    ensures 0 <= Work(x, ServerSend(x, st)) < Work(x, st)
  {
    ServerSendKeeps(x, st);
    WorkLeft(x, ServerSend(x, st));
    assert !st.s.pc.S_Failed?;
    ServerSendRank(x, st);
    hide ClientScript, ServerScript, Inv, ServerSend, ClientRank, ServerRank;
  }

  lemma ServerSendRank(x: Setup, st: State)
    requires !ServerReads(st.s.pc) && !st.s.pc.S_Done? && !st.s.pc.S_Failed?
    ensures
      var t := ServerSend(x, st);
      ServerRank(t.s.pc) < ServerRank(st.s.pc) && t.s.read == st.s.read && |t.s.buf| <= |st.s.buf| + 6 && t.c == st.c
  {
    hide ClientScript, ServerScript;
  }

  lemma ServerRecvWorks(x: Setup, st: State)
    requires Inv(x, st) && ServerReads(st.s.pc) && st.toServer != []
    ensures 0 <= Work(x, ServerRecv(st)) < Work(x, st)
  {
    ServerRecvKeeps(x, st);
    WorkLeft(x, ServerRecv(st));
    ServerRecvRank(x, st);
    hide ClientScript, ServerScript, Inv, ServerRecv, ClientRank, ServerRank;
  }

  lemma ServerRecvRank(x: Setup, st: State)
    requires ServerReads(st.s.pc) && st.toServer != []
    ensures
      var t := ServerRecv(st);
      ServerRank(t.s.pc) <= ServerRank(st.s.pc) + 2 && t.s.read == st.s.read + 1 && |t.s.buf| <= |st.s.buf| && t.c == st.c
  {
    hide ClientScript, ServerScript;
  }

  lemma {:induction false} RunWorks(x: Setup, st: State, run: seq<Step>)
    requires Inv(x, st) && CanRun(x, st, run)
    ensures 0 <= Work(x, RunFrom(x, st, run)) && |run| <= Work(x, st) - Work(x, RunFrom(x, st, run))
    decreases |run|
  {
    if run == [] {
      WorkLeft(x, st);
    } else {
      StepWorks(x, st, run[0]);
      StepKeeps(x, st, run[0]);
      RunWorks(x, Next(x, st, run[0]), run[1..]);
    }
  }

  /** Every run is finite, and one that cannot be extended has both sides done
      and agreeing on what is published and on the stream id 1. A refusal
      (PubPlayErr) makes no difference: the client does not notice it. */
  lemma Agreement(x: Setup, run: seq<Step>)
    requires CanRun(x, Init, run)
    ensures |run| <= Work(x, Init)
    ensures
      var st := RunFrom(x, Init, run);
      !Enabled(st, ClientStep) && !Enabled(st, ServerStep) ==>
        && st.c.pc.C_Done? && st.s.pc.S_Done? && st.c.stage == st.s.stage == COMMAND_DONE
        && st.c.publishing == st.s.publishing == x.publish && st.c.avmsgsid == st.s.avmsgsid == 1
  {
    InitInv(x);
    RunKeeps(x, Init, run);
    RunWorks(x, Init, run);
    SomeoneMoves(x, RunFrom(x, Init, run));
    Lengths(x);
    hide ClientScript, ServerScript;
  }

  /** Stage never goes back, and every iteration of Prepare, which ends where a
      stage is set, leaves it higher. */
  lemma StageRises(x: Setup, st: State, a: Step)
    requires Inv(x, st) && Enabled(st, a)
    ensures st.c.stage <= Next(x, st, a).c.stage && st.s.stage <= Next(x, st, a).s.stage
    ensures a.ClientStep? && (st.c.pc.C_SendC2? || Next(x, st, a).c.pc.C_Done?) ==> st.c.stage < Next(x, st, a).c.stage
    ensures a.ServerStep? && (st.s.pc.S_RecvC2? || Next(x, st, a).s.pc.S_SendResult? || st.s.pc.S_FlushResult?) ==>
      st.s.stage < Next(x, st, a).s.stage
  {
    StepKeeps(x, st, a);
    hide ClientScript, ServerScript, StreamsOk;
    match a
    case ClientStep => ClientStageRises(x, st, a);
    case ServerStep => ServerStageRises(x, st, a);
    case _ =>
  }

  lemma ClientStageRises(x: Setup, st: State, a: Step)
    requires ClientOk(x, st.c) && a.ClientStep? && Enabled(st, a) && ClientOk(x, Next(x, st, a).c)
    ensures st.c.stage <= Next(x, st, a).c.stage && st.s == Next(x, st, a).s
    ensures st.c.pc.C_SendC2? || Next(x, st, a).c.pc.C_Done? ==> st.c.stage < Next(x, st, a).c.stage
  {
    hide ClientScript, ServerScript, ClientReadOk;
  }

  lemma ServerStageRises(x: Setup, st: State, a: Step)
    requires ServerOk(x, st.s) && a.ServerStep? && Enabled(st, a) && ServerOk(x, Next(x, st, a).s)
    ensures st.s.stage <= Next(x, st, a).s.stage && st.c == Next(x, st, a).c
    ensures st.s.pc.S_RecvC2? || Next(x, st, a).s.pc.S_SendResult? || st.s.pc.S_FlushResult? ==> st.s.stage < Next(x, st, a).s.stage
  {
    hide ClientScript, ServerScript;
  }
}
