/**
 * The TCP link of `tcp/tcp_server.c` and `tcp/tcp_client.c` as interleaved steps: the server task, the server's
 * send task, the client task, the client's send task, and whoever fills the two send queues.
 */
module TcpLink {
  import opened CTypes
  import opened Wrappers

  const COMMINIT: UInt32 := 1
  const COMMACK: UInt32 := 2
  const COMMNACK: UInt32 := 3

  /** The commands of application messages. */
  type AppCmd = c: UInt32 | c != COMMINIT && c != COMMACK && c != COMMNACK witness 4

  /** Application messages carry the number under which they were queued. */
  datatype Message = CommInit | CommAck | CommNack | App(number: nat, cmd: AppCmd)

  function Id(m: Message): UInt32 {
    match m
    case CommInit => COMMINIT
    case CommAck => COMMACK
    case CommNack => COMMNACK
    case App(_, cmd) => cmd
  }

  /** One byte on the wire: byte `index` of `msg`, or a byte of the memory beyond a message variable. */
  datatype Octet = Octet(msg: Message, index: nat) | Foreign(value: Byte)

  /** `cmd_id`, four bytes, follows the 8-byte time stamp of `socket_message_t`. */
  const CMD_OFFSET: nat := 8
  const CMD_END: nat := 12

  type Size = n: nat | n >= CMD_END witness 16

  function Whole(m: Message, n: Size): seq<Octet> {
    seq(n, i requires 0 <= i < n => Octet(m, i))
  }

  /** Byte `k` of a little-endian number. */
  function ByteOf(x: UInt32, k: nat): Byte {
    match k
    case 0 => x % 0x100
    case 1 => x / 0x100 % 0x100
    case 2 => x / 0x100 / 0x100 % 0x100
    case _ => x / 0x100 / 0x100 / 0x100
  }

  /** The bytes of `cmd_id` have a value; no run takes a command from any other byte of a message. */
  function Value(o: Octet): Byte {
    match o
    case Octet(m, i) => if CMD_OFFSET <= i < CMD_END then ByteOf(Id(m), i - CMD_OFFSET) else 0
    case Foreign(v) => v
  }

  /** The command a receive buffer is taken for. */
  function Command(buffer: seq<Octet>): UInt32
    requires |buffer| >= CMD_END
  {
    Value(buffer[8]) + 0x100 * Value(buffer[9]) + 0x1_0000 * Value(buffer[10]) + 0x100_0000 * Value(buffer[11])
  }

  // ---------------------------------------------------------------- state

  /** One side of a connection: the bytes it sent, the messages they begin, and how much it read of the other side's. */
  datatype End = End(sent: seq<Octet>, begun: seq<Message>, read: nat, closed: bool)

  const NEW_END: End := End([], [], 0, false)

  datatype SendPc = Starting | Waiting | Holding(msg: Message) | Sending(msg: Message, written: nat)

  /** A send task keeps the socket it was started with. */
  datatype SendTask = SendTask(conn: nat, pc: SendPc)

  datatype ServerPc = Accepting | Receiving | Acking(written: nat) | Nacking(written: nat) | StopProcess | StopSend

  datatype Server = Server(
    pc: ServerPc,
    accepted: nat,                    // connections accepted so far; the last one is being served
    connected: bool,                  // commstate == CONNECTED
    buffer: seq<Octet>,               // the receive buffer `message`
    sendTasks: map<nat, SendTask>,    // every send task alive
    sendHandle: Option<nat>,
    processTasks: set<nat>,
    processHandle: Option<nat>,
    nextTask: nat,
    queue: seq<Message>,
    queued: nat)                      // messages queued so far

  datatype ClientPc = Closed | Initiating(written: nat) | AwaitingAck | Running

  datatype Client = Client(pc: ClientPc, task: Option<SendPc>, buffer: seq<Octet>, queue: seq<Message>, queued: nat)

  /** Connection `i` has its two sides in `clientEnds[i]` and `serverEnds[i]`; the client uses the newest one. */
  datatype StateData = StateData(size: Size, clientEnds: seq<End>, serverEnds: seq<End>, server: Server, client: Client)

  ghost predicate Sized(s: StateData) {
    |s.clientEnds| == |s.serverEnds| && |s.server.buffer| == s.size && |s.client.buffer| == s.size
  }

  /** Before the first connection; whole receives overwrite what the buffers hold here. */
  function Init(n: Size): (s: StateData)
    ensures Sized(s)
  {
    StateData(n, [], [],
              Server(Accepting, 0, false, Whole(CommNack, n), map[], None, {}, None, 0, [], 0),
              Client(Closed, None, Whole(CommNack, n), [], 0))
  }

  type State = s: StateData | Sized(s) ghost witness Init(16)

  // ---------------------------------------------------------------- socket calls

  /** `send` takes the bytes `chunk` of a message of which `w` bytes were taken before. */
  function Send(e: End, m: Message, w: nat, chunk: seq<Octet>): End {
    e.(sent := e.sent + chunk, begun := if w == 0 && chunk != [] then e.begun + [m] else e.begun)
  }

  /** `send((uint8_t *)&message + w, ...)`. */
  function Chunk(m: Message, w: nat, k: nat, n: Size): seq<Octet>
    requires w + k <= n
  {
    Whole(m, n)[w..w + k]
  }

  /**
   * `send((uint8_t *)(&message + w), ...)`: the addition counts in messages, so only a first call finds the message
   * and a resumed one finds `memory` from beyond it.
   */
  function Beyond(m: Message, w: nat, memory: seq<Byte>, n: Size): (c: seq<Octet>)
    requires w + |memory| <= n
    ensures |c| == |memory|
  {
    if w == 0 then Whole(m, n)[..|memory|]
    else seq(|memory|, i requires 0 <= i < |memory| => Foreign(memory[i]))
  }

  function Unread(mine: End, peer: End): int {
    |peer.sent| - mine.read
  }

  /** `recv` with MSG_WAITALL returns a whole message, or less when the other side has closed. */
  predicate CanReceive(mine: End, peer: End, n: Size) {
    Unread(mine, peer) >= n || (peer.closed && Unread(mine, peer) > 0)
  }

  function ReceiveLength(mine: End, peer: End, n: Size): (k: nat)
    requires CanReceive(mine, peer, n)
    ensures 0 < k <= n && mine.read + k <= |peer.sent|
  {
    if Unread(mine, peer) >= n then n else Unread(mine, peer)
  }

  /** The buffer after a `recv`; what the bytes received do not cover keeps its old content. */
  function Receive(mine: End, peer: End, buffer: seq<Octet>, n: Size): (b: seq<Octet>)
    requires CanReceive(mine, peer, n) && |buffer| == n
    ensures |b| == n
  {
    var k := ReceiveLength(mine, peer, n);
    peer.sent[mine.read..mine.read + k] + buffer[k..]
  }

  function AfterReceive(mine: End, peer: End, n: Size): End
    requires CanReceive(mine, peer, n)
  {
    mine.(read := mine.read + ReceiveLength(mine, peer, n))
  }

  // ---------------------------------------------------------------- steps

  datatype Action =
    // server task
    | Accept
    | ServerRecv
    | ServerRecvEnd
    | AckSend(memory: seq<Byte>)
    | AckDone
    | NackSend(memory: seq<Byte>)
    | NackDone
    | DeleteProcessTask
    | DeleteSendTask
    // server send task `id`
    | TaskReset(id: nat)
    | TaskPop(id: nat)
    | TaskCheck(id: nat)
    | TaskSend(id: nat, k: nat)
    // client task and client send task
    | Connect
    | InitSend(k: nat)
    | ClientRecvAck
    | ClientRecv
    | ClientClose
    | ClientTaskReset
    | ClientTaskPop
    | ClientTaskSend(memory: seq<Byte>)
    // queue users
    | ServerQueue(cmd: AppCmd)
    | ServerQueueReset
    | ClientQueue(cmd: AppCmd)
    | ClientQueueReset

  /** Creates the process task and the send task and turns the receive buffer into the COMMACK to send. */
  function StartWorkers(v: Server, n: Size): Server
    requires v.accepted > 0
  {
    var id := v.nextTask;
    v.(pc := Acking(0), buffer := Whole(CommAck, n), nextTask := id + 1,
       processTasks := v.processTasks + {id}, processHandle := Some(id),
       sendTasks := v.sendTasks[id := SendTask(v.accepted - 1, Starting)], sendHandle := Some(id))
  }

  /** A received message in the server's buffer: handshake, refusal, or a message for the receive queue. */
  function Dispatch(v: Server, n: Size): (v': Server)
    requires v.accepted > 0 && |v.buffer| == n
    ensures |v'.buffer| == n
  {
    if Command(v.buffer) != COMMINIT then v
    else if !v.connected then StartWorkers(v, n)
    else v.(pc := Nacking(0), buffer := Whole(CommNack, n))
  }

  /** The server task on its side of the connection being served; None when the action is not enabled. */
  function ServerStep(v: Server, mine: End, peer: End, n: Size, a: Action): (r: Option<(Server, End)>)
    requires v.accepted > 0 && |v.buffer| == n
    ensures r.Some? ==> |r.value.0.buffer| == n
  {
    match a
    case ServerRecv =>
      if v.pc.Receiving? && CanReceive(mine, peer, n) then
        Some((Dispatch(v.(buffer := Receive(mine, peer, v.buffer, n)), n), AfterReceive(mine, peer, n)))
      else None
    case ServerRecvEnd =>
      if v.pc.Receiving? then Some((v.(pc := StopProcess), mine.(closed := true))) else None
    case AckSend(memory) =>
      if v.pc.Acking? && v.pc.written < n && v.pc.written + |memory| <= n then
        Some((v.(pc := Acking(v.pc.written + |memory|)),
              Send(mine, CommAck, v.pc.written, Beyond(CommAck, v.pc.written, memory, n))))
      else None
    case AckDone =>
      if v.pc == Acking(n) then Some((v.(pc := Receiving, connected := true), mine)) else None
    case NackSend(memory) =>
      if v.pc.Nacking? && v.pc.written < n && v.pc.written + |memory| <= n then
        Some((v.(pc := Nacking(v.pc.written + |memory|)),
              Send(mine, CommNack, v.pc.written, Beyond(CommNack, v.pc.written, memory, n))))
      else None
    case NackDone =>
      if v.pc == Nacking(n) then Some((v.(pc := Receiving), mine)) else None
    case DeleteProcessTask =>
      if v.pc.StopProcess? then
        Some((v.(pc := StopSend, processHandle := None,
                 processTasks := if v.processHandle.Some? then v.processTasks - {v.processHandle.value}
                                 else v.processTasks), mine))
      else None
    case DeleteSendTask =>
      if v.pc.StopSend? then
        Some((v.(pc := Accepting, connected := false, sendHandle := None,
                 sendTasks := if v.sendHandle.Some? then v.sendTasks - {v.sendHandle.value}
                              else v.sendTasks), mine))
      else None
    case _ => None
  }

  function SetTask(v: Server, id: nat, pc: SendPc): Server
    requires id in v.sendTasks
  {
    v.(sendTasks := v.sendTasks[id := v.sendTasks[id].(pc := pc)])
  }

  /** Server send task `id` on its side of its connection. On a closed socket `send` fails and the message is lost. */
  function TaskStep(v: Server, id: nat, mine: End, n: Size, a: Action): (r: Option<(Server, End)>)
    requires id in v.sendTasks
    ensures r.Some? ==> r.value.0.buffer == v.buffer
  {
    var pc := v.sendTasks[id].pc;
    match a
    case TaskReset(_) =>
      if pc.Starting? then Some((SetTask(v, id, Waiting).(queue := []), mine)) else None
    case TaskPop(_) =>
      if pc.Waiting? && v.queue != [] then
        Some((SetTask(v, id, Holding(v.queue[0])).(queue := v.queue[1..]), mine))
      else None
    case TaskCheck(_) =>
      if pc.Holding? then Some((SetTask(v, id, if v.connected then Sending(pc.msg, 0) else Waiting), mine)) else None
    case TaskSend(_, k) =>
      if !pc.Sending? then None
      else if mine.closed then Some((SetTask(v, id, Waiting), mine))
      else if pc.written + k <= n then
        Some((SetTask(v, id, if pc.written + k == n then Waiting else Sending(pc.msg, pc.written + k)),
              Send(mine, pc.msg, pc.written, Chunk(pc.msg, pc.written, k, n))))
      else None
    case _ => None
  }

  /** The client task and its send task on their side of the client's connection. */
  function ClientStep(w: Client, mine: End, peer: End, n: Size, a: Action): (r: Option<(Client, End)>)
    requires |w.buffer| == n
    ensures r.Some? ==> |r.value.0.buffer| == n
  {
    match a
    case InitSend(k) =>
      if w.pc.Initiating? && w.pc.written + k <= n then
        Some((w.(pc := if w.pc.written + k == n then AwaitingAck else Initiating(w.pc.written + k)),
              Send(mine, CommInit, w.pc.written, Chunk(CommInit, w.pc.written, k, n))))
      else None
    case ClientRecvAck =>
      if w.pc.AwaitingAck? && CanReceive(mine, peer, n) then
        var got := w.(buffer := Receive(mine, peer, w.buffer, n));
        var after := AfterReceive(mine, peer, n);
        if Command(got.buffer) == COMMACK then Some((got.(pc := Running, task := Some(Starting)), after))
        else Some((got.(pc := Closed), after.(closed := true)))
      else None
    case ClientRecv =>
      if w.pc.Running? && CanReceive(mine, peer, n) then
        Some((w.(buffer := Receive(mine, peer, w.buffer, n)), AfterReceive(mine, peer, n)))
      else None
    case ClientClose =>
      if w.pc.AwaitingAck? || w.pc.Running? then Some((w.(pc := Closed, task := None), mine.(closed := true)))
      else None
    case ClientTaskReset =>
      if w.task == Some(Starting) then Some((w.(queue := [], task := Some(Waiting)), mine)) else None
    case ClientTaskPop =>
      if w.task == Some(Waiting) && w.queue != [] then
        Some((w.(queue := w.queue[1..], task := Some(Sending(w.queue[0], 0))), mine))
      else None
    case ClientTaskSend(memory) =>
      if w.task.Some? && w.task.value.Sending? && w.task.value.written + |memory| <= n then
        var pc := w.task.value;
        var now := pc.written + |memory|;
        Some((w.(task := Some(if now == n then Waiting else Sending(pc.msg, now))),
              Send(mine, pc.msg, pc.written, Beyond(pc.msg, pc.written, memory, n))))
      else None
    case _ => None
  }

  /** Steps of the two send queues' users. */
  predicate IsQueueAction(a: Action) {
    a.ServerQueue? || a.ServerQueueReset? || a.ClientQueue? || a.ClientQueueReset?
  }

  predicate IsTaskAction(a: Action) {
    a.TaskReset? || a.TaskPop? || a.TaskCheck? || a.TaskSend?
  }

  predicate IsServerAction(a: Action) {
    || a.ServerRecv? || a.ServerRecvEnd? || a.AckSend? || a.AckDone? || a.NackSend? || a.NackDone?
    || a.DeleteProcessTask? || a.DeleteSendTask?
  }

  function QueueStep(s: State, a: Action): State
    requires IsQueueAction(a)
  {
    var v, w := s.server, s.client;
    match a
    case ServerQueue(cmd) => s.(server := v.(queue := v.queue + [App(v.queued, cmd)], queued := v.queued + 1))
    case ServerQueueReset => s.(server := v.(queue := []))
    case ClientQueue(cmd) => s.(client := w.(queue := w.queue + [App(w.queued, cmd)], queued := w.queued + 1))
    case ClientQueueReset => s.(client := w.(queue := []))
  }

  /** One step of the whole link; None when the action is not enabled. */
  function Step(s: State, a: Action): Option<State> {
    var v, w := s.server, s.client;
    if IsQueueAction(a) then Some(QueueStep(s, a))
    else if a.Connect? then
      if !w.pc.Closed? then None
      else Some(s.(clientEnds := s.clientEnds + [NEW_END], serverEnds := s.serverEnds + [NEW_END],
                   client := w.(pc := Initiating(0), buffer := Whole(CommInit, s.size))))
    else if a.Accept? then
      if !v.pc.Accepting? || v.accepted >= |s.serverEnds| then None
      else Some(s.(server := v.(pc := Receiving, accepted := v.accepted + 1)))
    else if IsServerAction(a) then
      if !(0 < v.accepted <= |s.serverEnds|) then None
      else
        var i := v.accepted - 1;
        match ServerStep(v, s.serverEnds[i], s.clientEnds[i], s.size, a)
        case None => None
        case Some((v', e)) => Some(s.(server := v', serverEnds := s.serverEnds[i := e]))
    else if IsTaskAction(a) then
      if a.id !in v.sendTasks || v.sendTasks[a.id].conn >= |s.serverEnds| then None
      else
        var i := v.sendTasks[a.id].conn;
        match TaskStep(v, a.id, s.serverEnds[i], s.size, a)
        case None => None
        case Some((v', e)) => Some(s.(server := v', serverEnds := s.serverEnds[i := e]))
    else
      var i := |s.clientEnds| - 1;
      if i < 0 then None
      else
        match ClientStep(w, s.clientEnds[i], s.serverEnds[i], s.size, a)
        case None => None
        case Some((w', e)) => Some(s.(client := w', clientEnds := s.clientEnds[i := e]))
  }

  /** The state after a sequence of actions; None when one of them is not enabled. */
  function Run(n: Size, actions: seq<Action>): Option<State> {
    if actions == [] then Some(Init(n))
    else
      var before := Run(n, actions[..|actions| - 1]);
      if before.None? then None else Step(before.value, actions[|actions| - 1])
  }
}
