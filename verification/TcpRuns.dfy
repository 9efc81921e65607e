/** Runs of the TCP link: the link comes up, and each of the conditions of its safety can fail. */
module TcpRuns {
  import opened CTypes
  import opened TcpLink
  import opened Wrappers
  import opened TcpFraming
  import opened TcpSafety

  lemma RunMore(n: Size, actions: seq<Action>, a: Action)
    requires Run(n, actions).Some?
    ensures Run(n, actions + [a]) == Step(Run(n, actions).value, a)
  {
    hide Step;
    assert (actions + [a])[..|actions|] == actions;
  }

  lemma RunConnect(n: Size, actions: seq<Action>)
    requires Run(n, actions).Some? && Run(n, actions).value.client.pc.Closed?
    ensures
      var s := Run(n, actions).value;
      Run(n, actions + [Connect]) ==
      Some(s.(clientEnds := s.clientEnds + [NEW_END], serverEnds := s.serverEnds + [NEW_END],
              client := s.client.(pc := Initiating(0), buffer := Whole(CommInit, s.size))))
  {
    hide Run, Whole;
    RunMore(n, actions, Connect);
  }

  lemma RunAccept(n: Size, actions: seq<Action>)
    requires Run(n, actions).Some? && Run(n, actions).value.server.pc.Accepting?
    requires Run(n, actions).value.server.accepted < |Run(n, actions).value.serverEnds|
    ensures
      var s := Run(n, actions).value;
      Run(n, actions + [Accept]) == Some(s.(server := s.server.(pc := Receiving, accepted := s.server.accepted + 1)))
  {
    hide Run;
    RunMore(n, actions, Accept);
  }

  lemma RunQueue(n: Size, actions: seq<Action>, a: Action)
    requires Run(n, actions).Some? && IsQueueAction(a)
    ensures Run(n, actions + [a]) == Some(QueueStep(Run(n, actions).value, a))
  {
    hide Run, QueueStep;
    RunMore(n, actions, a);
  }

  lemma RunServer(n: Size, actions: seq<Action>, a: Action)
    requires Run(n, actions).Some? && IsServerAction(a)
    requires
      var s := Run(n, actions).value;
      var i := s.server.accepted - 1;
      0 <= i < |s.serverEnds| && ServerStep(s.server, s.serverEnds[i], s.clientEnds[i], s.size, a).Some?
    ensures
      var s := Run(n, actions).value;
      var i := s.server.accepted - 1;
      var (v, e) := ServerStep(s.server, s.serverEnds[i], s.clientEnds[i], s.size, a).value;
      && |v.buffer| == s.size
      && Run(n, actions + [a]) == Some(s.(server := v, serverEnds := s.serverEnds[i := e]))
  {
    hide Run, ServerStep;
    RunMore(n, actions, a);
  }

  lemma RunTask(n: Size, actions: seq<Action>, a: Action)
    requires Run(n, actions).Some? && IsTaskAction(a)
    requires
      var s := Run(n, actions).value;
      && a.id in s.server.sendTasks && s.server.sendTasks[a.id].conn < |s.serverEnds|
      && TaskStep(s.server, a.id, s.serverEnds[s.server.sendTasks[a.id].conn], s.size, a).Some?
    ensures
      var s := Run(n, actions).value;
      var i := s.server.sendTasks[a.id].conn;
      var (v, e) := TaskStep(s.server, a.id, s.serverEnds[i], s.size, a).value;
      && |v.buffer| == s.size
      && Run(n, actions + [a]) == Some(s.(server := v, serverEnds := s.serverEnds[i := e]))
  {
    hide Run, TaskStep;
    RunMore(n, actions, a);
  }

  lemma RunClient(n: Size, actions: seq<Action>, a: Action)
    requires Run(n, actions).Some? && !IsQueueAction(a) && !IsServerAction(a) && !IsTaskAction(a)
    requires !a.Connect? && !a.Accept?
    requires
      var s := Run(n, actions).value;
      var i := |s.clientEnds| - 1;
      i >= 0 && ClientStep(s.client, s.clientEnds[i], s.serverEnds[i], s.size, a).Some?
    ensures
      var s := Run(n, actions).value;
      var i := |s.clientEnds| - 1;
      var (w, e) := ClientStep(s.client, s.clientEnds[i], s.serverEnds[i], s.size, a).value;
      && |w.buffer| == s.size
      && Run(n, actions + [a]) == Some(s.(client := w, clientEnds := s.clientEnds[i := e]))
  {
    hide Run, ClientStep;
    RunMore(n, actions, a);
  }

  lemma EventNow(n: Size, actions: seq<Action>, a: Action, e: Event)
    requires Run(n, actions).Some? && Occurs(Run(n, actions).value, a, e)
    ensures Ever(n, actions + [a], e)
  {
    hide Run, Occurs;
    assert (actions + [a])[..|actions|] == actions;
    assert OccursAt(n, actions + [a], |actions|, e);
  }

  lemma EventStays(n: Size, actions: seq<Action>, a: Action, e: Event)
    requires Ever(n, actions, e)
    ensures Ever(n, actions + [a], e)
  {
    hide Run, Occurs;
    var j: nat :| j < |actions| && OccursAt(n, actions, j, e);
    assert (actions + [a])[..j] == actions[..j];
    assert OccursAt(n, actions + [a], j, e);
  }

  function Zeros(n: nat): seq<Byte> {
    seq(n, _ => 0)
  }

  lemma SendAll(e: End, m: Message, n: Size)
    requires e.sent == [] && e.begun == []
    ensures Send(e, m, 0, Chunk(m, 0, n, n)) == e.(sent := Whole(m, n), begun := [m])
    ensures Send(e, m, 0, Beyond(m, 0, Zeros(n), n)) == e.(sent := Whole(m, n), begun := [m])
  {
    assert Whole(m, n)[0..n] == Whole(m, n) && [] + Whole(m, n) == Whole(m, n);
  }

  lemma ReceiveAll(mine: End, peer: End, m: Message, buffer: seq<Octet>, n: Size)
    requires mine.read == 0 && peer.sent == Whole(m, n) && |buffer| == n
    ensures CanReceive(mine, peer, n) && ReceiveLength(mine, peer, n) == n
    ensures Receive(mine, peer, buffer, n) == Whole(m, n)
  {}

  /** The client has sent COMMINIT and the server has accepted the connection. */
  lemma Accepted(n: Size) returns (actions: seq<Action>)
    ensures Run(n, actions).Some?
    ensures
      var s := Run(n, actions).value;
      && s.size == n && s.clientEnds == [End(Whole(CommInit, n), [CommInit], 0, false)] && s.serverEnds == [NEW_END]
      && s.server == Init(n).server.(pc := Receiving, accepted := 1) && s.client.pc == AwaitingAck
  {
    hide Whole, Run, Step, Chunk, Send;
    SendAll(NEW_END, CommInit, n);
    FirstState(n);
    RunConnect(n, []);
    RunClient(n, [] + [Connect], InitSend(n));
    RunAccept(n, [] + [Connect] + [InitSend(n)]);
    actions := [] + [Connect] + [InitSend(n)] + [Accept];
    assert Run(n, actions).value.clientEnds == [End(Whole(CommInit, n), [CommInit], 0, false)];
  }

  /** The server has received COMMINIT and is about to answer. */
  lemma Asked(n: Size) returns (actions: seq<Action>)
    ensures Run(n, actions).Some?
    ensures
      var s := Run(n, actions).value;
      && s.size == n && s.clientEnds == [End(Whole(CommInit, n), [CommInit], 0, false)]
      && s.serverEnds == [End([], [], n, false)]
      && s.server.pc == Acking(0) && s.server.accepted == 1 && !s.server.connected
      && s.server.buffer == Whole(CommAck, n)
      && s.server.sendTasks == map[0 := SendTask(0, Starting)] && s.server.sendHandle == Some(0)
      && s.client.pc == AwaitingAck
  {
    actions := Accepted(n);
    hide Whole, Command, Run, Step, Receive, ReceiveLength;
    WholeCommand(CommInit, n);
    WholeLength(CommNack, n);
    ReceiveAll(NEW_END, End(Whole(CommInit, n), [CommInit], 0, false), CommInit, Whole(CommNack, n), n);
    RunServer(n, actions, ServerRecv);
    actions := actions + [ServerRecv];
  }

  lemma FirstState(n: Size)
    ensures Run(n, []) == Some(Init(n))
  {}

  /** The handshake can complete: both sides reach the connected state. */
  lemma LinkComesUp(n: Size) returns (actions: seq<Action>)
    ensures Run(n, actions).Some?
    ensures
      var s := Run(n, actions).value;
      && s.size == n && s.clientEnds == [End(Whole(CommInit, n), [CommInit], n, false)]
      && s.serverEnds == [End(Whole(CommAck, n), [CommAck], n, false)]
      && s.server.pc == Receiving && s.server.accepted == 1 && s.server.connected
      && s.server.buffer == Whole(CommAck, n) && s.client.buffer == Whole(CommAck, n)
      && s.server.sendTasks == map[0 := SendTask(0, Starting)] && s.server.sendHandle == Some(0)
      && s.client.pc == Running && s.client.task == Some(Starting)
  {
    actions := Asked(n);
    hide Whole, Command, Run, Step, Chunk, Beyond, Send, Receive, ReceiveLength;
    var s := Run(n, actions).value;
    WholeCommand(CommAck, n);
    SendAll(s.serverEnds[0], CommAck, n);
    RunServer(n, actions, AckSend(Zeros(n)));
    RunServer(n, actions + [AckSend(Zeros(n))], AckDone);
    actions := actions + [AckSend(Zeros(n))] + [AckDone];
    s := Run(n, actions).value;
    ReceiveAll(s.clientEnds[0], s.serverEnds[0], CommAck, s.client.buffer, n);
    RunClient(n, actions, ClientRecvAck);
    actions := actions + [ClientRecvAck];
  }

  // ---------------------------------------------------------------- sends in two parts

  /** A message of which one byte and then memory from beyond it is sent. */
  function Split(m: Message, memory: seq<Byte>, n: Size): (b: seq<Octet>)
    requires |memory| == n - 1
    ensures |b| == n
  {
    Whole(m, n)[..1] + Beyond(m, 1, memory, n)
  }

  lemma SendSplit(e: End, m: Message, memory: seq<Byte>, n: Size)
    requires |memory| == n - 1
    ensures
      var one := Send(e, m, 0, Beyond(m, 0, [0], n));
      && one == e.(sent := e.sent + Whole(m, n)[..1], begun := e.begun + [m])
      && Send(one, m, 1, Beyond(m, 1, memory, n)) == e.(sent := e.sent + Split(m, memory, n), begun := e.begun + [m])
  {
    assert (e.sent + Whole(m, n)[..1]) + Beyond(m, 1, memory, n) == e.sent + Split(m, memory, n);
  }

  /** The command of such a message is four bytes of that memory. */
  lemma SplitCommand(m: Message, memory: seq<Byte>, n: Size)
    requires |memory| == n - 1
    ensures Command(Split(m, memory, n)) == Number(memory[7], memory[8], memory[9], memory[10])
  {
    var b := Split(m, memory, n);
    assert b[8] == Foreign(memory[7]) && b[9] == Foreign(memory[8]);
    assert b[10] == Foreign(memory[9]) && b[11] == Foreign(memory[10]);
  }

  lemma ReceiveNext(mine: End, peer: End, before: seq<Octet>, next: seq<Octet>, buffer: seq<Octet>, n: Size)
    requires mine.read == |before| && peer.sent == before + next && |next| == n == |buffer|
    ensures CanReceive(mine, peer, n) && ReceiveLength(mine, peer, n) == n
    ensures Receive(mine, peer, buffer, n) == next
  {}

  /** COMMACK has been sent in two parts. */
  lemma Answered(n: Size, memory: seq<Byte>) returns (actions: seq<Action>)
    requires |memory| == n - 1
    ensures Run(n, actions).Some? && Ever(n, actions, AckResumed(0))
    ensures
      var s := Run(n, actions).value;
      && s.size == n && s.clientEnds == [End(Whole(CommInit, n), [CommInit], 0, false)]
      && s.serverEnds == [End(Split(CommAck, memory, n), [CommAck], n, false)]
      && s.server.connected && s.client.pc == AwaitingAck
  {
    actions := Asked(n);
    hide Whole, Run, Step, Send, Beyond, Ever, Split;
    var e := Run(n, actions).value.serverEnds[0];
    SendSplit(e, CommAck, memory, n);
    RunServer(n, actions, AckSend([0]));
    actions := actions + [AckSend([0])];
    RunServer(n, actions, AckSend(memory));
    EventNow(n, actions, AckSend(memory), AckResumed(0));
    actions := actions + [AckSend(memory)];
    RunServer(n, actions, AckDone);
    EventStays(n, actions, AckDone, AckResumed(0));
    actions := actions + [AckDone];
    assert e.sent + Split(CommAck, memory, n) == Split(CommAck, memory, n) && e.begun + [CommAck] == [CommAck];
    assert Run(n, actions).value.serverEnds == [End(Split(CommAck, memory, n), [CommAck], n, false)];
  }

  /**
   * A first `send` of COMMACK that takes one byte: the rest comes from beyond the message, and unless that memory
   * happens to hold the number of COMMACK the client closes while the server takes itself for connected.
   */
  lemma SplitAck(n: Size, memory: seq<Byte>) returns (actions: seq<Action>)
    requires |memory| == n - 1 && Number(memory[7], memory[8], memory[9], memory[10]) != COMMACK
    ensures Run(n, actions).Some? && Ever(n, actions, AckResumed(0))
    ensures
      var s := Run(n, actions).value;
      s.server.connected && s.client.pc == Closed && s.serverEnds != [] && !Framed(s.serverEnds[0], n)
  {
    actions := Answered(n, memory);
    hide Whole, Command, Run, Step, Receive, ReceiveLength, Ever, Framed, Number, Split;
    var s := Run(n, actions).value;
    SplitCommand(CommAck, memory, n);
    assert [] + Split(CommAck, memory, n) == Split(CommAck, memory, n);
    ReceiveNext(s.clientEnds[0], s.serverEnds[0], [], Split(CommAck, memory, n), s.client.buffer, n);
    RunClient(n, actions, ClientRecvAck);
    EventStays(n, actions, ClientRecvAck, AckResumed(0));
    actions := actions + [ClientRecvAck];
    DownFramedIff(n, actions, 0);
  }

  /** The client has taken an application message with command `cmd` from its queue. */
  lemma Speaking(n: Size, cmd: AppCmd) returns (actions: seq<Action>, m: Message)
    ensures Run(n, actions).Some? && m.App? && m.cmd == cmd
    ensures
      var s := Run(n, actions).value;
      && s.size == n && s.clientEnds == [End(Whole(CommInit, n), [CommInit], n, false)]
      && s.serverEnds == [End(Whole(CommAck, n), [CommAck], n, false)]
      && s.server.pc == Receiving && s.server.accepted == 1 && s.server.connected
      && s.server.buffer == Whole(CommAck, n)
      && s.server.sendTasks == map[0 := SendTask(0, Starting)] && s.server.sendHandle == Some(0)
      && s.client.pc == Running && s.client.task == Some(Sending(m, 0))
  {
    actions := LinkComesUp(n);
    hide Whole, Run, Step;
    RunClient(n, actions, ClientTaskReset);
    actions := actions + [ClientTaskReset];
    m := App(Run(n, actions).value.client.queued, cmd);
    RunQueue(n, actions, ClientQueue(cmd));
    actions := actions + [ClientQueue(cmd)];
    RunClient(n, actions, ClientTaskPop);
    actions := actions + [ClientTaskPop];
  }

  /** An application message has been sent in two parts. */
  lemma Spoken(n: Size, cmd: AppCmd, memory: seq<Byte>) returns (actions: seq<Action>, m: Message)
    requires |memory| == n - 1
    ensures Run(n, actions).Some? && Ever(n, actions, UpResumed(0))
    ensures
      var s := Run(n, actions).value;
      && s.size == n
      && s.clientEnds == [End(Whole(CommInit, n) + Split(m, memory, n), [CommInit] + [m], n, false)]
      && s.serverEnds == [End(Whole(CommAck, n), [CommAck], n, false)]
      && s.server.pc == Receiving && s.server.accepted == 1 && s.server.connected && s.client.pc == Running
  {
    actions, m := Speaking(n, cmd);
    hide Whole, Run, Step, Send, Beyond, Ever, Split;
    SendSplit(Run(n, actions).value.clientEnds[0], m, memory, n);
    RunClient(n, actions, ClientTaskSend([0]));
    actions := actions + [ClientTaskSend([0])];
    RunClient(n, actions, ClientTaskSend(memory));
    EventNow(n, actions, ClientTaskSend(memory), UpResumed(0));
    actions := actions + [ClientTaskSend(memory)];
  }

  /**
   * A first `send` of an application message that takes one byte: memory beyond it that holds the number of COMMINIT
   * makes the connected server refuse the client, which is still running.
   */
  lemma SplitMessage(n: Size, cmd: AppCmd, memory: seq<Byte>) returns (actions: seq<Action>)
    requires |memory| == n - 1 && Number(memory[7], memory[8], memory[9], memory[10]) == COMMINIT
    ensures Run(n, actions).Some? && Ever(n, actions, UpResumed(0))
    ensures Run(n, actions).value.server.pc == Nacking(0) && Run(n, actions).value.client.pc == Running
  {
    var m;
    actions, m := Spoken(n, cmd, memory);
    hide Whole, Command, Run, Step, Receive, ReceiveLength, Ever, Number, Split;
    var s := Run(n, actions).value;
    WholeLength(CommInit, n);
    SplitCommand(m, memory, n);
    ReceiveNext(s.serverEnds[0], s.clientEnds[0], Whole(CommInit, n), Split(m, memory, n), s.server.buffer, n);
    RunServer(n, actions, ServerRecv);
    EventStays(n, actions, ServerRecv, UpResumed(0));
    actions := actions + [ServerRecv];
  }

  // ---------------------------------------------------------------- messages cut off

  lemma ReceiveCut(mine: End, peer: End, before: seq<Octet>, m: Message, k: nat, buffer: seq<Octet>, n: Size)
    requires 0 < k < n == |buffer| && peer.closed && mine.read == |before| && peer.sent == before + Whole(m, n)[..k]
    ensures CanReceive(mine, peer, n) && Unread(mine, peer) == ReceiveLength(mine, peer, n) == k
    ensures Command(Receive(mine, peer, buffer, n)) == Mixed(Id(m), Command(buffer), CommandBytes(k))
  {
    hide Command, Mixed;
    assert Receive(mine, peer, buffer, n) == Whole(m, n)[..k] + buffer[k..];
    CutCommand(m, buffer, k, n);
  }

  const LOG_MESSAGE: AppCmd := 0x5001

  /** The client has closed after `k` bytes of its first application message. */
  lemma Hung(n: Size, cmd: AppCmd, k: nat) returns (actions: seq<Action>, m: Message)
    requires 0 < k < n
    ensures Run(n, actions).Some? && m.App? && m.cmd == cmd
    ensures
      var s := Run(n, actions).value;
      && s.size == n
      && s.clientEnds == [End(Whole(CommInit, n) + Whole(m, n)[..k], [CommInit] + [m], n, true)]
      && s.serverEnds == [End(Whole(CommAck, n), [CommAck], n, false)]
      && s.server.pc == Receiving && s.server.accepted == 1 && s.server.connected
      && s.server.buffer == Whole(CommAck, n)
      && s.server.sendTasks == map[0 := SendTask(0, Starting)] && s.server.sendHandle == Some(0)
  {
    actions, m := Speaking(n, cmd);
    hide Whole, Run, Step, Send, Beyond;
    WholeLength(m, n);
    FirstCall(m, Zeros(k), n);
    SendSome(Run(n, actions).value.clientEnds[0], m, k, n);
    RunClient(n, actions, ClientTaskSend(Zeros(k)));
    actions := actions + [ClientTaskSend(Zeros(k))];
    RunClient(n, actions, ClientClose);
    actions := actions + [ClientClose];
  }

  lemma NineBytes(n: Size, m: Message)
    requires m.App? && m.cmd == LOG_MESSAGE
    ensures
      var mine := End(Whole(CommAck, n), [CommAck], n, false);
      var peer := End(Whole(CommInit, n) + Whole(m, n)[..9], [CommInit] + [m], n, true);
      && |Whole(CommAck, n)| == n
      && CanReceive(mine, peer, n) && Unread(mine, peer) == ReceiveLength(mine, peer, n) == 9
      && Command(Receive(mine, peer, Whole(CommAck, n), n)) == COMMINIT
  {
    hide Whole, Command, Receive, ReceiveLength, Mixed;
    WholeLength(CommInit, n);
    WholeLength(m, n);
    WholeCommand(CommAck, n);
    ReceiveCut(End(Whole(CommAck, n), [CommAck], n, false),
               End(Whole(CommInit, n) + Whole(m, n)[..9], [CommInit] + [m], n, true),
               Whole(CommInit, n), m, 9, Whole(CommAck, n), n);
    MixedIsInit(LOG_MESSAGE, COMMACK, 1);
  }

  /**
   * A client that closes after nine bytes of a LOG_MESSAGE is refused: the last byte received and the three that are
   * left of COMMACK read COMMINIT.
   */
  lemma CutMessage(n: Size) returns (actions: seq<Action>)
    ensures Run(n, actions).Some? && Ever(n, actions, CommandCut(0))
    ensures
      var s := Run(n, actions).value;
      && s.size == n && s.server.pc == Nacking(0) && s.server.accepted == 1 && s.server.connected
      && s.server.sendTasks == map[0 := SendTask(0, Starting)] && s.server.sendHandle == Some(0)
      && s.serverEnds == [End(Whole(CommAck, n), [CommAck], n + 9, false)]
  {
    var m;
    actions, m := Hung(n, LOG_MESSAGE, 9);
    hide Whole, Command, Run, Step, Receive, ReceiveLength, Ever;
    NineBytes(n, m);
    RunServer(n, actions, ServerRecv);
    EventNow(n, actions, ServerRecv, CommandCut(0));
    actions := actions + [ServerRecv];
  }

  // ---------------------------------------------------------------- a refusal that breaks the server's stream

  /** COMMNACK in two parts. */
  lemma SplitRefusal(n: Size) returns (actions: seq<Action>)
    ensures Run(n, actions).Some? && Ever(n, actions, NackResumed(0))
    ensures Run(n, actions).value.serverEnds != [] && !Framed(Run(n, actions).value.serverEnds[0], n)
  {
    actions := CutMessage(n);
    hide Whole, Run, Step, Ever, Framed, Send;
    RunServer(n, actions, NackSend([0]));
    actions := actions + [NackSend([0])];
    RunServer(n, actions, NackSend([0]));
    EventNow(n, actions, NackSend([0]), NackResumed(0));
    actions := actions + [NackSend([0])];
    DownFramedIff(n, actions, 0);
  }

  /** An application message begun by the send task after one byte of COMMNACK. */
  lemma OverlappingWriters(n: Size, cmd: AppCmd) returns (actions: seq<Action>)
    ensures Run(n, actions).Some? && Ever(n, actions, Overlapped(0))
    ensures Run(n, actions).value.serverEnds != [] && !Framed(Run(n, actions).value.serverEnds[0], n)
  {
    actions := CutMessage(n);
    hide Whole, Run, Step, Ever, Framed, Send;
    RunTask(n, actions, TaskReset(0));
    actions := actions + [TaskReset(0)];
    RunQueue(n, actions, ServerQueue(cmd));
    actions := actions + [ServerQueue(cmd)];
    RunTask(n, actions, TaskPop(0));
    actions := actions + [TaskPop(0)];
    RunTask(n, actions, TaskCheck(0));
    actions := actions + [TaskCheck(0)];
    RunServer(n, actions, NackSend([0]));
    actions := actions + [NackSend([0])];
    RunTask(n, actions, TaskSend(0, 1));
    EventNow(n, actions, TaskSend(0, 1), Overlapped(0));
    actions := actions + [TaskSend(0, 1)];
    DownFramedIff(n, actions, 0);
  }

  lemma SendSome(e: End, m: Message, k: nat, n: Size)
    requires 0 < k <= n
    ensures Send(e, m, 0, Chunk(m, 0, k, n)) == e.(sent := e.sent + Whole(m, n)[..k], begun := e.begun + [m])
  {}

  /** The server's send task has taken an application message with command `cmd` from its queue. */
  lemma Answering(n: Size, cmd: AppCmd) returns (actions: seq<Action>, m: Message)
    ensures Run(n, actions).Some? && m.App? && m.cmd == cmd
    ensures
      var s := Run(n, actions).value;
      && s.size == n && s.clientEnds == [End(Whole(CommInit, n), [CommInit], n, false)]
      && s.serverEnds == [End(Whole(CommAck, n), [CommAck], n, false)]
      && s.server.pc == Receiving && s.server.accepted == 1
      && s.server.sendTasks == map[0 := SendTask(0, Sending(m, 0))]
      && s.client.pc == Running && s.client.buffer == Whole(CommAck, n)
  {
    actions := LinkComesUp(n);
    hide Whole, Run, Step;
    RunTask(n, actions, TaskReset(0));
    actions := actions + [TaskReset(0)];
    m := App(Run(n, actions).value.server.queued, cmd);
    RunQueue(n, actions, ServerQueue(cmd));
    actions := actions + [ServerQueue(cmd)];
    RunTask(n, actions, TaskPop(0));
    actions := actions + [TaskPop(0)];
    RunTask(n, actions, TaskCheck(0));
    actions := actions + [TaskCheck(0)];
  }

  /** A server that closes after eight bytes of its first application message leaves the client with another COMMACK. */
  lemma CutAnswer(n: Size, cmd: AppCmd) returns (actions: seq<Action>)
    ensures Run(n, actions).Some?
    ensures
      var s := Run(n, actions).value;
      && s.client.pc == Running && Command(s.client.buffer) == COMMACK
      && s.clientEnds != [] && s.clientEnds[0].read > n
  {
    var m;
    actions, m := Answering(n, cmd);
    hide Whole, Command, Run, Step, Send, Chunk, Receive, ReceiveLength, Ever, Mixed;
    var s := Run(n, actions).value;
    WholeLength(CommAck, n);
    WholeLength(m, n);
    WholeCommand(CommAck, n);
    SendSome(s.serverEnds[0], m, 8, n);
    var peer := End(Whole(CommAck, n) + Whole(m, n)[..8], [CommAck] + [m], n, true);
    ReceiveCut(s.clientEnds[0], peer, Whole(CommAck, n), m, 8, s.client.buffer, n);
    MixedNone(cmd, COMMACK);
    RunTask(n, actions, TaskSend(0, 8));
    actions := actions + [TaskSend(0, 8)];
    RunServer(n, actions, ServerRecvEnd);
    actions := actions + [ServerRecvEnd];
    RunClient(n, actions, ClientRecv);
    actions := actions + [ClientRecv];
  }

  lemma MixedNone(low: UInt32, high: UInt32)
    ensures Mixed(low, high, 0) == high
  {}
}
