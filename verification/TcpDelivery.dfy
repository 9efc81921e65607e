/** What the two receive loops of the TCP link get: handshake, application messages, refusal. */
module TcpDelivery {
  import opened CTypes
  import opened TcpLink
  import opened Wrappers
  import opened TcpFraming
  import opened TcpServerSide
  import opened TcpClientSide
  import opened TcpSafety

  // ---------------------------------------------------------------- order of what is sent

  /** A side sent whole messages, the last one possibly cut: `first`, and then the application's in queue order. */
  ghost predicate SentInOrder(e: End, n: Size, first: Message) {
    && e.sent <= Wholes(e.begun, n)
    && (e.begun != [] ==> Wholes(Front(e.begun), n) <= e.sent && e.begun[0] == first)
    && (forall j, k :: 1 <= j < k < |e.begun| && e.begun[j].App? && e.begun[k].App? ==>
          Ticket(e.begun[j]) < Ticket(e.begun[k]))
  }

  lemma TailRising(ms: seq<Message>)
    requires Rising(Tail(ms))
    ensures forall j, k :: 1 <= j < k < |ms| && ms[j].App? && ms[k].App? ==> Ticket(ms[j]) < Ticket(ms[k])
  {
    assert forall j :: 1 <= j < |ms| ==> ms[j] == Tail(ms)[j - 1];
  }

  lemma SideInOrder(e: End, n: Size, first: Message, hi: nat)
    requires Framed(e, n) && Ordered(Tail(e.begun), hi) && (e.begun != [] ==> e.begun[0] == first)
    ensures SentInOrder(e, n, first)
  {
    hide Framed, Wholes;
    FramedIsPrefix(e, n);
    TailRising(e.begun);
  }

  /**
   * In every run, a connection's bytes from the server are one COMMACK and then whole application messages in queue
   * order, with refusals between them, as long as nothing has broken its stream.
   */
  lemma DownStreamInOrder(n: Size, actions: seq<Action>, i: nat)
    requires Run(n, actions).Some? && i < |Run(n, actions).value.serverEnds| && !DownBroken(n, actions, i)
    ensures
      var e := Run(n, actions).value.serverEnds[i];
      SentInOrder(e, n, CommAck) && forall j :: 1 <= j < |e.begun| ==> e.begun[j].App? || e.begun[j] == CommNack
  {
    hide Framed, Run, DownBroken, Sound, Ordered, SentInOrder;
    DownFramedIff(n, actions, i);
    RunSound(n, actions);
    var s := Run(n, actions).value;
    SoundParts(s);
    assert DownOrder(s.serverEnds[i], s.server.queued);
    SideInOrder(s.serverEnds[i], n, CommAck, s.server.queued);
  }

  /** The client's bytes are one COMMINIT and then whole application messages in queue order. */
  lemma UpStreamInOrder(n: Size, actions: seq<Action>, i: nat)
    requires Run(n, actions).Some? && i < |Run(n, actions).value.clientEnds| && !Ever(n, actions, UpResumed(i))
    ensures
      var e := Run(n, actions).value.clientEnds[i];
      SentInOrder(e, n, CommInit) && forall j :: 1 <= j < |e.begun| ==> e.begun[j].App?
  {
    hide Framed, Run, Ever, Sound, Ordered, SentInOrder;
    UpFramedIff(n, actions, i);
    RunSound(n, actions);
    var s := Run(n, actions).value;
    SoundParts(s);
    assert UpOrder(s.clientEnds[i], s.client.queued);
    SideInOrder(s.clientEnds[i], n, CommInit, s.client.queued);
    var begun := s.clientEnds[i].begun;
    assert forall j :: 1 <= j < |begun| ==> begun[j] == Tail(begun)[j - 1];
  }

  // ---------------------------------------------------------------- the first message of a connection

  /** A server that is not connected has read nothing of the connection it serves. */
  ghost predicate IdleUnread(s: State) {
    var v := s.server;
    0 < v.accepted <= |s.serverEnds| && v.pc.Receiving? && !v.connected ==> s.serverEnds[v.accepted - 1].read == 0
  }

  /** What an idle server can receive is a whole COMMINIT. */
  lemma FirstReceive(s: State)
    requires ClientShape(s) && IdleUnread(s) && 0 < s.server.accepted <= |s.serverEnds|
    requires s.server.pc.Receiving? && !s.server.connected
    requires CanReceive(s.serverEnds[s.server.accepted - 1], s.clientEnds[s.server.accepted - 1], s.size)
    ensures
      var i := s.server.accepted - 1;
      && ReceiveLength(s.serverEnds[i], s.clientEnds[i], s.size) == s.size
      && Receive(s.serverEnds[i], s.clientEnds[i], s.server.buffer, s.size) == Whole(CommInit, s.size)
  {
    WholeLength(CommInit, s.size);
    hide Whole, Open;
    var peer := s.clientEnds[s.server.accepted - 1];
    assert Whole(CommInit, s.size) <= peer.sent;
  }

  lemma IdleUnreadKeeps(s: State, a: Action)
    requires Sound(s) && IdleUnread(s) && Step(s, a).Some?
    ensures IdleUnread(Step(s, a).value)
  {
    hide Step, DownOrders, UpOrders, Whole, Command, Calling, OnePair, NoPair, OneSender, AllApps, PcOk;
    if IsServerAction(a) || IsTaskAction(a) {
      StepServed(s, a);
      if IsTaskAction(a) { ServedEnds(s, a); }
      if a.ServerRecv? && !s.server.connected {
        FirstReceive(s);
        WholeCommand(CommInit, s.size);
      }
    } else {
      StepElsewhere(s, a);
    }
  }

  lemma {:induction false} RunIdleUnread(n: Size, actions: seq<Action>)
    requires Run(n, actions).Some?
    ensures IdleUnread(Run(n, actions).value)
    decreases |actions|
  {
    hide Step, Sound, Ever, Occurs, IdleUnread;
    if actions == [] {
      InitIdle(n);
    } else {
      RunSplits(n, actions);
      RunIdleUnread(n, actions[..|actions| - 1]);
      RunSound(n, actions[..|actions| - 1]);
      IdleUnreadKeeps(Run(n, actions[..|actions| - 1]).value, actions[|actions| - 1]);
    }
  }

  lemma InitIdle(n: Size)
    ensures IdleUnread(Init(n))
  {}

  // ---------------------------------------------------------------- what the server has read

  /** A reader is between two messages, behind at least one, or at the end of a closed stream. */
  ghost predicate Reading(mine: End, peer: End, n: Size) {
    || (exists r: nat :: r >= 1 && ReadAt(peer, n, mine.read, r))
    || (peer.closed && mine.read == |peer.sent|)
  }

  ghost predicate ServerReads(s: State, i: nat) {
    s.server.accepted == i + 1 <= |s.serverEnds|
    && (s.server.pc.Acking? || s.server.pc.Nacking? || (s.server.pc.Receiving? && s.server.connected)) ==>
      Reading(s.serverEnds[i], s.clientEnds[i], s.size)
  }

  lemma ReadingStays(mine: End, peer: End, mine': End, peer': End, n: Size)
    requires Reading(mine, peer, n) && mine'.read == mine.read && peer.begun <= peer'.begun
    requires peer.closed ==> peer'.closed && peer'.sent == peer.sent
    ensures Reading(mine', peer', n)
  {
    if r: nat :| r >= 1 && ReadAt(peer, n, mine.read, r) {
      assert peer'.begun[..r] == peer.begun[..r];
      assert ReadAt(peer', n, mine'.read, r);
    }
  }

  /** Receiving the first or a later message of a framed stream. */
  lemma ReadingOn(mine: End, peer: End, n: Size) returns (r: nat)
    requires Framed(peer, n) && CanReceive(mine, peer, n) && (mine.read == 0 || Reading(mine, peer, n))
    ensures r < |peer.begun| && (r >= 1 <==> Reading(mine, peer, n))
    ensures
      var k := ReceiveLength(mine, peer, n);
      peer.sent[mine.read..mine.read + k] == Whole(peer.begun[r], n)[..k]
    ensures Reading(AfterReceive(mine, peer, n), peer, n)
    ensures ReceiveLength(mine, peer, n) == n ==> ReadAt(peer, n, mine.read + n, r + 1)
  {
    hide Framed, Wholes;
    if Reading(mine, peer, n) {
      r :| r >= 1 && ReadAt(peer, n, mine.read, r);
    } else {
      r := 0;
      assert peer.begun[..0] == [];
      EmptyWholes(n);
    }
    NextMessage(mine, peer, n, r);
  }

  lemma EmptyWholes(n: Size)
    ensures Wholes([], n) == []
  {}

  lemma ServerReadsKeeps(s: State, a: Action, i: nat)
    requires Sound(s) && IdleUnread(s) && UpOk(s, i) && ServerReads(s, i) && Step(s, a).Some?
    ensures ServerReads(Step(s, a).value, i)
  {
    hide Step, DownOrders, UpOrders, Calling, Whole, Command, Framed, Reading, Serving, Send, PenOpen;
    var v := s.server;
    if v.accepted != i + 1 {
      OthersAccepted(s, a);
    } else if IsServerAction(a) || IsTaskAction(a) {
      ServerReadsOn(s, a);
    } else {
      StepElsewhere(s, a);
      PeerMoves(s, a, i);
      var s' := Step(s, a).value;
      if Reading(s.serverEnds[i], s.clientEnds[i], s.size) {
        ReadingStays(s.serverEnds[i], s.clientEnds[i], s'.serverEnds[i], s'.clientEnds[i], s.size);
      }
    }
  }

  /** Accepting is the only way to another connection, and nothing is read then. */
  lemma OthersAccepted(s: State, a: Action)
    requires Sound(s) && Step(s, a).Some?
    ensures
      var v' := Step(s, a).value.server;
      v'.accepted == s.server.accepted || (v'.pc.Receiving? && !v'.connected)
  {
    hide Step, DownOrders, ClientShape, UpOrders, Served;
    if IsServerAction(a) || IsTaskAction(a) {
      ServedEnds(s, a);
      StepServed(s, a);
    } else {
      StepElsewhere(s, a);
    }
  }

  /** A step that is not the server's moves the client's side of a connection only while it is open. */
  lemma PeerMoves(s: State, a: Action, i: nat)
    requires Sound(s) && Step(s, a).Some? && i < |s.clientEnds|
    ensures
      var s' := Step(s, a).value;
      && i < |s'.clientEnds| && s.clientEnds[i].begun <= s'.clientEnds[i].begun
      && (s.clientEnds[i].closed ==> s'.clientEnds[i].closed && s'.clientEnds[i].sent == s.clientEnds[i].sent)
  {
    hide Step, Shape, DownOrders, UpOrders, Calling, Called;
    SentGrows(s, a, i);
    if IsClientAction(a) {
      StepCalled(s, a);
      OpenWhileCalled(s, a);
    } else {
      StepNotCalled(s, a);
    }
  }

  /** The server's own steps. */
  lemma ServerReadsOn(s: State, a: Action)
    requires Sound(s) && IdleUnread(s) && s.server.accepted > 0 && UpOk(s, s.server.accepted - 1)
    requires ServerReads(s, s.server.accepted - 1)
    requires Step(s, a).Some? && (IsServerAction(a) || IsTaskAction(a))
    ensures ServerReads(Step(s, a).value, s.server.accepted - 1)
  {
    hide Step, DownOrders, UpOrders, Calling, Whole, Command, Framed, Reading, Serving, Send, PenOpen, ReceiveLength;
    var i := s.server.accepted - 1;
    StepServed(s, a);
    var mine, peer := s.serverEnds[i], s.clientEnds[i];
    var mine' := Served(s, a).value.1;
    if a.ServerRecv? {
      if !s.server.connected {
        FirstReceive(s);
        WholeCommand(CommInit, s.size);
      }
      var r := ReadingOn(mine, peer, s.size);
    } else {
      if IsTaskAction(a) { ServedEnds(s, a); }
      assert mine'.read == mine.read by { ReadOnlyMovesOnRecv(s, a); }
      if Reading(mine, peer, s.size) {
        ReadingStays(mine, peer, mine', peer, s.size);
      }
    }
  }

  lemma ReadOnlyMovesOnRecv(s: State, a: Action)
    requires 0 < s.server.accepted <= |s.serverEnds| && Served(s, a).Some? && !a.ServerRecv?
    ensures Served(s, a).value.1.read == s.serverEnds[s.server.accepted - 1].read
  {}

  lemma {:induction false} RunServerReads(n: Size, actions: seq<Action>, i: nat)
    requires Run(n, actions).Some? && !Ever(n, actions, UpResumed(i))
    ensures ServerReads(Run(n, actions).value, i)
    decreases |actions|
  {
    hide Step, Sound, Ever, Occurs, IdleUnread, ServerReads, UpOk;
    if actions == [] {
      InitServerReads(n, i);
    } else {
      var before := actions[..|actions| - 1];
      RunSplits(n, actions);
      RunServerReads(n, before, i);
      RunSound(n, before);
      RunIdleUnread(n, before);
      UpHistory(n, before, i);
      ServerReadsKeeps(Run(n, before).value, actions[|actions| - 1], i);
    }
  }

  lemma InitServerReads(n: Size, i: nat)
    ensures ServerReads(Init(n), i)
  {}

  // ---------------------------------------------------------------- what the server receives

  /** The command in the server's buffer is never a COMMINIT that has been dealt with. */
  ghost predicate Handled(s: State) {
    var v := s.server;
    && (v.pc.Receiving? && v.connected ==> Command(v.buffer) != COMMINIT)
    && (v.pc.Acking? ==> Command(v.buffer) == COMMACK)
    && (v.pc.Nacking? ==> Command(v.buffer) == COMMNACK)
  }

  lemma HandledKeeps(s: State, a: Action)
    requires Sound(s) && Handled(s) && Step(s, a).Some?
    ensures Handled(Step(s, a).value)
  {
    hide Step, DownOrders, UpOrders, ClientShape, Whole, Command, Receive, OnePair, NoPair, OneSender, AllApps, PcOk;
    WholeCommand(CommAck, s.size);
    WholeCommand(CommNack, s.size);
    if IsServerAction(a) || IsTaskAction(a) {
      StepServed(s, a);
      if IsTaskAction(a) { ServedEnds(s, a); }
    } else {
      StepElsewhere(s, a);
    }
  }

  lemma {:induction false} RunHandled(n: Size, actions: seq<Action>)
    requires Run(n, actions).Some?
    ensures Handled(Run(n, actions).value)
    decreases |actions|
  {
    hide Step, Sound, Ever, Occurs, Handled;
    if actions == [] {
      InitHandled(n);
    } else {
      RunSplits(n, actions);
      RunHandled(n, actions[..|actions| - 1]);
      RunSound(n, actions[..|actions| - 1]);
      HandledKeeps(Run(n, actions[..|actions| - 1]).value, actions[|actions| - 1]);
    }
  }

  lemma InitHandled(n: Size)
    ensures Handled(Init(n))
  {}

  /** A receive loop in the middle of a connection, `k` bytes of message `m` being next. */
  ghost predicate Delivers(mine: End, peer: End, n: Size, m: Message, k: nat) {
    && CanReceive(mine, peer, n) && k == ReceiveLength(mine, peer, n)
    && m in peer.begun && peer.sent[mine.read..mine.read + k] == Whole(m, n)[..k]
  }

  lemma ServerReceives(s: State) returns (m: Message, k: nat)
    requires Sound(s) && 0 < s.server.accepted <= |s.serverEnds|
    requires IdleUnread(s) && UpOk(s, s.server.accepted - 1) && ServerReads(s, s.server.accepted - 1)
    requires s.server.pc.Receiving?
    requires CanReceive(s.serverEnds[s.server.accepted - 1], s.clientEnds[s.server.accepted - 1], s.size)
    ensures Delivers(s.serverEnds[s.server.accepted - 1], s.clientEnds[s.server.accepted - 1], s.size, m, k)
    ensures if s.server.connected then m.App? else m == CommInit && k == s.size
  {
    hide Shape, DownOrders, Calling, Whole, Framed, ReceiveLength, Reading, PenOpen, Ordered;
    var i := s.server.accepted - 1;
    var mine, peer := s.serverEnds[i], s.clientEnds[i];
    k := ReceiveLength(mine, peer, s.size);
    var r := ReadingOn(mine, peer, s.size);
    m := peer.begun[r];
    assert UpOrder(peer, s.client.queued);
    if s.server.connected {
      assert m == Tail(peer.begun)[r - 1];
    } else {
      FirstReceive(s);
      FirstIsInit(mine, peer, s.server.buffer, m, s.size);
    }
  }

  lemma FirstIsInit(mine: End, peer: End, buffer: seq<Octet>, m: Message, n: Size)
    requires CanReceive(mine, peer, n) && ReceiveLength(mine, peer, n) == n && |buffer| == n
    requires peer.sent[mine.read..mine.read + n] == Whole(m, n)[..n]
    requires Receive(mine, peer, buffer, n) == Whole(CommInit, n)
    ensures m == CommInit
  {
    var b := Receive(mine, peer, buffer, n);
    assert b == Whole(m, n)[..n] + buffer[n..];
    assert b[0] == Octet(m, 0) && b[0] == Octet(CommInit, 0);
  }

  lemma DeliveredCommand(mine: End, peer: End, buffer: seq<Octet>, n: Size, m: Message, k: nat)
    requires |buffer| == n && Delivers(mine, peer, n, m, k)
    ensures Command(Receive(mine, peer, buffer, n)) == Mixed(Id(m), Command(buffer), CommandBytes(k))
  {
    hide Command, Mixed, Whole, ReceiveLength;
    CutCommand(m, buffer, k, n);
  }

  /** The server's receive loop can go on. */
  ghost predicate Serviceable(s: State) {
    && s.server.pc.Receiving? && 0 < s.server.accepted <= |s.serverEnds|
    && CanReceive(s.serverEnds[s.server.accepted - 1], s.clientEnds[s.server.accepted - 1], s.size)
  }

  /**
   * In every run, a server that is not connected receives nothing but a whole COMMINIT, and answers it: whenever
   * anything else arrives, the server is connected.
   */
  lemma ConnectedWhenAppArrives(n: Size, actions: seq<Action>)
    requires Run(n, actions).Some? && Serviceable(Run(n, actions).value) && !Run(n, actions).value.server.connected
    ensures
      var s := Run(n, actions).value;
      var mine, peer := s.serverEnds[s.server.accepted - 1], s.clientEnds[s.server.accepted - 1];
      && s.size == n && mine.read == 0 && ReceiveLength(mine, peer, n) == n
      && Receive(mine, peer, s.server.buffer, n) == Whole(CommInit, n)
      && Step(s, ServerRecv).Some? && Step(s, ServerRecv).value.server.pc == Acking(0)
  {
    hide Run, Sound, IdleUnread, Receive, ReceiveLength;
    RunSound(n, actions);
    RunIdleUnread(n, actions);
    DownHistory(n, actions, 0);
    var s := Run(n, actions).value;
    SoundParts(s);
    IdleReceives(s);
  }

  lemma IdleReceives(s: State)
    requires ClientShape(s) && IdleUnread(s) && Serviceable(s) && !s.server.connected
    ensures
      var mine, peer := s.serverEnds[s.server.accepted - 1], s.clientEnds[s.server.accepted - 1];
      && mine.read == 0 && ReceiveLength(mine, peer, s.size) == s.size
      && Receive(mine, peer, s.server.buffer, s.size) == Whole(CommInit, s.size)
      && Step(s, ServerRecv).Some? && Step(s, ServerRecv).value.server.pc == Acking(0)
  {
    hide ClientShape, Whole, Command, Receive, ReceiveLength;
    FirstReceive(s);
    WholeCommand(CommInit, s.size);
  }

  /**
   * On a connection on which the client never went on with a partial send, a connected server receives application
   * messages only.
   */
  lemma ConnectedGetsApps(n: Size, actions: seq<Action>) returns (m: Message, k: nat)
    requires Run(n, actions).Some? && Serviceable(Run(n, actions).value) && Run(n, actions).value.server.connected
    requires !Ever(n, actions, UpResumed(Run(n, actions).value.server.accepted - 1))
    ensures
      var s := Run(n, actions).value;
      && Delivers(s.serverEnds[s.server.accepted - 1], s.clientEnds[s.server.accepted - 1], s.size, m, k) && m.App?
  {
    hide Run, Sound, Ever, IdleUnread, ServerReads, UpOk, Delivers, CanReceive;
    var i := Run(n, actions).value.server.accepted - 1;
    RunSound(n, actions);
    RunIdleUnread(n, actions);
    UpHistory(n, actions, i);
    RunServerReads(n, actions, i);
    m, k := ServerReceives(Run(n, actions).value);
  }

  /**
   * On such a connection, a receive makes a connected server refuse the client exactly when it is cut off inside
   * `cmd_id` and the bytes received, under those left from the message before, happen to read COMMINIT.
   */
  lemma RefusedIff(n: Size, actions: seq<Action>) returns (m: Message, k: nat)
    requires Run(n, actions).Some? && Serviceable(Run(n, actions).value) && Run(n, actions).value.server.connected
    requires !Ever(n, actions, UpResumed(Run(n, actions).value.server.accepted - 1))
    ensures
      var s := Run(n, actions).value;
      && Delivers(s.serverEnds[s.server.accepted - 1], s.clientEnds[s.server.accepted - 1], s.size, m, k) && m.App?
      && Step(s, ServerRecv).Some?
      && (Step(s, ServerRecv).value.server.pc.Nacking? <==>
            && CMD_OFFSET < k < CMD_END
            && m.cmd % Radix(k - CMD_OFFSET) == COMMINIT && Command(s.server.buffer) < Radix(k - CMD_OFFSET))
  {
    m, k := ConnectedGetsApps(n, actions);
    RunHandled(n, actions);
    hide Run, Ever, Delivers;
    RefusesIff(Run(n, actions).value, m, k);
  }

  lemma RefusesIff(s: State, m: Message, k: nat)
    requires s.server.pc.Receiving? && s.server.connected && 0 < s.server.accepted <= |s.serverEnds|
    requires Delivers(s.serverEnds[s.server.accepted - 1], s.clientEnds[s.server.accepted - 1], s.size, m, k) && m.App?
    requires Handled(s)
    ensures Step(s, ServerRecv).Some?
    ensures Step(s, ServerRecv).value.server.pc.Nacking? <==>
              && CMD_OFFSET < k < CMD_END
              && m.cmd % Radix(k - CMD_OFFSET) == COMMINIT && Command(s.server.buffer) < Radix(k - CMD_OFFSET)
  {
    hide Command, Mixed, Whole, Receive, ReceiveLength;
    var i := s.server.accepted - 1;
    DeliveredCommand(s.serverEnds[i], s.clientEnds[i], s.server.buffer, s.size, m, k);
    var j := CommandBytes(k);
    if j < 4 {
      MixedIsInit(m.cmd, Command(s.server.buffer), j);
    } else {
      MixedAll(m.cmd, Command(s.server.buffer));
    }
  }

  lemma MixedAll(low: UInt32, high: UInt32)
    ensures Mixed(low, high, 4) == low
  {}

  // ---------------------------------------------------------------- when the client is refused

  /** The server has refused nobody on connection `i`. */
  ghost predicate NotRefused(s: State, i: nat) {
    && (s.server.accepted == i + 1 ==> !s.server.pc.Nacking?)
    && (i < |s.serverEnds| ==> CommNack !in s.serverEnds[i].begun)
  }

  lemma NotRefusedKeeps(s: State, a: Action, i: nat)
    requires Sound(s) && IdleUnread(s) && Handled(s) && UpOk(s, i) && ServerReads(s, i) && Step(s, a).Some?
    requires NotRefused(s, i) && !Occurs(s, a, CommandCut(i))
    ensures NotRefused(Step(s, a).value, i)
  {
    hide Step, Sound, Handled, UpOk, ServerReads, IdleUnread;
    SoundParts(s);
    if s.server.accepted == i + 1 && (IsServerAction(a) || IsTaskAction(a)) {
      if a.ServerRecv? && s.server.connected {
        NotRefusedOn(s, a);
      } else {
        NotRefusedElse(s, a);
      }
    } else {
      OthersAccepted(s, a);
      SoundElse(s, a, i);
    }
  }

  lemma NotRefusedOn(s: State, a: Action)
    requires Sound(s) && IdleUnread(s) && Handled(s) && 0 < s.server.accepted <= |s.serverEnds| && Step(s, a).Some?
    requires UpOk(s, s.server.accepted - 1) && ServerReads(s, s.server.accepted - 1)
    requires a.ServerRecv? && s.server.connected && !Occurs(s, a, CommandCut(s.server.accepted - 1))
    requires NotRefused(s, s.server.accepted - 1)
    ensures NotRefused(Step(s, a).value, s.server.accepted - 1)
  {
    hide Sound, Handled, UpOk, ServerReads, IdleUnread, Command, Receive;
    var m, k := ServerReceives(s);
    RefusesIff(s, m, k);
  }

  lemma NotRefusedElse(s: State, a: Action)
    requires Shape(s) && DownOrders(s) && s.server.accepted > 0 && Step(s, a).Some?
    requires (IsServerAction(a) || IsTaskAction(a)) && (a.ServerRecv? ==> !s.server.connected)
    requires NotRefused(s, s.server.accepted - 1)
    ensures NotRefused(Step(s, a).value, s.server.accepted - 1)
  {
    hide Step, DownOrders, Whole, Command, Receive, OnePair, NoPair, OneSender, AllApps;
    StepServed(s, a);
    if IsTaskAction(a) { SenderIsCurrent(s, a.id); }
  }

  /** A step elsewhere begins nothing on connection `i`. */
  lemma SoundElse(s: State, a: Action, i: nat)
    requires Shape(s) && Step(s, a).Some?
    requires s.server.accepted != i + 1 || (!IsServerAction(a) && !IsTaskAction(a))
    ensures
      var s' := Step(s, a).value;
      && (i < |s.serverEnds| ==> i < |s'.serverEnds| && s'.serverEnds[i] == s.serverEnds[i])
      && (|s.serverEnds| <= i < |s'.serverEnds| ==> s'.serverEnds[i] == NEW_END)
      && (s'.server.pc == s.server.pc || s'.server.pc.Receiving? || s'.server.accepted != i + 1)
  {
    hide Step, Served;
    if IsServerAction(a) || IsTaskAction(a) {
      StepServed(s, a);
      ServedEnds(s, a);
    } else {
      StepElsewhere(s, a);
    }
  }

  lemma {:induction false} RunNotRefused(n: Size, actions: seq<Action>, i: nat)
    requires Run(n, actions).Some? && !Ever(n, actions, UpResumed(i)) && !Ever(n, actions, CommandCut(i))
    ensures NotRefused(Run(n, actions).value, i)
    decreases |actions|
  {
    hide Step, Sound, Ever, Occurs, IdleUnread, ServerReads, UpOk, Handled, NotRefused;
    if actions == [] {
      InitNotRefused(n, i);
    } else {
      var before := actions[..|actions| - 1];
      RunSplits(n, actions);
      RunNotRefused(n, before, i);
      RunSound(n, before);
      RunIdleUnread(n, before);
      RunHandled(n, before);
      UpHistory(n, before, i);
      RunServerReads(n, before, i);
      NotRefusedKeeps(Run(n, before).value, actions[|actions| - 1], i);
    }
  }

  lemma InitNotRefused(n: Size, i: nat)
    ensures NotRefused(Init(n), i)
  {}

  lemma EverBefore(n: Size, actions: seq<Action>, j: nat, e: Event)
    requires j <= |actions| && Ever(n, actions[..j], e)
    ensures Ever(n, actions, e)
  {
    hide Run, Occurs;
    var k: nat :| k < j && OccursAt(n, actions[..j], k, e);
    assert actions[..j][..k] == actions[..k];
    assert OccursAt(n, actions, k, e);
  }

  /**
   * A client is refused on a connection only if its send task went on with a partial send or a receive was cut off
   * inside `cmd_id`. Otherwise the server's stream is framed if and only if its COMMACK was never sent in two parts.
   */
  lemma RefusedOnlyIf(n: Size, actions: seq<Action>, i: nat)
    requires Run(n, actions).Some? && !Ever(n, actions, UpResumed(i)) && !Ever(n, actions, CommandCut(i))
    ensures NotRefused(Run(n, actions).value, i)
    ensures !Ever(n, actions, NackResumed(i)) && !Ever(n, actions, Overlapped(i))
    ensures i < |Run(n, actions).value.serverEnds| ==>
              (Framed(Run(n, actions).value.serverEnds[i], n) <==> !Ever(n, actions, AckResumed(i)))
  {
    RunNotRefused(n, actions, i);
    forall e | e == NackResumed(i) || e == Overlapped(i) ensures !Ever(n, actions, e) {
      if Ever(n, actions, e) {
        var j: nat :| j < |actions| && OccursAt(n, actions, j, e);
        NoRefusalEvent(n, actions, j, i, e);
        assert false;
      }
    }
    hide Run, Framed, Ever;
    if i < |Run(n, actions).value.serverEnds| {
      DownFramedIff(n, actions, i);
    }
  }

  lemma NoRefusalEvent(n: Size, actions: seq<Action>, j: nat, i: nat, e: Event)
    requires j < |actions| && !Ever(n, actions, UpResumed(i)) && !Ever(n, actions, CommandCut(i))
    requires e == NackResumed(i) || e == Overlapped(i)
    ensures !OccursAt(n, actions, j, e)
  {
    hide Run, Ever;
    if OccursAt(n, actions, j, e) {
      if Ever(n, actions[..j], UpResumed(i)) { EverBefore(n, actions, j, UpResumed(i)); }
      if Ever(n, actions[..j], CommandCut(i)) { EverBefore(n, actions, j, CommandCut(i)); }
      RunNotRefused(n, actions[..j], i);
    }
  }

  // ---------------------------------------------------------------- the handshake

  /** How many bytes of COMMACK were sent before the first resumed send; all of them if there was none. */
  ghost predicate AckStory(n: Size, actions: seq<Action>, s: State, i: nat, w: nat) {
    && s.size == n && 0 < w <= n
    && (i < |s.serverEnds| ==> AckUpTo(s.serverEnds[i], n, w))
    && (w < n ==> i < |s.serverEnds| && |s.serverEnds[i].sent| > w)
    && (w < n <==> Ever(n, actions, AckResumed(i)))
    && (w < CMD_END <==> Ever(n, actions, AckCut(i)))
  }

  lemma {:induction false} AckHistory(n: Size, actions: seq<Action>, i: nat) returns (w: nat)
    requires Run(n, actions).Some?
    ensures AckStory(n, actions, Run(n, actions).value, i, w)
    decreases |actions|
  {
    hide Step, AckUpTo, Ever, Sound;
    if actions == [] {
      NothingYet(n, AckResumed(i));
      NothingYet(n, AckCut(i));
      InitAck(n);
      w := n;
    } else {
      var before, a := actions[..|actions| - 1], actions[|actions| - 1];
      RunSplits(n, actions);
      w := AckHistory(n, before, i);
      RunSound(n, before);
      var s := Run(n, before).value;
      SoundParts(s);
      FirstMessageMoves(s, a, i, w);
      w := if w == n && s.server.accepted == i + 1 && AckResumes(s.server, a) then s.server.pc.written else w;
    }
  }

  lemma InitAck(n: Size)
    ensures Init(n).serverEnds == [] && Init(n).size == n
  {}

  /** The next receive completes the handshake with what the server has sent on the client's connection. */
  ghost predicate Answerable(s: State) {
    && s.client.pc.AwaitingAck? && s.clientEnds != []
    && CanReceive(s.clientEnds[|s.clientEnds| - 1], s.serverEnds[|s.clientEnds| - 1], s.size)
  }

  /** What it gets. */
  function Answer(s: State): (b: seq<Octet>)
    requires Answerable(s)
    ensures |b| == s.size
  {
    Receive(s.clientEnds[|s.clientEnds| - 1], s.serverEnds[|s.clientEnds| - 1], s.client.buffer, s.size)
  }

  /** It takes the client to its receive loop. */
  ghost predicate GoesOn(s: State) {
    Step(s, ClientRecvAck).Some? && Step(s, ClientRecvAck).value.client.pc == Running
  }

  /** The first `w` bytes of COMMACK and then foreign ones. */
  ghost predicate AckThenForeign(b: seq<Octet>, w: nat) {
    forall p :: 0 <= p < |b| ==> if p < w then b[p] == Octet(CommAck, p) else b[p].Foreign?
  }

  /**
   * In every run, what a client first receives is a whole message's worth of bytes: those of COMMACK sent before the
   * server first went on with a partial send, and foreign ones.
   */
  lemma HandshakeIff(n: Size, actions: seq<Action>) returns (w: nat)
    requires Run(n, actions).Some? && Answerable(Run(n, actions).value)
    ensures
      var s := Run(n, actions).value;
      var i := |s.clientEnds| - 1;
      && Unread(s.clientEnds[i], s.serverEnds[i]) >= s.size == n && s.clientEnds[i].read == 0
      && 0 < w <= n && AckThenForeign(Answer(s), w)
      && (w == n <==> !Ever(n, actions, AckResumed(i)))
      && (w >= CMD_END <==> !Ever(n, actions, AckCut(i)))
  {
    hide Run, Sound, Ever, AckUpTo, Receive, AckThenForeign;
    var s := Run(n, actions).value;
    var i := |s.clientEnds| - 1;
    RunSound(n, actions);
    SoundParts(s);
    w := AckHistory(n, actions, i);
    FirstIsWhole(s);
    AckBytes(s.clientEnds[i], s.serverEnds[i], s.client.buffer, n, w);
  }

  /**
   * The client goes on to its receive loop always when COMMACK was not cut before the end of `cmd_id`, and otherwise
   * exactly when the memory that was sent instead supplies the missing bytes of the number.
   */
  lemma HandshakeSucceedsIff(n: Size, actions: seq<Action>) returns (w: nat)
    requires Run(n, actions).Some? && Answerable(Run(n, actions).value)
    ensures
      var s := Run(n, actions).value;
      && AckThenForeign(Answer(s), w)
      && (GoesOn(s) <==> !Ever(n, actions, AckCut(|s.clientEnds| - 1)) || Supplied(Answer(s), w))
  {
    w := HandshakeIff(n, actions);
    hide Run, Ever, Answer, Answerable, GoesOn, AckThenForeign, Supplied, Command;
    var s := Run(n, actions).value;
    RunsIff(s);
    CommandReadsAck(Answer(s), w);
    if w >= CMD_END { NothingMissing(Answer(s), w); }
  }

  /** From byte `w` on, the bytes of `cmd_id` happen to be those of COMMACK. */
  ghost predicate Supplied(b: seq<Octet>, w: nat) {
    forall p :: CMD_OFFSET <= p < CMD_END && w <= p < |b| ==> Value(b[p]) == ByteOf(COMMACK, p - CMD_OFFSET)
  }

  lemma NothingMissing(b: seq<Octet>, w: nat)
    requires w >= CMD_END
    ensures Supplied(b, w)
  {}

  lemma RunsIff(s: State)
    requires Answerable(s)
    ensures GoesOn(s) <==> Command(Answer(s)) == COMMACK
  {
    hide Command, Receive;
  }

  lemma CommandReadsAck(b: seq<Octet>, w: nat)
    requires |b| >= CMD_END && w <= |b| && AckThenForeign(b, w)
    ensures Command(b) == COMMACK <==> Supplied(b, w)
  {
    ValuesOfCommand(b);
    LittleEndian(COMMACK);
    hide Command, ByteOf;
    forall j | 0 <= j < 4 && CMD_OFFSET + j < w ensures Value(b[CMD_OFFSET + j]) == ByteOf(COMMACK, j) {
      assert b[CMD_OFFSET + j] == Octet(CommAck, CMD_OFFSET + j);
    }
    if Supplied(b, w) {
      forall j | 0 <= j < 4 ensures Value(b[CMD_OFFSET + j]) == ByteOf(COMMACK, j) {}
      assert Value(b[CMD_OFFSET + 0]) == Value(b[8]) && Value(b[CMD_OFFSET + 1]) == Value(b[9]);
      assert Value(b[CMD_OFFSET + 2]) == Value(b[10]) && Value(b[CMD_OFFSET + 3]) == Value(b[11]);
    }
    if Command(b) == COMMACK {
      forall p | CMD_OFFSET <= p < CMD_END && w <= p < |b| ensures Value(b[p]) == ByteOf(COMMACK, p - CMD_OFFSET) {
        assert Value(b[CMD_OFFSET + (p - CMD_OFFSET)]) == ByteOf(COMMACK, p - CMD_OFFSET);
      }
    }
  }

  /** A client cannot receive a part of its first message. */
  lemma FirstIsWhole(s: State)
    requires Shape(s) && ClientShape(s) && Answerable(s)
    ensures
      var i := |s.clientEnds| - 1;
      s.clientEnds[i].read == 0 && Unread(s.clientEnds[i], s.serverEnds[i]) >= s.size
  {
    hide Whole, Serving;
  }

  lemma AckBytes(mine: End, peer: End, buffer: seq<Octet>, n: Size, w: nat)
    requires mine.read == 0 && Unread(mine, peer) >= n && |buffer| == n && AckUpTo(peer, n, w)
    ensures
      AckThenForeign(Receive(mine, peer, buffer, n), w)
  {
    var got := Receive(mine, peer, buffer, n);
    assert forall p :: 0 <= p < n ==> got[p] == peer.sent[p];
  }

  // ---------------------------------------------------------------- what the client receives

  /** The client is behind message `r - 1`, which its buffer holds, or at the end of a closed stream. */
  ghost predicate ClientReading(mine: End, peer: End, buffer: seq<Octet>, n: Size) {
    || (exists r: nat :: HeldMessage(mine, peer, buffer, n, r))
    || (peer.closed && mine.read == |peer.sent|)
  }

  ghost predicate HeldMessage(mine: End, peer: End, buffer: seq<Octet>, n: Size, r: nat) {
    r >= 1 && ReadAt(peer, n, mine.read, r) && buffer == Whole(peer.begun[r - 1], n)
  }

  ghost predicate ClientReads(s: State, i: nat) {
    i == |s.clientEnds| - 1 && s.client.pc.Running? ==>
      ClientReading(s.clientEnds[i], s.serverEnds[i], s.client.buffer, s.size)
  }

  lemma ClientReadingStays(mine: End, peer: End, mine': End, peer': End, buffer: seq<Octet>, n: Size)
    requires ClientReading(mine, peer, buffer, n) && mine'.read == mine.read && peer.begun <= peer'.begun
    requires peer.closed ==> peer'.closed && peer'.sent == peer.sent
    ensures ClientReading(mine', peer', buffer, n)
  {
    if r: nat :| HeldMessage(mine, peer, buffer, n, r) {
      assert peer'.begun[..r] == peer.begun[..r];
      assert HeldMessage(mine', peer', buffer, n, r);
    }
  }

  /** Receiving the first or a later message of a framed stream into the client's buffer. */
  lemma ClientReadsOn(mine: End, peer: End, buffer: seq<Octet>, n: Size) returns (r: nat)
    requires Framed(peer, n) && CanReceive(mine, peer, n) && |buffer| == n
    requires mine.read == 0 || ClientReading(mine, peer, buffer, n)
    ensures r < |peer.begun| && (mine.read == 0 ==> r == 0)
    ensures mine.read != 0 ==> HeldMessage(mine, peer, buffer, n, r)
    ensures Delivers(mine, peer, n, peer.begun[r], ReceiveLength(mine, peer, n))
    ensures ClientReading(AfterReceive(mine, peer, n), peer, Receive(mine, peer, buffer, n), n)
  {
    hide Framed, Whole, Wholes;
    if mine.read == 0 {
      r := 0;
      assert peer.begun[..0] == [];
      EmptyWholes(n);
    } else {
      r :| HeldMessage(mine, peer, buffer, n, r);
    }
    NextMessage(mine, peer, n, r);
    var k := ReceiveLength(mine, peer, n);
    if k == n {
      WholeLength(peer.begun[r], n);
      assert Receive(mine, peer, buffer, n) == Whole(peer.begun[r], n);
      assert HeldMessage(AfterReceive(mine, peer, n), peer, Receive(mine, peer, buffer, n), n, r + 1);
    }
  }

  lemma ClientReadsKeeps(s: State, a: Action, i: nat)
    requires Sound(s) && DownOk(s, i) && ClientReads(s, i) && Step(s, a).Some?
    ensures ClientReads(Step(s, a).value, i)
  {
    hide Step, DownOrders, UpOrders, Shape, Whole, Command, Framed, ClientReading, Send, Receive, ReceiveLength,
         PensOpen;
    var s' := Step(s, a).value;
    if i == |s.clientEnds| - 1 {
      if IsClientAction(a) {
        ClientReadsOwn(s, a);
      } else {
        StepNotCalled(s, a);
        ServerPeerMoves(s, a, i);
        if s.client.pc.Running? {
          ClientReadingStays(s.clientEnds[i], s.serverEnds[i], s'.clientEnds[i], s'.serverEnds[i],
                             s.client.buffer, s.size);
        }
      }
    } else if IsClientAction(a) {
      StepCalled(s, a);
    } else {
      StepNotCalled(s, a);
    }
  }

  lemma ServerPeerMoves(s: State, a: Action, i: nat)
    requires Sound(s) && Step(s, a).Some? && i < |s.serverEnds| && !IsClientAction(a)
    ensures
      var s' := Step(s, a).value;
      && i < |s'.serverEnds| && s.serverEnds[i].begun <= s'.serverEnds[i].begun
      && (s.serverEnds[i].closed ==> s'.serverEnds[i].closed && s'.serverEnds[i].sent == s.serverEnds[i].sent)
  {
    hide *;
    SoundParts(s);
    if IsServerAction(a) || IsTaskAction(a) {
      StepServed(s, a);
      ServedEnds(s, a);
    } else {
      StepElsewhere(s, a);
    }
  }

  lemma ClientReadsOwn(s: State, a: Action)
    requires Sound(s) && s.clientEnds != [] && DownOk(s, |s.clientEnds| - 1) && ClientReads(s, |s.clientEnds| - 1)
    requires Step(s, a).Some? && IsClientAction(a)
    ensures ClientReads(Step(s, a).value, |s.clientEnds| - 1)
  {
    hide Step, DownOrders, UpOrders, Shape, Whole, Command, Framed, ClientReading, Receive, ReceiveLength, PensOpen;
    var i := |s.clientEnds| - 1;
    StepCalled(s, a);
    var mine, peer := s.clientEnds[i], s.serverEnds[i];
    var (w', mine') := Called(s, a).value;
    if a.ClientRecvAck? || a.ClientRecv? {
      var r := ClientReadsOn(mine, peer, s.client.buffer, s.size);
    } else if s.client.pc.Running? {
      ClientReadingStays(mine, peer, mine', peer, s.client.buffer, s.size);
    }
  }

  lemma {:induction false} RunClientReads(n: Size, actions: seq<Action>, i: nat)
    requires Run(n, actions).Some? && !DownBroken(n, actions, i)
    ensures ClientReads(Run(n, actions).value, i)
    decreases |actions|
  {
    hide Step, Sound, Ever, Occurs, DownOk, ClientReads;
    if actions == [] {
      InitClientReads(n, i);
    } else {
      var before := actions[..|actions| - 1];
      RunSplits(n, actions);
      RunClientReads(n, before, i);
      RunSound(n, before);
      DownHistory(n, before, i);
      ClientReadsKeeps(Run(n, before).value, actions[|actions| - 1], i);
    }
  }

  lemma InitClientReads(n: Size, i: nat)
    ensures ClientReads(Init(n), i)
  {}

  /** The client receives `k` bytes of message `m` into a buffer that holds message `p`. */
  ghost predicate Gets(mine: End, peer: End, buffer: seq<Octet>, n: Size, m: Message, p: Message, k: nat) {
    && CanReceive(mine, peer, n) && |buffer| == n && k == ReceiveLength(mine, peer, n)
    && m in peer.begun
    && (k < n ==> peer.closed)
    && var got := Receive(mine, peer, buffer, n);
    && got == Whole(m, n)[..k] + Whole(p, n)[k..]
    && Command(got) == Mixed(Id(m), Id(p), CommandBytes(k))
  }

  /**
   * After the handshake, while the server's stream is unbroken, what a client puts on its receive queue is the next
   * message `m`, whole unless the server has closed in the middle of it. Then the rest is left from the message before,
   * `p`, which is COMMACK if there is no other: a cut of at most eight bytes leaves the command of `p`, one of twelve
   * and more has that of `m`, and in between it is a mixture. A COMMNACK is queued like any message; without a resumed
   * send of the client's and without a cut through `cmd_id` there is none.
   */
  lemma ClientQueues(n: Size, actions: seq<Action>) returns (m: Message, p: Message, k: nat)
    requires Run(n, actions).Some?
    requires
      var s := Run(n, actions).value;
      && s.client.pc.Running? && s.clientEnds != []
      && CanReceive(s.clientEnds[|s.clientEnds| - 1], s.serverEnds[|s.clientEnds| - 1], s.size)
      && !DownBroken(n, actions, |s.clientEnds| - 1)
    ensures
      var s := Run(n, actions).value;
      var i := |s.clientEnds| - 1;
      && Gets(s.clientEnds[i], s.serverEnds[i], s.client.buffer, s.size, m, p, k)
      && (m.App? || m == CommNack) && p != CommInit
      && (!Ever(n, actions, UpResumed(i)) && !Ever(n, actions, CommandCut(i)) ==> m.App? && p != CommNack)
  {
    hide Run, Sound, Ever, ClientReads, DownOk, NotRefused, Framed, Gets;
    var s := Run(n, actions).value;
    var i := |s.clientEnds| - 1;
    RunSound(n, actions);
    DownHistory(n, actions, i);
    RunClientReads(n, actions, i);
    m, p, k := ClientQueuesNext(s);
    if !Ever(n, actions, UpResumed(i)) && !Ever(n, actions, CommandCut(i)) {
      RefusedOnlyIf(n, actions, i);
    }
  }

  lemma ClientQueuesNext(s: State) returns (m: Message, p: Message, k: nat)
    requires Sound(s) && s.client.pc.Running? && s.clientEnds != []
    requires CanReceive(s.clientEnds[|s.clientEnds| - 1], s.serverEnds[|s.clientEnds| - 1], s.size)
    requires DownOk(s, |s.clientEnds| - 1) && ClientReads(s, |s.clientEnds| - 1)
    ensures
      var i := |s.clientEnds| - 1;
      && Gets(s.clientEnds[i], s.serverEnds[i], s.client.buffer, s.size, m, p, k)
      && (m.App? || m == CommNack) && p != CommInit
      && (NotRefused(s, i) ==> m.App? && p != CommNack)
  {
    hide Sound, Whole, Framed, Command, Mixed, PensOpen, ReadAt, Delivers, Receive;
    var i := |s.clientEnds| - 1;
    var mine, peer := s.clientEnds[i], s.serverEnds[i];
    var r: nat :| HeldMessage(mine, peer, s.client.buffer, s.size, r);
    k := NextAfterHeld(mine, peer, s.client.buffer, s.size, r);
    BegunAfterAck(s, i, r);
    m, p := peer.begun[r], peer.begun[r - 1];
    DeliveredCommand(mine, peer, s.client.buffer, s.size, m, k);
    DeliveredBytes(mine, peer, s.client.buffer, s.size, m, k);
    WholeCommand(p, s.size);
  }

  lemma BegunAfterAck(s: State, i: nat, r: nat)
    requires Sound(s) && i < |s.serverEnds| && 1 <= r < |s.serverEnds[i].begun|
    ensures
      var b := s.serverEnds[i].begun;
      && (b[r].App? || b[r] == CommNack) && b[r - 1] != CommInit
      && (NotRefused(s, i) ==> b[r].App? && b[r - 1] != CommNack)
  {
    hide Shape, ClientShape, UpOrders, Ordered;
    assert DownOrder(s.serverEnds[i], s.server.queued);
    assert s.serverEnds[i].begun[r] in s.serverEnds[i].begun && s.serverEnds[i].begun[r - 1] in s.serverEnds[i].begun;
  }

  lemma DeliveredBytes(mine: End, peer: End, buffer: seq<Octet>, n: Size, m: Message, k: nat)
    requires |buffer| == n && Delivers(mine, peer, n, m, k)
    ensures Receive(mine, peer, buffer, n) == Whole(m, n)[..k] + buffer[k..] && (k < n ==> peer.closed)
  {}

  lemma NextAfterHeld(mine: End, peer: End, buffer: seq<Octet>, n: Size, r: nat) returns (k: nat)
    requires Framed(peer, n) && CanReceive(mine, peer, n) && HeldMessage(mine, peer, buffer, n, r)
    ensures 1 <= r < |peer.begun| && k == ReceiveLength(mine, peer, n) && Delivers(mine, peer, n, peer.begun[r], k)
    ensures buffer == Whole(peer.begun[r - 1], n)
  {
    hide Framed, Whole;
    NextMessage(mine, peer, n, r);
    k := ReceiveLength(mine, peer, n);
  }
}
