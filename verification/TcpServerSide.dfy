/** The server's side of the TCP link: its worker tasks, what it sends on a connection, and in which order. */
module TcpServerSide {
  import opened TcpLink
  import opened Wrappers
  import opened TcpFraming

  // ---------------------------------------------------------------- worker tasks

  /** Exactly one send task, known to the server, on connection `i`. */
  ghost predicate OneSender(v: Server, i: nat) {
    v.sendHandle.Some? && v.sendTasks.Keys == {v.sendHandle.value} && v.sendTasks[v.sendHandle.value].conn == i
  }

  ghost predicate NoSender(v: Server) {
    v.sendHandle == None && v.sendTasks == map[]
  }

  /** Exactly one process task and one send task, both known to the server. */
  ghost predicate OnePair(v: Server, i: nat) {
    v.processHandle.Some? && v.processTasks == {v.processHandle.value} && OneSender(v, i)
  }

  ghost predicate NoPair(v: Server) {
    v.processHandle == None && v.processTasks == {} && NoSender(v)
  }

  /** What the send task is doing. */
  function TaskPc(v: Server): SendPc {
    if v.sendHandle.Some? && v.sendHandle.value in v.sendTasks then v.sendTasks[v.sendHandle.value].pc else Waiting
  }

  /** The server task, its workers and its side `e` of the last connection accepted. */
  ghost predicate Serving(v: Server, e: End, n: Size)
    requires v.accepted > 0
  {
    var i := v.accepted - 1;
    && AllApps(v.queue)
    && PcOk(TaskPc(v), n)
    && (e.closed ==> e.sent == [] || |e.sent| >= n)
    && match v.pc
       case Accepting => e.closed && !v.connected && NoPair(v)
       case Receiving => !e.closed && if v.connected then OnePair(v, i) && e.begun != [] && |e.sent| >= n
                                      else NoPair(v) && e.sent == [] && e.begun == []
       case Acking(w) =>
         && w <= n && !e.closed && !v.connected && OnePair(v, i) && !TaskPc(v).Sending?
         && |e.sent| == w && e.begun == if w == 0 then [] else [CommAck]
       case Nacking(w) => w <= n && !e.closed && v.connected && OnePair(v, i) && e.begun != [] && |e.sent| >= n
       case StopProcess => e.closed && (OnePair(v, i) || NoPair(v))
       case StopSend => e.closed && v.processHandle == None && v.processTasks == {} && (OneSender(v, i) || NoSender(v))
  }

  ghost predicate Shape(s: State) {
    var v := s.server;
    && v.accepted <= |s.serverEnds|
    && (forall j :: v.accepted <= j < |s.serverEnds| ==> s.serverEnds[j] == NEW_END)
    && (forall j :: 0 <= j < v.accepted - 1 ==> s.serverEnds[j].closed)
    && (forall j :: 0 <= j < |s.serverEnds| && s.serverEnds[j].closed ==>
          s.serverEnds[j].sent == [] || |s.serverEnds[j].sent| >= s.size)
    && if v.accepted == 0 then v.pc == Accepting && !v.connected && NoPair(v) && AllApps(v.queue)
       else Serving(v, s.serverEnds[v.accepted - 1], s.size)
  }

  lemma ServerTaskServes(v: Server, e: End, peer: End, n: Size, a: Action)
    requires v.accepted > 0 && |v.buffer| == n && Serving(v, e, n) && ServerStep(v, e, peer, n, a).Some?
    ensures
      var (v', e') := ServerStep(v, e, peer, n, a).value;
      v'.accepted == v.accepted && Serving(v', e', n)
  {
    hide Command, Whole;
  }

  /** The only send task alive is the one the server knows, on the connection being served. */
  lemma SenderIsCurrent(s: State, id: nat)
    requires Shape(s) && id in s.server.sendTasks
    ensures
      var v := s.server;
      && v.accepted > 0 && OneSender(v, v.accepted - 1) && v.sendHandle == Some(id) && v.sendTasks[id].pc == TaskPc(v)
      && (TaskPc(v).Sending? && !s.serverEnds[v.accepted - 1].closed ==> v.connected && !v.pc.Acking?)
  {}

  lemma SendTaskServes(v: Server, id: nat, e: End, n: Size, a: Action)
    requires v.accepted > 0 && id in v.sendTasks && OneSender(v, v.accepted - 1)
    requires Serving(v, e, n) && TaskStep(v, id, e, n, a).Some?
    ensures
      var (v', e') := TaskStep(v, id, e, n, a).value;
      v'.accepted == v.accepted && Serving(v', e', n)
  {
    hide Whole;
  }

  /** A step of the server task or of its send task, on the server's side of the connection being served. */
  function Served(s: State, a: Action): Option<(Server, End)>
    requires 0 < s.server.accepted <= |s.serverEnds|
  {
    var v, e, peer := s.server, s.serverEnds[s.server.accepted - 1], s.clientEnds[s.server.accepted - 1];
    if IsServerAction(a) then ServerStep(v, e, peer, s.size, a)
    else if IsTaskAction(a) && a.id in v.sendTasks then TaskStep(v, a.id, e, s.size, a)
    else None
  }

  lemma StepServed(s: State, a: Action)
    requires Shape(s) && Step(s, a).Some? && (IsServerAction(a) || IsTaskAction(a))
    ensures
      var v := s.server;
      && 0 < v.accepted <= |s.serverEnds| && Serving(v, s.serverEnds[v.accepted - 1], s.size)
      && (IsTaskAction(a) ==> a.id in v.sendTasks && OneSender(v, v.accepted - 1))
      && Served(s, a).Some?
      && var (v', e') := Served(s, a).value;
      && |v'.buffer| == s.size
      && Step(s, a).value == s.(server := v', serverEnds := s.serverEnds[v.accepted - 1 := e'])
  {
    hide ServerStep, TaskStep, Serving;
    if IsTaskAction(a) { SenderIsCurrent(s, a.id); }
  }

  lemma StepElsewhere(s: State, a: Action)
    requires Step(s, a).Some? && !IsServerAction(a) && !IsTaskAction(a)
    ensures
      var s', v := Step(s, a).value, s.server;
      && s'.size == s.size
      && s'.serverEnds == (if a.Connect? then s.serverEnds + [NEW_END] else s.serverEnds)
      && (a.Accept? ==> v.pc.Accepting? && v.accepted < |s.serverEnds|)
      && s'.server == if a.Accept? then v.(pc := Receiving, accepted := v.accepted + 1)
                      else if IsQueueAction(a) then QueueStep(s, a).server else v
  {
    hide ClientStep;
  }

  lemma ServedServes(s: State, a: Action)
    requires Shape(s) && Step(s, a).Some? && (IsServerAction(a) || IsTaskAction(a))
    ensures
      var v := s.server;
      && 0 < v.accepted <= |s.serverEnds| && Served(s, a).Some?
      && var (v', e') := Served(s, a).value;
      v'.accepted == v.accepted && Serving(v', e', s.size)
  {
    hide Step, ServerStep, TaskStep, Serving;
    StepServed(s, a);
    var v, e, peer := s.server, s.serverEnds[s.server.accepted - 1], s.clientEnds[s.server.accepted - 1];
    if IsServerAction(a) {
      ServerTaskServes(v, e, peer, s.size, a);
    } else {
      SendTaskServes(v, a.id, e, s.size, a);
    }
  }

  lemma ShapeKeeps(s: State, a: Action)
    requires Shape(s) && Step(s, a).Some?
    ensures Shape(Step(s, a).value)
  {
    hide Step, Served;
    if IsServerAction(a) || IsTaskAction(a) {
      hide Serving;
      StepServed(s, a);
      ServedServes(s, a);
    } else {
      StepElsewhere(s, a);
    }
  }

  // ---------------------------------------------------------------- queue order

  /** What the server has begun on a connection, what its send task holds and what is queued, in this order. */
  ghost predicate InLine(v: Server, e: End) {
    Line(Tail(e.begun), Held(TaskPc(v)), v.queue, v.queued)
  }

  /** A side of the server begins COMMACK first and then application messages and refusals. */
  ghost predicate DownOrder(e: End, hi: nat) {
    && (e.begun != [] ==> e.begun[0] == CommAck)
    && (forall j :: 1 <= j < |e.begun| ==> e.begun[j].App? || e.begun[j] == CommNack)
    && Ordered(Tail(e.begun), hi)
  }

  ghost predicate ServerOrder(v: Server, e: End) {
    && Ordered(v.queue, v.queued)
    && DownOrder(e, v.queued)
    && (v.accepted > 0 && OneSender(v, v.accepted - 1) && !e.closed ==> InLine(v, e))
  }

  ghost predicate DownOrders(s: State) {
    var v := s.server;
    && Ordered(v.queue, v.queued)
    && (forall j :: 0 <= j < |s.serverEnds| ==> DownOrder(s.serverEnds[j], v.queued))
    && (0 < v.accepted <= |s.serverEnds| ==> ServerOrder(v, s.serverEnds[v.accepted - 1]))
  }

  lemma ServerTaskOrder(v: Server, e: End, peer: End, n: Size, a: Action)
    requires v.accepted > 0 && |v.buffer| == n && Serving(v, e, n) && ServerOrder(v, e)
    requires ServerStep(v, e, peer, n, a).Some?
    ensures
      var (v', e') := ServerStep(v, e, peer, n, a).value;
      v'.accepted == v.accepted && v'.queued == v.queued && ServerOrder(v', e')
  {
    hide ServerStep, Serving, ServerOrder;
    if a.ServerRecv? {
      RecvOrder(v, e, peer, n, a);
    } else if a.AckSend? || a.NackSend? {
      AnswerOrder(v, e, peer, n, a);
    } else {
      OtherOrder(v, e, peer, n, a);
    }
  }

  lemma RecvOrder(v: Server, e: End, peer: End, n: Size, a: Action)
    requires v.accepted > 0 && |v.buffer| == n && Serving(v, e, n) && ServerOrder(v, e)
    requires a.ServerRecv? && ServerStep(v, e, peer, n, a).Some?
    ensures
      var (v', e') := ServerStep(v, e, peer, n, a).value;
      v'.accepted == v.accepted && v'.queued == v.queued && ServerOrder(v', e')
  {
    ServingBegun(v, e, n);
    LineStarts(v.queue, v.queued);
    hide Command, Whole, Ordered, Line, Receive, ReceiveLength, Serving;
  }

  lemma AnswerOrder(v: Server, e: End, peer: End, n: Size, a: Action)
    requires v.accepted > 0 && |v.buffer| == n && Serving(v, e, n) && ServerOrder(v, e)
    requires (a.AckSend? || a.NackSend?) && ServerStep(v, e, peer, n, a).Some?
    ensures
      var (v', e') := ServerStep(v, e, peer, n, a).value;
      v'.accepted == v.accepted && v'.queued == v.queued && ServerOrder(v', e')
  {
    ServingBegun(v, e, n);
    hide Whole, Ordered, Line, Serving, Beyond;
    if a.NackSend? && e.begun != [] {
      TailSnoc(e.begun, CommNack);
      LineAdmits(Tail(e.begun), CommNack, Held(TaskPc(v)), v.queue, v.queued);
    }
    if a.AckSend? && v.pc.Acking? && v.pc.written == 0 {
      assert e.begun + [CommAck] == [CommAck] && Tail([CommAck]) == Tail(e.begun) == [];
    }
  }

  lemma OtherOrder(v: Server, e: End, peer: End, n: Size, a: Action)
    requires v.accepted > 0 && |v.buffer| == n && Serving(v, e, n) && ServerOrder(v, e)
    requires !a.ServerRecv? && !a.AckSend? && !a.NackSend? && ServerStep(v, e, peer, n, a).Some?
    ensures
      var (v', e') := ServerStep(v, e, peer, n, a).value;
      v'.accepted == v.accepted && v'.queued == v.queued && ServerOrder(v', e')
  {
    hide Ordered, Line;
  }

  lemma ServingBegun(v: Server, e: End, n: Size)
    requires v.accepted > 0 && Serving(v, e, n)
    ensures v.pc.Receiving? && !v.connected ==> e.begun == []
    ensures v.pc.Acking? ==> e.begun == if v.pc.written == 0 then [] else [CommAck]
    ensures v.pc.Nacking? ==> e.begun != []
  {}

  lemma SendTaskOrder(v: Server, id: nat, e: End, n: Size, a: Action)
    requires v.accepted > 0 && id in v.sendTasks && OneSender(v, v.accepted - 1)
    requires Serving(v, e, n) && ServerOrder(v, e) && TaskStep(v, id, e, n, a).Some?
    ensures
      var (v', e') := TaskStep(v, id, e, n, a).value;
      v'.accepted == v.accepted && v'.queued == v.queued && ServerOrder(v', e')
  {
    hide Whole, Ordered, Line, AllApps;
    var e' := TaskStep(v, id, e, n, a).value.1;
    var t, pc, q := Tail(e.begun), TaskPc(v), v.queue;
    match a
    case TaskReset(_) => LineStarts(q, v.queued); if !e.closed { LineClears(t, [], q, v.queued); }
    case TaskPop(_) =>
      LineStarts(q, v.queued);
      LinePops([], q, v.queued);
      if !e.closed { LinePops(t, q, v.queued); }
    case TaskCheck(_) => if !e.closed { LineDrops(t, [pc.msg], q, v.queued); }
    case TaskSend(_, k) =>
      WholeLength(pc.msg, n);
      if e'.begun != e.begun {
        TailSnoc(e.begun, pc.msg);
        LineBegins(t, pc.msg, q, v.queued);
      }
  }

  lemma QueueOrder(s: State, a: Action)
    requires DownOrders(s) && IsQueueAction(a)
    ensures DownOrders(QueueStep(s, a))
  {
    hide Ordered, Line;
    var v := s.server;
    LineStarts(v.queue, v.queued);
    LineClears([], [], v.queue, v.queued);
    if a.ServerQueue? {
      forall e: End ensures DownOrder(e, v.queued) ==> DownOrder(e, v.queued + 1) {
        OrderedLater(Tail(e.begun), v.queued);
      }
      QueueGrows([], [], v.queue, v.queued, a.cmd);
    }
    if 0 < v.accepted <= |s.serverEnds| {
      var e := s.serverEnds[v.accepted - 1];
      if a.ServerQueue? { QueueGrows(Tail(e.begun), Held(TaskPc(v)), v.queue, v.queued, a.cmd); }
      if InLine(v, e) { LineClears(Tail(e.begun), Held(TaskPc(v)), v.queue, v.queued); }
    }
  }

  lemma ServedOrder(s: State, a: Action)
    requires Shape(s) && DownOrders(s) && Step(s, a).Some? && (IsServerAction(a) || IsTaskAction(a))
    ensures
      var v := s.server;
      && 0 < v.accepted <= |s.serverEnds| && Served(s, a).Some?
      && var (v', e') := Served(s, a).value;
      v'.accepted == v.accepted && v'.queued == v.queued && ServerOrder(v', e')
  {
    hide Step, ServerStep, TaskStep, Serving, ServerOrder;
    StepServed(s, a);
    var v, e, peer := s.server, s.serverEnds[s.server.accepted - 1], s.clientEnds[s.server.accepted - 1];
    if IsServerAction(a) {
      ServerTaskOrder(v, e, peer, s.size, a);
    } else {
      SendTaskOrder(v, a.id, e, s.size, a);
    }
  }

  lemma DownOrdersKeep(s: State, a: Action)
    requires Shape(s) && DownOrders(s) && Step(s, a).Some?
    ensures DownOrders(Step(s, a).value)
  {
    hide Step, Served, Ordered, DownOrder, InLine;
    NewEndOrder(s.server.queued);
    if IsServerAction(a) || IsTaskAction(a) {
      hide Shape, Serving;
      StepServed(s, a);
      ServedOrder(s, a);
    } else {
      StepElsewhere(s, a);
      if IsQueueAction(a) { QueueOrder(s, a); }
    }
  }

  lemma NewEndOrder(hi: nat)
    ensures DownOrder(NEW_END, hi)
  {}

  // ---------------------------------------------------------------- what is on the wire

  function ServerPen(v: Server, n: Size): Pen {
    match v.pc
    case Acking(w) => Pen(CommAck, if w < n then w else 0)
    case Nacking(w) => Pen(CommNack, if w < n then w else 0)
    case _ => Pen(CommAck, 0)
  }

  function TaskPen(v: Server): Pen {
    if TaskPc(v).Sending? then Pen(TaskPc(v).msg, TaskPc(v).written) else Pen(CommAck, 0)
  }

  /** Only one of the two writers is in the middle of a message, and what was sent is framed up to there. */
  ghost predicate PensOpen(v: Server, e: End, n: Size) {
    var p, q := ServerPen(v, n), TaskPen(v);
    && (p.written == 0 || q.written == 0)
    && var r := if p.written > 0 then p else q;
       Open(e, n, r.msg, r.written)
  }

  /** The COMMACK send goes on after a partial one. */
  predicate AckResumes(v: Server, a: Action) {
    a.AckSend? && a.memory != [] && v.pc.Acking? && v.pc.written > 0
  }

  /** The COMMNACK send goes on after a partial one. */
  predicate NackResumes(v: Server, a: Action) {
    a.NackSend? && a.memory != [] && v.pc.Nacking? && v.pc.written > 0
  }

  /** COMMNACK is begun in the middle of an application message, or an application message in the middle of COMMNACK. */
  predicate Overlaps(v: Server, a: Action, n: Size) {
    || (a.NackSend? && a.memory != [] && v.pc == Nacking(0) && TaskPen(v).written > 0)
    || (a.TaskSend? && a.k > 0 && TaskPc(v).Sending? && TaskPc(v).written == 0 && v.pc.Nacking? && 0 < v.pc.written < n)
  }

  predicate Breaks(v: Server, a: Action, n: Size) {
    AckResumes(v, a) || NackResumes(v, a) || Overlaps(v, a, n)
  }

  lemma ServerTaskWrites(v: Server, e: End, peer: End, n: Size, a: Action)
    requires v.accepted > 0 && |v.buffer| == n && Serving(v, e, n) && ServerStep(v, e, peer, n, a).Some?
    requires !e.closed && PensOpen(v, e, n)
    ensures
      var (v', e') := ServerStep(v, e, peer, n, a).value;
      if Breaks(v, a, n) then !Smooth(e'.sent, n) else Framed(e', n) && (e'.closed || PensOpen(v', e', n))
  {
    hide Command, Whole, Wholes, Open, Smooth;
    var p, q := ServerPen(v, n), TaskPen(v);
    var r := if p.written > 0 then p else q;
    FramedBy(e, n, r.msg, r.written);
    FramedSame(e, ServerStep(v, e, peer, n, a).value.1.(sent := e.sent, begun := e.begun), n);
    if a.AckSend? || a.NackSend? {
      var m := if a.AckSend? then CommAck else CommNack;
      var w := v.pc.written;
      if a.memory == [] {
        assert e.sent + [] == e.sent;
      } else if w > 0 {
        ResumedBreaks(e.sent, m, w, a.memory, n);
      } else if q.written > 0 {
        FirstCall(m, a.memory, n);
        OverlapBreaks(e, n, q.msg, q.written, m, |a.memory|);
      } else {
        FirstCall(m, a.memory, n);
        OpenAnew(e, n, q.msg, m);
        SendKeeps(e, n, m, 0, |a.memory|);
        var w' := if |a.memory| == n then 0 else |a.memory|;
        var e' := Send(e, m, 0, Chunk(m, 0, |a.memory|, n));
        FramedBy(e', n, m, w');
        if w' == 0 { OpenAnew(e', n, m, q.msg); }
      }
    }
  }

  lemma SendTaskWrites(v: Server, id: nat, e: End, n: Size, a: Action)
    requires v.accepted > 0 && id in v.sendTasks && OneSender(v, v.accepted - 1)
    requires Serving(v, e, n) && TaskStep(v, id, e, n, a).Some?
    requires !e.closed && PensOpen(v, e, n)
    ensures
      var (v', e') := TaskStep(v, id, e, n, a).value;
      if Breaks(v, a, n) then !Smooth(e'.sent, n) else Framed(e', n) && PensOpen(v', e', n)
  {
    hide Whole, Wholes, Open, Smooth;
    var p, q := ServerPen(v, n), TaskPen(v);
    var r := if p.written > 0 then p else q;
    FramedBy(e, n, r.msg, r.written);
    if a.TaskSend? {
      var m, w, k := TaskPc(v).msg, TaskPc(v).written, a.k;
      WholeLength(m, n);
      if k == 0 {
        assert e.sent + [] == e.sent && Chunk(m, w, k, n) == [];
      } else if p.written > 0 {
        OverlapBreaks(e, n, p.msg, p.written, m, k);
      } else {
        SendKeeps(e, n, m, w, k);
        var e' := Send(e, m, w, Chunk(m, w, k, n));
        var w' := if w + k == n then 0 else w + k;
        FramedBy(e', n, m, w');
        if w' == 0 { OpenAnew(e', n, m, CommAck); }
      }
    } else if q.written == 0 && p.written == 0 {
      var (v', e') := TaskStep(v, id, e, n, a).value;
      OpenAnew(e, n, q.msg, TaskPen(v').msg);
    }
  }

  /** A side is framed; while it is served, up to where its writers are. */
  ghost predicate DownOk(s: State, i: nat) {
    i < |s.serverEnds| ==>
      && Framed(s.serverEnds[i], s.size)
      && (s.server.accepted == i + 1 && !s.serverEnds[i].closed ==> PensOpen(s.server, s.serverEnds[i], s.size))
  }

  lemma ServedWrites(s: State, a: Action)
    requires Shape(s) && Step(s, a).Some? && (IsServerAction(a) || IsTaskAction(a))
    requires s.server.accepted > 0 && DownOk(s, s.server.accepted - 1)
    ensures
      && s.server.accepted <= |s.serverEnds| && Served(s, a).Some?
      && var (v', e') := Served(s, a).value;
      if Breaks(s.server, a, s.size) then !Smooth(e'.sent, s.size)
      else Framed(e', s.size) && (e'.closed || PensOpen(v', e', s.size))
  {
    hide Step, ServerStep, TaskStep, Serving, PensOpen, Framed, Smooth, Breaks;
    StepServed(s, a);
    ServedNotBroken(s, a);
    ServedEnds(s, a);
    var v, e, peer := s.server, s.serverEnds[s.server.accepted - 1], s.clientEnds[s.server.accepted - 1];
    if e.closed {
      FramedSame(e, Served(s, a).value.1, s.size);
    } else if IsServerAction(a) {
      ServerTaskWrites(v, e, peer, s.size, a);
    } else {
      SendTaskWrites(v, a.id, e, s.size, a);
    }
  }

  lemma DownKeeps(s: State, a: Action, i: nat)
    requires Shape(s) && DownOk(s, i) && Step(s, a).Some?
    ensures
      var s' := Step(s, a).value;
      if s.server.accepted == i + 1 && Breaks(s.server, a, s.size)
      then i < |s'.serverEnds| && !Smooth(s'.serverEnds[i].sent, s.size) else DownOk(s', i)
  {
    hide Step, Served, Framed, Smooth, Open;
    NewEndFramed(s.size);
    if IsServerAction(a) || IsTaskAction(a) {
      hide Shape, Serving, PensOpen, Breaks;
      StepServed(s, a);
      ServedEnds(s, a);
      if s.server.accepted == i + 1 { ServedWrites(s, a); }
    } else {
      StepElsewhere(s, a);
    }
  }

  lemma NewEndFramed(n: Size)
    ensures forall m: Message :: Open(NEW_END, n, m, 0)
    ensures Framed(NEW_END, n)
  {
    FramedBy(NEW_END, n, CommAck, 0);
  }

  /** Nothing is written on a closed socket. */
  lemma ServedNotBroken(s: State, a: Action)
    requires Shape(s)
    ensures s.server.accepted > 0 && s.serverEnds[s.server.accepted - 1].closed ==> !Breaks(s.server, a, s.size)
  {}

  lemma ServerTaskEnds(v: Server, e: End, peer: End, n: Size, a: Action)
    requires v.accepted > 0 && |v.buffer| == n && Serving(v, e, n) && ServerStep(v, e, peer, n, a).Some?
    ensures
      var (v', e') := ServerStep(v, e, peer, n, a).value;
      && v'.accepted == v.accepted && (e.closed ==> e'.sent == e.sent && e'.begun == e.begun && e'.closed)
      && e.sent <= e'.sent && e.begun <= e'.begun && e'.read >= e.read
  {
    hide Command, Whole;
  }

  lemma SendTaskEnds(v: Server, id: nat, e: End, n: Size, a: Action)
    requires id in v.sendTasks && TaskStep(v, id, e, n, a).Some?
    ensures
      var (v', e') := TaskStep(v, id, e, n, a).value;
      && v' == v.(sendTasks := v'.sendTasks, queue := v'.queue)
      && (e.closed ==> e' == e)
      && e.sent <= e'.sent && e.begun <= e'.begun && e'.read == e.read && e'.closed == e.closed
  {}

  // ---------------------------------------------------------------- the first message

  /** Of the first message sent, the bytes before `w` are COMMACK's and the others foreign. */
  ghost predicate AckUpTo(e: End, n: Size, w: nat) {
    && 0 < w <= n
    && forall p :: 0 <= p < n && p < |e.sent| ==> if p < w then e.sent[p] == Octet(CommAck, p) else e.sent[p].Foreign?
  }

  /** How a step moves the first message. */
  ghost predicate FirstMoves(v: Server, a: Action, e: End, e': End, n: Size) {
    if AckResumes(v, a) then
      && 0 < |e.sent| == v.pc.written < n && |e'.sent| > |e.sent| && e.sent <= e'.sent
      && forall p :: |e.sent| <= p < |e'.sent| ==> e'.sent[p].Foreign?
    else
      e'.sent == e.sent || (|e.sent| >= n && e.sent <= e'.sent) || (e.sent == [] && e'.sent <= Whole(CommAck, n))
  }

  lemma ServerTaskFirst(v: Server, e: End, peer: End, n: Size, a: Action)
    requires v.accepted > 0 && |v.buffer| == n && Serving(v, e, n) && ServerStep(v, e, peer, n, a).Some?
    ensures FirstMoves(v, a, e, ServerStep(v, e, peer, n, a).value.1, n)
  {
    hide Command, OnePair, NoPair, OneSender, AllApps, PcOk, Receive, ReceiveLength;
  }

  lemma SendTaskFirst(v: Server, id: nat, e: End, n: Size, a: Action)
    requires v.accepted > 0 && id in v.sendTasks && OneSender(v, v.accepted - 1)
    requires Serving(v, e, n) && TaskStep(v, id, e, n, a).Some? && IsTaskAction(a)
    ensures FirstMoves(v, a, e, TaskStep(v, id, e, n, a).value.1, n)
  {
    hide Whole;
  }

  lemma ServedFirst(s: State, a: Action)
    requires Shape(s) && Step(s, a).Some? && (IsServerAction(a) || IsTaskAction(a))
    ensures
      && 0 < s.server.accepted <= |s.serverEnds| && Served(s, a).Some?
      && FirstMoves(s.server, a, s.serverEnds[s.server.accepted - 1], Served(s, a).value.1, s.size)
  {
    hide Step, ServerStep, TaskStep, Serving, FirstMoves;
    StepServed(s, a);
    var v, e, peer := s.server, s.serverEnds[s.server.accepted - 1], s.clientEnds[s.server.accepted - 1];
    if IsServerAction(a) {
      ServerTaskFirst(v, e, peer, s.size, a);
    } else {
      SendTaskFirst(v, a.id, e, s.size, a);
    }
  }

  /** A partial COMMACK that is not gone on with stays whole; one that is becomes foreign from there on. */
  lemma FirstMessageMoves(s: State, a: Action, i: nat, w: nat)
    requires Shape(s) && Step(s, a).Some?
    requires i < |s.serverEnds| ==> AckUpTo(s.serverEnds[i], s.size, w)
    requires w < s.size ==> i < |s.serverEnds| && |s.serverEnds[i].sent| > w
    requires 0 < w <= s.size
    ensures
      var s' := Step(s, a).value;
      var resumed := s.server.accepted == i + 1 && AckResumes(s.server, a);
      var w' := if w == s.size && resumed then s.server.pc.written else w;
      && 0 < w' <= s.size && s'.size == s.size
      && (i < |s'.serverEnds| ==> AckUpTo(s'.serverEnds[i], s.size, w'))
      && (w' < s.size ==> i < |s'.serverEnds| && |s'.serverEnds[i].sent| > w')
      && (resumed ==> w' <= s.server.pc.written < s.size)
  {
    hide Step, Served;
    if IsServerAction(a) || IsTaskAction(a) {
      hide Shape, Serving;
      StepServed(s, a);
      ServedEnds(s, a);
      ServedFirst(s, a);
    } else {
      StepElsewhere(s, a);
    }
  }

  /** How a served end moves. */
  lemma ServedEnds(s: State, a: Action)
    requires Shape(s) && Step(s, a).Some? && (IsServerAction(a) || IsTaskAction(a))
    ensures
      && 0 < s.server.accepted <= |s.serverEnds| && Served(s, a).Some?
      && var e := s.serverEnds[s.server.accepted - 1];
      && var (v', e') := Served(s, a).value;
      && v'.accepted == s.server.accepted && (e.closed ==> e'.sent == e.sent && e'.begun == e.begun && e'.closed)
      && e.sent <= e'.sent && e.begun <= e'.begun && e'.read >= e.read
      && (IsTaskAction(a) ==> v' == s.server.(sendTasks := v'.sendTasks, queue := v'.queue)
                              && e'.read == e.read && e'.closed == e.closed)
  {
    hide Step, ServerStep, TaskStep, Serving;
    StepServed(s, a);
    var v, e, peer := s.server, s.serverEnds[s.server.accepted - 1], s.clientEnds[s.server.accepted - 1];
    if IsServerAction(a) {
      ServerTaskEnds(v, e, peer, s.size, a);
    } else {
      SendTaskEnds(v, a.id, e, s.size, a);
    }
  }
}
