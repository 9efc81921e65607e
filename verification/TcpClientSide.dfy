/** The client's side of the TCP link: its connections one after the other, what it sends, and in which order. */
module TcpClientSide {
  import opened TcpLink
  import opened Wrappers
  import opened TcpFraming

  /** The client on its side `e` of its newest connection. */
  ghost predicate Calling(w: Client, e: End, n: Size) {
    match w.pc
    case Closed => e.closed && w.task == None
    case Initiating(k) =>
      && !e.closed && w.task == None && e.read == 0 && k < n
      && e.sent == Whole(CommInit, n)[..k] && e.begun == if k == 0 then [] else [CommInit]
    case AwaitingAck =>
      !e.closed && w.task == None && e.read == 0 && e.sent == Whole(CommInit, n) && e.begun == [CommInit]
    case Running =>
      && !e.closed && w.task.Some? && !w.task.value.Holding? && PcOk(w.task.value, n)
      && Whole(CommInit, n) <= e.sent && e.begun != []
  }

  ghost predicate ClientShape(s: State) {
    var w, ends := s.client, s.clientEnds;
    && AllApps(w.queue)
    && (forall j :: 0 <= j < |ends| - 1 ==> ends[j].closed)
    && (forall j :: 0 <= j < |ends| && ends[j].closed ==> Whole(CommInit, s.size) <= ends[j].sent)
    && if ends == [] then w.pc.Closed? && w.task == None else Calling(w, ends[|ends| - 1], s.size)
  }

  predicate IsClientAction(a: Action) {
    !IsQueueAction(a) && !IsServerAction(a) && !IsTaskAction(a) && !a.Connect? && !a.Accept?
  }

  /** A step of the client on its newest connection. */
  function Called(s: State, a: Action): Option<(Client, End)>
    requires s.clientEnds != []
  {
    ClientStep(s.client, s.clientEnds[|s.clientEnds| - 1], s.serverEnds[|s.serverEnds| - 1], s.size, a)
  }

  lemma StepCalled(s: State, a: Action)
    requires ClientShape(s) && Step(s, a).Some? && IsClientAction(a)
    ensures
      && s.clientEnds != [] && Calling(s.client, s.clientEnds[|s.clientEnds| - 1], s.size)
      && Called(s, a).Some?
      && var (w', e') := Called(s, a).value;
      && |w'.buffer| == s.size
      && Step(s, a).value == s.(client := w', clientEnds := s.clientEnds[|s.clientEnds| - 1 := e'])
  {
    hide ClientStep, Calling;
  }

  lemma StepNotCalled(s: State, a: Action)
    requires Step(s, a).Some? && !IsClientAction(a)
    ensures
      var s', w := Step(s, a).value, s.client;
      && s'.size == s.size
      && (a.Connect? ==> w.pc.Closed?)
      && s'.clientEnds == (if a.Connect? then s.clientEnds + [NEW_END] else s.clientEnds)
      && s'.client == if a.Connect? then w.(pc := Initiating(0), buffer := Whole(CommInit, s.size))
                      else if IsQueueAction(a) then QueueStep(s, a).client else w
  {
    hide ServerStep, TaskStep;
  }

  lemma CalledCalls(w: Client, e: End, peer: End, n: Size, a: Action)
    requires |w.buffer| == n && AllApps(w.queue) && Calling(w, e, n) && ClientStep(w, e, peer, n, a).Some?
    ensures
      var (w', e') := ClientStep(w, e, peer, n, a).value;
      && AllApps(w'.queue) && Calling(w', e', n)
      && (e'.closed ==> Whole(CommInit, n) <= e'.sent)
      && (e.closed ==> e'.closed) && e.sent <= e'.sent && e.begun <= e'.begun && e'.read >= e.read
  {
    hide Command;
    if a.InitSend? {
      var all := Whole(CommInit, n);
      WholeLength(CommInit, n);
      assert all[..w.pc.written] + Chunk(CommInit, w.pc.written, a.k, n) == all[..w.pc.written + a.k];
      assert all[..n] == all;
    }
  }

  lemma ClientShapeKeeps(s: State, a: Action)
    requires ClientShape(s) && Step(s, a).Some?
    ensures ClientShape(Step(s, a).value)
  {
    hide Step, Called, Whole;
    if IsClientAction(a) {
      hide Calling;
      StepCalled(s, a);
      CallMoves(s, a);
    } else {
      StepNotCalled(s, a);
      WholeLength(CommInit, s.size);
      assert Whole(CommInit, s.size)[..0] == [];
    }
  }

  /** How the client's side of its newest connection moves. */
  lemma CallMoves(s: State, a: Action)
    requires ClientShape(s) && Step(s, a).Some? && IsClientAction(a)
    ensures
      && s.clientEnds != [] && Called(s, a).Some?
      && var e := s.clientEnds[|s.clientEnds| - 1];
      && var (w', e') := Called(s, a).value;
      && AllApps(w'.queue) && Calling(w', e', s.size)
      && (e'.closed ==> Whole(CommInit, s.size) <= e'.sent)
      && (e.closed ==> e'.closed) && e.sent <= e'.sent && e.begun <= e'.begun && e'.read >= e.read
  {
    hide Step, ClientStep, Calling;
    StepCalled(s, a);
    CalledCalls(s.client, s.clientEnds[|s.clientEnds| - 1], s.serverEnds[|s.serverEnds| - 1], s.size, a);
  }

  // ---------------------------------------------------------------- queue order

  /** A side of the client begins COMMINIT first and then application messages in queue order. */
  ghost predicate UpOrder(e: End, hi: nat) {
    && (e.begun != [] ==> e.begun[0] == CommInit)
    && AllApps(Tail(e.begun))
    && Ordered(Tail(e.begun), hi)
  }

  function ClientHeld(w: Client): seq<Message> {
    if w.task.Some? then Held(w.task.value) else []
  }

  ghost predicate ClientOrder(w: Client, e: End) {
    && Ordered(w.queue, w.queued)
    && UpOrder(e, w.queued)
    && (w.pc.Running? ==> Line(Tail(e.begun), ClientHeld(w), w.queue, w.queued))
  }

  ghost predicate UpOrders(s: State) {
    var w, ends := s.client, s.clientEnds;
    && Ordered(w.queue, w.queued)
    && (forall j :: 0 <= j < |ends| ==> UpOrder(ends[j], w.queued))
    && (ends != [] ==> ClientOrder(w, ends[|ends| - 1]))
  }

  lemma CallOrder(w: Client, e: End, peer: End, n: Size, a: Action)
    requires |w.buffer| == n && Calling(w, e, n) && AllApps(w.queue) && ClientOrder(w, e)
    requires ClientStep(w, e, peer, n, a).Some?
    ensures
      var (w', e') := ClientStep(w, e, peer, n, a).value;
      w'.queued == w.queued && ClientOrder(w', e')
  {
    hide Command, Whole, Ordered, Line, Receive;
    var e' := ClientStep(w, e, peer, n, a).value.1;
    var t, q := Tail(e.begun), w.queue;
    LineStarts(q, w.queued);
    match a
    case InitSend(_) =>
      assert e'.begun != [] ==> e'.begun == [CommInit] && Tail(e'.begun) == [];
    case ClientRecvAck => assert t == [];
    case ClientTaskReset => LineClears(t, [], q, w.queued);
    case ClientTaskPop =>
      LinePops([], q, w.queued);
      LinePops(t, q, w.queued);
    case ClientTaskSend(_) =>
      if e'.begun != e.begun {
        TailSnoc(e.begun, w.task.value.msg);
        LineBegins(t, w.task.value.msg, q, w.queued);
      }
    case _ =>
  }

  lemma ClientQueueOrder(s: State, a: Action)
    requires UpOrders(s) && IsQueueAction(a)
    ensures UpOrders(QueueStep(s, a))
  {
    hide Ordered, Line, UpOrder;
    var w := s.client;
    LineStarts(w.queue, w.queued);
    LineClears([], [], w.queue, w.queued);
    if a.ClientQueueReset? && s.clientEnds != [] {
      var e := s.clientEnds[|s.clientEnds| - 1];
      if w.pc.Running? { LineClears(Tail(e.begun), ClientHeld(w), w.queue, w.queued); }
    }
    if a.ClientQueue? {
      QueueGrows([], [], w.queue, w.queued, a.cmd);
      UpOrderLater(w.queued);
      if s.clientEnds != [] {
        QueueGrows(Tail(s.clientEnds[|s.clientEnds| - 1].begun), ClientHeld(w), w.queue, w.queued, a.cmd);
      }
    }
  }

  lemma UpOrderLater(hi: nat)
    ensures forall e: End :: UpOrder(e, hi) ==> UpOrder(e, hi + 1)
  {
    hide Ordered;
    forall e: End ensures UpOrder(e, hi) ==> UpOrder(e, hi + 1) { OrderedLater(Tail(e.begun), hi); }
  }

  lemma UpOrdersKeep(s: State, a: Action)
    requires ClientShape(s) && UpOrders(s) && Step(s, a).Some?
    ensures UpOrders(Step(s, a).value)
  {
    hide Step, ClientStep, Ordered, UpOrder, Calling, Whole;
    if IsClientAction(a) {
      StepCalled(s, a);
      CallOrder(s.client, s.clientEnds[|s.clientEnds| - 1], s.serverEnds[|s.serverEnds| - 1], s.size, a);
    } else {
      StepNotCalled(s, a);
      NewEndUpOrder(s.client.queued);
      if IsQueueAction(a) { ClientQueueOrder(s, a); }
    }
  }

  lemma NewEndUpOrder(hi: nat)
    ensures UpOrder(NEW_END, hi)
  {}

  // ---------------------------------------------------------------- what is on the wire

  function ClientPen(w: Client): Pen {
    if w.pc.Initiating? then Pen(CommInit, w.pc.written)
    else if w.task.Some? && w.task.value.Sending? then Pen(w.task.value.msg, w.task.value.written)
    else Pen(CommInit, 0)
  }

  /** The client's send task goes on after a partial send. */
  predicate ClientResumes(w: Client, a: Action) {
    && a.ClientTaskSend? && a.memory != []
    && w.task.Some? && w.task.value.Sending? && w.task.value.written > 0
  }

  ghost predicate PenOpen(w: Client, e: End, n: Size) {
    Open(e, n, ClientPen(w).msg, ClientPen(w).written)
  }

  /** A side of the client is framed; the newest one up to where its writer is. */
  ghost predicate UpOk(s: State, i: nat) {
    i < |s.clientEnds| ==>
      && Framed(s.clientEnds[i], s.size)
      && (i == |s.clientEnds| - 1 && !s.clientEnds[i].closed ==> PenOpen(s.client, s.clientEnds[i], s.size))
  }

  lemma CallWrites(w: Client, e: End, peer: End, n: Size, a: Action)
    requires |w.buffer| == n && Calling(w, e, n) && ClientStep(w, e, peer, n, a).Some?
    requires !e.closed && PenOpen(w, e, n)
    ensures
      var (w', e') := ClientStep(w, e, peer, n, a).value;
      if ClientResumes(w, a) then !Smooth(e'.sent, n) else Framed(e', n) && (e'.closed || PenOpen(w', e', n))
  {
    hide Command, Whole, Wholes, Open, Smooth, Receive;
    var (w', e') := ClientStep(w, e, peer, n, a).value;
    var p := ClientPen(w);
    WholeLength(p.msg, n);
    FramedBy(e, n, p.msg, p.written);
    FramedSame(e, e'.(sent := e.sent, begun := e.begun), n);
    match a
    case InitSend(k) =>
      SendKeeps(e, n, CommInit, p.written, k);
      FramedBy(e', n, CommInit, if p.written + k == n then 0 else p.written + k);
    case ClientTaskSend(memory) =>
      if memory == [] {
        assert e.sent + [] == e.sent;
      } else if p.written > 0 {
        ResumedBreaks(e.sent, p.msg, p.written, memory, n);
      } else {
        FirstCall(p.msg, memory, n);
        SendKeeps(e, n, p.msg, 0, |memory|);
        FramedBy(e', n, p.msg, if |memory| == n then 0 else |memory|);
        if |memory| == n { OpenAnew(e', n, p.msg, CommInit); }
      }
    case ClientTaskPop => OpenAnew(e, n, p.msg, ClientPen(w').msg);
    case _ =>
  }

  lemma UpKeeps(s: State, a: Action, i: nat)
    requires ClientShape(s) && UpOk(s, i) && Step(s, a).Some?
    ensures
      var s' := Step(s, a).value;
      if |s.clientEnds| == i + 1 && ClientResumes(s.client, a)
      then i < |s'.clientEnds| && !Smooth(s'.clientEnds[i].sent, s.size) else UpOk(s', i)
  {
    hide Step, ClientStep, Framed, Smooth, Open, Whole;
    if IsClientAction(a) {
      StepCalled(s, a);
      var e := s.clientEnds[|s.clientEnds| - 1];
      if |s.clientEnds| == i + 1 {
        assert !e.closed by { OpenWhileCalled(s, a); }
        CallWrites(s.client, e, s.serverEnds[|s.serverEnds| - 1], s.size, a);
      }
    } else {
      StepNotCalled(s, a);
      FirstEndOpen(s.size);
    }
  }

  lemma OpenWhileCalled(s: State, a: Action)
    requires ClientShape(s) && IsClientAction(a) && s.clientEnds != [] && Called(s, a).Some?
    ensures !s.clientEnds[|s.clientEnds| - 1].closed
  {}

  lemma FirstEndOpen(n: Size)
    ensures Open(NEW_END, n, CommInit, 0) && Framed(NEW_END, n)
  {
    FramedBy(NEW_END, n, CommInit, 0);
  }
}
