/**
 * No message is lost on its way from a send queue of the TCP link to the wire but by the steps named here: what was
 * queued since a send task took over is begun, in its hand or still queued, in this order and without a gap.
 */
module TcpQueues {
  import opened TcpLink
  import opened Wrappers
  import opened TcpFraming
  import opened TcpServerSide
  import opened TcpClientSide
  import opened TcpSafety

  datatype Side = OnServer | OnClient

  /** The application messages among `ms`. */
  function Apps(ms: seq<Message>): seq<Message> {
    if ms == [] then [] else Apps(Front(ms)) + (if Last(ms).App? then [Last(ms)] else [])
  }

  lemma AppsSnoc(ms: seq<Message>, m: Message)
    ensures Apps(ms + [m]) == Apps(ms) + (if m.App? then [m] else [])
  {
    assert Front(ms + [m]) == ms;
  }

  /** The connection one side works on. */
  function Current(s: State, side: Side): int {
    if side.OnServer? then s.server.accepted - 1 else |s.clientEnds| - 1
  }

  /** Messages begun on the current connection, the one in the send task's hand, and those queued. */
  function LineUp(s: State, side: Side): seq<Message>
    requires 0 <= Current(s, side) < |s.serverEnds|
  {
    if side.OnServer? then ServerLine(s.server, s.serverEnds[Current(s, side)])
    else ClientLine(s.client, s.clientEnds[Current(s, side)])
  }

  function ServerLine(v: Server, e: End): seq<Message> {
    Together(Apps(e.begun), Held(TaskPc(v)), v.queue)
  }

  function ClientLine(w: Client, e: End): seq<Message> {
    Together(Apps(e.begun), ClientHeld(w), w.queue)
  }

  function Together(begun: seq<Message>, held: seq<Message>, queue: seq<Message>): seq<Message> {
    begun + held + queue
  }

  function Counter(s: State, side: Side): nat {
    if side.OnServer? then s.server.queued else s.client.queued
  }

  /** The command of the message an action queues. */
  function QueuedBy(side: Side, a: Action): Option<AppCmd> {
    match a
    case ServerQueue(cmd) => if side.OnServer? then Some(cmd) else None
    case ClientQueue(cmd) => if side.OnClient? then Some(cmd) else None
    case _ => None
  }

  /** The messages a series of actions queues, numbered from `base` on. */
  function QueuedFrom(side: Side, base: nat, actions: seq<Action>): seq<Message> {
    if actions == [] then []
    else
      var before := QueuedFrom(side, base, actions[..|actions| - 1]);
      match QueuedBy(side, actions[|actions| - 1])
      case None => before
      case Some(cmd) => before + [App(base + |before|, cmd)]
  }

  /**
   * The messages an action discards: a reset empties the queue, a server that is not connected and a closed socket lose
   * the message in hand, and so does the end of the send task.
   */
  function LostBy(s: State, side: Side, a: Action): seq<Message>
    requires 0 <= Current(s, side) < |s.serverEnds|
  {
    var v, w := s.server, s.client;
    if side.OnServer? then
      match a
      case ServerQueueReset => v.queue
      case TaskReset(_) => v.queue
      case TaskCheck(_) => if v.connected then [] else Held(TaskPc(v))
      case TaskSend(_, _) => if s.serverEnds[Current(s, side)].closed then Held(TaskPc(v)) else []
      case DeleteSendTask => Held(TaskPc(v))
      case _ => []
    else
      match a
      case ClientQueueReset => w.queue
      case ClientTaskReset => w.queue
      case ClientClose => ClientHeld(w)
      case _ => []
  }

  // ---------------------------------------------------------------- one step

  /** What a step does to the line: it appends what is queued and removes what is lost, nothing else. */
  ghost predicate Moves(before: seq<Message>, after: seq<Message>, queued: seq<Message>, lost: seq<Message>) {
    && |after| + |lost| == |before| + |queued|
    && (lost == [] ==> after == before + queued)
  }

  lemma SameLine(line: seq<Message>)
    ensures Moves(line, line, [], [])
  {
    assert line + [] == line;
  }

  lemma LinePopped(t: seq<Message>, q: seq<Message>)
    requires q != []
    ensures Moves(Together(t, [], q), Together(t, [q[0]], q[1..]), [], [])
  {
    assert q == [q[0]] + q[1..];
    assert t + [q[0]] + q[1..] == t + [] + q + [];
  }

  lemma LineBegun(t: seq<Message>, m: Message, q: seq<Message>)
    ensures Moves(Together(t, [m], q), Together(t + [m], [], q), [], [])
  {
    assert (t + [m]) + [] + q == t + [m] + q + [];
  }

  lemma LineGrows(t: seq<Message>, h: seq<Message>, q: seq<Message>, m: Message)
    ensures Moves(Together(t, h, q), Together(t, h, q + [m]), [m], [])
  {
    assert t + h + (q + [m]) == (t + h + q) + [m];
  }

  lemma LineEmptied(t: seq<Message>, h: seq<Message>, q: seq<Message>)
    ensures Moves(Together(t, h, q), Together(t, h, []), [], q)
  {
    assert q == [] ==> t + h + [] == t + h + q + [];
  }

  lemma LineWithout(t: seq<Message>, h: seq<Message>, q: seq<Message>)
    ensures Moves(Together(t, h, q), Together(t, [], q), [], h)
  {
    assert h == [] ==> t + [] + q == t + h + q + [];
  }

  lemma ServerTaskLine(v: Server, e: End, peer: End, n: Size, a: Action)
    requires v.accepted > 0 && |v.buffer| == n && Serving(v, e, n) && ServerStep(v, e, peer, n, a).Some?
    ensures
      var (v', e') := ServerStep(v, e, peer, n, a).value;
      && v'.queue == v.queue && v'.queued == v.queued && Apps(e'.begun) == Apps(e.begun)
      && Held(TaskPc(v')) == if a.DeleteSendTask? then [] else Held(TaskPc(v))
  {
    AppsSnoc(e.begun, CommAck);
    AppsSnoc(e.begun, CommNack);
    hide Command, Whole, Receive, ReceiveLength, AllApps, PcOk, Apps;
  }

  /** The messages a step of the server task or a send task loses. */
  function ServedLoses(v: Server, e: End, a: Action): seq<Message> {
    if a.TaskReset? then v.queue
    else if (a.TaskCheck? && !v.connected) || (a.TaskSend? && e.closed) || a.DeleteSendTask? then Held(TaskPc(v))
    else []
  }

  lemma ServedLosses(s: State, a: Action)
    requires 0 < s.server.accepted <= |s.serverEnds| && (IsServerAction(a) || IsTaskAction(a))
    ensures LostBy(s, OnServer, a) == ServedLoses(s.server, s.serverEnds[s.server.accepted - 1], a)
  {}

  lemma OwnTaskLine(v: Server, e: End, peer: End, n: Size, a: Action)
    requires IsServerAction(a)
    requires v.accepted > 0 && |v.buffer| == n && Serving(v, e, n) && ServerStep(v, e, peer, n, a).Some?
    ensures
      var (v', e') := ServerStep(v, e, peer, n, a).value;
      && v'.queued == v.queued
      && Moves(ServerLine(v, e), ServerLine(v', e'), [], ServedLoses(v, e, a))
  {
    hide Serving, ServerStep, Apps, Together, Moves;
    ServerTaskLine(v, e, peer, n, a);
    SameLine(ServerLine(v, e));
    LineWithout(Apps(e.begun), Held(TaskPc(v)), v.queue);
  }

  lemma SendTaskLine(v: Server, id: nat, e: End, n: Size, a: Action)
    requires v.accepted > 0 && id in v.sendTasks && OneSender(v, v.accepted - 1) && IsTaskAction(a)
    requires Serving(v, e, n) && TaskStep(v, id, e, n, a).Some?
    ensures
      var (v', e') := TaskStep(v, id, e, n, a).value;
      v'.queued == v.queued && Moves(ServerLine(v, e), ServerLine(v', e'), [], ServedLoses(v, e, a))
  {
    var t, pc, q := Apps(e.begun), TaskPc(v), v.queue;
    hide Whole, Serving, Apps, Together, Moves;
    SameLine(ServerLine(v, e));
    match a
    case TaskReset(_) => LineEmptied(t, [], q);
    case TaskPop(_) => LinePopped(t, q);
    case TaskCheck(_) => LineWithout(t, [pc.msg], q);
    case TaskSend(_, k) =>
      if pc.Sending? {
        WholeLength(pc.msg, n);
        AppsSnoc(e.begun, pc.msg);
        TaskSendsApp(v, e, n);
        LineBegun(t, pc.msg, q);
        LineWithout(t, Held(pc), q);
      }
  }

  lemma TaskSendsApp(v: Server, e: End, n: Size)
    requires v.accepted > 0 && Serving(v, e, n) && TaskPc(v).Sending?
    ensures TaskPc(v).msg.App?
  {}

  /** The messages a client step loses. */
  function CallLoses(w: Client, a: Action): seq<Message> {
    if a.ClientTaskReset? then w.queue else if a.ClientClose? then ClientHeld(w) else []
  }

  lemma CallLine(w: Client, e: End, peer: End, n: Size, a: Action)
    requires |w.buffer| == n && Calling(w, e, n) && ClientStep(w, e, peer, n, a).Some?
    ensures
      var (w', e') := ClientStep(w, e, peer, n, a).value;
      w'.queued == w.queued && Moves(ClientLine(w, e), ClientLine(w', e'), [], CallLoses(w, a))
  {
    CallFacts(w, e, n);
    hide Calling;
    if a.ClientTaskReset? || a.ClientTaskPop? || a.ClientTaskSend? {
      CallTaskLine(w, e, peer, n, a);
    } else {
      CallKeepsLine(w, e, peer, n, a);
      hide ClientStep;
      SameLine(ClientLine(w, e));
      if a.ClientClose? { LineWithout(Apps(e.begun), ClientHeld(w), w.queue); }
    }
  }

  lemma CallKeepsLine(w: Client, e: End, peer: End, n: Size, a: Action)
    requires |w.buffer| == n && ClientStep(w, e, peer, n, a).Some?
    requires !a.ClientTaskReset? && !a.ClientTaskPop? && !a.ClientTaskSend? && (!w.pc.Running? ==> w.task == None)
    ensures
      var (w', e') := ClientStep(w, e, peer, n, a).value;
      && w'.queued == w.queued && w'.queue == w.queue && Apps(e'.begun) == Apps(e.begun)
      && ClientHeld(w') == if a.ClientClose? then [] else ClientHeld(w)
  {
    AppsSnoc(e.begun, CommInit);
    hide Command, Whole, Receive, ReceiveLength, Apps;
  }

  lemma CallTaskLine(w: Client, e: End, peer: End, n: Size, a: Action)
    requires |w.buffer| == n && ClientStep(w, e, peer, n, a).Some?
    requires a.ClientTaskReset? || a.ClientTaskPop? || a.ClientTaskSend?
    requires w.task.Some? && w.task.value.Sending? ==> w.task.value.msg.App?
    ensures
      var (w', e') := ClientStep(w, e, peer, n, a).value;
      w'.queued == w.queued && Moves(ClientLine(w, e), ClientLine(w', e'), [], CallLoses(w, a))
  {
    var t, q := Apps(e.begun), w.queue;
    hide Apps, Together, Moves, Whole;
    SameLine(ClientLine(w, e));
    match a
    case ClientTaskReset => LineEmptied(t, [], q);
    case ClientTaskPop => LinePopped(t, q);
    case ClientTaskSend(_) =>
      var m := w.task.value.msg;
      AppsSnoc(e.begun, m);
      LineBegun(t, m, q);
  }

  lemma CallFacts(w: Client, e: End, n: Size)
    requires Calling(w, e, n)
    ensures !w.pc.Running? ==> w.task == None
    ensures w.task.Some? && w.task.value.Sending? ==> w.task.value.msg.App?
    ensures w.task.Some? ==> !w.task.value.Holding?
  {}

  /** Steps that stay on the current connection. */
  ghost predicate Stays(s: State, side: Side, a: Action) {
    && 0 <= Current(s, side) < |s.serverEnds| && Step(s, a).Some?
    && Current(Step(s, a).value, side) == Current(s, side) < |Step(s, a).value.serverEnds|
  }

  /** The message an action queues, if any. */
  function NewMessage(side: Side, number: nat, a: Action): seq<Message> {
    match QueuedBy(side, a)
    case None => []
    case Some(cmd) => [App(number, cmd)]
  }

  /** Every step. */
  lemma StepMovesLine(s: State, side: Side, a: Action)
    requires Sound(s) && Stays(s, side, a)
    ensures Moves(LineUp(s, side), LineUp(Step(s, a).value, side), NewMessage(side, Counter(s, side), a),
                  LostBy(s, side, a))
    ensures Counter(Step(s, a).value, side) == Counter(s, side) + |NewMessage(side, Counter(s, side), a)|
  {
    SoundParts(s);
    if side.OnServer? { ServerMovesLine(s, a); } else { ClientMovesLine(s, a); }
  }

  lemma ServerMovesLine(s: State, a: Action)
    requires Shape(s) && Stays(s, OnServer, a)
    ensures
      var s' := Step(s, a).value;
      && Moves(LineUp(s, OnServer), LineUp(s', OnServer), NewMessage(OnServer, Counter(s, OnServer), a),
               LostBy(s, OnServer, a))
      && Counter(s', OnServer) == Counter(s, OnServer) + |NewMessage(OnServer, Counter(s, OnServer), a)|
  {
    if IsServerAction(a) || IsTaskAction(a) {
      StepServed(s, a);
      ServedLine(s, a);
      hide Step, Shape, Serving, Served, ServerLine, Moves;
    } else {
      StepElsewhere(s, a);
      hide Step, Shape, Together, Moves, Apps;
      var v, e := s.server, s.serverEnds[Current(s, OnServer)];
      SameLine(ServerLine(v, e));
      match a
      case ServerQueue(cmd) => LineGrows(Apps(e.begun), Held(TaskPc(v)), v.queue, App(v.queued, cmd));
      case ServerQueueReset => LineEmptied(Apps(e.begun), Held(TaskPc(v)), v.queue);
      case _ =>
    }
  }

  lemma ServedLine(s: State, a: Action)
    requires Shape(s) && Step(s, a).Some? && (IsServerAction(a) || IsTaskAction(a))
    ensures
      && 0 < s.server.accepted <= |s.serverEnds| && Served(s, a).Some?
      && var (v', e') := Served(s, a).value;
      && v'.queued == s.server.queued
      && Moves(ServerLine(s.server, s.serverEnds[Current(s, OnServer)]), ServerLine(v', e'), [], LostBy(s, OnServer, a))
  {
    StepServed(s, a);
    ServedLosses(s, a);
    hide Step, Shape, Serving, ServerLine, Moves, ServerStep, TaskStep, LostBy, ServedLoses;
    var v, e, peer := s.server, s.serverEnds[s.server.accepted - 1], s.clientEnds[s.server.accepted - 1];
    if IsServerAction(a) {
      OwnTaskLine(v, e, peer, s.size, a);
    } else {
      SendTaskLine(v, a.id, e, s.size, a);
    }
  }

  lemma ClientMovesLine(s: State, a: Action)
    requires ClientShape(s) && Stays(s, OnClient, a)
    ensures
      var s' := Step(s, a).value;
      && Moves(LineUp(s, OnClient), LineUp(s', OnClient), NewMessage(OnClient, Counter(s, OnClient), a),
               LostBy(s, OnClient, a))
      && Counter(s', OnClient) == Counter(s, OnClient) + |NewMessage(OnClient, Counter(s, OnClient), a)|
  {
    if IsClientAction(a) {
      StepCalled(s, a);
      CalledLine(s, a);
      hide Step, ClientShape, Calling, Called, ClientLine, Moves;
    } else {
      StepNotCalled(s, a);
      hide Step, ClientShape, Calling, ClientLine, Moves;
      QueueLine(s.client, s.clientEnds[Current(s, OnClient)], a);
    }
  }

  lemma CalledLine(s: State, a: Action)
    requires ClientShape(s) && Step(s, a).Some? && IsClientAction(a)
    ensures
      && s.clientEnds != [] && Called(s, a).Some?
      && var (w', e') := Called(s, a).value;
      && w'.queued == s.client.queued
      && Moves(ClientLine(s.client, s.clientEnds[|s.clientEnds| - 1]), ClientLine(w', e'), [], CallLoses(s.client, a))
  {
    StepCalled(s, a);
    hide Step, ClientShape, Calling, ClientStep, ClientLine, Moves;
    CallLine(s.client, s.clientEnds[|s.clientEnds| - 1], s.serverEnds[|s.clientEnds| - 1], s.size, a);
  }

  lemma QueueLine(w: Client, e: End, a: Action)
    ensures
      match a
      case ClientQueue(cmd) =>
        Moves(ClientLine(w, e), ClientLine(w.(queue := w.queue + [App(w.queued, cmd)], queued := w.queued + 1), e),
              [App(w.queued, cmd)], [])
      case ClientQueueReset => Moves(ClientLine(w, e), ClientLine(w.(queue := []), e), [], w.queue)
      case _ => Moves(ClientLine(w, e), ClientLine(w, e), [], [])
  {
    hide Apps, Together, Moves;
    SameLine(ClientLine(w, e));
    match a
    case ClientQueue(cmd) => LineGrows(Apps(e.begun), ClientHeld(w), w.queue, App(w.queued, cmd));
    case ClientQueueReset => LineEmptied(Apps(e.begun), ClientHeld(w), w.queue);
    case _ =>
  }

  // ---------------------------------------------------------------- a fresh send task

  /** A send task that has not yet run has nothing on the wire. */
  ghost predicate FreshTasks(s: State) {
    FreshServerTask(s.server, s.serverEnds) && FreshClientTask(s.client, s.clientEnds)
  }

  ghost predicate FreshServerTask(v: Server, ends: seq<End>) {
    0 < v.accepted <= |ends| && TaskPc(v).Starting? ==> Apps(ends[v.accepted - 1].begun) == []
  }

  ghost predicate FreshClientTask(w: Client, ends: seq<End>) {
    ends != [] && w.task == Some(Starting) ==> Apps(ends[|ends| - 1].begun) == []
  }

  lemma FreshKeeps(s: State, a: Action)
    requires Sound(s) && FreshTasks(s) && Step(s, a).Some?
    ensures FreshTasks(Step(s, a).value)
  {
    SoundParts(s);
    FreshServerKeeps(s, a);
    FreshClientKeeps(s, a);
  }

  lemma FreshServerKeeps(s: State, a: Action)
    requires Shape(s) && FreshServerTask(s.server, s.serverEnds) && Step(s, a).Some?
    ensures FreshServerTask(Step(s, a).value.server, Step(s, a).value.serverEnds)
  {
    hide Step, Serving, Apps, Served;
    if IsServerAction(a) || IsTaskAction(a) {
      hide Shape, TaskPc;
      StepServed(s, a);
      FreshServer(s, a);
    } else {
      StepElsewhere(s, a);
      if a.Accept? { AcceptedWaits(s); }
    }
  }

  lemma AcceptedWaits(s: State)
    requires Shape(s) && s.server.pc.Accepting?
    ensures TaskPc(s.server) == Waiting
  {}

  lemma FreshClientKeeps(s: State, a: Action)
    requires ClientShape(s) && FreshClientTask(s.client, s.clientEnds) && Step(s, a).Some?
    ensures FreshClientTask(Step(s, a).value.client, Step(s, a).value.clientEnds)
  {
    hide Step, Apps, Called, Whole;
    if IsClientAction(a) {
      hide ClientShape, Calling;
      StepCalled(s, a);
      FreshClient(s, a);
    } else {
      StepNotCalled(s, a);
    }
  }

  lemma FreshServer(s: State, a: Action)
    requires Shape(s) && FreshServerTask(s.server, s.serverEnds) && Step(s, a).Some?
    requires (IsServerAction(a) || IsTaskAction(a))
    ensures
      && 0 < s.server.accepted <= |s.serverEnds| && Served(s, a).Some?
      && var (v', e') := Served(s, a).value;
      v'.accepted == s.server.accepted && (TaskPc(v').Starting? ==> Apps(e'.begun) == [])
  {
    StepServed(s, a);
    ServedEnds(s, a);
    hide Step, Shape, Apps, Serving, ServerStep, TaskStep;
    var v, e, peer := s.server, s.serverEnds[s.server.accepted - 1], s.clientEnds[s.server.accepted - 1];
    if IsServerAction(a) {
      ServerTaskLine(v, e, peer, s.size, a);
      ServingBegun(v, e, s.size);
      StartsFresh(v, e, peer, s.size, a);
      NoApps();
    } else {
      TaskHasRun(v, a.id, e, s.size, a);
    }
  }

  lemma StartsFresh(v: Server, e: End, peer: End, n: Size, a: Action)
    requires v.accepted > 0 && |v.buffer| == n && ServerStep(v, e, peer, n, a).Some?
    ensures TaskPc(ServerStep(v, e, peer, n, a).value.0).Starting? ==>
              TaskPc(v).Starting? || (v.pc.Receiving? && !v.connected)
  {
    hide Command, Receive, Whole;
  }

  lemma TaskHasRun(v: Server, id: nat, e: End, n: Size, a: Action)
    requires v.accepted > 0 && id in v.sendTasks && OneSender(v, v.accepted - 1) && TaskStep(v, id, e, n, a).Some?
    ensures !TaskPc(TaskStep(v, id, e, n, a).value.0).Starting?
  {
    hide Whole;
  }

  lemma NoApps()
    ensures Apps([]) == [] && Apps([CommInit]) == []
  {
    assert Front([CommInit]) == [];
  }

  lemma FreshClient(s: State, a: Action)
    requires ClientShape(s) && FreshClientTask(s.client, s.clientEnds) && Step(s, a).Some? && IsClientAction(a)
    ensures
      && s.clientEnds != [] && Called(s, a).Some?
      && var (w', e') := Called(s, a).value;
      w'.task == Some(Starting) ==> Apps(e'.begun) == []
  {
    StepCalled(s, a);
    hide Step, Apps, Whole, Command, Receive, ReceiveLength;
    NoApps();
  }

  lemma {:induction false} RunFresh(n: Size, actions: seq<Action>)
    requires Run(n, actions).Some?
    ensures FreshTasks(Run(n, actions).value)
    decreases |actions|
  {
    hide Step, Sound, Ever, Occurs, FreshTasks;
    if actions == [] {
      InitFresh(n);
    } else {
      RunSplits(n, actions);
      RunFresh(n, actions[..|actions| - 1]);
      RunSound(n, actions[..|actions| - 1]);
      FreshKeeps(Run(n, actions[..|actions| - 1]).value, actions[|actions| - 1]);
    }
  }

  lemma InitFresh(n: Size)
    ensures FreshTasks(Init(n))
  {}

  // ---------------------------------------------------------------- over runs

  /** How many messages the actions from the `j`-th on have lost. */
  function LostSince(n: Size, actions: seq<Action>, j: nat, side: Side): nat
    decreases |actions|
  {
    if |actions| <= j then 0
    else
      var before := actions[..|actions| - 1];
      LostSince(n, before, j, side)
      + (if Run(n, before).Some? && 0 <= Current(Run(n, before).value, side) < |Run(n, before).value.serverEnds|
         then |LostBy(Run(n, before).value, side, actions[|actions| - 1])| else 0)
  }

  lemma CurrentGrows(s: State, side: Side, a: Action)
    requires Sound(s) && Step(s, a).Some?
    ensures Current(s, side) <= Current(Step(s, a).value, side) < |Step(s, a).value.serverEnds|
  {
    StepKeeps(s, a);
    CurrentBound(Step(s, a).value, side);
    SoundParts(s);
    hide Step, Sound, Shape, ClientShape, Serving, Calling, DownOrders, UpOrders, Served, Called;
    if side.OnServer? {
      if IsServerAction(a) || IsTaskAction(a) {
        StepServed(s, a);
        ServedEnds(s, a);
      } else {
        StepElsewhere(s, a);
      }
    } else {
      if IsClientAction(a) { StepCalled(s, a); } else { StepNotCalled(s, a); }
    }
  }

  lemma {:induction false} CurrentSince(n: Size, actions: seq<Action>, j: nat, side: Side)
    requires j <= |actions| && Run(n, actions).Some?
    ensures Run(n, actions[..j]).Some?
    ensures Current(Run(n, actions[..j]).value, side) <= Current(Run(n, actions).value, side)
    ensures Current(Run(n, actions).value, side) < |Run(n, actions).value.serverEnds|
    decreases |actions|
  {
    hide Step, Sound, Ever, Occurs, Current;
    RunSound(n, actions);
    CurrentBound(Run(n, actions).value, side);
    if j == |actions| {
      assert actions[..j] == actions;
    } else {
      var before := actions[..|actions| - 1];
      RunSplits(n, actions);
      CurrentSince(n, before, j, side);
      assert before[..j] == actions[..j];
      RunSound(n, before);
      CurrentGrows(Run(n, before).value, side, actions[|actions| - 1]);
    }
  }

  lemma CurrentBound(s: State, side: Side)
    requires Sound(s)
    ensures Current(s, side) < |s.serverEnds|
  {}

  lemma QueuedMore(side: Side, base: nat, actions: seq<Action>)
    requires actions != []
    ensures
      var before := QueuedFrom(side, base, actions[..|actions| - 1]);
      QueuedFrom(side, base, actions) == before + NewMessage(side, base + |before|, actions[|actions| - 1])
  {
    hide QueuedBy;
    var before := QueuedFrom(side, base, actions[..|actions| - 1]);
    assert before + [] == before;
  }

  lemma LostMore(n: Size, actions: seq<Action>, j: nat, side: Side)
    requires j < |actions|
    requires
      var before := Run(n, actions[..|actions| - 1]);
      before.Some? && 0 <= Current(before.value, side) < |before.value.serverEnds|
    ensures LostSince(n, actions, j, side) ==
            LostSince(n, actions[..|actions| - 1], j, side)
            + |LostBy(Run(n, actions[..|actions| - 1]).value, side, actions[|actions| - 1])|
  {
    hide Run, LostBy, Current;
  }

  /** From `s0` to `s` on one connection: the line is what it was plus everything queued less what was lost. */
  ghost predicate Accounted(s0: State, s: State, side: Side, queued: seq<Message>, lost: nat) {
    && 0 <= Current(s0, side) == Current(s, side) && Current(s, side) < |s0.serverEnds|
    && Current(s, side) < |s.serverEnds|
    && Counter(s, side) == Counter(s0, side) + |queued|
    && |LineUp(s, side)| + lost == |LineUp(s0, side)| + |queued|
    && (lost == 0 ==> LineUp(s, side) == LineUp(s0, side) + queued)
  }

  lemma StepAccounted(s0: State, r: State, side: Side, a: Action, queued: seq<Message>, lost: nat)
    requires Sound(r) && Stays(r, side, a) && Accounted(s0, r, side, queued, lost)
    ensures Accounted(s0, Step(r, a).value, side, queued + NewMessage(side, Counter(r, side), a),
                      lost + |LostBy(r, side, a)|)
  {
    hide Step, Sound, LineUp, Counter, Current, LostBy, NewMessage;
    StepMovesLine(r, side, a);
    var start, more := LineUp(s0, side), NewMessage(side, Counter(r, side), a);
    assert start + queued + more == start + (queued + more);
  }

  /** What happened on the connection of one side after the first `j` actions. */
  ghost predicate RunAccounted(n: Size, actions: seq<Action>, j: nat, side: Side)
    requires j <= |actions| && Run(n, actions).Some? && Run(n, actions[..j]).Some?
  {
    var s0 := Run(n, actions[..j]).value;
    Accounted(s0, Run(n, actions).value, side, QueuedFrom(side, Counter(s0, side), actions[j..]),
              LostSince(n, actions, j, side))
  }

  lemma {:induction false} LineSince(n: Size, actions: seq<Action>, j: nat, side: Side)
    requires j <= |actions| && Run(n, actions).Some? && Run(n, actions[..j]).Some?
    requires 0 <= Current(Run(n, actions[..j]).value, side) == Current(Run(n, actions).value, side)
    ensures RunAccounted(n, actions, j, side)
    decreases |actions|
  {
    hide Run, Current, RunAccounted;
    if j == |actions| {
      NoActionYet(n, actions, side);
    } else {
      var before := actions[..|actions| - 1];
      RunSplits(n, actions);
      CurrentSince(n, before, j, side);
      CurrentSince(n, actions, |before|, side);
      assert before[..j] == actions[..j] && actions[..|before|] == before;
      LineSince(n, before, j, side);
      OneMoreAction(n, actions, j, side);
    }
  }

  lemma NoActionYet(n: Size, actions: seq<Action>, side: Side)
    requires actions[..|actions|] == actions && Run(n, actions).Some? && 0 <= Current(Run(n, actions).value, side)
    ensures RunAccounted(n, actions, |actions|, side)
  {
    hide Sound, Ever, Occurs, LineUp, Counter, Current, LostBy, Run;
    RunSound(n, actions);
    CurrentBound(Run(n, actions).value, side);
    var line := LineUp(Run(n, actions).value, side);
    assert line + [] == line;
  }

  lemma OneMoreAction(n: Size, actions: seq<Action>, j: nat, side: Side)
    requires j < |actions| && Run(n, actions).Some? && Run(n, actions[..j]).Some?
    requires actions[..|actions| - 1][..j] == actions[..j] && Run(n, actions[..|actions| - 1]).Some?
    requires RunAccounted(n, actions[..|actions| - 1], j, side)
    requires
      var r := Run(n, actions[..|actions| - 1]).value;
      Step(r, actions[|actions| - 1]) == Run(n, actions) && Stays(r, side, actions[|actions| - 1])
    ensures RunAccounted(n, actions, j, side)
  {
    hide Step, Sound, Ever, Occurs, LineUp, Counter, Current, LostBy, Run, QueuedFrom, NewMessage, LostSince, Stays;
    var before, a := actions[..|actions| - 1], actions[|actions| - 1];
    RunSound(n, before);
    var s0, r := Run(n, actions[..j]).value, Run(n, before).value;
    assert actions[j..][..|actions[j..]| - 1] == before[j..] && actions[j..][|actions[j..]| - 1] == a;
    QueuedMore(side, Counter(s0, side), actions[j..]);
    LostMore(n, actions, j, side);
    var queued := QueuedFrom(side, Counter(s0, side), before[j..]);
    assert Counter(r, side) == Counter(s0, side) + |queued|;
    hide Accounted;
    StepAccounted(s0, r, side, a, queued, LostSince(n, before, j, side));
  }

  /** The reset with which a send task takes over. */
  predicate TakesOver(side: Side, a: Action) {
    if side.OnServer? then a.TaskReset? else a.ClientTaskReset?
  }

  /** A send task starts with an empty line: what was queued before is gone. */
  lemma TakeOverEmpties(s: State, side: Side, a: Action)
    requires Sound(s) && FreshTasks(s) && Step(s, a).Some? && TakesOver(side, a)
    ensures
      var s' := Step(s, a).value;
      0 <= Current(s', side) < |s'.serverEnds| && LineUp(s', side) == []
  {
    SoundParts(s);
    hide Sound, Step, Shape, ClientShape, FreshServerTask, FreshClientTask;
    if side.OnServer? { ServerTakesOver(s, a); } else { ClientTakesOver(s, a); }
  }

  lemma ServerTakesOver(s: State, a: Action)
    requires Shape(s) && FreshServerTask(s.server, s.serverEnds) && Step(s, a).Some? && a.TaskReset?
    ensures
      var s' := Step(s, a).value;
      0 <= Current(s', OnServer) < |s'.serverEnds| && LineUp(s', OnServer) == []
  {
    StepServed(s, a);
    SenderIsCurrent(s, a.id);
    ResetEmpties(s.server, a.id, s.serverEnds[s.server.accepted - 1], s.size, a);
    hide Step, Shape, Serving, TaskStep, ServerLine;
  }

  lemma ClientTakesOver(s: State, a: Action)
    requires ClientShape(s) && FreshClientTask(s.client, s.clientEnds) && Step(s, a).Some? && a.ClientTaskReset?
    ensures
      var s' := Step(s, a).value;
      0 <= Current(s', OnClient) < |s'.serverEnds| && LineUp(s', OnClient) == []
  {
    StepCalled(s, a);
    ClientResetEmpties(s.client, s.clientEnds[|s.clientEnds| - 1], s.serverEnds[|s.clientEnds| - 1], s.size, a);
    hide Step, ClientShape, Calling, ClientStep, ClientLine;
  }

  lemma ClientResetEmpties(w: Client, e: End, peer: End, n: Size, a: Action)
    requires |w.buffer| == n && a.ClientTaskReset? && ClientStep(w, e, peer, n, a).Some?
    requires w.task == Some(Starting) ==> Apps(e.begun) == []
    ensures
      var (w', e') := ClientStep(w, e, peer, n, a).value;
      ClientLine(w', e') == []
  {
    hide Apps;
  }

  lemma ResetEmpties(v: Server, id: nat, e: End, n: Size, a: Action)
    requires id in v.sendTasks && v.sendHandle == Some(id) && a.TaskReset? && TaskStep(v, id, e, n, a).Some?
    requires TaskPc(v).Starting? ==> Apps(e.begun) == []
    ensures
      var (v', e') := TaskStep(v, id, e, n, a).value;
      v'.accepted == v.accepted && ServerLine(v', e') == []
  {
    hide Apps;
  }

  /**
   * From the moment a send task takes over, as long as its connection is the current one: the messages begun, in hand
   * and queued are all that was queued since, in this order and with no number missing, if and only if no step has lost
   * one. In every case exactly as many are missing as were lost.
   */
  lemma NothingElseLost(n: Size, actions: seq<Action>, j: nat, side: Side)
    requires j < |actions| && Run(n, actions).Some? && TakesOver(side, actions[j]) && Run(n, actions[..j + 1]).Some?
    requires Current(Run(n, actions[..j + 1]).value, side) == Current(Run(n, actions).value, side)
    ensures
      var base, s := Counter(Run(n, actions[..j + 1]).value, side), Run(n, actions).value;
      var queued := QueuedFrom(side, base, actions[j + 1..]);
      var lost := LostSince(n, actions, j + 1, side);
      && 0 <= Current(s, side) < |s.serverEnds| && Counter(s, side) == base + |queued|
      && |LineUp(s, side)| + lost == |queued|
      && (LineUp(s, side) == queued <==> lost == 0)
  {
    hide Step, Sound, Ever, Occurs, LineUp, Counter, Current, FreshTasks, Run;
    var reset := actions[..j + 1];
    assert reset[..|reset| - 1] == actions[..j] && reset[|reset| - 1] == actions[j];
    RunSplits(n, reset);
    RunSound(n, actions[..j]);
    RunFresh(n, actions[..j]);
    TakeOverEmpties(Run(n, actions[..j]).value, side, actions[j]);
    LineSince(n, actions, j + 1, side);
    var queued := QueuedFrom(side, Counter(Run(n, reset).value, side), actions[j + 1..]);
    var line, lost := LineUp(Run(n, actions).value, side), LostSince(n, actions, j + 1, side);
    assert [] + queued == queued;
    assert |line| + lost == |queued| && (lost == 0 ==> line == queued);
  }

  /** The messages queued carry consecutive numbers. */
  lemma {:induction false} QueuedNumbers(side: Side, base: nat, actions: seq<Action>)
    ensures
      var queued := QueuedFrom(side, base, actions);
      forall k :: 0 <= k < |queued| ==> queued[k].App? && queued[k].number == base + k
    decreases |actions|
  {
    if actions != [] {
      QueuedNumbers(side, base, actions[..|actions| - 1]);
      QueuedMore(side, base, actions);
      hide QueuedFrom, QueuedBy;
    }
  }
}
