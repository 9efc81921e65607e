/** Safety of the TCP link over every interleaving of its tasks, with the exact conditions under which it holds. */
module TcpSafety {
  import opened TcpLink
  import opened Wrappers
  import opened TcpFraming
  import opened TcpServerSide
  import opened TcpClientSide

  // ---------------------------------------------------------------- events of a run

  /** What can go wrong on connection `conn`. */
  datatype Event =
    | AckResumed(conn: nat)     // the COMMACK send goes on after a partial one
    | AckCut(conn: nat)         // it does so before the last byte of `cmd_id` is sent
    | NackResumed(conn: nat)    // the COMMNACK send goes on after a partial one
    | Overlapped(conn: nat)     // one of the server's two writers begins a message in the middle of the other's
    | UpResumed(conn: nat)      // the client's send task goes on after a partial send
    | CommandCut(conn: nat)     // the server's last receive ends inside the bytes of `cmd_id`

  ghost predicate Occurs(s: State, a: Action, e: Event) {
    match e
    case AckResumed(i) => s.server.accepted == i + 1 && AckResumes(s.server, a)
    case AckCut(i) => s.server.accepted == i + 1 && AckResumes(s.server, a) && s.server.pc.written < CMD_END
    case NackResumed(i) => s.server.accepted == i + 1 && NackResumes(s.server, a)
    case Overlapped(i) => s.server.accepted == i + 1 && Overlaps(s.server, a, s.size)
    case UpResumed(i) => |s.clientEnds| == i + 1 && ClientResumes(s.client, a)
    case CommandCut(i) =>
      && s.server.accepted == i + 1 <= |s.serverEnds| && a.ServerRecv? && s.server.pc.Receiving?
      && CMD_OFFSET < Unread(s.serverEnds[i], s.clientEnds[i]) < CMD_END
  }

  ghost predicate OccursAt(n: Size, actions: seq<Action>, j: nat, e: Event)
    requires j < |actions|
  {
    Run(n, actions[..j]).Some? && Occurs(Run(n, actions[..j]).value, actions[j], e)
  }

  /** Whether `e` occurs in a run. */
  ghost predicate Ever(n: Size, actions: seq<Action>, e: Event) {
    exists j: nat :: j < |actions| && OccursAt(n, actions, j, e)
  }

  /** The runs before and at the last action. */
  lemma RunSplits(n: Size, actions: seq<Action>)
    requires actions != [] && Run(n, actions).Some?
    ensures
      var before := actions[..|actions| - 1];
      && Run(n, before).Some?
      && Step(Run(n, before).value, actions[|actions| - 1]) == Run(n, actions)
      && forall e: Event ::
           Ever(n, actions, e) <==> Ever(n, before, e) || Occurs(Run(n, before).value, actions[|actions| - 1], e)
  {
    hide Step, Occurs;
    var before := actions[..|actions| - 1];
    assert forall j: nat :: j < |before| ==> actions[..j] == before[..j];
    forall e: Event
      ensures Ever(n, actions, e) <==> Ever(n, before, e) || Occurs(Run(n, before).value, actions[|actions| - 1], e)
    {
      if j: nat :| j < |before| && OccursAt(n, before, j, e) {
        assert OccursAt(n, actions, j, e);
      }
      if Occurs(Run(n, before).value, actions[|before|], e) {
        assert OccursAt(n, actions, |before|, e);
      }
      if j: nat :| j < |actions| && OccursAt(n, actions, j, e) {
        if j < |before| { assert OccursAt(n, before, j, e); }
      }
    }
  }

  lemma NothingYet(n: Size, e: Event)
    ensures !Ever(n, [], e)
  {}

  // ---------------------------------------------------------------- what every run keeps

  /** What both sides keep, whatever happens. */
  ghost predicate Sound(s: State) {
    Shape(s) && DownOrders(s) && ClientShape(s) && UpOrders(s)
  }

  lemma InitSound(n: Size)
    ensures Sound(Init(n))
  {}

  /** Every step of every task keeps it. */
  lemma StepKeeps(s: State, a: Action)
    requires Sound(s) && Step(s, a).Some?
    ensures Sound(Step(s, a).value)
  {
    hide Step, Shape, DownOrders, ClientShape, UpOrders;
    ShapeKeeps(s, a);
    DownOrdersKeep(s, a);
    ClientShapeKeeps(s, a);
    UpOrdersKeep(s, a);
  }

  lemma {:induction false} RunSound(n: Size, actions: seq<Action>)
    requires Run(n, actions).Some?
    ensures Sound(Run(n, actions).value)
    decreases |actions|
  {
    hide Step, Sound, Ever, Occurs;
    if actions == [] {
      InitSound(n);
    } else {
      RunSplits(n, actions);
      RunSound(n, actions[..|actions| - 1]);
      StepKeeps(Run(n, actions[..|actions| - 1]).value, actions[|actions| - 1]);
    }
  }

  /** At every moment of every run at most one process task and at most one send task are alive. */
  lemma AtMostOnePair(n: Size, actions: seq<Action>)
    requires Run(n, actions).Some?
    ensures
      var v := Run(n, actions).value.server;
      && |v.processTasks| <= 1 && |v.sendTasks| <= 1
      && (v.pc.Receiving? || v.pc.Acking? || v.pc.Nacking? ==> |v.processTasks| == |v.sendTasks|)
      && (v.connected && v.pc.Receiving? ==> |v.sendTasks| == 1)
      && (v.pc.Accepting? ==> |v.sendTasks| == 0 && |v.processTasks| == 0)
  {
    hide *;
    RunSound(n, actions);
    PairBound(Run(n, actions).value);
  }

  lemma PairBound(s: State)
    requires Sound(s)
    ensures
      var v := s.server;
      && |v.processTasks| <= 1 && |v.sendTasks| <= 1
      && (v.pc.Receiving? || v.pc.Acking? || v.pc.Nacking? ==> |v.processTasks| == |v.sendTasks|)
      && (v.connected && v.pc.Receiving? ==> |v.sendTasks| == 1)
      && (v.pc.Accepting? ==> |v.sendTasks| == 0 && |v.processTasks| == 0)
  {
    hide DownOrders, ClientShape, UpOrders;
    var v := s.server;
    assert |v.sendTasks| == |v.sendTasks.Keys|;
  }

  // ---------------------------------------------------------------- streams are whole messages, exactly when

  /** Something that breaks the server's stream of connection `i` has happened. */
  ghost predicate DownBroken(n: Size, actions: seq<Action>, i: nat) {
    Ever(n, actions, AckResumed(i)) || Ever(n, actions, NackResumed(i)) || Ever(n, actions, Overlapped(i))
  }

  lemma SentGrows(s: State, a: Action, i: nat)
    requires Sound(s) && Step(s, a).Some? && i < |s.serverEnds|
    ensures
      var s' := Step(s, a).value;
      && s'.size == s.size && i < |s'.serverEnds| && i < |s'.clientEnds|
      && s.serverEnds[i].sent <= s'.serverEnds[i].sent && s.clientEnds[i].sent <= s'.clientEnds[i].sent
      && s.serverEnds[i].begun <= s'.serverEnds[i].begun && s.clientEnds[i].begun <= s'.clientEnds[i].begun
  {
    hide Step, Shape, DownOrders, ClientShape, UpOrders, Served, Called;
    if IsServerAction(a) || IsTaskAction(a) {
      StepServed(s, a);
      ServedEnds(s, a);
    } else {
      StepElsewhere(s, a);
    }
    if IsClientAction(a) {
      StepCalled(s, a);
      CallMoves(s, a);
    } else {
      StepNotCalled(s, a);
    }
  }

  lemma {:induction false} DownHistory(n: Size, actions: seq<Action>, i: nat)
    requires Run(n, actions).Some?
    ensures
      var s := Run(n, actions).value;
      if DownBroken(n, actions, i) then i < |s.serverEnds| && !Smooth(s.serverEnds[i].sent, n) else DownOk(s, i)
    ensures Run(n, actions).value.size == n
    decreases |actions|
  {
    hide Step, DownOk, Smooth, Ever, Sound, AckResumes, NackResumes, Overlaps;
    if actions == [] {
      NothingYet(n, AckResumed(i));
      NothingYet(n, NackResumed(i));
      NothingYet(n, Overlapped(i));
      InitFramed(n, i);
    } else {
      var before, a := actions[..|actions| - 1], actions[|actions| - 1];
      RunSplits(n, actions);
      DownHistory(n, before, i);
      RunSound(n, before);
      var s := Run(n, before).value;
      if DownBroken(n, before, i) {
        SentGrows(s, a, i);
        SmoothPrefix(s.serverEnds[i].sent, Step(s, a).value.serverEnds[i].sent, n);
      } else {
        assert Shape(s) by { SoundParts(s); }
        DownKeeps(s, a, i);
        SizeStays(s, a);
      }
    }
  }

  lemma SizeStays(s: State, a: Action)
    requires Step(s, a).Some?
    ensures Step(s, a).value.size == s.size
  {
    hide ServerStep, TaskStep, ClientStep;
  }

  lemma SoundParts(s: State)
    requires Sound(s)
    ensures Shape(s) && DownOrders(s) && ClientShape(s) && UpOrders(s)
  {}

  lemma SmoothPrefix(a: seq<Octet>, b: seq<Octet>, n: Size)
    requires a <= b && !Smooth(a, n)
    ensures !Smooth(b, n)
  {}

  lemma InitFramed(n: Size, i: nat)
    ensures Run(n, []).Some? && Run(n, []).value.size == n && DownOk(Run(n, []).value, i) && UpOk(Run(n, []).value, i)
  {}

  /**
   * In every run, what the server sent on a connection is framed if and only if it never went on with a partial COMMACK
   * or COMMNACK and never began a message in the middle of another.
   */
  lemma DownFramedIff(n: Size, actions: seq<Action>, i: nat)
    requires Run(n, actions).Some? && i < |Run(n, actions).value.serverEnds|
    ensures Framed(Run(n, actions).value.serverEnds[i], n) <==> !DownBroken(n, actions, i)
  {
    hide Framed, Smooth, DownBroken, Run;
    DownHistory(n, actions, i);
    if DownBroken(n, actions, i) && Framed(Run(n, actions).value.serverEnds[i], n) {
      FramedSmooth(Run(n, actions).value.serverEnds[i], n);
    }
  }

  lemma {:induction false} UpHistory(n: Size, actions: seq<Action>, i: nat)
    requires Run(n, actions).Some?
    ensures
      var s := Run(n, actions).value;
      if Ever(n, actions, UpResumed(i)) then i < |s.clientEnds| && !Smooth(s.clientEnds[i].sent, n) else UpOk(s, i)
    ensures Run(n, actions).value.size == n
    decreases |actions|
  {
    hide Step, UpOk, Smooth, Ever, Sound, ClientResumes;
    if actions == [] {
      NothingYet(n, UpResumed(i));
      InitFramed(n, i);
    } else {
      var before, a := actions[..|actions| - 1], actions[|actions| - 1];
      RunSplits(n, actions);
      UpHistory(n, before, i);
      RunSound(n, before);
      var s := Run(n, before).value;
      SizeStays(s, a);
      if Ever(n, before, UpResumed(i)) {
        SentGrows(s, a, i);
        SmoothPrefix(s.clientEnds[i].sent, Step(s, a).value.clientEnds[i].sent, n);
      } else {
        assert ClientShape(s) by { SoundParts(s); }
        UpKeeps(s, a, i);
      }
    }
  }

  /**
   * In every run, what the client sent on a connection is framed if and only if its send task never went on with a
   * partial message.
   */
  lemma UpFramedIff(n: Size, actions: seq<Action>, i: nat)
    requires Run(n, actions).Some? && i < |Run(n, actions).value.clientEnds|
    ensures Framed(Run(n, actions).value.clientEnds[i], n) <==> !Ever(n, actions, UpResumed(i))
  {
    hide Framed, Smooth, Ever, Run;
    UpHistory(n, actions, i);
    if Ever(n, actions, UpResumed(i)) && Framed(Run(n, actions).value.clientEnds[i], n) {
      FramedSmooth(Run(n, actions).value.clientEnds[i], n);
    }
  }
}
