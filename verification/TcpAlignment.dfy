/**
 * In every run of the TCP link, also one in which sends went wrong, the server reads a command only from octets of
 * `cmd_id` or from foreign ones: `TcpLink.Value` need not know the other bytes of a message.
 */
module TcpAlignment {
  import opened TcpLink
  import opened Wrappers
  import opened TcpFraming
  import opened TcpServerSide
  import opened TcpClientSide
  import opened TcpSafety
  import opened TcpDelivery

  /** Byte `p` of a stream is byte `p % n` of its message. */
  ghost predicate Aligned(b: seq<Octet>, n: Size) {
    forall p :: 0 <= p < |b| && b[p].Octet? ==> b[p].index == p % n
  }

  /** The same of a receive buffer. */
  ghost predicate InPlace(b: seq<Octet>) {
    forall p :: 0 <= p < |b| && b[p].Octet? ==> b[p].index == p
  }

  lemma ModOfSum(q: nat, r: nat, n: Size)
    requires r < n
    ensures (q * n + r) % n == r
  {
    var x := q * n + r;
    assert x == x / n * n + x % n;
    if x / n < q {
      assert (x / n + 1) * n <= q * n by { MulMonotone(x / n + 1, q, n); }
    } else if x / n > q {
      assert (q + 1) * n <= x / n * n by { MulMonotone(q + 1, x / n, n); }
    }
  }

  lemma MulMonotone(a: nat, b: nat, n: Size)
    requires a <= b
    ensures a * n <= b * n
  {}

  lemma ModAdd(x: nat, j: nat, n: Size)
    requires x % n + j <= n
    ensures (x + j) % n == if x % n + j == n then 0 else x % n + j
  {
    var q, r := x / n, x % n;
    assert x == q * n + r;
    if r + j == n {
      assert x + j == (q + 1) * n + 0;
      ModOfSum(q + 1, 0, n);
    } else {
      ModOfSum(q, r + j, n);
    }
  }

  lemma AlignedAppend(b: seq<Octet>, chunk: seq<Octet>, n: Size)
    requires Aligned(b, n) && |b| % n + |chunk| <= n
    requires forall j :: 0 <= j < |chunk| && chunk[j].Octet? ==> chunk[j].index == |b| % n + j
    ensures Aligned(b + chunk, n)
    ensures |b + chunk| % n == if |b| % n + |chunk| == n then 0 else |b| % n + |chunk|
  {
    var c := b + chunk;
    forall p | 0 <= p < |c| && c[p].Octet? ensures c[p].index == p % n {
      if p < |b| {
        assert c[p] == b[p];
      } else {
        ModAdd(|b|, p - |b|, n);
      }
    }
    ModAdd(|b|, |chunk|, n);
  }

  // ---------------------------------------------------------------- the client's streams

  ghost predicate UpAligned(s: State) {
    && (forall i :: 0 <= i < |s.clientEnds| ==> Aligned(s.clientEnds[i].sent, s.size))
    && (s.clientEnds != [] && !s.client.pc.Closed? ==>
          |s.clientEnds[|s.clientEnds| - 1].sent| % s.size == ClientPen(s.client).written)
  }

  lemma CallAligned(w: Client, e: End, peer: End, n: Size, a: Action)
    requires |w.buffer| == n && Calling(w, e, n) && ClientStep(w, e, peer, n, a).Some?
    requires Aligned(e.sent, n) && |e.sent| % n == ClientPen(w).written
    ensures
      var (w', e') := ClientStep(w, e, peer, n, a).value;
      Aligned(e'.sent, n) && (!w'.pc.Closed? ==> |e'.sent| % n == ClientPen(w').written)
  {
    hide Command, Receive, Aligned, Wholes;
    match a
    case InitSend(k) => AlignedAppend(e.sent, Chunk(CommInit, w.pc.written, k, n), n);
    case ClientTaskSend(memory) =>
      AlignedAppend(e.sent, Beyond(w.task.value.msg, w.task.value.written, memory, n), n);
    case _ =>
  }

  lemma UpAlignedKeeps(s: State, a: Action)
    requires ClientShape(s) && UpAligned(s) && Step(s, a).Some?
    ensures UpAligned(Step(s, a).value)
  {
    hide Step, ClientStep, Calling, Aligned;
    if IsClientAction(a) {
      StepCalled(s, a);
      CalledOpen(s, a);
      CallAligned(s.client, s.clientEnds[|s.clientEnds| - 1], s.serverEnds[|s.serverEnds| - 1], s.size, a);
    } else {
      StepNotCalled(s, a);
      NothingAligned(s.size);
    }
  }

  lemma CalledOpen(s: State, a: Action)
    requires ClientShape(s) && IsClientAction(a) && s.clientEnds != [] && Called(s, a).Some?
    ensures !s.client.pc.Closed?
  {}

  lemma NothingAligned(n: Size)
    ensures Aligned([], n)
  {}

  // ---------------------------------------------------------------- the server's buffer

  ghost predicate ReadsAligned(s: State) {
    var v := s.server;
    && InPlace(v.buffer)
    && (0 < v.accepted <= |s.serverEnds| ==>
          var mine, peer := s.serverEnds[v.accepted - 1], s.clientEnds[v.accepted - 1];
          mine.read % s.size == 0 || (peer.closed && mine.read == |peer.sent|))
  }

  lemma ReceiveAligned(mine: End, peer: End, buffer: seq<Octet>, n: Size)
    requires CanReceive(mine, peer, n) && |buffer| == n && InPlace(buffer) && Aligned(peer.sent, n)
    requires mine.read % n == 0 || (peer.closed && mine.read == |peer.sent|)
    ensures InPlace(Receive(mine, peer, buffer, n))
    ensures
      var read := AfterReceive(mine, peer, n).read;
      read % n == 0 || (peer.closed && read == |peer.sent|)
  {
    var k := ReceiveLength(mine, peer, n);
    var b := Receive(mine, peer, buffer, n);
    forall p | 0 <= p < n && b[p].Octet? ensures b[p].index == p {
      if p < k {
        assert b[p] == peer.sent[mine.read + p];
        ModAdd(mine.read, p, n);
      } else {
        assert b[p] == buffer[p];
      }
    }
    ModAdd(mine.read, n, n);
  }

  lemma DispatchInPlace(v: Server, n: Size)
    requires v.accepted > 0 && |v.buffer| == n && InPlace(v.buffer)
    ensures InPlace(Dispatch(v, n).buffer) && Dispatch(v, n).accepted == v.accepted
  {
    hide Command;
  }

  lemma ReadsAlignedKeeps(s: State, a: Action)
    requires Sound(s) && UpAligned(s) && ReadsAligned(s) && Step(s, a).Some?
    ensures ReadsAligned(Step(s, a).value)
  {
    hide Step, DownOrders, UpOrders, ClientShape, Serving, InPlace, Aligned, Whole, Command, Receive, ReceiveLength,
         Dispatch, Send;
    var i := s.server.accepted - 1;
    if IsServerAction(a) || IsTaskAction(a) {
      StepServed(s, a);
      ServedEnds(s, a);
      if a.ServerRecv? {
        var got := Receive(s.serverEnds[i], s.clientEnds[i], s.server.buffer, s.size);
        ReceiveAligned(s.serverEnds[i], s.clientEnds[i], s.server.buffer, s.size);
        DispatchInPlace(s.server.(buffer := got), s.size);
      } else {
        ReadOnlyMovesOnRecv(s, a);
        BufferOnlyMovesOnRecv(s, a);
      }
    } else {
      StepElsewhere(s, a);
      if a.Accept? {
        ModAdd(0, 0, s.size);
      } else if s.server.accepted > 0 {
        PeerMoves(s, a, i);
      }
    }
  }

  lemma BufferOnlyMovesOnRecv(s: State, a: Action)
    requires 0 < s.server.accepted <= |s.serverEnds| && Served(s, a).Some? && !a.ServerRecv?
    ensures Served(s, a).value.0.buffer == s.server.buffer
  {}

  lemma {:induction false} RunAligned(n: Size, actions: seq<Action>)
    requires Run(n, actions).Some?
    ensures UpAligned(Run(n, actions).value) && ReadsAligned(Run(n, actions).value)
    decreases |actions|
  {
    hide Step, Sound, Ever, Occurs, UpAligned, ReadsAligned;
    if actions == [] {
      InitAligned(n);
    } else {
      var before := Run(n, actions[..|actions| - 1]).value;
      RunSplits(n, actions);
      RunAligned(n, actions[..|actions| - 1]);
      RunSound(n, actions[..|actions| - 1]);
      SoundParts(before);
      UpAlignedKeeps(before, actions[|actions| - 1]);
      ReadsAlignedKeeps(before, actions[|actions| - 1]);
    }
  }

  lemma InitAligned(n: Size)
    ensures UpAligned(Init(n)) && ReadsAligned(Init(n))
  {}

  /** The octets from which the server takes a command are those of a `cmd_id`, or foreign. */
  lemma CommandOctets(n: Size, actions: seq<Action>, p: nat)
    requires Run(n, actions).Some? && CMD_OFFSET <= p < CMD_END
    ensures
      var b := Run(n, actions).value.server.buffer;
      p < |b| && (b[p].Foreign? || b[p].index == p)
  {
    hide Run;
    RunAligned(n, actions);
    assert |Run(n, actions).value.server.buffer| == Run(n, actions).value.size;
  }
}
