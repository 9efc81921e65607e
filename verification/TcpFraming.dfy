/** When a stream of the TCP link is a sequence of whole messages, and what a receive on such a stream delivers. */
module TcpFraming {
  import opened CTypes
  import opened TcpLink

  function Front(ms: seq<Message>): seq<Message>
    requires ms != []
  {
    ms[..|ms| - 1]
  }

  function Last(ms: seq<Message>): Message
    requires ms != []
  {
    ms[|ms| - 1]
  }

  /** The bytes of whole messages, one after the other. */
  function Wholes(ms: seq<Message>, n: Size): seq<Octet> {
    if ms == [] then [] else Wholes(Front(ms), n) + Whole(Last(ms), n)
  }

  /** All messages begun are on the wire, but of the last one, `m`, only `w` bytes if `w` is not zero. */
  ghost predicate Open(e: End, n: Size, m: Message, w: nat) {
    && w < n
    && if w == 0 then e.sent == Wholes(e.begun, n)
       else e.begun != [] && Last(e.begun) == m && e.sent == Wholes(Front(e.begun), n) + Whole(m, n)[..w]
  }

  /** What one side sent are whole messages, the last one possibly incomplete. */
  ghost predicate Framed(e: End, n: Size) {
    exists m: Message, w: nat :: Open(e, n, m, w)
  }

  lemma FramedBy(e: End, n: Size, m: Message, w: nat)
    requires Open(e, n, m, w)
    ensures Framed(e, n)
  {}

  lemma FramedSame(e: End, f: End, n: Size)
    requires f.sent == e.sent && f.begun == e.begun
    ensures Framed(f, n) == Framed(e, n)
    ensures forall m: Message, w: nat :: Open(f, n, m, w) == Open(e, n, m, w)
  {
    if m, w :| Open(e, n, m, w) { FramedBy(f, n, m, w); }
    if m, w :| Open(f, n, m, w) { FramedBy(e, n, m, w); }
  }

  lemma OpenAnew(e: End, n: Size, m: Message, other: Message)
    ensures Open(e, n, m, 0) == Open(e, n, other, 0)
  {}

  lemma WholesSnoc(ms: seq<Message>, m: Message, n: Size)
    ensures Wholes(ms + [m], n) == Wholes(ms, n) + Whole(m, n)
  {
    assert Front(ms + [m]) == ms;
  }

  lemma {:induction false} WholesAppend(a: seq<Message>, b: seq<Message>, n: Size)
    ensures Wholes(a + b, n) == Wholes(a, n) + Wholes(b, n)
    decreases |b|
  {
    hide Whole;
    if b == [] {
      assert a + b == a;
    } else {
      var last := Whole(Last(b), n);
      WholesAppend(a, Front(b), n);
      assert a + b == (a + Front(b)) + [Last(b)];
      WholesSnoc(a + Front(b), Last(b), n);
      assert (Wholes(a, n) + Wholes(Front(b), n)) + last == Wholes(a, n) + (Wholes(Front(b), n) + last);
    }
  }

  /** What a framed side sent: all of the messages begun but the last, and some of the last. */
  lemma FramedIsPrefix(e: End, n: Size)
    requires Framed(e, n)
    ensures e.sent <= Wholes(e.begun, n)
    ensures e.begun != [] ==> Wholes(Front(e.begun), n) <= e.sent
  {
    var m, w :| Open(e, n, m, w);
    if e.begun != [] && w == 0 {
      assert e.sent == Wholes(Front(e.begun), n) + Whole(Last(e.begun), n);
    }
  }

  /** Going on with the message in hand keeps a side framed. */
  lemma SendKeeps(e: End, n: Size, m: Message, w: nat, k: nat)
    requires Open(e, n, m, w) && w + k <= n
    ensures Open(Send(e, m, w, Chunk(m, w, k, n)), n, m, if w + k == n then 0 else w + k)
  {
    hide Whole, Wholes;
    var all := Whole(m, n);
    var e' := Send(e, m, w, Chunk(m, w, k, n));
    WholeLength(m, n);
    if k == 0 {
      assert e.sent + [] == e.sent;
    } else {
      var ms := if w == 0 then e.begun else Front(e.begun);
      assert e'.begun == ms + [m];
      assert Front(ms + [m]) == ms;
      assert all[..w] + all[w..w + k] == all[..w + k];
      assert e'.sent == Wholes(ms, n) + all[..w + k];
      WholesSnoc(ms, m, n);
      assert all[..n] == all;
    }
  }

  lemma WholeLength(m: Message, n: Size)
    ensures |Whole(m, n)| == n
  {}

  lemma FirstCall(m: Message, memory: seq<Byte>, n: Size)
    requires |memory| <= n
    ensures Beyond(m, 0, memory, n) == Chunk(m, 0, |memory|, n)
  {}

  // ---------------------------------------------------------------- streams that are not framed

  /** No foreign byte, and a message begins only where the one before it has ended. */
  ghost predicate Smooth(b: seq<Octet>, n: Size) {
    forall p :: 0 <= p < |b| ==>
      b[p].Octet? && (p > 0 && b[p].index == 0 ==> b[p - 1].Octet? && b[p - 1].index == n - 1)
  }

  lemma {:induction false} WholesSmooth(ms: seq<Message>, n: Size)
    ensures Smooth(Wholes(ms, n), n)
    ensures ms != [] ==> Wholes(ms, n) != [] && Wholes(ms, n)[|Wholes(ms, n)| - 1] == Octet(Last(ms), n - 1)
    decreases |ms|
  {
    if ms != [] {
      WholesSmooth(Front(ms), n);
    }
  }

  lemma FramedSmooth(e: End, n: Size)
    requires Framed(e, n)
    ensures Smooth(e.sent, n)
  {
    FramedIsPrefix(e, n);
    WholesSmooth(e.begun, n);
  }

  /** A send resumed on a wrong pointer leaves the stream unframed for good. */
  lemma ResumedBreaks(b: seq<Octet>, m: Message, w: nat, memory: seq<Byte>, n: Size)
    requires w > 0 && memory != [] && w + |memory| <= n
    ensures !Smooth(b + Beyond(m, w, memory, n), n)
  {
    assert (b + Beyond(m, w, memory, n))[|b|].Foreign?;
  }

  /** So does a message begun in the middle of another. */
  lemma OverlapBreaks(e: End, n: Size, m: Message, w: nat, other: Message, k: nat)
    requires Open(e, n, m, w) && w > 0 && 0 < k <= n
    ensures !Smooth(e.sent + Chunk(other, 0, k, n), n)
  {
    var b := e.sent + Chunk(other, 0, k, n);
    assert b[|e.sent|] == Octet(other, 0) && b[|e.sent| - 1] == Octet(m, w - 1);
  }

  // ---------------------------------------------------------------- reading

  /** A reader that has taken `read` bytes has taken exactly the first `r` messages. */
  ghost predicate ReadAt(peer: End, n: Size, read: nat, r: nat) {
    r <= |peer.begun| && read == |Wholes(peer.begun[..r], n)|
  }

  lemma WholesOfAll(ms: seq<Message>, n: Size, r: nat)
    requires r <= |ms|
    ensures r == |ms| ==> Wholes(ms[..r], n) == Wholes(ms, n)
  {
    assert ms[..|ms|] == ms;
  }

  /** On a framed stream a receive delivers the next message begun, cut short only at the very end. */
  lemma NextMessage(mine: End, peer: End, n: Size, r: nat)
    requires Framed(peer, n) && ReadAt(peer, n, mine.read, r) && CanReceive(mine, peer, n)
    ensures r < |peer.begun|
    ensures
      var k := ReceiveLength(mine, peer, n);
      && peer.sent[mine.read..mine.read + k] == Whole(peer.begun[r], n)[..k]
      && (k == n ==> ReadAt(peer, n, mine.read + n, r + 1))
  {
    hide Whole, Wholes;
    FramedIsPrefix(peer, n);
    var ms := peer.begun;
    assert |Wholes(ms, n)| >= |peer.sent| > mine.read;
    WholesOfAll(ms, n, r);
    var before, m, rest := Wholes(ms[..r], n), Whole(ms[r], n), Wholes(ms[r + 1..], n);
    WholeLength(ms[r], n);
    assert ms[..r + 1] == ms[..r] + [ms[r]];
    WholesSnoc(ms[..r], ms[r], n);
    assert ms == ms[..r + 1] + ms[r + 1..];
    WholesAppend(ms[..r + 1], ms[r + 1..], n);
    PrefixSlice(peer.sent, before, m, rest, ReceiveLength(mine, peer, n));
  }

  lemma PrefixSlice(s: seq<Octet>, a: seq<Octet>, b: seq<Octet>, c: seq<Octet>, k: nat)
    requires s <= a + b + c && k <= |b| && |a| + k <= |s|
    ensures s[|a|..|a| + k] == b[..k]
  {
    assert (a + b + c)[|a|..|a| + k] == b[..k];
  }

  // ---------------------------------------------------------------- commands

  lemma LittleEndian(x: UInt32)
    ensures Number(ByteOf(x, 0), ByteOf(x, 1), ByteOf(x, 2), ByteOf(x, 3)) == x
  {}

  lemma WholeCommand(m: Message, n: Size)
    ensures |Whole(m, n)| == n && Command(Whole(m, n)) == Id(m)
  {
    LittleEndian(Id(m));
  }

  /** `0x100` to the power `j`. */
  function Radix(j: nat): nat
    requires j < 4
  {
    match j
    case 0 => 1
    case 1 => 0x100
    case 2 => 0x1_0000
    case _ => 0x100_0000
  }

  /** The low `j` bytes of one number under the high bytes of another. */
  function Mixed(low: UInt32, high: UInt32, j: nat): (x: UInt32)
    requires j <= 4
  {
    if j == 4 then low else low % Radix(j) + high / Radix(j) * Radix(j)
  }

  /** How many of the four bytes of `cmd_id` a receive of `k` bytes covers. */
  function CommandBytes(k: nat): (j: nat)
    ensures j <= 4
  {
    if k <= CMD_OFFSET then 0 else if k >= CMD_END then 4 else k - CMD_OFFSET
  }

  /** The value of four bytes, least significant first. */
  function Number(b0: Byte, b1: Byte, b2: Byte, b3: Byte): UInt32 {
    b0 + 0x100 * (b1 + 0x100 * (b2 + 0x100 * b3))
  }

  lemma Digits(b0: Byte, b1: Byte, b2: Byte, b3: Byte)
    ensures
      var x := Number(b0, b1, b2, b3);
      && x % 0x100 == b0 && x % 0x1_0000 == b0 + 0x100 * b1 && x % 0x100_0000 == b0 + 0x100 * (b1 + 0x100 * b2)
      && x / 0x100 == b1 + 0x100 * (b2 + 0x100 * b3) && x / 0x1_0000 == b2 + 0x100 * b3 && x / 0x100_0000 == b3
  {
    var x := Number(b0, b1, b2, b3);
    Quotient(x, 0x100, b1 + 0x100 * (b2 + 0x100 * b3), b0);
    Quotient(x, 0x1_0000, b2 + 0x100 * b3, b0 + 0x100 * b1);
    Quotient(x, 0x100_0000, b3, b0 + 0x100 * (b1 + 0x100 * b2));
  }

  /** Division by a power of 0x100 takes a number apart in one way only. */
  lemma Quotient(x: nat, d: nat, q: nat, r: nat)
    requires d == 0x100 || d == 0x1_0000 || d == 0x100_0000
    requires x == q * d + r && r < d
    ensures x / d == q && x % d == r
  {}

  lemma BytesOfNumber(b0: Byte, b1: Byte, b2: Byte, b3: Byte)
    ensures
      var x := Number(b0, b1, b2, b3);
      ByteOf(x, 0) == b0 && ByteOf(x, 1) == b1 && ByteOf(x, 2) == b2 && ByteOf(x, 3) == b3
  {
    var x := Number(b0, b1, b2, b3);
    assert x / 0x100 == b1 + 0x100 * (b2 + 0x100 * b3);
    assert x / 0x100 / 0x100 == b2 + 0x100 * b3;
  }

  lemma MixedBytes(low: UInt32, high: UInt32, j: nat)
    requires j < 4
    ensures
      var b := (i: nat) => if i < j then ByteOf(low, i) else ByteOf(high, i);
      Number(b(0), b(1), b(2), b(3)) == Mixed(low, high, j)
  {
    LittleEndian(low);
    LittleEndian(high);
    hide ByteOf;
    Digits(ByteOf(low, 0), ByteOf(low, 1), ByteOf(low, 2), ByteOf(low, 3));
    Digits(ByteOf(high, 0), ByteOf(high, 1), ByteOf(high, 2), ByteOf(high, 3));
  }

  lemma ValuesOfCommand(buffer: seq<Octet>)
    requires |buffer| >= CMD_END
    ensures Command(buffer) == Number(Value(buffer[8]), Value(buffer[9]), Value(buffer[10]), Value(buffer[11]))
    ensures forall i :: 0 <= i < 4 ==> ByteOf(Command(buffer), i) == Value(buffer[CMD_OFFSET + i])
  {
    hide Value, ByteOf;
    BytesOfNumber(Value(buffer[8]), Value(buffer[9]), Value(buffer[10]), Value(buffer[11]));
  }

  /** The command in a buffer that a cut-off message covers only in part. */
  lemma CutCommand(m: Message, stale: seq<Octet>, k: nat, n: Size)
    requires |stale| == n && k <= n
    ensures
      var b := Whole(m, n)[..k] + stale[k..];
      |b| == n && Command(b) == Mixed(Id(m), Command(stale), CommandBytes(k))
  {
    var b := Whole(m, n)[..k] + stale[k..];
    var j := CommandBytes(k);
    ValuesOfCommand(stale);
    hide Command;
    forall i | 0 <= i < 4
      ensures Value(b[CMD_OFFSET + i]) == if i < j then ByteOf(Id(m), i) else ByteOf(Command(stale), i)
    {
      assert b[CMD_OFFSET + i] == if CMD_OFFSET + i < k then Octet(m, CMD_OFFSET + i) else stale[CMD_OFFSET + i];
    }
    CommandIs(b, Id(m), Command(stale), j);
  }

  lemma CommandIs(b: seq<Octet>, low: UInt32, high: UInt32, j: nat)
    requires |b| >= CMD_END && j <= 4
    requires forall i :: 0 <= i < 4 ==> Value(b[CMD_OFFSET + i]) == if i < j then ByteOf(low, i) else ByteOf(high, i)
    ensures Command(b) == Mixed(low, high, j)
  {
    hide Value, ByteOf;
    assert Value(b[CMD_OFFSET + 0]) == Value(b[8]);
    assert Value(b[CMD_OFFSET + 1]) == Value(b[9]);
    assert Value(b[CMD_OFFSET + 2]) == Value(b[10]);
    assert Value(b[CMD_OFFSET + 3]) == Value(b[11]);
    if j < 4 {
      hide Mixed;
      MixedBytes(low, high, j);
    } else {
      LittleEndian(low);
    }
  }

  /** A mixture reads as COMMINIT exactly when its low bytes do and its high bytes are zero. */
  lemma MixedIsInit(low: UInt32, high: UInt32, j: nat)
    requires j < 4
    ensures Mixed(low, high, j) == COMMINIT <==>
              if j == 0 then high == COMMINIT else low % Radix(j) == COMMINIT && high < Radix(j)
  {}

  // ---------------------------------------------------------------- queue order

  /** The number under which an application message was queued. */
  function Ticket(m: Message): nat {
    if m.App? then m.number else 0
  }

  /** The application messages among `ms` are in queue order, all numbered below `hi`. */
  ghost predicate Ordered(ms: seq<Message>, hi: nat) {
    && (forall i :: 0 <= i < |ms| && ms[i].App? ==> Ticket(ms[i]) < hi)
    && Rising(ms)
  }

  ghost predicate Rising(ms: seq<Message>) {
    forall i, j :: 0 <= i < j < |ms| && ms[i].App? && ms[j].App? ==> Ticket(ms[i]) < Ticket(ms[j])
  }

  ghost predicate Below(a: seq<Message>, b: seq<Message>) {
    forall i, j :: 0 <= i < |a| && 0 <= j < |b| && a[i].App? && b[j].App? ==> Ticket(a[i]) < Ticket(b[j])
  }

  function Tail(ms: seq<Message>): seq<Message> {
    if ms == [] then [] else ms[1..]
  }

  /** A message taken from the queue of which no byte has been sent. */
  function Held(pc: SendPc): seq<Message> {
    if pc.Holding? || (pc.Sending? && pc.written == 0) then [pc.msg] else []
  }

  /** Messages begun, the one in hand and those queued, in this order. */
  ghost predicate Line(begun: seq<Message>, held: seq<Message>, queue: seq<Message>, hi: nat) {
    Ordered(begun + held + queue, hi)
  }

  lemma OrderedSplit(a: seq<Message>, b: seq<Message>, hi: nat)
    ensures Ordered(a + b, hi) <==> Ordered(a, hi) && Ordered(b, hi) && Below(a, b)
  {
    var ab := a + b;
    if Ordered(ab, hi) {
      assert forall i :: 0 <= i < |a| ==> a[i] == ab[i];
      assert forall j :: 0 <= j < |b| ==> b[j] == ab[|a| + j];
    }
  }

  lemma LineSplit(t: seq<Message>, h: seq<Message>, q: seq<Message>, hi: nat)
    ensures Line(t, h, q, hi) <==> Ordered(t, hi) && Ordered(h, hi) && Ordered(q, hi)
                                   && Below(t, h) && Below(t, q) && Below(h, q)
  {
    OrderedSplit(t + h, q, hi);
    OrderedSplit(t, h, hi);
    assert forall i :: 0 <= i < |t| ==> t[i] == (t + h)[i];
    assert forall i :: 0 <= i < |h| ==> h[i] == (t + h)[|t| + i];
  }

  lemma LineStarts(q: seq<Message>, hi: nat)
    requires Ordered(q, hi)
    ensures Line([], [], q, hi) && Ordered([], hi)
  {
    LineSplit([], [], q, hi);
  }

  /** The next message is taken from the queue. */
  lemma LinePops(t: seq<Message>, q: seq<Message>, hi: nat)
    requires q != [] && Line(t, [], q, hi)
    ensures Line(t, [q[0]], q[1..], hi) && Ordered(q[1..], hi)
  {
    assert q == [q[0]] + q[1..];
    LineSplit(t, [], q, hi);
    OrderedSplit([q[0]], q[1..], hi);
    LineSplit(t, [q[0]], q[1..], hi);
  }

  /** The message in hand is begun. */
  lemma LineBegins(t: seq<Message>, m: Message, q: seq<Message>, hi: nat)
    requires Line(t, [m], q, hi)
    ensures Line(t + [m], [], q, hi) && Ordered(t + [m], hi)
  {
    OrderedSplit(t + [m], q, hi);
    assert t + [m] + [] == t + [m];
  }

  /** The message in hand is dropped. */
  lemma LineDrops(t: seq<Message>, h: seq<Message>, q: seq<Message>, hi: nat)
    requires Line(t, h, q, hi)
    ensures Line(t, [], q, hi)
  {
    LineSplit(t, h, q, hi);
    LineSplit(t, [], q, hi);
  }

  /** The queue is emptied. */
  lemma LineClears(t: seq<Message>, h: seq<Message>, q: seq<Message>, hi: nat)
    requires Line(t, h, q, hi)
    ensures Line(t, h, [], hi) && Ordered([], hi)
  {
    LineSplit(t, h, q, hi);
    LineSplit(t, h, [], hi);
  }

  /** A message that is not the application's is begun out of line. */
  lemma LineAdmits(t: seq<Message>, m: Message, h: seq<Message>, q: seq<Message>, hi: nat)
    requires !m.App? && Ordered(t, hi)
    ensures Ordered(t + [m], hi) && (Line(t, h, q, hi) ==> Line(t + [m], h, q, hi))
  {
    OrderedSplit(t, [m], hi);
    LineSplit(t, h, q, hi);
    LineSplit(t + [m], h, q, hi);
  }

  lemma OrderedLater(ms: seq<Message>, hi: nat)
    ensures Ordered(ms, hi) ==> Ordered(ms, hi + 1)
  {}

  lemma QueueGrows(t: seq<Message>, h: seq<Message>, q: seq<Message>, hi: nat, cmd: AppCmd)
    ensures Line(t, h, q, hi) ==> Line(t, h, q + [App(hi, cmd)], hi + 1)
    ensures Ordered(q, hi) ==> Ordered(q + [App(hi, cmd)], hi + 1)
  {
    assert t + h + (q + [App(hi, cmd)]) == (t + h + q) + [App(hi, cmd)];
    OrderedSplit(t + h + q, [App(hi, cmd)], hi + 1);
    OrderedSplit(q, [App(hi, cmd)], hi + 1);
  }

  /** Beginning one more message appends it to the ones after the first. */
  lemma TailSnoc(ms: seq<Message>, m: Message)
    requires ms != []
    ensures Tail(ms + [m]) == Tail(ms) + [m]
  {}

  // ---------------------------------------------------------------- send tasks

  ghost predicate AllApps(ms: seq<Message>) {
    forall i :: 0 <= i < |ms| ==> ms[i].App?
  }

  ghost predicate PcOk(pc: SendPc, n: Size) {
    (pc.Holding? ==> pc.msg.App?) && (pc.Sending? ==> pc.msg.App? && pc.written < n)
  }

  /** A message of which `written` bytes are on the wire; 0 stands for none begun. */
  datatype Pen = Pen(msg: Message, written: nat)
}
