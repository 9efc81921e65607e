/** `build_app_proto` and `parse_app_proto` over byte buffers. */
module AppProtoBuffer {
  import opened CTypes
  import opened Decimal
  import opened Wrappers
  import opened AppProto

  // ---------------------------------------------------------------- building

  /** `memcpy(buf + pos, s, |s|)`. */
  method Copy(buf: array<Byte>, pos: nat, s: seq<Byte>)
    requires pos + |s| <= buf.Length
    modifies buf
    ensures buf[..pos + |s|] == old(buf[..pos]) + s
    ensures forall i :: pos + |s| <= i < buf.Length ==> buf[i] == old(buf[i])
  {
    forall i | 0 <= i < |s| {
      buf[pos + i] := s[i];
    }
  }

  /** Copies `s` to `buf[pos..]` and returns the position after it, or -1 if no byte below `max` would be left. */
  method Append(buf: array<Byte>, pos: nat, max: int, s: seq<Byte>) returns (next: int)
    requires max <= buf.Length
    modifies buf
    ensures next == if pos + |s| >= max then -1 else pos + |s|
    ensures next >= 0 ==> buf[..next] == old(buf[..pos]) + s
    ensures next >= 0 ==> forall i :: next <= i < buf.Length ==> buf[i] == old(buf[i])
    ensures next < 0 ==> buf[..] == old(buf[..])
  {
    if pos + |s| >= max {
      return -1;
    }
    Copy(buf, pos, s);
    next := pos + |s|;
  }

  /** One field and its separator, or -1. */
  method AppendField(buf: array<Byte>, pos: nat, max: int, s: seq<Byte>) returns (next: int)
    requires max <= buf.Length
    modifies buf
    ensures next == if pos + |s| + 1 > max then -1 else pos + |s| + 1
    ensures next >= 0 ==> buf[..next] == old(buf[..pos]) + s + [SEP]
    ensures next >= 0 ==> forall i :: next <= i < buf.Length ==> buf[i] == old(buf[i])
    ensures next < 0 ==> buf[..] == old(buf[..])
  {
    next := Append(buf, pos, max, s);
    if next >= 0 {
      label Copied:
      buf[next] := SEP;
      next := next + 1;
      assert buf[..next] == old@Copied(buf[..next - 1]) + [SEP];
    }
  }

  lemma JoinStep(f: seq<seq<Byte>>, k: nat)
    requires k < |f|
    ensures Join(f[..k + 1]) == Join(f[..k]) + f[k] + [SEP]
    ensures |Join(f[..k + 1])| <= |Join(f)|
  {
    assert f[..k + 1] == f[..k] + [f[k]] && f == f[..k + 1] + f[k + 1..];
    JoinAppend(f[..k], [f[k]]);
    JoinAppend(f[..k + 1], f[k + 1..]);
    JoinNil([f[k]][1..]);
    assert Join([f[k]]) == f[k] + [SEP];
  }

  /** Everything of the frame before the payload. */
  function HeaderText(m: Msg): seq<Byte> {
    Join(HeaderFields(m)) + Join(m.params)
  }

  /** The five fixed header fields; -1 as soon as one does not fit. */
  method BuildHeader(outBuf: array<Byte>, maxLen: Int32, msg: Msg) returns (pos: int)
    requires maxLen <= outBuf.Length
    modifies outBuf
    ensures pos == if |Join(HeaderFields(msg))| > maxLen then -1 else |Join(HeaderFields(msg))|
    ensures pos >= 0 ==> outBuf[..pos] == Join(HeaderFields(msg))
    ensures forall i :: 0 <= i < outBuf.Length && i >= (if pos >= 0 then pos else maxLen) ==>
              outBuf[i] == old(outBuf[i])
  {
    hide PrintInt, PrintNat, Join;
    ghost var h := HeaderFields(msg);
    JoinNil(h[..0]);
    assert h[..5] == h;
    pos := 0;
    JoinStep(h, 0);
    assert outBuf[..pos] == Join(h[..0]);
    pos := AppendField(outBuf, pos, maxLen, PrintInt(msg.version));
    if pos < 0 {
      return -1;
    }
    JoinStep(h, 1);
    assert outBuf[..pos] == Join(h[..1]);
    pos := AppendField(outBuf, pos, maxLen, PrintInt(msg.hdrFields));
    if pos < 0 {
      return -1;
    }
    JoinStep(h, 2);
    assert outBuf[..pos] == Join(h[..2]);
    pos := AppendField(outBuf, pos, maxLen, PrintNat(msg.payloadLen));
    if pos < 0 {
      return -1;
    }
    JoinStep(h, 3);
    assert outBuf[..pos] == Join(h[..3]);
    pos := AppendField(outBuf, pos, maxLen, PrintNat(msg.timestamp));
    if pos < 0 {
      return -1;
    }
    JoinStep(h, 4);
    assert outBuf[..pos] == Join(h[..4]);
    pos := AppendField(outBuf, pos, maxLen, msg.command);
    if pos < 0 {
      return -1;
    }
  }

  /** The parameters, after a header that ends at `start`; -1 as soon as one does not fit. */
  method BuildParams(outBuf: array<Byte>, start: nat, maxLen: Int32, params: seq<CString>) returns (pos: int)
    requires start <= maxLen <= outBuf.Length
    modifies outBuf
    ensures pos == if start + |Join(params)| > maxLen then -1 else start + |Join(params)|
    ensures pos >= 0 ==> outBuf[..pos] == old(outBuf[..start]) + Join(params)
    ensures forall i :: 0 <= i < outBuf.Length && i >= (if pos >= 0 then pos else maxLen) ==>
              outBuf[i] == old(outBuf[i])
  {
    hide Join;
    JoinNil(params[..0]);
    pos := start;
    for i := 0 to |params|
      invariant start <= pos == start + |Join(params[..i])| <= maxLen
      invariant outBuf[..pos] == old(outBuf[..start]) + Join(params[..i])
      invariant forall i :: pos <= i < outBuf.Length ==> outBuf[i] == old(outBuf[i])
    {
      JoinStep(params, i);
      pos := AppendField(outBuf, pos, maxLen, params[i]);
      if pos < 0 {
        return -1;
      }
    }
    assert params[..|params|] == params;
  }

  /**
   * Serializes `msg`. A frame of exactly `maxLen` bytes is accepted and its closing NUL then falls on index `maxLen`,
   * so in that one case the caller has to own one byte more than `maxLen`.
   */
  method Build(outBuf: array<Byte>, maxLen: Int32, msg: Msg) returns (ret: int, outLen: nat)
    requires maxLen <= outBuf.Length && (|Encode(msg)| == maxLen ==> maxLen < outBuf.Length)
    requires msg.payload.Some? ==> outBuf.Length + msg.payloadLen < 0x1_0000_0000  // one 32-bit address space
    modifies outBuf
    ensures ret == 0 <==> |Encode(msg)| <= maxLen
    ensures ret == -2 <==> |Join(HeaderFields(msg))| > maxLen
    ensures ret == -3 <==> |Join(HeaderFields(msg))| <= maxLen < |HeaderText(msg)|
    ensures ret == -4 <==> |HeaderText(msg)| <= maxLen < |Encode(msg)|
    ensures ret == 0 ==>
              outLen == |Encode(msg)| < outBuf.Length && outBuf[..outLen] == Encode(msg) && outBuf[outLen] == NUL
    ensures forall i :: 0 <= i < outBuf.Length && i >= (if ret == 0 then outLen + 1 else maxLen) ==>
              outBuf[i] == old(outBuf[i])
  {
    hide PrintInt, PrintNat, Join, HeaderFields;
    var pos := BuildHeader(outBuf, maxLen, msg);
    if pos < 0 {
      return -2, 0;
    }
    pos := BuildParams(outBuf, pos, maxLen, msg.params);
    if pos < 0 {
      return -3, 0;
    }
    assert outBuf[..pos] == HeaderText(msg);
    if msg.payloadLen > 0 && msg.payload.Some? {
      if (pos + msg.payloadLen) % 0x1_0000_0000 > maxLen {
        return -4, 0;
      }
      Copy(outBuf, pos, msg.payload.value);
      pos := pos + msg.payloadLen;
    }
    assert outBuf[..pos] == Encode(msg);
    outLen := pos;
    outBuf[pos] := NUL;
    ret := 0;
  }

  // ---------------------------------------------------------------- parsing in place

  /** The parsed structure: text and payload are positions in the received buffer. */
  datatype Frame = Frame(version: Int32, hdrFields: UInt8, payloadLen: UInt32, timestamp: UInt64,
                         command: nat, params: seq<nat>, payload: Option<nat>)

  predicate InFrame(f: Frame, len: nat) {
    && f.command <= len
    && |f.params| < MAX_PARAMS
    && (forall i :: 0 <= i < |f.params| ==> f.params[i] <= len)
    && (f.payload.Some? ==> f.payload.value + f.payloadLen <= len)
  }

  /** The message a parsed structure denotes, read from the buffer contents `b`. */
  function View(f: Frame, b: seq<Byte>): Msg
    requires InFrame(f, |b|)
  {
    Msg(f.version, f.hdrFields, f.payloadLen, f.timestamp, CStr(b[f.command..]),
        seq(|f.params|, i requires 0 <= i < |f.params| => CStr(b[f.params[i]..])),
        if f.payload.Some? then Some(b[f.payload.value..f.payload.value + f.payloadLen]) else None)
  }

  /** `b` is the frame `s` with every separator below `cur` overwritten by NUL. */
  ghost predicate Overwritten(s: seq<Byte>, b: seq<Byte>, cur: nat) {
    |b| == |s| && forall j :: 0 <= j < |s| ==> b[j] == if j < cur && s[j] == SEP then NUL else s[j]
  }

  /** The tokens point at the fields, each closed by a separator below `cur`. */
  ghost predicate TokensAt(s: seq<Byte>, tokens: seq<nat>, fields: seq<seq<Byte>>, cur: nat) {
    && |tokens| == |fields|
    && forall i :: 0 <= i < |tokens| ==> TokenAt(s, tokens[i], fields[i], cur)
  }

  ghost predicate TokenAt(s: seq<Byte>, token: nat, field: seq<Byte>, cur: nat) {
    && token + |field| < cur <= |s|
    && s[token..token + |field|] == field
    && s[token + |field|] == SEP
    && SEP !in field
  }

  /** The bytes a token's string functions see in the overwritten buffer are those of its field. */
  ghost predicate Reads(b: seq<Byte>, tokens: seq<nat>, fields: seq<seq<Byte>>) {
    && |tokens| == |fields|
    && forall i :: 0 <= i < |tokens| ==> tokens[i] <= |b| && CStr(b[tokens[i]..]) == CStr(fields[i])
  }

  lemma {:induction false} CStrPrefix(f: seq<Byte>, rest: seq<Byte>)
    requires rest == [] || rest[0] == NUL
    ensures CStr(f + rest) == CStr(f)
  {
    if f == [] {
      assert f + rest == rest;
    } else {
      assert (f + rest)[1..] == f[1..] + rest;
      CStrPrefix(f[1..], rest);
    }
  }

  lemma TokensRead(s: seq<Byte>, b: seq<Byte>, tokens: seq<nat>, fields: seq<seq<Byte>>, cur: nat)
    requires Overwritten(s, b, cur) && TokensAt(s, tokens, fields, cur)
    ensures Reads(b, tokens, fields)
  {
    forall i | 0 <= i < |tokens| ensures tokens[i] <= |b| && CStr(b[tokens[i]..]) == CStr(fields[i]) {
      var t, f := tokens[i], fields[i];
      assert TokenAt(s, t, f, cur);
      forall j | 0 <= j < |f| ensures b[t + j] == f[j] {
        assert s[t..t + |f|][j] == f[j];
      }
      assert b[t..] == f + b[t + |f|..];
      CStrPrefix(f, b[t + |f|..]);
    }
  }

  /** The fields found so far are the first fields of every longer reading of the frame. */
  ghost predicate TakenSoFar(s: seq<Byte>, fields: seq<seq<Byte>>, cur: nat) {
    && cur <= |s|
    && forall n: nat {:trigger Take(s, n)} :: n >= |fields| ==>
         Take(s, n) == Prepend(fields, Take(s[cur..], n - |fields|))
  }

  lemma ScanStart(s: seq<Byte>)
    ensures TakenSoFar(s, [], 0) && TokensAt(s, [], [], 0) && Overwritten(s, s, 0)
  {
    assert s[0..] == s;
    forall n: nat {:trigger Take(s, n)} ensures Take(s, n) == Prepend([], Take(s, n)) {
      assert Take(s, n).Some? ==> [] + Take(s, n).value.0 == Take(s, n).value.0;
    }
  }

  lemma OverwrittenTail(s: seq<Byte>, b: seq<Byte>, cur: nat)
    requires Overwritten(s, b, cur) && cur <= |s|
    ensures b[cur..] == s[cur..]
  {}

  lemma SepOverwritten(s: seq<Byte>, b: seq<Byte>, tokens: seq<nat>, fields: seq<seq<Byte>>, cur: nat)
    requires Overwritten(s, b, cur) && TokensAt(s, tokens, fields, cur)
    requires cur < |s| && FirstSep(s[cur..]) < |s| - cur
    ensures
      var sep := cur + FirstSep(s[cur..]);
      && Overwritten(s, b[sep := NUL], sep + 1)
      && TokensAt(s, tokens + [cur], fields + [s[cur..sep]], sep + 1)
  {}

  lemma TakenOneMore(s: seq<Byte>, fields: seq<seq<Byte>>, cur: nat)
    requires TakenSoFar(s, fields, cur) && cur < |s| && FirstSep(s[cur..]) < |s| - cur
    ensures
      var e := FirstSep(s[cur..]);
      TakenSoFar(s, fields + [s[cur..cur + e]], cur + e + 1)
  {
    hide Take;
    var e := FirstSep(s[cur..]);
    var f := s[cur..cur + e];
    forall n: nat {:trigger Take(s, n)} | n >= |fields| + 1
      ensures Take(s, n) == Prepend(fields + [f], Take(s[cur + e + 1..], n - |fields| - 1))
    {
      TakeClosed(s[cur..], n - |fields|);
      assert s[cur..][e + 1..] == s[cur + e + 1..];
      assert s[cur..][..e] == f;
      PrependTwice(fields, f, Take(s[cur + e + 1..], n - |fields| - 1));
    }
  }

  lemma TakeClosed(t: seq<Byte>, n: nat)
    requires n > 0 && FirstSep(t) < |t|
    ensures Take(t, n) == Prepend([t[..FirstSep(t)]], Take(t[FirstSep(t) + 1..], n - 1))
  {}

  lemma PrependTwice(fields: seq<seq<Byte>>, f: seq<Byte>, r: Option<(seq<seq<Byte>>, seq<Byte>)>)
    ensures Prepend(fields, Prepend([f], r)) == Prepend(fields + [f], r)
  {
    if r.Some? {
      assert fields + ([f] + r.value.0) == fields + [f] + r.value.0;
    }
  }

  /** `memchr(cur, SEP, end - cur)`, as an index; `end` if there is none. */
  method FindSep(buf: array<Byte>, cur: nat, end: nat) returns (sep: nat)
    requires cur <= end <= buf.Length
    ensures sep == cur + FirstSep(buf[cur..end])
  {
    sep := cur;
    while sep < end && buf[sep] != SEP
      invariant cur <= sep <= end
      invariant cur + FirstSep(buf[cur..end]) == sep + FirstSep(buf[sep..end])
    {
      assert buf[sep..end][1..] == buf[sep + 1..end];
      sep := sep + 1;
    }
  }

  /** The first `k` tokens end with a NUL inside the frame. */
  ghost predicate Stopped(b: seq<Byte>, tokens: seq<nat>, k: nat) {
    k <= |tokens| && forall i :: 0 <= i < k ==> tokens[i] <= |b| && NUL in b[tokens[i]..]
  }

  lemma TokensStop(s: seq<Byte>, b: seq<Byte>, tokens: seq<nat>, fields: seq<seq<Byte>>, cur: nat)
    requires Overwritten(s, b, cur) && TokensAt(s, tokens, fields, cur)
    ensures Stopped(b, tokens, |tokens|)
  {
    forall i | 0 <= i < |tokens| ensures tokens[i] <= |b| && NUL in b[tokens[i]..] {
      assert TokenAt(s, tokens[i], fields[i], cur);
      assert b[tokens[i]..][|fields[i]|] == NUL;
    }
  }

  /** How a complete tokenization ends: all fields are closed, or the last one runs to the end of the frame. */
  ghost predicate EndsAt(s: seq<Byte>, b: seq<Byte>, tokens: seq<nat>, fields: seq<seq<Byte>>, cur: nat) {
    && cur <= |s| == |b| && tokens != [] && |tokens| == |fields|
    && if s == Join(fields) + s[cur..] then Stopped(b, tokens, |tokens|)
       else Stopped(b, tokens, |tokens| - 1) && tokens[|tokens| - 1] == cur
            && b[cur..] == s[cur..] == fields[|fields| - 1]
  }

  lemma EndsClosed(s: seq<Byte>, b: seq<Byte>, tokens: seq<nat>, fields: seq<seq<Byte>>, cur: nat)
    requires Overwritten(s, b, cur) && TokensAt(s, tokens, fields, cur) && fields != [] && cur <= |s|
    requires s[..cur] == Join(fields)
    ensures EndsAt(s, b, tokens, fields, cur)
  {
    TokensStop(s, b, tokens, fields, cur);
    assert s == s[..cur] + s[cur..];
  }

  lemma EndsUnclosed(s: seq<Byte>, b: seq<Byte>, tokens: seq<nat>, fields: seq<seq<Byte>>, cur: nat)
    requires Overwritten(s, b, cur) && TokensAt(s, tokens, fields, cur) && cur < |s|
    requires s[..cur] == Join(fields)
    ensures EndsAt(s, b, tokens + [cur], fields + [s[cur..]], cur)
  {
    TokensStop(s, b, tokens, fields, cur);
    OverwrittenTail(s, b, cur);
    var all := fields + [s[cur..]];
    assert all[..|fields| + 1] == all && all[..|fields|] == fields;
    JoinStep(all, |fields|);
    assert |Join(all) + s[cur..]| > |s|;
  }

  lemma JoinOneMore(s: seq<Byte>, fields: seq<seq<Byte>>, cur: nat, sep: nat)
    requires cur <= sep < |s| && s[sep] == SEP && s[..cur] == Join(fields)
    ensures s[..sep + 1] == Join(fields + [s[cur..sep]])
  {
    var all := fields + [s[cur..sep]];
    assert all[..|fields| + 1] == all && all[..|fields|] == fields;
    JoinStep(all, |fields|);
    assert s[..sep + 1] == s[..cur] + s[cur..sep] + [s[sep]];
  }

  /** The state of the token loop between two fields. */
  ghost predicate Scanning(s: seq<Byte>, fields: seq<seq<Byte>>, cur: nat, hdrFields: int) {
    && s != [] && cur <= |s| && s[..cur] == Join(fields)
    && TakenSoFar(s, fields, cur)
    && if |fields| < 2 then hdrFields == -1 else CountKnown(s, hdrFields) && |fields| < hdrFields
  }

  /** The second field of the frame is an acceptable field count. */
  ghost predicate CountKnown(s: seq<Byte>, hdrFields: int) {
    && Take(s, 2).Some?
    && hdrFields == Atoi(CStr(Take(s, 2).value.0[1]))
    && 5 <= hdrFields <= MAX_TOKENS
  }

  lemma ScanRunsOut(s: seq<Byte>, fields: seq<seq<Byte>>, cur: nat, hdrFields: int)
    requires Scanning(s, fields, cur, hdrFields) && cur == |s|
    ensures Parse(s) == Failure(-3)
  {}

  lemma ScanUnclosed(s: seq<Byte>, fields: seq<seq<Byte>>, cur: nat, hdrFields: int)
    requires Scanning(s, fields, cur, hdrFields) && cur < |s| && FirstSep(s[cur..]) == |s| - cur
    ensures if |fields| + 1 == hdrFields then Take(s, hdrFields) == Some((fields + [s[cur..]], s[cur..]))
            else Parse(s) == Failure(-3)
  {}

  lemma ScanCount(s: seq<Byte>, fields: seq<seq<Byte>>, cur: nat)
    requires s != [] && TakenSoFar(s, fields, cur) && |fields| == 2
    ensures var n := Atoi(CStr(fields[1]));
            if n < 5 || n > MAX_TOKENS then Parse(s) == Failure(-3) else CountKnown(s, n)
  {}

  lemma ScanComplete(s: seq<Byte>, fields: seq<seq<Byte>>, cur: nat)
    requires TakenSoFar(s, fields, cur)
    ensures Take(s, |fields|) == Some((fields, s[cur..]))
  {
    assert Take(s[cur..], 0) == Some(([], s[cur..]));
    assert fields + [] == fields;
  }

  lemma LastTokenReads(s: seq<Byte>, b: seq<Byte>, tokens: seq<nat>, fields: seq<seq<Byte>>, cur: nat)
    requires Overwritten(s, b, cur) && TokensAt(s, tokens, fields, cur) && cur <= |s|
    ensures Reads(b, tokens + [cur], fields + [s[cur..]])
  {
    TokensRead(s, b, tokens, fields, cur);
    assert b[cur..] == s[cur..];
  }

  /** The token loop. */
  method Tokenize(buf: array<Byte>, len: nat)
    returns (tokens: seq<nat>, cur: nat, hdrFields: int, ghost fields: seq<seq<Byte>>)
    requires 0 < len <= buf.Length
    modifies buf
    ensures cur <= len && Overwritten(old(buf[..len]), buf[..len], cur)
    ensures forall i :: len <= i < buf.Length ==> buf[i] == old(buf[i])
    ensures |tokens| >= 5 && |tokens| == hdrFields ==>
              && Reads(buf[..len], tokens, fields)
              && |tokens| <= MAX_TOKENS
              && Take(old(buf[..len]), 2).Some?
              && Atoi(CStr(Take(old(buf[..len]), 2).value.0[1])) == hdrFields
              && Take(old(buf[..len]), hdrFields) == Some((fields, old(buf[cur..len])))
              && EndsAt(old(buf[..len]), buf[..len], tokens, fields, cur)
    ensures |tokens| < 5 || |tokens| != hdrFields ==> Parse(old(buf[..len])) == Failure(-3)
  {
    hide Take, Parse, FirstSep, CStr, Atoi, TakenSoFar, TokensAt, Overwritten, Reads, Join, EndsAt;
    ghost var s := buf[..len];
    tokens, cur, hdrFields, fields := [], 0, -1, [];
    ScanStart(s);
    JoinNil(fields);
    while cur < len && |tokens| < MAX_TOKENS
      invariant |tokens| == |fields| <= MAX_TOKENS && cur <= len
      invariant Overwritten(s, buf[..len], cur)
      invariant forall i :: len <= i < buf.Length ==> buf[i] == old(buf[i])
      invariant TokensAt(s, tokens, fields, cur) && Scanning(s, fields, cur, hdrFields)
      decreases len - cur
    {
      OverwrittenTail(s, buf[..len], cur);
      assert buf[cur..len] == buf[..len][cur..] && old(buf[cur..len]) == s[cur..];
      var sep := FindSep(buf, cur, len);
      if sep == len {
        ScanUnclosed(s, fields, cur, hdrFields);
        LastTokenReads(s, buf[..len], tokens, fields, cur);
        EndsUnclosed(s, buf[..len], tokens, fields, cur);
        tokens, fields := tokens + [cur], fields + [s[cur..]];
        return;
      }
      TakenOneMore(s, fields, cur);
      SepOverwritten(s, buf[..len], tokens, fields, cur);
      assert s[cur..][sep - cur] == SEP;
      JoinOneMore(s, fields, cur, sep);
      ghost var b := buf[..len];
      tokens, fields := tokens + [cur], fields + [s[cur..sep]];
      buf[sep] := NUL;
      assert buf[..len] == b[sep := NUL];
      cur := sep + 1;
      TokensRead(s, buf[..len], tokens, fields, cur);
      ScanComplete(s, fields, cur);
      EndsClosed(s, buf[..len], tokens, fields, cur);
      assert old(buf[cur..len]) == s[cur..];
      if |tokens| == 2 {
        ScanCount(s, fields, cur);
        assert buf[tokens[1]..len] == buf[..len][tokens[1]..];
        hdrFields := Atoi(CStr(buf[tokens[1]..len]));
        if hdrFields < 5 || hdrFields > MAX_TOKENS {
          return;
        }
      }
      if hdrFields > 0 && |tokens| == hdrFields {
        return;
      }
    }
    ScanRunsOut(s, fields, cur, hdrFields);
  }

  lemma AcceptedMeans(s: seq<Byte>, fields: seq<seq<Byte>>, rest: seq<Byte>)
    requires s != [] && CountKnown(s, |fields|) && Take(s, |fields|) == Some((fields, rest))
    ensures Parse(s) == if |fields| - 5 >= MAX_PARAMS then Failure(-3) else ParseFields(fields, rest)
  {}

  lemma ReadsInBounds(b: seq<Byte>, tokens: seq<nat>, fields: seq<seq<Byte>>)
    requires Reads(b, tokens, fields)
    ensures |tokens| == |fields| && forall i :: 0 <= i < |tokens| ==> tokens[i] <= |b|
  {}

  /** The structure the parser fills from its tokens. */
  function FromTokens(b: seq<Byte>, tokens: seq<nat>, payload: Option<nat>): Frame
    requires 5 <= |tokens| < 5 + MAX_PARAMS && forall i :: 0 <= i < |tokens| ==> tokens[i] <= |b|
  {
    Frame(Atoi(CStr(b[tokens[0]..])), |tokens|, Strtoul(CStr(b[tokens[2]..])), Strtoull(CStr(b[tokens[3]..])),
          tokens[4], tokens[5..], payload)
  }

  lemma ViewMeansFields(b: seq<Byte>, tokens: seq<nat>, fields: seq<seq<Byte>>, cur: nat)
    requires 5 <= |tokens| < 5 + MAX_PARAMS && cur <= |b| && Reads(b, tokens, fields)
    ensures
      var out := FromTokens(b, tokens, None);
      var filled := if out.payloadLen > 0 then out.(payload := Some(cur)) else out;
      var meant := ParseFields(fields, b[cur..]);
      if cur + out.payloadLen <= |b| then InFrame(filled, |b|) && meant == Success(View(filled, b))
      else meant == Failure(-4)
  {
    hide CStr, Atoi, Strtoul, Strtoull;
    var len := Strtoul(CStr(fields[2]));
    if cur + len <= |b| {
      assert b[cur..cur + len] == b[cur..][..len];
      assert CStrs(fields[5..]) == seq(|tokens| - 5, i requires 0 <= i < |tokens| - 5 => CStr(b[tokens[5..][i]..]));
    }
  }

  lemma InFrameGrows(f: Frame, len: nat, longer: nat)
    requires InFrame(f, len) && len <= longer
    ensures InFrame(f, longer)
  {}

  lemma StoppedReads(b: seq<Byte>, after: seq<Byte>, tokens: seq<nat>, k: nat, i: nat)
    requires Stopped(b, tokens, k) && i < k
    ensures tokens[i] <= |b| && CStr((b + after)[tokens[i]..]) == CStr(b[tokens[i]..])
  {
    assert (b + after)[tokens[i]..] == b[tokens[i]..] + after;
    CStrAppend(b[tokens[i]..], after);
  }

  /** Command and parameters of a message. */
  function MsgTexts(m: Msg): (t: seq<CString>)
    ensures |t| == 1 + |m.params|
  {
    [m.command] + m.params
  }

  /** Everything else of it. */
  function Bare(m: Msg): Msg {
    m.(command := [], params := [])
  }

  lemma MsgByTexts(a: Msg, b: Msg)
    requires Bare(a) == Bare(b) && MsgTexts(a) == MsgTexts(b)
    ensures a == b
  {
    assert a.command == MsgTexts(a)[0] && b.command == MsgTexts(b)[0];
    assert a.params == MsgTexts(a)[1..] && b.params == MsgTexts(b)[1..];
  }

  lemma ViewBare(f: Frame, b: seq<Byte>, after: seq<Byte>)
    requires InFrame(f, |b|)
    ensures InFrame(f, |b + after|) && Bare(View(f, b + after)) == Bare(View(f, b))
  {
    hide CStr;
    InFrameGrows(f, |b|, |b + after|);
    if f.payload.Some? {
      var p := f.payload.value;
      assert (b + after)[p..p + f.payloadLen] == b[p..p + f.payloadLen];
    }
  }

  /** The texts from the fifth token on. */
  function TextsFrom(b: seq<Byte>, tokens: seq<nat>): (t: seq<CString>)
    requires |tokens| >= 5 && forall i :: 4 <= i < |tokens| ==> tokens[i] <= |b|
    ensures |t| == |tokens| - 4
    ensures forall i :: 0 <= i < |t| ==> t[i] == CStr(b[tokens[4 + i]..])
  {
    seq(|tokens| - 4, i requires 0 <= i < |tokens| - 4 => CStr(b[tokens[4 + i]..]))
  }

  lemma ViewTexts(f: Frame, b: seq<Byte>, tokens: seq<nat>)
    requires InFrame(f, |b|) && |tokens| >= 5 && f.command == tokens[4] && f.params == tokens[5..]
    ensures forall i :: 4 <= i < |tokens| ==> tokens[i] <= |b|
    ensures MsgTexts(View(f, b)) == TextsFrom(b, tokens)
  {
    hide CStr;
    assert forall i :: 5 <= i < |tokens| ==> tokens[i] == f.params[i - 5];
  }

  /** Memory behind the frame changes at most the last text. */
  lemma TextsBehind(b: seq<Byte>, after: seq<Byte>, tokens: seq<nat>, k: nat)
    requires |tokens| >= 5 && |tokens| - 1 <= k && Stopped(b, tokens, k)
    requires forall i :: 4 <= i < |tokens| ==> tokens[i] <= |b|
    ensures
      var n := |tokens|;
      TextsFrom(b + after, tokens) ==
        if k == n then TextsFrom(b, tokens) else TextsFrom(b, tokens)[n - 5 := CStr((b + after)[tokens[n - 1]..])]
  {
    hide CStr, Stopped;
    StoppedBound(b, tokens, k);
    forall i | 4 <= i < k ensures CStr((b + after)[tokens[i]..]) == CStr(b[tokens[i]..]) {
      StoppedReads(b, after, tokens, k, i);
    }
  }

  lemma StoppedBound(b: seq<Byte>, tokens: seq<nat>, k: nat)
    requires Stopped(b, tokens, k)
    ensures k <= |tokens|
  {}

  lemma SeenTexts(s: seq<Byte>, after: seq<Byte>)
    requires Parse(s).Success?
    ensures
      var m, fields := Parse(s).msg, FieldsOf(s).0;
      && Bare(Seen(s, after)) == Bare(m)
      && MsgTexts(Seen(s, after)) == if LastClosed(s) then MsgTexts(m)
                                     else MsgTexts(m)[|m.params| := CStr(fields[|fields| - 1] + after)]
  {
    hide Parse, CStr, FieldsOf, LastClosed;
  }

  lemma EndsTexts(s: seq<Byte>, b: seq<Byte>, after: seq<Byte>, tokens: seq<nat>, cur: nat)
    requires Parse(s).Success? && EndsAt(s, b, tokens, FieldsOf(s).0, cur) && FieldsOf(s).1 == s[cur..]
    ensures
      var fields, n := FieldsOf(s).0, |tokens|;
      && n == |fields| && tokens[n - 1] <= |b|
      && Stopped(b, tokens, if LastClosed(s) then n else n - 1)
      && (!LastClosed(s) ==> (b + after)[tokens[n - 1]..] == fields[n - 1] + after)
  {
    hide Parse, FieldsOf, Join;
    if !LastClosed(s) {
      assert (b + after)[cur..] == b[cur..] + after;
    }
  }

  /** The texts of the structure, read without regard to the end of the frame. */
  lemma ViewSeen(s: seq<Byte>, b: seq<Byte>, after: seq<Byte>, tokens: seq<nat>, cur: nat, out: Frame)
    requires Parse(s).Success? && EndsAt(s, b, tokens, FieldsOf(s).0, cur) && FieldsOf(s).1 == s[cur..]
    requires InFrame(out, |b|) && View(out, b) == Parse(s).msg && out.command == tokens[4] && out.params == tokens[5..]
    ensures InFrame(out, |b + after|) && View(out, b + after) == Seen(s, after)
  {
    EndsTexts(s, b, after, tokens, cur);
    hide Parse, CStr, FieldsOf, Stopped, View, InFrame, Seen, MsgTexts, Bare, EndsAt, LastClosed, TextsFrom;
    ViewBare(out, b, after);
    ViewTexts(out, b, tokens);
    ViewTexts(out, b + after, tokens);
    SeenTexts(s, after);
    TextsBehind(b, after, tokens, if LastClosed(s) then |tokens| else |tokens| - 1);
    MsgByTexts(View(out, b + after), Seen(s, after));
  }

  /** What the parser fills in means what the frame means, both within the frame and with the memory behind it. */
  lemma Filled(s: seq<Byte>, b: seq<Byte>, after: seq<Byte>, tokens: seq<nat>, fields: seq<seq<Byte>>, cur: nat)
    requires s != [] && |b| == |s| && 5 <= |tokens| < 5 + MAX_PARAMS && cur <= |s| && b[cur..] == s[cur..]
    requires CountKnown(s, |fields|) && Take(s, |fields|) == Some((fields, s[cur..]))
    requires Reads(b, tokens, fields) && EndsAt(s, b, tokens, fields, cur)
    ensures
      var out := FromTokens(b, tokens, None);
      var filled := if out.payloadLen > 0 then out.(payload := Some(cur)) else out;
      if cur + out.payloadLen <= |b| then
        && Parse(s).Success? && InFrame(filled, |b|) && View(filled, b) == Parse(s).msg
        && InFrame(filled, |b + after|) && View(filled, b + after) == Seen(s, after)
      else Parse(s) == Failure(-4)
  {
    hide Take, Parse, CStr, Atoi, Strtoul, Strtoull, View, Reads, ParseFields, InFrame, Seen, EndsAt;
    ReadsInBounds(b, tokens, fields);
    AcceptedMeans(s, fields, s[cur..]);
    ViewMeansFields(b, tokens, fields, cur);
    var out := FromTokens(b, tokens, None);
    var filled := if out.payloadLen > 0 then out.(payload := Some(cur)) else out;
    if cur + out.payloadLen <= |b| {
      ViewSeen(s, b, after, tokens, cur, filled);
    }
  }

  /**
   * Parses the first `len` bytes of `buf`, overwriting separators. The result is what the original bytes mean;
   * bytes behind `len` and the payload are untouched.
   */
  method ParseInPlace(buf: array<Byte>, len: Int32) returns (ret: int, out: Frame)
    requires len <= buf.Length
    modifies buf
    ensures ret == 0 <==> len > 0 && Parse(old(buf[..len])).Success?
    ensures ret == 0 ==> InFrame(out, len) && View(out, buf[..len]) == Parse(old(buf[..len])).msg
    ensures ret == 0 ==> View(out, buf[..]) == Seen(old(buf[..len]), old(buf[len..]))
    ensures ret != 0 ==> ret == if len <= 0 then -1 else Parse(old(buf[..len])).code
    ensures forall i :: 0 <= i < buf.Length ==>
              buf[i] == old(buf[i]) || (i < len && old(buf[i]) == SEP && buf[i] == NUL)
  {
    hide Take, Parse, CStr, Atoi, Strtoul, Strtoull, FirstSep, View, Reads, ParseFields, InFrame, Seen, EndsAt;
    ret, out := -1, Frame(0, 0, 0, 0, 0, [], None);
    if len <= 0 {
      return;
    }
    var tokens, cur, hdrFields;
    ghost var fields;
    tokens, cur, hdrFields, fields := Tokenize(buf, len);
    ghost var s, b, after := old(buf[..len]), buf[..len], buf[len..];
    assert after == old(buf[len..]) && buf[..] == b + after;
    if |tokens| >= 5 && |tokens| == hdrFields && |tokens| - 5 < MAX_PARAMS {
      ret := 0;
      ReadsInBounds(b, tokens, fields);
      assert forall i :: 0 <= i < |tokens| ==> buf[tokens[i]..len] == b[tokens[i]..];
      OverwrittenTail(s, b, cur);
      assert old(buf[cur..len]) == s[cur..];
      Filled(s, b, after, tokens, fields, cur);
      out := Frame(Atoi(CStr(buf[tokens[0]..len])), |tokens|, Strtoul(CStr(buf[tokens[2]..len])),
                   Strtoull(CStr(buf[tokens[3]..len])), tokens[4], tokens[5..], None);
      assert out == FromTokens(b, tokens, None);
      if out.payloadLen > 0 {
        if cur + out.payloadLen <= len {
          out := out.(payload := Some(cur));
        } else {
          ret := -4;
        }
      }
    } else {
      ret := -3;
      if |tokens| >= 5 && |tokens| == hdrFields {
        assert old(buf[cur..len]) == s[cur..];
        ReadsInBounds(b, tokens, fields);
        AcceptedMeans(s, fields, s[cur..]);
      }
    }
  }
}
