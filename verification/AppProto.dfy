/** The application frames of `ws_mqtt_proto/app_proto.c`: what they encode, and the language the parser accepts. */
module AppProto {
  import opened CTypes
  import opened Decimal
  import opened Wrappers

  const SEP: Byte := 1
  const NUL: Byte := 0
  const MAX_PARAMS: nat := 10
  const MAX_TOKENS: nat := 32

  /** A message by value. A payload that is present has `payloadLen` bytes; `params` has MAX_PARAMS slots. */
  datatype MsgData = Msg(version: Int32, hdrFields: UInt8, payloadLen: UInt32, timestamp: UInt64,
                         command: CString, params: seq<CString>, payload: Option<seq<Byte>>)

  type Msg = m: MsgData | |m.params| <= MAX_PARAMS && (m.payload.Some? ==> |m.payload.value| == m.payloadLen)
    witness Msg(1, 5, 0, 0, [], [], None)

  // ---------------------------------------------------------------- encoding

  /** Header fields, each closed by a separator. */
  function Join(fields: seq<seq<Byte>>): seq<Byte> {
    if fields == [] then [] else fields[0] + [SEP] + Join(fields[1..])
  }

  function HeaderFields(m: Msg): (fields: seq<seq<Byte>>)
    ensures |fields| == 5
  {
    [PrintInt(m.version), PrintInt(m.hdrFields), PrintNat(m.payloadLen), PrintNat(m.timestamp), m.command]
  }

  function PayloadText(m: Msg): seq<Byte> {
    if m.payloadLen > 0 && m.payload.Some? then m.payload.value else []
  }

  function Encode(m: Msg): seq<Byte> {
    Join(HeaderFields(m)) + Join(m.params) + PayloadText(m)
  }

  // ---------------------------------------------------------------- decoding

  /** Index of the first separator of `s`, `|s|` if there is none. */
  function FirstSep(s: seq<Byte>): (e: nat)
    ensures e <= |s|
    ensures e < |s| ==> s[e] == SEP
    ensures SEP !in s[..e]
  {
    if s == [] || s[0] == SEP then 0
    else
      var e := 1 + FirstSep(s[1..]);
      assert s[..e] == [s[0]] + s[1..][..e - 1];
      e
  }

  /** The bytes a C string function sees: up to the first NUL. */
  function CStr(s: seq<Byte>): (c: CString)
    ensures |c| <= |s| && c == s[..|c|] && (|c| < |s| ==> s[|c|] == NUL)
  {
    if s == [] || s[0] == NUL then []
    else
      var c := [s[0]] + CStr(s[1..]);
      assert s[..|c|] == [s[0]] + s[1..][..|c| - 1];
      c
  }

  /** The first `n` fields of `s` and what follows them. A last field may run unclosed to the end of the
    * frame; nothing is consumed after it, so the rest then starts at that same field. */
  function Take(s: seq<Byte>, n: nat): (r: Option<(seq<seq<Byte>>, seq<Byte>)>)
    ensures r.Some? ==> |r.value.0| == n
    decreases n
  {
    if n == 0 then Some(([], s))
    else if s == [] then None
    else
      var e := FirstSep(s);
      if e == |s| then (if n == 1 then Some(([s], s)) else None)
      else Prepend([s[..e]], Take(s[e + 1..], n - 1))
  }

  function Prepend(front: seq<seq<Byte>>, r: Option<(seq<seq<Byte>>, seq<Byte>)>): Option<(seq<seq<Byte>>, seq<Byte>)> {
    match r
    case None => None
    case Some((fields, rest)) => Some((front + fields, rest))
  }

  function CStrs(fields: seq<seq<Byte>>): (c: seq<CString>)
    ensures |c| == |fields| && forall i :: 0 <= i < |c| ==> c[i] == CStr(fields[i])
  {
    seq(|fields|, i requires 0 <= i < |fields| => CStr(fields[i]))
  }

  datatype ParseResult = Success(msg: Msg) | Failure(code: int)

  /** What a frame means: a message, or the error code of the parser. */
  function Parse(s: seq<Byte>): ParseResult {
    if s == [] then Failure(-1)
    else match Take(s, 2)
      case None => Failure(-3)
      case Some((start, _)) =>
        var n := Atoi(CStr(start[1]));
        if n < 5 || n > MAX_TOKENS then Failure(-3)
        else match Take(s, n)
          case None => Failure(-3)
          case Some((fields, rest)) => if n - 5 >= MAX_PARAMS then Failure(-3) else ParseFields(fields, rest)
  }

  function ParseFields(fields: seq<seq<Byte>>, rest: seq<Byte>): ParseResult
    requires 5 <= |fields| < 5 + MAX_PARAMS
  {
    var len := Strtoul(CStr(fields[2]));
    if len > |rest| then Failure(-4)
    else Success(Msg(
      Atoi(CStr(fields[0])), |fields|, len, Strtoull(CStr(fields[3])),
      CStr(fields[4]), CStrs(fields[5..]), if len > 0 then Some(rest[..len]) else None))
  }

  // ---------------------------------------------------------------- the theorems

  /** What the frame format can carry: a header count that counts the fields, separator-free text, at most
    * nine parameters, and a payload exactly when its length is not zero. */
  predicate WellFormed(m: Msg) {
    && m.hdrFields == 5 + |m.params|
    && |m.params| < MAX_PARAMS
    && SEP !in m.command
    && (forall i :: 0 <= i < |m.params| ==> SEP !in m.params[i])
    && (m.payload.Some? <==> m.payloadLen > 0)
  }

  lemma FirstSepOfField(f: seq<Byte>, s: seq<Byte>)
    requires SEP !in f
    ensures FirstSep(f + [SEP] + s) == |f|
  {
    var t := f + [SEP] + s;
    assert t[|f|] == SEP && t[..|f|] == f;
  }

  lemma TakeField(f: seq<Byte>, after: seq<Byte>, n: nat)
    requires n > 0 && SEP !in f
    ensures Take(f + [SEP] + after, n) == Prepend([f], Take(after, n - 1))
  {
    hide FirstSep;
    var t := f + [SEP] + after;
    FirstSepOfField(f, after);
    assert t[..|f|] == f && t[|f| + 1..] == after;
  }

  lemma JoinCons(fields: seq<seq<Byte>>, s: seq<Byte>)
    requires fields != []
    ensures Join(fields) + s == fields[0] + [SEP] + (Join(fields[1..]) + s)
  {}

  lemma SliceCons(fields: seq<seq<Byte>>, n: nat)
    requires 0 < n <= |fields|
    ensures fields[..n] == [fields[0]] + fields[1..][..n - 1] && fields[n..] == fields[1..][n - 1..]
  {}

  lemma {:induction false} TakeJoin(fields: seq<seq<Byte>>, s: seq<Byte>, n: nat)
    requires n <= |fields|
    requires forall i :: 0 <= i < |fields| ==> SEP !in fields[i]
    ensures Take(Join(fields) + s, n) == Some((fields[..n], Join(fields[n..]) + s))
    decreases n
  {
    hide Join;
    if n == 0 {
      assert fields[0..] == fields && fields[..0] == [];
    } else {
      hide Take;
      var f, more := fields[0], fields[1..];
      JoinCons(fields, s);
      TakeField(f, Join(more) + s, n);
      TakeJoin(more, s, n - 1);
      SliceCons(fields, n);
    }
  }

  lemma {:induction false} JoinAppend(f: seq<seq<Byte>>, g: seq<seq<Byte>>)
    ensures Join(f + g) == Join(f) + Join(g)
  {
    if f == [] {
      assert f + g == g;
    } else {
      assert (f + g)[1..] == f[1..] + g;
      JoinAppend(f[1..], g);
    }
  }

  lemma JoinNil(f: seq<seq<Byte>>)
    requires f == []
    ensures Join(f) == []
  {}

  lemma CStrOfCString(c: CString)
    ensures CStr(c) == c
  {}

  lemma PrintedIsPlain(i: int)
    ensures SEP !in PrintInt(i) && NUL !in PrintInt(i)
    ensures i >= 0 ==> PrintInt(i) == PrintNat(i)
  {}

  lemma ReadBackNumbers(m: Msg)
    ensures Atoi(PrintInt(m.version)) == m.version && Atoi(PrintInt(m.hdrFields)) == m.hdrFields
    ensures Strtoul(PrintNat(m.payloadLen)) == m.payloadLen && Strtoull(PrintNat(m.timestamp)) == m.timestamp
  {
    ReadPrintInt(m.version);
    ReadPrintInt(m.hdrFields);
    ReadPrintInt(m.payloadLen);
    ReadPrintInt(m.timestamp);
    PrintedIsPlain(m.payloadLen);
    PrintedIsPlain(m.timestamp);
  }

  /** The parser finds the header fields of an encoded message, and its count of them. */
  lemma FieldsTaken(m: Msg, extra: seq<Byte>)
    requires m.hdrFields == 5 + |m.params|
    requires SEP !in m.command && forall i :: 0 <= i < |m.params| ==> SEP !in m.params[i]
    ensures
      var fields := HeaderFields(m) + m.params;
      var s := Encode(m) + extra;
      && s != []
      && Take(s, 2).Some? && Atoi(CStr(Take(s, 2).value.0[1])) == |fields|
      && Take(s, |fields|) == Some((fields, PayloadText(m) + extra))
  {
    hide PrintInt, PrintNat, Atoi, Take, CStr, FirstSep;
    var fields := HeaderFields(m) + m.params;
    var rest := PayloadText(m) + extra;
    PrintedIsPlain(m.version);
    PrintedIsPlain(m.hdrFields);
    PrintedIsPlain(m.payloadLen);
    PrintedIsPlain(m.timestamp);
    JoinAppend(HeaderFields(m), m.params);
    assert Encode(m) + extra == Join(fields) + rest;
    TakeJoin(fields, rest, 2);
    TakeJoin(fields, rest, |fields|);
    assert fields[..|fields|] == fields && fields[|fields|..] == [];
    JoinNil(fields[|fields|..]);
    assert [] + rest == rest;
    ReadBackNumbers(m);
    assert fields[..2][1] == PrintInt(m.hdrFields);
    CStrOfCString(fields[1]);
  }

  /** A well-formed message survives encoding and parsing, whatever bytes follow its frame. */
  lemma RoundTrip(m: Msg, extra: seq<Byte>)
    requires WellFormed(m)
    ensures Parse(Encode(m) + extra) == Success(m)
  {
    hide PrintInt, PrintNat, Atoi, Strtoul, Strtoull, Take, CStr, FirstSep, Encode;
    var fields := HeaderFields(m) + m.params;
    var rest := PayloadText(m) + extra;
    FieldsTaken(m, extra);
    PrintedIsPlain(m.version);
    PrintedIsPlain(m.payloadLen);
    PrintedIsPlain(m.timestamp);
    ReadBackNumbers(m);
    CStrOfCString(fields[0]);
    CStrOfCString(fields[2]);
    CStrOfCString(fields[3]);
    CStrOfCString(fields[4]);
    assert CStrs(fields[5..]) == m.params by {
      forall i | 0 <= i < |m.params| ensures CStrs(fields[5..])[i] == m.params[i] {
        CStrOfCString(m.params[i]);
      }
    }
    assert m.payloadLen > 0 ==> rest[..m.payloadLen] == m.payload.value;
    assert Parse(Encode(m) + extra) == ParseFields(fields, rest);
  }

  lemma {:induction false} TakeIsPlain(s: seq<Byte>, n: nat)
    requires Take(s, n).Some?
    ensures forall i :: 0 <= i < n ==> SEP !in Take(s, n).value.0[i]
    decreases n
  {
    if n > 0 && FirstSep(s) < |s| {
      TakeIsPlain(s[FirstSep(s) + 1..], n - 1);
    }
  }

  /** Every message the parser accepts is well-formed: its numbers are in range by saturation. */
  lemma AcceptedIsWellFormed(s: seq<Byte>)
    requires Parse(s).Success?
    ensures WellFormed(Parse(s).msg)
  {
    hide Atoi, Strtoul, Strtoull;
    var n := Atoi(CStr(Take(s, 2).value.0[1]));
    var (fields, rest) := Take(s, n).value;
    TakeIsPlain(s, n);
    forall f | f in fields ensures SEP !in CStr(f) {
      assert CStr(f) == f[..|CStr(f)|];
    }
  }

  /** For every message and whatever follows its frame: it is parsed back exactly when it is well-formed. */
  lemma RoundTripIff(m: Msg, extra: seq<Byte>)
    ensures Parse(Encode(m) + extra) == Success(m) <==> WellFormed(m)
  {
    if WellFormed(m) {
      RoundTrip(m, extra);
    }
    if Parse(Encode(m) + extra) == Success(m) {
      AcceptedIsWellFormed(Encode(m) + extra);
    }
  }

  /** Parsing is a normal form: rebuilding an accepted frame and parsing again gives the same message. */
  lemma NormalForm(s: seq<Byte>, extra: seq<Byte>)
    requires Parse(s).Success?
    ensures Parse(Encode(Parse(s).msg) + extra) == Parse(s)
  {
    AcceptedIsWellFormed(s);
    RoundTrip(Parse(s).msg, extra);
  }

  // ---------------------------------------------------------------- a last field that is not closed

  /** The header fields of an accepted frame and what follows them. */
  function FieldsOf(s: seq<Byte>): (r: (seq<seq<Byte>>, seq<Byte>))
    requires Parse(s).Success?
    ensures 5 <= |r.0| < 5 + MAX_PARAMS && Parse(s) == ParseFields(r.0, r.1)
  {
    Take(s, Atoi(CStr(Take(s, 2).value.0[1]))).value
  }

  /** Every header field of the frame, the last one too, is closed by a separator. */
  predicate LastClosed(s: seq<Byte>)
    requires Parse(s).Success?
  {
    s == Join(FieldsOf(s).0) + FieldsOf(s).1
  }

  /**
   * The message that string functions see when the memory behind the frame holds `after`. The parser puts a NUL in the
   * place of every separator; a last field without one is read on into `after`.
   */
  function Seen(s: seq<Byte>, after: seq<Byte>): Msg
    requires Parse(s).Success?
  {
    var m, fields := Parse(s).msg, FieldsOf(s).0;
    if LastClosed(s) then m else WithLastText(m, CStr(fields[|fields| - 1] + after))
  }

  function WithLastText(m: Msg, text: CString): Msg {
    if m.params == [] then m.(command := text) else m.(params := m.params[|m.params| - 1 := text])
  }

  function LastText(m: Msg): CString {
    if m.params == [] then m.command else m.params[|m.params| - 1]
  }

  lemma {:induction false} CStrAppend(x: seq<Byte>, y: seq<Byte>)
    ensures CStr(x + y) == if NUL in x then CStr(x) else x + CStr(y)
    ensures NUL !in x ==> CStr(x) == x
  {
    if x == [] {
      assert x + y == y;
    } else {
      assert (x + y)[1..] == x[1..] + y;
      CStrAppend(x[1..], y);
      assert x == [x[0]] + x[1..];
    }
  }

  lemma LastTextIs(s: seq<Byte>)
    requires Parse(s).Success?
    ensures LastText(Parse(s).msg) == CStr(FieldsOf(s).0[|FieldsOf(s).0| - 1])
  {
    hide Atoi, Strtoul, Strtoull, CStr, Take, Parse;
  }

  lemma LastTextReplaced(m: Msg, text: CString)
    ensures WithLastText(m, text) == m <==> text == LastText(m)
  {
    if m.params != [] {
      var n := |m.params| - 1;
      assert m.params[n := text][n] == text;
      assert text == m.params[n] ==> m.params[n := text] == m.params;
    }
  }

  /** What is seen is the message parsed exactly when the last field is closed or a NUL stops it, inside or behind. */
  lemma SeenIsParsedIff(s: seq<Byte>, after: seq<Byte>)
    requires Parse(s).Success?
    ensures Seen(s, after) == Parse(s).msg <==>
              LastClosed(s) || NUL in FieldsOf(s).0[|FieldsOf(s).0| - 1] || after == [] || after[0] == NUL
  {
    hide Parse, FieldsOf, LastClosed, LastText, WithLastText;
    var fields := FieldsOf(s).0;
    var last := fields[|fields| - 1];
    LastTextIs(s);
    LastTextReplaced(Parse(s).msg, CStr(last + after));
    LongerText(last, after);
  }

  lemma LongerText(x: seq<Byte>, y: seq<Byte>)
    ensures CStr(x + y) == CStr(x) <==> NUL in x || y == [] || y[0] == NUL
  {
    CStrAppend(x, y);
    hide CStr;
    if NUL !in x && CStr(x + y) == CStr(x) {
      assert |x + CStr(y)| == |x|;
      assert CStr(y) == [];
    }
  }

  /**
   * What is seen of an accepted frame is well-formed, and so comes back from rebuilding and parsing, exactly when the
   * last field is closed or is read on without meeting a separator.
   */
  lemma SeenNormalFormIff(s: seq<Byte>, after: seq<Byte>, extra: seq<Byte>)
    requires Parse(s).Success?
    ensures WellFormed(Seen(s, after)) <==>
              LastClosed(s) || SEP !in CStr(FieldsOf(s).0[|FieldsOf(s).0| - 1] + after)
    ensures Parse(Encode(Seen(s, after)) + extra) == Success(Seen(s, after)) <==>
              LastClosed(s) || SEP !in CStr(FieldsOf(s).0[|FieldsOf(s).0| - 1] + after)
  {
    AcceptedIsWellFormed(s);
    hide Parse, FieldsOf, LastClosed, Encode, CStr;
    RoundTripIff(Seen(s, after), extra);
    WithLastTextWellFormed(Parse(s).msg, CStr(FieldsOf(s).0[|FieldsOf(s).0| - 1] + after));
  }

  lemma WithLastTextWellFormed(m: Msg, text: CString)
    requires WellFormed(m)
    ensures WellFormed(WithLastText(m, text)) <==> SEP !in text
  {
    if m.params != [] {
      assert WithLastText(m, text).params[|m.params| - 1] == text;
    }
  }

  /** Frames of well-formed messages form a prefix-free code. */
  lemma PrefixFree(a: Msg, b: Msg)
    requires WellFormed(a) && WellFormed(b) && Encode(a) <= Encode(b)
    ensures a == b
  {
    var extra := Encode(b)[|Encode(a)|..];
    assert Encode(a) + extra == Encode(b) == Encode(b) + [];
    RoundTrip(a, extra);
    RoundTrip(b, []);
  }

  /**
   * MAX_PARAMS is 10 and a message has room for ten parameters, but the parser's bound is strict: a frame with ten is
   * built and never accepted.
   */
  lemma TenParametersRejected(m: Msg, extra: seq<Byte>)
    requires m.hdrFields == 5 + |m.params| && |m.params| == MAX_PARAMS
    requires SEP !in m.command && forall i :: 0 <= i < |m.params| ==> SEP !in m.params[i]
    ensures Parse(Encode(m) + extra) == Failure(-3)
  {
    hide PrintInt, PrintNat, Atoi, Strtoul, Strtoull, Take, CStr, FirstSep, ParseFields;
    FieldsTaken(m, extra);
  }

  /** One frame byte by byte: version, field count, payload length, time stamp, command, parameters, payload. */
  lemma FrameExample(m: Msg)
    requires m == Msg(-2, 7, 3, 4567, [0x67, 0x6F], [[0x61], [0x62, 0x63]], Some([9, 1, 0]))
    ensures Encode(m) == [0x2D, 0x32, 1, 0x37, 1, 0x33, 1, 0x34, 0x35, 0x36, 0x37, 1, 0x67, 0x6F, 1,
                          0x61, 1, 0x62, 0x63, 1, 9, 1, 0]
  {
    ExampleHeader(m);
    ExampleParams(m.params);
    hide Join, HeaderFields;
  }

  lemma ExampleHeader(m: Msg)
    requires m.version == -2 && m.hdrFields == 7 && m.payloadLen == 3 && m.timestamp == 4567
    requires m.command == [0x67, 0x6F]
    ensures Join(HeaderFields(m)) == [0x2D, 0x32, 1, 0x37, 1, 0x33, 1, 0x34, 0x35, 0x36, 0x37, 1, 0x67, 0x6F, 1]
  {
    var h := HeaderFields(m);
    ExampleNumbers();
    hide PrintInt, PrintNat;
    JoinFrom(h, 4);
    JoinFrom(h, 3);
    JoinFrom(h, 2);
    JoinFrom(h, 1);
    JoinFrom(h, 0);
    hide Join;
    assert Join(h[4..]) == [0x67, 0x6F, 1];
    assert Join(h[3..]) == [0x34, 0x35, 0x36, 0x37, 1, 0x67, 0x6F, 1];
    assert Join(h[2..]) == [0x33, 1, 0x34, 0x35, 0x36, 0x37, 1, 0x67, 0x6F, 1];
    assert Join(h[1..]) == [0x37, 1, 0x33, 1, 0x34, 0x35, 0x36, 0x37, 1, 0x67, 0x6F, 1];
    assert h[0..] == h;
  }

  lemma ExampleNumbers()
    ensures PrintInt(-2) == [0x2D, 0x32] && PrintInt(7) == [0x37] && PrintNat(3) == [0x33]
    ensures PrintNat(4567) == [0x34, 0x35, 0x36, 0x37]
  {
    assert PrintNat(4) == [0x34];
    assert PrintNat(45) == [0x34, 0x35];
    assert PrintNat(456) == [0x34, 0x35, 0x36];
  }

  lemma ExampleParams(params: seq<CString>)
    requires params == [[0x61], [0x62, 0x63]]
    ensures Join(params) == [0x61, 1, 0x62, 0x63, 1]
  {
    JoinFrom(params, 1);
    JoinFrom(params, 0);
    hide Join;
    assert params[0..] == params;
  }

  lemma JoinFrom(fields: seq<seq<Byte>>, k: nat)
    requires k < |fields|
    ensures Join(fields[k..]) == fields[k] + [SEP] + Join(fields[k + 1..])
    ensures k + 1 == |fields| ==> Join(fields[k + 1..]) == []
  {
    assert fields[k..][1..] == fields[k + 1..];
  }

  // ---------------------------------------------------------------- frames cut short

  /** Reading more fields than are closed: the unclosed rest can only be the last one. */
  lemma {:induction false} TakeCut(fields: seq<seq<Byte>>, part: seq<Byte>, n: nat)
    requires n > |fields| && SEP !in part && forall i :: 0 <= i < |fields| ==> SEP !in fields[i]
    ensures Take(Join(fields) + part, n) ==
            if part != [] && n == |fields| + 1 then Some((fields + [part], part)) else None
    decreases |fields|
  {
    hide Take, FirstSep, Join;
    if fields == [] {
      JoinNil(fields);
      assert [] + part == part && fields + [part] == [part];
      TakeUnclosed(part, n);
    } else {
      JoinCons(fields, part);
      TakeField(fields[0], Join(fields[1..]) + part, n);
      TakeCut(fields[1..], part, n - 1);
      assert [fields[0]] + (fields[1..] + [part]) == fields + [part];
    }
  }

  lemma TakeUnclosed(s: seq<Byte>, n: nat)
    requires n > 0 && SEP !in s
    ensures Take(s, n) == if s != [] && n == 1 then Some(([s], s)) else None
  {
    assert FirstSep(s) == |s|;
  }

  /** Where the first `k` bytes of closed fields end. */
  lemma {:induction false} CutInside(fields: seq<seq<Byte>>, k: nat) returns (j: nat)
    requires k < |Join(fields)|
    ensures j < |fields| && |Join(fields[..j])| <= k <= |Join(fields[..j])| + |fields[j]|
    ensures Join(fields)[..k] == Join(fields[..j]) + fields[j][..k - |Join(fields[..j])|]
    decreases |fields|
  {
    var f, more := fields[0], fields[1..];
    var all := Join(fields);
    JoinCons(fields, []);
    assert all + [] == all && Join(more) + [] == Join(more);
    if k <= |f| {
      j := 0;
      JoinNil(fields[..0]);
      assert all[..k] == f[..k];
      assert [] + f[..k] == f[..k];
    } else {
      var i := CutInside(more, k - |f| - 1);
      j := i + 1;
      assert fields[..j][1..] == more[..i] && fields[..j][0] == f;
      JoinCons(fields[..j], []);
      assert Join(fields[..j]) + [] == Join(fields[..j]) && Join(more[..i]) + [] == Join(more[..i]);
      assert all[..k] == f + [SEP] + Join(more)[..k - |f| - 1];
    }
  }

  lemma {:induction false} JoinGrows(fields: seq<seq<Byte>>, i: nat, j: nat)
    requires i <= j <= |fields|
    ensures |Join(fields[..i])| <= |Join(fields[..j])|
  {
    assert fields[..j] == fields[..i] + fields[i..j];
    JoinAppend(fields[..i], fields[i..j]);
  }

  /** The header of a frame that ends before the last field: too few fields. */
  lemma TooFewFields(m: Msg, j: nat, part: seq<Byte>)
    requires WellFormed(m) && SEP !in part
    requires
      var fields := HeaderFields(m) + m.params;
      j < |fields| && (part != [] ==> j + 1 < |fields| || part == []) && Join(fields[..j]) + part != []
    ensures Parse(Join((HeaderFields(m) + m.params)[..j]) + part) == Failure(-3)
  {
    var fields := HeaderFields(m) + m.params;
    var s := Join(fields[..j]) + part;
    PlainFields(m);
    ReadBackNumbers(m);
    hide PrintInt, PrintNat, Atoi, FirstSep, Join, ParseFields, HeaderFields, CStr, Take;
    if j >= 2 {
      TakeJoin(fields[..j], part, 2);
      assert fields[..j][..2][1] == fields[1];
      CountField(m);
      TakeCut(fields[..j], part, |fields|);
    } else {
      forall n: nat | n > 2 ensures Take(s, n) == None { TakeCut(fields[..j], part, n); }
    }
  }

  lemma PlainFields(m: Msg)
    requires WellFormed(m)
    ensures |HeaderFields(m) + m.params| == m.hdrFields
    ensures forall i :: 0 <= i < |HeaderFields(m) + m.params| ==> SEP !in (HeaderFields(m) + m.params)[i]
  {
    PrintedIsPlain(m.version);
    PrintedIsPlain(m.hdrFields);
    PrintedIsPlain(m.payloadLen);
    PrintedIsPlain(m.timestamp);
    hide PrintInt, PrintNat;
  }

  lemma CountField(m: Msg)
    requires WellFormed(m)
    ensures Atoi(CStr((HeaderFields(m) + m.params)[1])) == |HeaderFields(m) + m.params|
  {
    PrintedIsPlain(m.hdrFields);
    ReadBackNumbers(m);
    hide PrintInt, PrintNat, Atoi;
    CStrOfCString(PrintInt(m.hdrFields));
  }

  lemma LastFieldCut(m: Msg, part: seq<Byte>)
    requires WellFormed(m) && part != [] && part <= (HeaderFields(m) + m.params)[|HeaderFields(m) + m.params| - 1]
    ensures
      var fields := HeaderFields(m) + m.params;
      Parse(Join(fields[..|fields| - 1]) + part) ==
      ParseFields(fields[..|fields| - 1] + [part], part)
  {
    var fields := HeaderFields(m) + m.params;
    var n := |fields|;
    var front := fields[..n - 1];
    PlainFields(m);
    CountField(m);
    hide PrintInt, PrintNat, Atoi, FirstSep, Join, ParseFields, HeaderFields, CStr, Take;
    assert SEP !in part;
    TakeJoin(front, part, 2);
    assert front[..2][1] == fields[1];
    TakeCut(front, part, n);
  }

  lemma LengthField(m: Msg)
    ensures Strtoul(CStr(HeaderFields(m)[2])) == m.payloadLen
  {
    PrintedIsPlain(m.payloadLen);
    ReadBackNumbers(m);
    hide PrintInt, PrintNat, Strtoul;
    CStrOfCString(PrintNat(m.payloadLen));
  }

  /**
   * A frame cut short is rejected, with -1 when nothing is left, -3 up to the last header field and -4 behind it, but
   * for one case: cut inside the last header field it is accepted exactly when at least `payloadLen` bytes of that
   * field are left, which then pass for the payload too.
   */
  lemma CutFrame(m: Msg, k: nat)
    requires WellFormed(m) && k < |Encode(m)|
    ensures
      var fields := HeaderFields(m) + m.params;
      var head, full := |Join(fields[..|fields| - 1])|, |Join(fields)|;
      var result := Parse(Encode(m)[..k]);
      && (k == 0 ==> result == Failure(-1))
      && (0 < k <= head ==> result == Failure(-3))
      && (head < k < full ==> if m.payloadLen <= k - head then result.Success? else result == Failure(-4))
      && (full <= k ==> result == Failure(-4))
  {
    var fields := HeaderFields(m) + m.params;
    JoinAppend(HeaderFields(m), m.params);
    hide HeaderFields, Take, PrintInt, PrintNat, Join, Parse;
    assert Encode(m) == Join(fields) + PayloadText(m);
    hide Encode;
    HeadShorter(fields);
    if k == 0 {
      NothingLeft(Encode(m)[..k]);
    } else if k < |Join(fields)| {
      assert Encode(m)[..k] == Join(fields)[..k];
      CutHeader(m, k);
    } else {
      var rest := PayloadText(m)[..k - |Join(fields)|];
      assert Encode(m)[..k] == Join(fields) + rest;
      PayloadCut(m, rest);
    }
  }

  lemma HeadShorter(fields: seq<seq<Byte>>)
    requires fields != []
    ensures |Join(fields[..|fields| - 1])| < |Join(fields)|
  {
    var n := |fields| - 1;
    assert fields == fields[..n] + [fields[n]];
    JoinAppend(fields[..n], [fields[n]]);
    JoinNil([fields[n]][1..]);
  }

  lemma CutHeader(m: Msg, k: nat)
    requires WellFormed(m) && 0 < k < |Join(HeaderFields(m) + m.params)|
    ensures
      var fields := HeaderFields(m) + m.params;
      var head := |Join(fields[..|fields| - 1])|;
      var result := Parse(Join(fields)[..k]);
      if k <= head then result == Failure(-3)
      else if m.payloadLen <= k - head then result.Success? else result == Failure(-4)
  {
    var fields := HeaderFields(m) + m.params;
    PlainFields(m);
    hide HeaderFields, Take, PrintInt, PrintNat, Join, Parse, ParseFields;
    var j := CutInside(fields, k);
    var part := fields[j][..k - |Join(fields[..j])|];
    LastJoin(fields, j);
    if j == |fields| - 1 && part != [] {
      LastFieldCut(m, part);
      CutFields(m, part);
    } else {
      TooFewFields(m, j, part);
    }
  }

  lemma NothingLeft(s: seq<Byte>)
    requires s == []
    ensures Parse(s) == Failure(-1)
  {}

  /** The header without its last field ends after every earlier field. */
  lemma LastJoin(fields: seq<seq<Byte>>, j: nat)
    requires j < |fields|
    ensures j == |fields| - 1 ==> fields[..j] == fields[..|fields| - 1]
    ensures j < |fields| - 1 ==> |Join(fields[..j])| + |fields[j]| < |Join(fields[..|fields| - 1])|
  {
    var n := |fields| - 1;
    if j < n {
      JoinGrows(fields, j + 1, n);
      assert fields[..j + 1] == fields[..j] + [fields[j]];
      JoinAppend(fields[..j], [fields[j]]);
      JoinNil([fields[j]][1..]);
    }
  }

  lemma CutFields(m: Msg, part: seq<Byte>)
    requires WellFormed(m)
    ensures
      var fields := HeaderFields(m) + m.params;
      var result := ParseFields(fields[..|fields| - 1] + [part], part);
      if m.payloadLen <= |part| then result.Success? else result == Failure(-4)
  {
    LengthField(m);
    hide HeaderFields, CStr, Strtoul, Atoi, Strtoull;
  }

  lemma PayloadCut(m: Msg, rest: seq<Byte>)
    requires WellFormed(m) && |rest| < m.payloadLen
    ensures Parse(Join(HeaderFields(m) + m.params) + rest) == Failure(-4)
  {
    var fields := HeaderFields(m) + m.params;
    var n := |fields|;
    PlainFields(m);
    CountField(m);
    LengthField(m);
    hide PrintInt, PrintNat, Atoi, FirstSep, Join, HeaderFields, CStr, Take, Strtoul, Strtoull;
    TakeJoin(fields, rest, 2);
    TakeJoin(fields, rest, n);
    assert fields[..n] == fields && fields[n..] == [] && fields[..2][1] == fields[1];
    JoinNil(fields[n..]);
    assert [] + rest == rest;
    NotNothing(fields, rest);
  }

  lemma NotNothing(fields: seq<seq<Byte>>, rest: seq<Byte>)
    requires fields != []
    ensures Join(fields) + rest != []
  {}
}
