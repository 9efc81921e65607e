/** The character machine of `nmea/nmea_parser.c` and the sentence-level meaning it refines. */
module Nmea {
  import opened ByteBits
  import opened CTypes
  import opened Decimal

  datatype Statement = Unknown | GGA | GSA | RMC | GSV | GLL | VTG

  const ALL_STATEMENTS: set<Statement> := {GGA, GSA, RMC, GSV, GLL, VTG}

  const DOLLAR: Byte := 0x24
  const COMMA: Byte := 0x2C
  const STAR: Byte := 0x2A
  const CR: Byte := 0x0D
  const LF: Byte := 0x0A

  /** What the parser hands on: a field of a known statement, or an event. */
  datatype Output = Field(statement: Statement, num: Byte, text: seq<Byte>) | GpsUpdate | GpsUnknown

  datatype Parser = Parser(item: seq<Byte>, itemNum: Byte, asterisk: bool, crc: Byte, parsed: set<Statement>,
                           satNum: Byte, satCount: Byte, cur: Statement)

  function Xor(a: Byte, b: Byte): Byte {
    ((a as bv8) ^ (b as bv8)) as int
  }

  /** XOR of all bytes of `s` into `acc`. */
  function XorAll(acc: Byte, s: seq<Byte>): Byte {
    if s == [] then acc else Xor(XorAll(acc, s[..|s| - 1]), s[|s| - 1])
  }

  // ---------------------------------------------------------------- text of an item

  /** `strstr(s, name) != NULL` for a three-letter name. */
  predicate Contains(s: seq<Byte>, name: seq<Byte>) {
    |s| >= |name| > 0 && (s[..|name|] == name || Contains(s[1..], name))
  }

  /** The statement a talker item such as `$GPGGA` announces; the first match in the source's order. */
  function Classify(s: seq<Byte>): Statement {
    if Contains(s, [0x47, 0x47, 0x41]) then GGA
    else if Contains(s, [0x47, 0x53, 0x41]) then GSA
    else if Contains(s, [0x52, 0x4D, 0x43]) then RMC
    else if Contains(s, [0x47, 0x53, 0x56]) then GSV
    else if Contains(s, [0x47, 0x4C, 0x4C]) then GLL
    else if Contains(s, [0x56, 0x54, 0x47]) then VTG
    else Unknown
  }

  /** `(uint8_t)strtol(s, NULL, 10)`. */
  function Number(s: seq<Byte>): Byte {
    Atoi(s) % 256
  }

  function HexValue(b: Byte): int {
    if 0x30 <= b <= 0x39 then b - 0x30
    else if 0x41 <= b <= 0x46 then b - 0x41 + 10
    else if 0x61 <= b <= 0x66 then b - 0x61 + 10
    else -1
  }

  function ReadHex(acc: nat, s: seq<Byte>): nat
    decreases |s|
  {
    if s == [] || HexValue(s[0]) < 0 then acc else ReadHex(16 * acc + HexValue(s[0]), s[1..])
  }

  /** `0x` in front of a hex digit is skipped. */
  function SkipHexPrefix(s: seq<Byte>): seq<Byte> {
    if |s| > 2 && s[0] == 0x30 && (s[1] == 0x78 || s[1] == 0x58) && HexValue(s[2]) >= 0 then s[2..] else s
  }

  /** `(uint8_t)strtol(s, NULL, 16)`. */
  function HexByte(s: seq<Byte>): Byte {
    var t := SkipSpace(s);
    var signed := t != [] && (t[0] == MINUS || t[0] == PLUS);
    var magnitude := ReadHex(0, SkipHexPrefix(if signed then t[1..] else t));
    var value: int := magnitude;
    (if signed && t[0] == MINUS then (if value > 0x8000_0000 then -0x8000_0000 else -value)
     else if value > 0x7FFF_FFFF then 0x7FFF_FFFF else value) % 256
  }

  // ---------------------------------------------------------------- the machine

  /** `parse_item`: the first item of a sentence selects the statement, a later one is a field of it. */
  function ParseItem(p: Parser): (Parser, seq<Output>) {
    if p.itemNum == 0 && p.item != [] && p.item[0] == DOLLAR then (p.(cur := Classify(p.item)), [])
    else if p.cur == Unknown then (p, [])
    else (ParseSatellites(p), [Field(p.cur, p.itemNum, p.item)])
  }

  /** The part of `parse_gsv` that steers the machine. */
  function ParseSatellites(p: Parser): Parser {
    if p.cur == GSV && p.itemNum == 1 then p.(satCount := Number(p.item))
    else if p.cur == GSV && p.itemNum == 2 then p.(satNum := Number(p.item))
    else p
  }

  function NextItem(p: Parser): Parser {
    p.(item := [], itemNum := (p.itemNum + 1) % 256)
  }

  /** The statement a sentence end completes: none on a bad checksum, GSV only with the last of its sentences. */
  function Ended(p: Parser): set<Statement> {
    if p.crc != HexByte(p.item) || p.cur == Unknown || (p.cur == GSV && p.satNum != p.satCount) then {} else {p.cur}
  }

  function EndSentence(p: Parser): (Parser, seq<Output>) {
    var parsed := p.parsed + Ended(p);
    var unknown := if p.cur == Unknown then [GpsUnknown] else [];
    if p.crc == HexByte(p.item) && ALL_STATEMENTS <= parsed then (p.(parsed := {}), [GpsUpdate] + unknown)
    else (p.(parsed := parsed), unknown)
  }

  /** One character. */
  function Step(p: Parser, c: Byte): (Parser, seq<Output>) {
    if c == DOLLAR then (Parser([DOLLAR], 0, false, 0, p.parsed, 0, 0, Unknown), [])
    else if c == COMMA then
      var (q, out) := ParseItem(p);
      (NextItem(q.(crc := Xor(q.crc, c))), out)
    else if c == STAR then
      var (q, out) := ParseItem(p);
      (NextItem(q.(asterisk := true)), out)
    else if c == CR then EndSentence(p)
    else (p.(item := p.item + [c], crc := if p.asterisk then p.crc else Xor(p.crc, c)), [])
  }

  function Run(p: Parser, s: seq<Byte>): (Parser, seq<Output>) {
    if s == [] then (p, [])
    else
      var (q, out) := Run(p, s[..|s| - 1]);
      var (r, more) := Step(q, s[|s| - 1]);
      (r, out + more)
  }

  // ---------------------------------------------------------------- sentences

  predicate Plain(s: seq<Byte>) {
    forall i :: 0 <= i < |s| ==> s[i] != 0 && s[i] != DOLLAR && s[i] != COMMA && s[i] != STAR && s[i] != CR
  }

  /** `fields[0]` is the talker item without its `$`; `sum` is the checksum text. */
  datatype SentenceData = Sentence(fields: seq<seq<Byte>>, sum: seq<Byte>)

  type Sentence = t: SentenceData |
    0 < |t.fields| < 256 && (forall i :: 0 <= i < |t.fields| ==> Plain(t.fields[i])) && Plain(t.sum)
    witness Sentence([[]], [])

  /** Comma-separated fields: everything strictly between `$` and `*`. */
  function Body(fields: seq<seq<Byte>>): seq<Byte>
    requires |fields| > 0
  {
    var n := |fields| - 1;
    if n == 0 then fields[0] else Body(fields[..n]) + [COMMA] + fields[n]
  }

  function Text(t: Sentence): seq<Byte> {
    [DOLLAR] + Body(t.fields) + [STAR] + t.sum + [CR, LF]
  }

  function Texts(ts: seq<Sentence>): seq<Byte> {
    if ts == [] then [] else Texts(ts[..|ts| - 1]) + Text(ts[|ts| - 1])
  }

  function StatementOf(t: Sentence): Statement {
    Classify([DOLLAR] + t.fields[0])
  }

  function ChecksumOk(t: Sentence): bool {
    HexByte(t.sum) == XorAll(0, Body(t.fields))
  }

  function FieldNumber(t: Sentence, i: nat): Byte {
    if i < |t.fields| then Number(t.fields[i]) else 0
  }

  /** The statement a whole sentence completes. */
  function Completes(t: Sentence): set<Statement> {
    if !ChecksumOk(t) || StatementOf(t) == Unknown then {}
    else if StatementOf(t) == GSV && FieldNumber(t, 2) != FieldNumber(t, 1) then {}
    else {StatementOf(t)}
  }

  /** The fields of a sentence with a known statement, numbered from 1. */
  function FieldOutputs(st: Statement, fields: seq<seq<Byte>>): seq<Output>
    requires 0 < |fields| <= 256
  {
    if st == Unknown then []
    else seq(|fields| - 1, i requires 0 <= i < |fields| - 1 => Field(st, i + 1, fields[i + 1]))
  }

  /** Sentence-level meaning: statements completed so far, and outputs. */
  function Batch(parsed: set<Statement>, ts: seq<Sentence>): (set<Statement>, seq<Output>) {
    if ts == [] then (parsed, [])
    else
      var (before, out) := Batch(parsed, ts[..|ts| - 1]);
      var t := ts[|ts| - 1];
      var now := before + Completes(t);
      var update := ChecksumOk(t) && ALL_STATEMENTS <= now;
      (if update then {} else now,
       out + FieldOutputs(StatementOf(t), t.fields) + (if update then [GpsUpdate] else [])
       + (if StatementOf(t) == Unknown then [GpsUnknown] else []))
  }

  // ---------------------------------------------------------------- the machine means its sentences

  lemma {:induction false} RunAppend(p: Parser, a: seq<Byte>, b: seq<Byte>)
    ensures
      var (q, out) := Run(p, a);
      var (r, more) := Run(q, b);
      Run(p, a + b) == (r, out + more)
    decreases |b|
  {
    hide Step;
    if b == [] {
      assert a + b == a;
      assert Run(p, a).1 + [] == Run(p, a).1;
    } else {
      var n := |b| - 1;
      var ab := a + b;
      assert ab[..|ab| - 1] == a + b[..n] && ab[|ab| - 1] == b[n];
      RunAppend(p, a, b[..n]);
      var (q, out) := Run(p, a);
      var (r, more) := Run(q, b[..n]);
      var (e, last) := Step(r, b[n]);
      assert Run(q, b) == (e, more + last);
      assert Run(p, ab) == (e, (out + more) + last);
      assert (out + more) + last == out + (more + last);
    }
  }

  lemma RunOne(p: Parser, c: Byte)
    ensures Run(p, [c]) == Step(p, c)
  {
    hide Step;
    assert [c][..0] == [];
    assert Run(p, []) == (p, []);
    assert [] + Step(p, c).1 == Step(p, c).1;
  }

  lemma {:induction false} XorAllAppend(acc: Byte, a: seq<Byte>, b: seq<Byte>)
    ensures XorAll(acc, a + b) == XorAll(XorAll(acc, a), b)
    decreases |b|
  {
    hide Xor;
    if b == [] {
      assert a + b == a;
    } else {
      assert (a + b)[..|a + b| - 1] == a + b[..|b| - 1];
      XorAllAppend(acc, a, b[..|b| - 1]);
    }
  }

  /** Ordinary characters extend the item and, before the asterisk, the running checksum. */
  lemma {:induction false} RunPlain(p: Parser, s: seq<Byte>)
    requires Plain(s)
    ensures Run(p, s) == (p.(item := p.item + s, crc := if p.asterisk then p.crc else XorAll(p.crc, s)), [])
    decreases |s|
  {
    hide Xor;
    if s == [] {
      assert p.item + s == p.item;
    } else {
      var n := |s| - 1;
      assert Plain(s[..n]);
      RunPlain(p, s[..n]);
      assert (p.item + s[..n]) + [s[n]] == p.item + s;
      var (q, out) := Run(p, s[..n]);
      var (r, more) := Step(q, s[n]);
      assert r == p.(item := p.item + s, crc := if p.asterisk then p.crc else XorAll(p.crc, s));
      assert out + more == [];
      assert Run(p, s) == (r, out + more);
    }
  }

  /** The machine inside a sentence, the last of `fields` read but not yet handed on. */
  function Inside(parsed: set<Statement>, fields: seq<seq<Byte>>): Parser
    requires 0 < |fields| < 256
  {
    var st := Classify([DOLLAR] + fields[0]);
    var n := |fields| - 1;
    Parser(if n == 0 then [DOLLAR] + fields[0] else fields[n], n, false, XorAll(0, Body(fields)), parsed,
           if st == GSV && n > 2 then Number(fields[2]) else 0,
           if st == GSV && n > 1 then Number(fields[1]) else 0,
           if n == 0 then Unknown else st)
  }

  /** Handing on the last field of `Inside`. */
  lemma ParseInside(parsed: set<Statement>, fields: seq<seq<Byte>>)
    requires 0 < |fields| < 256
    ensures
      var st := Classify([DOLLAR] + fields[0]);
      var p := Inside(parsed, fields);
      var n := |fields| - 1;
      && ParseItem(p).0 == p.(cur := st, satNum := if st == GSV && n >= 2 then Number(fields[2]) else 0,
                              satCount := if st == GSV && n >= 1 then Number(fields[1]) else 0)
      && FieldOutputs(st, fields[..n + 1]) == (if n == 0 then [] else FieldOutputs(st, fields[..n])) + ParseItem(p).1
  {
    hide Classify, Number, XorAll, Body;
    assert fields[..|fields|] == fields;
  }

  /** A comma hands on the last field and opens the next one. */
  lemma RunNextField(parsed: set<Statement>, fields: seq<seq<Byte>>)
    requires 1 < |fields| < 256 && Plain(fields[|fields| - 1])
    ensures
      var n := |fields| - 1;
      var q := Inside(parsed, fields[..n]);
      Run(q, [COMMA] + fields[n]) == (Inside(parsed, fields), ParseItem(q).1)
  {
    var n := |fields| - 1;
    var front := fields[..n];
    var q := Inside(parsed, front);
    StepComma(parsed, fields);
    hide Classify, Number, Run, Xor, Body, Step, ParseItem, Inside;
    RunAppend(q, [COMMA], fields[n]);
    RunOne(q, COMMA);
    var r := Step(q, COMMA).0;
    RunPlain(r, fields[n]);
    assert [] + fields[n] == fields[n];
    assert ParseItem(q).1 + [] == ParseItem(q).1;
  }

  /** The comma that ends all fields but the last. */
  lemma StepComma(parsed: set<Statement>, fields: seq<seq<Byte>>)
    requires 1 < |fields| < 256
    ensures
      var n := |fields| - 1;
      var q := Inside(parsed, fields[..n]);
      var r := Step(q, COMMA).0;
      && Step(q, COMMA).1 == ParseItem(q).1
      && r.item == [] && !r.asterisk
      && Inside(parsed, fields) == r.(item := fields[n], crc := XorAll(r.crc, fields[n]))
  {
    hide Classify, Number, Xor, Body;
    var n := |fields| - 1;
    var front := fields[..n];
    ParseInside(parsed, front);
    CommaXor(front, fields[n]);
    BodyMore(fields);
    assert fields[0] == front[0];
  }

  lemma BodyMore(fields: seq<seq<Byte>>)
    requires |fields| > 1
    ensures Body(fields) == Body(fields[..|fields| - 1]) + [COMMA] + fields[|fields| - 1]
  {}

  lemma {:induction false} RunBody(p: Parser, fields: seq<seq<Byte>>)
    requires 0 < |fields| < 256 && forall i :: 0 <= i < |fields| ==> Plain(fields[i])
    ensures
      var n := |fields| - 1;
      Run(p, [DOLLAR] + Body(fields)) ==
      (Inside(p.parsed, fields), if n == 0 then [] else FieldOutputs(Classify([DOLLAR] + fields[0]), fields[..n]))
    decreases |fields|
  {
    hide Classify, Number, Run, Xor, FieldOutputs, ParseItem;
    var n := |fields| - 1;
    if n == 0 {
      hide Inside;
      RunFirstField(p, fields);
    } else {
      hide Inside, Body;
      var front := fields[..n];
      RunBody(p, front);
      BodyMore(fields);
      assert [DOLLAR] + Body(fields) == ([DOLLAR] + Body(front)) + ([COMMA] + fields[n]);
      RunAppend(p, [DOLLAR] + Body(front), [COMMA] + fields[n]);
      RunNextField(p.parsed, fields);
      ParseInside(p.parsed, front);
      assert front[..n] == front && fields[0] == front[0];
    }
  }

  lemma RunFirstField(p: Parser, fields: seq<seq<Byte>>)
    requires |fields| == 1 && Plain(fields[0])
    ensures Run(p, [DOLLAR] + Body(fields)) == (Inside(p.parsed, fields), [])
  {
    hide Classify, Number, Run, Xor;
    var q := Step(p, DOLLAR).0;
    BodyOne(fields);
    RunAppend(p, [DOLLAR], fields[0]);
    RunOne(p, DOLLAR);
    RunPlain(q, fields[0]);
    assert Run(q, fields[0]) == (Inside(p.parsed, fields), []);
    var nothing: seq<Output> := [];
    assert Run(p, [DOLLAR]) == (q, nothing) && nothing + nothing == nothing;
  }

  lemma BodyOne(fields: seq<seq<Byte>>)
    requires |fields| == 1
    ensures Body(fields) == fields[0]
  {}

  lemma CommaXor(fields: seq<seq<Byte>>, field: seq<Byte>)
    requires |fields| > 0
    ensures XorAll(0, Body(fields) + [COMMA] + field) == XorAll(Xor(XorAll(0, Body(fields)), COMMA), field)
  {
    hide Xor, Body;
    var body := Body(fields);
    XorAllAppend(0, body + [COMMA], field);
    assert (body + [COMMA])[..|body|] == body;
  }

  /** The machine after the checksum text of `t`, before the carriage return. */
  function BeforeEnd(parsed: set<Statement>, t: Sentence): Parser {
    var st := StatementOf(t);
    Parser(t.sum, |t.fields|, true, XorAll(0, Body(t.fields)), parsed,
           if st == GSV then FieldNumber(t, 2) else 0, if st == GSV then FieldNumber(t, 1) else 0, st)
  }

  lemma RunToEnd(p: Parser, t: Sentence)
    ensures Run(p, [DOLLAR] + Body(t.fields) + [STAR] + t.sum)
            == (BeforeEnd(p.parsed, t), FieldOutputs(StatementOf(t), t.fields))
  {
    hide Classify, Number, Run, Xor, Body, XorAll, FieldOutputs;
    var fields := t.fields;
    var q := Inside(p.parsed, fields);
    RunBody(p, fields);
    RunAppend(p, [DOLLAR] + Body(fields), [STAR]);
    RunOne(q, STAR);
    ParseInside(p.parsed, fields);
    assert fields[..|fields|] == fields;
    var r := Step(q, STAR).0;
    RunAppend(p, [DOLLAR] + Body(fields) + [STAR], t.sum);
    RunPlain(r, t.sum);
    assert [] + t.sum == t.sum;
    assert FieldOutputs(StatementOf(t), fields) + [] == FieldOutputs(StatementOf(t), fields);
  }

  /** One whole sentence, from any state of the machine. */
  lemma RunSentence(p: Parser, t: Sentence)
    ensures
      var (q, out) := Run(p, Text(t));
      var now := p.parsed + Completes(t);
      var update := ChecksumOk(t) && ALL_STATEMENTS <= now;
      && q.parsed == (if update then {} else now)
      && out == FieldOutputs(StatementOf(t), t.fields) + (if update then [GpsUpdate] else [])
                + (if StatementOf(t) == Unknown then [GpsUnknown] else [])
  {
    hide Classify, Number, Run, Xor, Body, XorAll, FieldOutputs, HexByte;
    var front := [DOLLAR] + Body(t.fields) + [STAR] + t.sum;
    var q := BeforeEnd(p.parsed, t);
    RunToEnd(p, t);
    assert Text(t) == front + ([CR] + [LF]);
    RunAppend(p, front, [CR] + [LF]);
    RunAppend(q, [CR], [LF]);
    RunOne(q, CR);
    RunOne(Step(q, CR).0, LF);
    assert Ended(q) == Completes(t);
  }

  /**
   * On any sequence of sentences, from any state, the character machine produces exactly the sentence-level
   * outputs: the comma-separated fields with their numbers, never the checksum text, and the events.
   */
  lemma {:induction false} StreamIsBatch(p: Parser, ts: seq<Sentence>)
    ensures Run(p, Texts(ts)).0.parsed == Batch(p.parsed, ts).0
    ensures Run(p, Texts(ts)).1 == Batch(p.parsed, ts).1
    decreases |ts|
  {
    hide Run, Text, FieldOutputs, Completes, ChecksumOk, StatementOf;
    if ts == [] {
      RunNil(p, Texts(ts));
    } else {
      var front, t := ts[..|ts| - 1], ts[|ts| - 1];
      StreamIsBatch(p, front);
      RunAppend(p, Texts(front), Text(t));
      RunSentence(Run(p, Texts(front)).0, t);
    }
  }

  lemma RunNil(p: Parser, s: seq<Byte>)
    requires s == []
    ensures Run(p, s) == (p, [])
  {}

  // ---------------------------------------------------------------- when GPS_UPDATE is posted, on any stream

  /** Whether character `i` posts GPS_UPDATE. */
  predicate PostsAt(p: Parser, s: seq<Byte>, i: nat)
    requires i < |s|
  {
    GpsUpdate in Step(Run(p, s[..i]).0, s[i]).1
  }

  /** The statement that character `i` completes, if it is a carriage return that ends one. */
  function EndedAt(p: Parser, s: seq<Byte>, i: nat): set<Statement>
    requires i < |s|
  {
    if s[i] == CR then Ended(Run(p, s[..i]).0) else {}
  }

  /** The statements completed at characters `first..end-1`. */
  function EndedWithin(p: Parser, s: seq<Byte>, first: nat, end: nat): set<Statement>
    requires first <= end <= |s|
    decreases end
  {
    if first == end then {} else EndedWithin(p, s, first, end - 1) + EndedAt(p, s, end - 1)
  }

  /** One past the last post among the first `n` characters. */
  function LastPost(p: Parser, s: seq<Byte>, n: nat): (k: nat)
    requires n <= |s|
    ensures k <= n
  {
    if n == 0 then 0 else if PostsAt(p, s, n - 1) then n else LastPost(p, s, n - 1)
  }

  lemma {:induction false} LastPostSpec(p: Parser, s: seq<Byte>, n: nat)
    requires n <= |s|
    ensures LastPost(p, s, n) > 0 ==> PostsAt(p, s, LastPost(p, s, n) - 1)
    ensures forall i: nat :: LastPost(p, s, n) <= i < n ==> !PostsAt(p, s, i)
  {
    hide PostsAt;
    if n > 0 {
      LastPostSpec(p, s, n - 1);
    }
  }

  lemma StepParsed(p: Parser, c: Byte)
    ensures
      var (q, out) := Step(p, c);
      var now := p.parsed + (if c == CR then Ended(p) else {});
      && q.parsed == (if GpsUpdate in out then {} else now)
      && (!(ALL_STATEMENTS <= p.parsed) ==> (GpsUpdate in out <==> ALL_STATEMENTS <= now))
      && (ALL_STATEMENTS <= now ==> c == CR || ALL_STATEMENTS <= p.parsed)
  {
    hide HexByte, Classify, Xor, Number;
  }

  /** The accumulated mask is what was completed since the last post, and is never left complete. */
  lemma {:induction false} MaskSinceLastPost(p: Parser, s: seq<Byte>, n: nat)
    requires n <= |s| && p.parsed == {}
    ensures Run(p, s[..n]).0.parsed == EndedWithin(p, s, LastPost(p, s, n), n)
    ensures !(ALL_STATEMENTS <= Run(p, s[..n]).0.parsed)
    decreases n
  {
    hide Step, Ended, Run, EndedAt, PostsAt;
    if n > 0 {
      MaskSinceLastPost(p, s, n - 1);
      MaskStep(p, s, n - 1);
    } else {
      assert s[..n] == [];
      RunNil(p, s[..n]);
      assert GGA in ALL_STATEMENTS;
    }
  }

  lemma MaskStep(p: Parser, s: seq<Byte>, i: nat)
    requires i < |s|
    ensures
      var mask := Run(p, s[..i]).0.parsed;
      var now := mask + EndedAt(p, s, i);
      && Run(p, s[..i + 1]).0.parsed == (if PostsAt(p, s, i) then {} else now)
      && (!(ALL_STATEMENTS <= mask) ==> (PostsAt(p, s, i) <==> ALL_STATEMENTS <= now))
      && (!(ALL_STATEMENTS <= mask) && PostsAt(p, s, i) ==> s[i] == CR)
  {
    hide Step, Ended;
    StepParsed(Run(p, s[..i]).0, s[i]);
    assert s[..i + 1][..i] == s[..i];
  }

  /**
   * Over any byte stream, GPS_UPDATE is posted at a character exactly when the statements completed since the
   * previous post, this character included, are all six kinds; and then it is a carriage return.
   */
  lemma UpdateExactlyWhenAllEnded(p: Parser, s: seq<Byte>, i: nat)
    requires i < |s| && p.parsed == {}
    ensures PostsAt(p, s, i) <==> EndedWithin(p, s, LastPost(p, s, i), i + 1) >= ALL_STATEMENTS
    ensures PostsAt(p, s, i) ==> s[i] == CR
  {
    hide Step, Ended, Run, EndedAt, PostsAt, LastPost;
    MaskSinceLastPost(p, s, i);
    MaskStep(p, s, i);
  }

  // ---------------------------------------------------------------- what the shared functions compute

  /** The bytes of an ASCII text. */
  function Ascii(s: string): seq<Byte> {
    seq(|s|, i requires 0 <= i < |s| => s[i] as int % 256)
  }

  /** The name of a statement on the wire. */
  function Name(st: Statement): string
    requires st != Unknown
  {
    match st
    case GGA => "GGA"
    case GSA => "GSA"
    case RMC => "RMC"
    case GSV => "GSV"
    case GLL => "GLL"
    case VTG => "VTG"
  }

  /** The order in which the source looks for names. */
  function Rank(st: Statement): nat
    requires st != Unknown
  {
    match st
    case GGA => 0
    case GSA => 1
    case RMC => 2
    case GSV => 3
    case GLL => 4
    case VTG => 5
  }

  ghost predicate OccursAt(s: seq<Byte>, name: seq<Byte>, i: nat) {
    i + |name| <= |s| && s[i..i + |name|] == name
  }

  /** The name of `st` stands somewhere in `s`. */
  ghost predicate Names(s: seq<Byte>, st: Statement)
    requires st != Unknown
  {
    exists i: nat :: OccursAt(s, Ascii(Name(st)), i)
  }

  lemma {:induction false} ContainsIff(s: seq<Byte>, name: seq<Byte>)
    requires |name| > 0
    ensures Contains(s, name) <==> exists i: nat :: OccursAt(s, name, i)
    decreases |s|
  {
    if |s| >= |name| {
      ContainsIff(s[1..], name);
      if i: nat :| OccursAt(s[1..], name, i) {
        assert s[i + 1..i + 1 + |name|] == s[1..][i..i + |name|];
        assert OccursAt(s, name, i + 1);
      }
      if i: nat :| OccursAt(s, name, i) {
        if i > 0 {
          assert s[i..i + |name|] == s[1..][i - 1..i - 1 + |name|];
          assert OccursAt(s[1..], name, i - 1);
        }
      }
      if s[..|name|] == name {
        assert s[0..0 + |name|] == s[..|name|];
        assert OccursAt(s, name, 0);
      }
    }
  }

  /** A text is taken for the statement whose name comes first in the source's order among those that stand in it. */
  lemma ClassifyMeans(s: seq<Byte>)
    ensures Classify(s) == Unknown <==> forall st: Statement :: st != Unknown ==> !Names(s, st)
    ensures forall st: Statement :: st != Unknown ==>
              (Classify(s) == st <==>
                && Names(s, st)
                && forall other: Statement :: other != Unknown && Rank(other) < Rank(st) ==> !Names(s, other))
  {
    NameBytes();
    forall st: Statement | st != Unknown ensures Names(s, st) <==> Contains(s, Ascii(Name(st))) {
      ContainsIff(s, Ascii(Name(st)));
    }
    hide Names, Contains, Ascii, Name;
  }

  lemma NameBytes()
    ensures Ascii(Name(GGA)) == [0x47, 0x47, 0x41] && Ascii(Name(GSA)) == [0x47, 0x53, 0x41]
    ensures Ascii(Name(RMC)) == [0x52, 0x4D, 0x43] && Ascii(Name(GSV)) == [0x47, 0x53, 0x56]
    ensures Ascii(Name(GLL)) == [0x47, 0x4C, 0x4C] && Ascii(Name(VTG)) == [0x56, 0x54, 0x47]
  {}

  /** `$`, a talker of two characters and a name: the statement of that name, unless an earlier one stands in it too. */
  lemma TalkerItem(t1: Byte, t2: Byte, st: Statement)
    requires st != Unknown
    ensures
      var item := [DOLLAR, t1, t2] + Ascii(Name(st));
      Classify(item) == st <==>
        forall other: Statement :: other != Unknown && Rank(other) < Rank(st) ==> !Names(item, other)
  {
    var item := [DOLLAR, t1, t2] + Ascii(Name(st));
    NameBytes();
    assert item[3..3 + |Ascii(Name(st))|] == Ascii(Name(st));
    assert OccursAt(item, Ascii(Name(st)), 3);
    assert Names(item, st);
    hide Names, Ascii, Name, Classify;
    ClassifyMeans(item);
  }

  /** The GPS talker: `$GPGGA` and the others are what they say. */
  lemma GpsTalker(st: Statement)
    requires st != Unknown
    ensures Classify([DOLLAR, 0x47, 0x50] + Ascii(Name(st))) == st
  {
    var item := [DOLLAR, 0x47, 0x50] + Ascii(Name(st));
    NameBytes();
    hide Names;
    TalkerItem(0x47, 0x50, st);
    forall other: Statement | other != Unknown && Rank(other) < Rank(st) ensures !Names(item, other) {
      NotInItem(st, other);
    }
  }

  lemma NotInItem(st: Statement, other: Statement)
    requires st != Unknown && other != Unknown && Rank(other) < Rank(st)
    ensures !Names([DOLLAR, 0x47, 0x50] + Ascii(Name(st)), other)
  {
    var item, name := [DOLLAR, 0x47, 0x50] + Ascii(Name(st)), Ascii(Name(other));
    NameBytes();
    hide Ascii, Name;
    assert |item| == 6 && |name| == 3;
    forall i: nat ensures !OccursAt(item, name, i) {
      if i + 3 <= 6 {
        assert item[i] != name[0] || item[i + 1] != name[1] || item[i + 2] != name[2];
        var part := item[i..i + 3];
        assert part[0] == item[i] && part[1] == item[i + 1] && part[2] == item[i + 2];
      }
    }
  }

  /**
   * A whole sentence of a GPS talker, from any state: its fields are handed on under its own name, and it completes
   * that statement exactly when the checksum is right and, for GSV, its second field equals its first.
   */
  lemma GpsSentence(p: Parser, t: Sentence, st: Statement)
    requires st != Unknown && t.fields[0] == [0x47, 0x50] + Ascii(Name(st))
    ensures
      var complete := ChecksumOk(t) && (st == GSV ==> FieldNumber(t, 2) == FieldNumber(t, 1));
      var now := p.parsed + (if complete then {st} else {});
      var update := ChecksumOk(t) && ALL_STATEMENTS <= now;
      && Run(p, Text(t)).0.parsed == (if update then {} else now)
      && Run(p, Text(t)).1 == FieldOutputs(st, t.fields) + (if update then [GpsUpdate] else [])
  {
    GpsTalker(st);
    assert [DOLLAR] + t.fields[0] == [DOLLAR, 0x47, 0x50] + Ascii(Name(st));
    RunSentence(p, t);
    hide Run, Text, FieldOutputs, ChecksumOk, Classify;
    assert FieldOutputs(st, t.fields) + (if false then [GpsUpdate] else []) + [] == FieldOutputs(st, t.fields) + [];
  }

  /** A number field reads as the number printed in it, in one byte. */
  lemma NumberReads(n: nat)
    requires n < 0x8000_0000
    ensures Number(PrintNat(n)) == n % 256
  {
    NumberText([], [], n, []);
    assert [] + ([] + (PrintNat(n) + [])) == PrintNat(n);
    hide PrintNat, Atoi;
  }

  /** Bit `k` of a byte. */
  predicate BitAt(b: Byte, k: nat)
    requires k < 8
  {
    BitOf(b as bv8, k)
  }

  lemma XorBits(a: Byte, b: Byte, k: nat)
    requires k < 8
    ensures BitAt(Xor(a, b), k) <==> (BitAt(a, k) != BitAt(b, k))
  {
    var x, y := a as bv8, b as bv8;
    assert Xor(a, b) as bv8 == x ^ y;
    XorBitsOf(x, y, k);
  }

  lemma XorBitsOf(x: bv8, y: bv8, k: nat)
    requires k < 8
    ensures BitOf(x ^ y, k) <==> (BitOf(x, k) != BitOf(y, k))
  {
    assert Mask(k) in {0x01, 0x02, 0x04, 0x08, 0x10, 0x20, 0x40, 0x80};
    hide Mask;
    XorMask(x, y, Mask(k));
  }

  lemma XorMask(x: bv8, y: bv8, m: bv8)
    requires m in {0x01, 0x02, 0x04, 0x08, 0x10, 0x20, 0x40, 0x80}
    ensures (x ^ y) & m != 0 <==> ((x & m != 0) != (y & m != 0))
  {}

  /** How many bytes of `s` have bit `k` set. */
  function CountBit(s: seq<Byte>, k: nat): nat
    requires k < 8
  {
    if s == [] then 0 else CountBit(s[..|s| - 1], k) + (if BitAt(s[|s| - 1], k) then 1 else 0)
  }

  /** The checksum of NMEA 0183: bit `k` is set when an odd number of bytes have it set. */
  lemma {:induction false} ChecksumIsParity(s: seq<Byte>, k: nat)
    requires k < 8
    ensures BitAt(XorAll(0, s), k) <==> CountBit(s, k) % 2 == 1
    decreases |s|
  {
    hide BitAt, Xor;
    if s == [] {
      ZeroBits(k);
    } else {
      ChecksumIsParity(s[..|s| - 1], k);
      XorBits(XorAll(0, s[..|s| - 1]), s[|s| - 1], k);
    }
  }

  lemma ZeroBits(k: nat)
    requires k < 8
    ensures !BitAt(0, k)
  {}

  // ---------------------------------------------------------------- checksum text

  /** A hexadecimal digit in upper or lower case. */
  function HexDigit(v: nat, lower: bool): Byte
    requires v < 16
  {
    if v < 10 then 0x30 + v else (if lower then 0x61 else 0x41) + v - 10
  }

  /** The two-digit checksum text of NMEA 0183 reads back as the checksum, so a sentence closed with it is accepted. */
  lemma ChecksumTextReads(v: Byte, low1: bool, low2: bool)
    ensures HexByte([HexDigit(v / 16, low1), HexDigit(v % 16, low2)]) == v
  {
    var a, b := HexDigit(v / 16, low1), HexDigit(v % 16, low2);
    assert [a, b][1..] == [b] && [b][1..] == [];
    assert HexValue(a) == v / 16 && HexValue(b) == v % 16;
    assert ReadHex(0, [a, b]) == ReadHex(v / 16, [b]) == 16 * (v / 16) + v % 16;
    assert SkipSpace([a, b]) == [a, b];
  }
}
