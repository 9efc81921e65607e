/** `gps_decode` of `nmea/nmea_parser.c`: the runtime structure it updates character by character. */
module NmeaDecoder {
  import opened CTypes
  import opened Nmea

  const NMEA_MAX_STATEMENT_ITEM_LENGTH: nat := 16

  /** `1 << statement`. */
  function StatementBit(s: Statement): bv8 {
    match s
    case Unknown => 0x01
    case GGA => 0x02
    case GSA => 0x04
    case RMC => 0x08
    case GSV => 0x10
    case GLL => 0x20
    case VTG => 0x40
  }

  const ALL_MASK: bv8 := 0x7E

  function Statements(mask: bv8): set<Statement> {
    set s: Statement | s in ALL_STATEMENTS && mask & StatementBit(s) != 0
  }

  lemma MaskAdds(mask: bv8, s: Statement)
    requires s != Unknown
    ensures Statements(mask | StatementBit(s)) == Statements(mask) + {s}
  {}

  lemma MaskComplete(mask: bv8)
    ensures mask & ALL_MASK == ALL_MASK <==> ALL_STATEMENTS <= Statements(mask)
  {}

  lemma NothingEnded(p: Parser)
    ensures p.crc != HexByte(p.item) ==> p.parsed + Ended(p) == p.parsed
  {}

  /** No item of the input grows beyond what `item_str` can hold with its terminating NUL. */
  ghost predicate Fits(p: Parser, s: seq<Byte>) {
    forall k: nat :: k <= |s| ==> |Run(p, s[..k]).0.item| < NMEA_MAX_STATEMENT_ITEM_LENGTH
  }

  /** Talker item with its `$`, every field, and the checksum text with the line feed fit an item. */
  predicate Short(t: Sentence) {
    && |t.fields[0]| + 1 < NMEA_MAX_STATEMENT_ITEM_LENGTH
    && (forall i :: 0 < i < |t.fields| ==> |t.fields[i]| < NMEA_MAX_STATEMENT_ITEM_LENGTH)
    && |t.sum| + 1 < NMEA_MAX_STATEMENT_ITEM_LENGTH
  }

  lemma FitsAppend(p: Parser, a: seq<Byte>, b: seq<Byte>)
    requires Fits(p, a) && Fits(Run(p, a).0, b)
    ensures Fits(p, a + b)
  {
    hide Run;
    var ab := a + b;
    forall k: nat | k <= |ab| ensures |Run(p, ab[..k]).0.item| < NMEA_MAX_STATEMENT_ITEM_LENGTH {
      if k <= |a| {
        assert ab[..k] == a[..k];
      } else {
        assert ab[..k] == a + b[..k - |a|];
        RunAppend(p, a, b[..k - |a|]);
      }
    }
  }

  lemma FitsPlain(p: Parser, s: seq<Byte>)
    requires Plain(s) && |p.item| + |s| < NMEA_MAX_STATEMENT_ITEM_LENGTH
    ensures Fits(p, s)
  {
    hide Run;
    forall k: nat | k <= |s| ensures |Run(p, s[..k]).0.item| < NMEA_MAX_STATEMENT_ITEM_LENGTH {
      assert Plain(s[..k]);
      RunPlain(p, s[..k]);
    }
  }

  lemma FitsOne(p: Parser, c: Byte)
    requires |p.item| < NMEA_MAX_STATEMENT_ITEM_LENGTH && |Step(p, c).0.item| < NMEA_MAX_STATEMENT_ITEM_LENGTH
    ensures Fits(p, [c])
  {}

  lemma {:induction false} FitsBody(p: Parser, fields: seq<seq<Byte>>)
    requires |p.item| < NMEA_MAX_STATEMENT_ITEM_LENGTH && 0 < |fields| < 256
    requires forall i :: 0 <= i < |fields| ==> Plain(fields[i])
    requires |fields[0]| + 1 < NMEA_MAX_STATEMENT_ITEM_LENGTH
    requires forall i :: 0 < i < |fields| ==> |fields[i]| < NMEA_MAX_STATEMENT_ITEM_LENGTH
    ensures Fits(p, [DOLLAR] + Body(fields))
    decreases |fields|
  {
    hide Run, Fits, Step, Inside, Body;
    var n := |fields| - 1;
    StepItems(p);
    if n == 0 {
      BodyOne(fields);
      FitsOne(p, DOLLAR);
      RunOne(p, DOLLAR);
      FitsPlain(Step(p, DOLLAR).0, fields[0]);
      FitsAppend(p, [DOLLAR], fields[0]);
    } else {
      var front := fields[..n];
      FitsBody(p, front);
      RunBody(p, front);
      FitsLast(p, [DOLLAR] + Body(front));
      var q := Inside(p.parsed, front);
      StepItems(q);
      FitsOne(q, COMMA);
      RunOne(q, COMMA);
      FitsPlain(Step(q, COMMA).0, fields[n]);
      FitsAppend(q, [COMMA], fields[n]);
      FitsAppend(p, [DOLLAR] + Body(front), [COMMA] + fields[n]);
      BodyMore(fields);
      assert [DOLLAR] + Body(fields) == ([DOLLAR] + Body(front)) + ([COMMA] + fields[n]);
    }
  }

  lemma StepItems(p: Parser)
    ensures Step(p, DOLLAR).0.item == [DOLLAR] && Step(p, COMMA).0.item == []
  {
    hide Classify, Number, Xor;
  }

  lemma FitsSentence(p: Parser, t: Sentence)
    requires |p.item| < NMEA_MAX_STATEMENT_ITEM_LENGTH && Short(t)
    ensures Fits(p, Text(t)) && |Run(p, Text(t)).0.item| < NMEA_MAX_STATEMENT_ITEM_LENGTH
  {
    hide Run, Fits, Classify, Number, Xor, XorAll, Body;
    var body := [DOLLAR] + Body(t.fields);
    FitsBody(p, t.fields);
    RunBody(p, t.fields);
    var q := Inside(p.parsed, t.fields);
    FitsOne(q, STAR);
    RunOne(q, STAR);
    FitsAppend(p, body, [STAR]);
    RunAppend(p, body, [STAR]);
    var r := Step(q, STAR).0;
    FitsPlain(r, t.sum);
    FitsAppend(p, body + [STAR], t.sum);
    RunToEnd(p, t);
    var e := BeforeEnd(p.parsed, t);
    FitsOne(e, CR);
    RunOne(e, CR);
    var f := Step(e, CR).0;
    FitsOne(f, LF);
    FitsAppend(e, [CR], [LF]);
    FitsAppend(p, body + [STAR] + t.sum, [CR] + [LF]);
    assert Text(t) == body + [STAR] + t.sum + ([CR] + [LF]);
    FitsLast(p, Text(t));
  }

  lemma FitsLast(p: Parser, s: seq<Byte>)
    requires Fits(p, s)
    ensures |Run(p, s).0.item| < NMEA_MAX_STATEMENT_ITEM_LENGTH
  {
    assert s[..|s|] == s;
  }

  /** Any sequence of sentences with short fields may be decoded. */
  lemma {:induction false} ShortSentencesFit(p: Parser, ts: seq<Sentence>)
    requires |p.item| < NMEA_MAX_STATEMENT_ITEM_LENGTH && forall i :: 0 <= i < |ts| ==> Short(ts[i])
    ensures Fits(p, Texts(ts))
    decreases |ts|
  {
    hide Run, Fits, Text;
    if ts == [] {
      FitsPlain(p, Texts(ts));
    } else {
      var front, t := ts[..|ts| - 1], ts[|ts| - 1];
      ShortSentencesFit(p, front);
      FitsLast(p, Texts(front));
      FitsSentence(Run(p, Texts(front)).0, t);
      FitsAppend(p, Texts(front), Text(t));
    }
  }

  lemma FitsSplit(p: Parser, a: seq<Byte>, b: seq<Byte>)
    requires Fits(p, a + b)
    ensures Fits(p, a) && Fits(Run(p, a).0, b)
  {
    hide Run;
    var ab := a + b;
    forall k: nat | k <= |a| ensures |Run(p, a[..k]).0.item| < NMEA_MAX_STATEMENT_ITEM_LENGTH {
      assert ab[..k] == a[..k];
    }
    forall k: nat | k <= |b| ensures |Run(Run(p, a).0, b[..k]).0.item| < NMEA_MAX_STATEMENT_ITEM_LENGTH {
      assert ab[..|a| + k] == a + b[..k];
      RunAppend(p, a, b[..k]);
    }
  }

  lemma {:induction false} BodyPrefix(fields: seq<seq<Byte>>, i: nat)
    requires i < |fields|
    ensures Body(fields[..i + 1]) <= Body(fields)
    decreases |fields|
  {
    if i == |fields| - 1 {
      assert fields[..i + 1] == fields;
    } else {
      var front := fields[..|fields| - 1];
      BodyPrefix(front, i);
      assert front[..i + 1] == fields[..i + 1];
    }
  }

  /** A field too long for an item overflows it. */
  lemma FieldFits(p: Parser, t: Sentence, i: nat)
    requires i < |t.fields| && Fits(p, Text(t))
    ensures |t.fields[i]| + (if i == 0 then 1 else 0) < NMEA_MAX_STATEMENT_ITEM_LENGTH
  {
    hide Run, Classify, Number, Xor, XorAll, Body;
    var front := t.fields[..i + 1];
    BodyPrefix(t.fields, i);
    RunBody(p, front);
    var s := [DOLLAR] + Body(front);
    assert Text(t)[..|s|] == s;
  }

  /** A sentence that does not overflow the item has short fields. */
  lemma SentenceShort(p: Parser, t: Sentence)
    requires Fits(p, Text(t))
    ensures Short(t)
  {
    hide Run, Fits, Classify, Number, Xor, XorAll, Body, HexByte;
    forall i | 0 <= i < |t.fields|
      ensures |t.fields[i]| + (if i == 0 then 1 else 0) < NMEA_MAX_STATEMENT_ITEM_LENGTH
    {
      FieldFits(p, t, i);
    }
    var front := [DOLLAR] + Body(t.fields) + [STAR] + t.sum;
    var e := BeforeEnd(p.parsed, t);
    RunToEnd(p, t);
    assert Text(t) == front + ([CR] + [LF]);
    RunAppend(p, front, [CR] + [LF]);
    RunAppend(e, [CR], [LF]);
    RunOne(e, CR);
    RunOne(Step(e, CR).0, LF);
    FitsLast(p, Text(t));
  }

  /** A list of sentences may be decoded exactly when all their fields are short. */
  lemma {:induction false} FitsIffShort(p: Parser, ts: seq<Sentence>)
    requires |p.item| < NMEA_MAX_STATEMENT_ITEM_LENGTH
    ensures Fits(p, Texts(ts)) <==> forall i :: 0 <= i < |ts| ==> Short(ts[i])
    decreases |ts|
  {
    hide Run, Fits, Text, Short;
    if forall i :: 0 <= i < |ts| ==> Short(ts[i]) {
      ShortSentencesFit(p, ts);
    }
    if Fits(p, Texts(ts)) && ts != [] {
      var front, t := ts[..|ts| - 1], ts[|ts| - 1];
      FitsSplit(p, Texts(front), Text(t));
      FitsIffShort(p, front);
      SentenceShort(Run(p, Texts(front)).0, t);
      assert forall i :: 0 <= i < |front| ==> ts[i] == front[i];
    }
  }

  class GpsDecoder {
    var itemPos: nat
    var itemNum: Byte
    var asterisk: bool
    var crc: Byte
    var parsedStatement: bv8
    var satNum: Byte
    var satCount: Byte
    var curStatement: Statement
    const itemStr: array<Byte>
    /** Everything handed on so far: fields stored and events posted. */
    ghost var log: seq<Output>

    ghost predicate Valid()
      reads this, itemStr
    {
      itemStr.Length == NMEA_MAX_STATEMENT_ITEM_LENGTH && itemPos < itemStr.Length && itemStr[itemPos] == 0
    }

    function View(): Parser
      requires itemPos <= itemStr.Length
      reads this, itemStr
    {
      Parser(itemStr[..itemPos], itemNum, asterisk, crc, Statements(parsedStatement), satNum, satCount, curStatement)
    }

    constructor ()
      ensures Valid() && View() == Parser([], 0, false, 0, {}, 0, 0, Unknown) && log == [] && fresh(itemStr)
    {
      itemPos, itemNum, asterisk, crc, parsedStatement, satNum, satCount := 0, 0, false, 0, 0, 0, 0;
      curStatement := Unknown;
      itemStr := new Byte[NMEA_MAX_STATEMENT_ITEM_LENGTH](_ => 0);
      log := [];
    }

    /** `item_str[item_pos++] = c; item_str[item_pos] = '\0';` */
    method Append(c: Byte)
      requires Valid() && itemPos + 1 < itemStr.Length
      modifies this`itemPos, itemStr
      ensures Valid() && itemPos == old(itemPos) + 1
      ensures itemStr[..itemPos] == old(itemStr[..itemPos]) + [c]
    {
      itemStr[itemPos] := c;
      itemPos := itemPos + 1;
      itemStr[itemPos] := 0;
    }

    /** Starts the next item. */
    method NextItemSlot()
      requires Valid()
      modifies this`itemPos, this`itemNum, itemStr
      ensures Valid() && itemPos == 0 && itemNum == (old(itemNum) + 1) % 256
    {
      itemPos := 0;
      itemStr[0] := 0;
      itemNum := (itemNum + 1) % 256;
    }

    method ParseItemSlot()
      requires Valid()
      modifies this`curStatement, this`satCount, this`satNum, this`log
      ensures Valid()
      ensures View() == ParseItem(old(View())).0
      ensures log == old(log) + ParseItem(old(View())).1
    {
      var item := itemStr[..itemPos];
      if itemNum == 0 && itemPos > 0 && itemStr[0] == DOLLAR {
        curStatement := Classify(item);
      } else if curStatement != Unknown {
        log := log + [Field(curStatement, itemNum, item)];
        if curStatement == GSV {
          if itemNum == 1 {
            satCount := Number(item);
          } else if itemNum == 2 {
            satNum := Number(item);
          }
        }
      }
    }

    /** The `switch` under a matching checksum. */
    method MarkEnded()
      requires Valid() && crc == HexByte(itemStr[..itemPos])
      modifies this`parsedStatement
      ensures Valid()
      ensures Statements(parsedStatement) == old(Statements(parsedStatement)) + Ended(old(View()))
    {
      hide HexByte, StatementBit, Statements, Classify;
      if curStatement != Unknown && (curStatement != GSV || satNum == satCount) {
        MaskAdds(parsedStatement, curStatement);
        parsedStatement := parsedStatement | StatementBit(curStatement);
      }
    }

    /** The carriage return branch. */
    method EndOfSentence()
      requires Valid()
      modifies this`parsedStatement, this`log
      ensures Valid()
      ensures View() == EndSentence(old(View())).0
      ensures log == old(log) + EndSentence(old(View())).1
    {
      hide HexByte, Statements, Ended;
      NothingEnded(View());
      var received := HexByte(itemStr[..itemPos]);
      if crc == received {
        MarkEnded();
        MaskComplete(parsedStatement);
        if parsedStatement & ALL_MASK == ALL_MASK {
          parsedStatement := 0;
          MaskEmpty();
          log := log + [GpsUpdate];
        }
      }
      if curStatement == Unknown {
        log := log + [GpsUnknown];
      }
    }

    static lemma MaskEmpty()
      ensures Statements(0) == {}
    {}

    /** One turn of the decoding loop. */
    method DecodeChar(c: Byte)
      requires Valid() && |Step(View(), c).0.item| < NMEA_MAX_STATEMENT_ITEM_LENGTH
      modifies this, itemStr
      ensures Valid()
      ensures View() == Step(old(View()), c).0
      ensures log == old(log) + Step(old(View()), c).1
    {
      hide HexByte, Classify, Number, Xor, Statements;
      if c == DOLLAR {
        asterisk, itemNum, itemPos, curStatement, crc, satCount, satNum := false, 0, 0, Unknown, 0, 0, 0;
        itemStr[0] := 0;
        Append(c);
      } else if c == COMMA {
        ParseItemSlot();
        crc := Xor(crc, c);
        NextItemSlot();
      } else if c == STAR {
        ParseItemSlot();
        asterisk := true;
        NextItemSlot();
      } else if c == CR {
        EndOfSentence();
      } else {
        if !asterisk {
          crc := Xor(crc, c);
        }
        Append(c);
      }
    }

    /** Decodes a NUL-terminated line. */
    method Decode(line: seq<Byte>)
      requires Valid() && Fits(View(), line) && 0 !in line
      modifies this, itemStr
      ensures Valid()
      ensures View() == Run(old(View()), line).0
      ensures log == old(log) + Run(old(View()), line).1
    {
      hide Step;
      ghost var p := View();
      var d := 0;
      while d < |line|
        invariant d <= |line| && Valid()
        invariant View() == Run(p, line[..d]).0
        invariant log == old(log) + Run(p, line[..d]).1
      {
        assert line[..d + 1][..d] == line[..d];
        DecodeChar(line[d]);
        d := d + 1;
      }
      assert line[..d] == line;
    }
  }
}
