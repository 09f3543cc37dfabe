/** The tag loop shared by the two `Unmarshal` methods, against the grammar of complete fields. */
module Records {
  import opened Machine
  import opened Varint
  import opened Wire

  /** One iteration's effect on the message: a field number the message knows, or bytes it keeps as they are. */
  datatype Record = Known(num: nat, payload: Bytes) | Unknown(bytes: Bytes)

  datatype Outcome = Success | Failure(error: Error)

  /** The records read before the loop ended, and how it ended. */
  datatype Parsed = Parsed(records: seq<Record>, outcome: Outcome)

  /** The field number of a tag, truncated to 32 bits as the code does. */
  function FieldNumber(wire: UInt64): int {
    ToInt32(wire / 8)
  }

  // ---------------------------------------------------------------- what one iteration does

  function ReadPayload(s: Bytes, i: nat): (r: Result<(Bytes, nat)>)
    requires i <= |s| <= MAX_INT
    ensures r.Ok? ==> i < r.value.1 <= |s|
  {
    var (length, k) :- ReadVarint(s[i..]);
    if Wrap64(length) < 0 then Err(InvalidLength) else
      var end := Wrap64(i + k + length);
      if end < 0 then Err(InvalidLength)
      else if end > |s| then Err(UnexpectedEOF)
      else Ok((s[i + k..end], end))
  }

  function ReadUnknown(s: Bytes, i: nat): (r: Result<(Bytes, nat)>)
    requires i < |s| <= MAX_INT
    ensures r.Ok? ==> i < r.value.1 <= |s|
  {
    var k :- Skip(s[i..]);
    var end := Wrap64(i + k);
    if end < 0 then Err(InvalidLength)
    else if end > |s| then Err(UnexpectedEOF)
    else Ok((s[i..end], end))
  }

  /** The record at index `i` of a message whose fields are numbered 1 to `known`, and the next index. */
  function NextRecord(known: nat, s: Bytes, i: nat): (r: Result<(Record, nat)>)
    requires i < |s| <= MAX_INT
    ensures r.Ok? ==> i < r.value.1 <= |s|
  {
    var (wire, n) :- ReadVarint(s[i..]);
    var num := FieldNumber(wire);
    if wire % 8 == 4 then Err(EndGroupForNonGroup)
    else if num <= 0 then Err(IllegalTag(num, wire))
    else if num <= known then
      if wire % 8 != 2 then Err(WrongWireType(wire % 8, num)) else
        var (payload, next) :- ReadPayload(s, i + n);
        Ok((Known(num, payload), next))
    else
      var (bytes, next) :- ReadUnknown(s, i);
      Ok((Unknown(bytes), next))
  }

  function Parse(known: nat, s: Bytes, i: nat): Parsed
    requires i <= |s| <= MAX_INT
    decreases |s| - i
  {
    if i == |s| then Parsed([], Success) else
      match NextRecord(known, s, i)
      case Err(e) => Parsed([], Failure(e))
      case Ok((record, next)) =>
        var rest := Parse(known, s, next);
        Parsed([record] + rest.records, rest.outcome)
  }

  // ---------------------------------------------------------------- the grammar of messages

  function FieldNum(f: Field): int {
    FieldNumber(VarintValue(f.tag))
  }

  /** A complete field that a message with fields 1 to `known` (all strings) accepts. */
  ghost predicate Accepted(known: nat, f: Field) {
    ValidField(f) && FieldNum(f) > 0 && (FieldNum(f) <= known ==> f.Delimited?)
  }

  ghost predicate AllAccepted(known: nat, fs: Fields) {
    match fs
    case Nil => true
    case Cons(f, rest) => Accepted(known, f) && AllAccepted(known, rest)
  }

  ghost function RecordOf(known: nat, f: Field): Record
    requires Accepted(known, f)
  {
    if FieldNum(f) <= known then Known(FieldNum(f), f.payload) else Unknown(FieldBytes(f))
  }

  ghost function RecordsOf(known: nat, fs: Fields): seq<Record>
    requires AllAccepted(known, fs)
  {
    match fs
    case Nil => []
    case Cons(f, rest) => [RecordOf(known, f)] + RecordsOf(known, rest)
  }

  // ---------------------------------------------------------------- an accepted field is one record

  lemma NextRecordOfField(known: nat, s: Bytes, i: nat, f: Field, r: Bytes)
    requires i < |s| <= MAX_INT && s[i..] == FieldBytes(f) + r && Accepted(known, f)
    ensures NextRecord(known, s, i) == Ok((RecordOf(known, f), i + |FieldBytes(f)|))
  {
    hide SkipFrom, NextToken, ReadVarint;
    var body := TagOfField(f, r);
    TagThen(s, i, f.tag, body);
    assert VarintValue(f.tag) % 8 != 4;
    if FieldNum(f) <= known {
      PayloadOfField(s, i, f, r);
    } else {
      SkipExact(f, r);
      SuffixParts(s, i, FieldBytes(f), r);
    }
  }

  lemma TagOfField(f: Field, r: Bytes) returns (body: Bytes)
    ensures FieldBytes(f) + r == f.tag + body
  {
    body := (FieldBytes(f) + r)[|f.tag|..];
  }

  lemma PayloadOfField(s: Bytes, i: nat, f: Field, r: Bytes)
    requires i < |s| <= MAX_INT && s[i..] == FieldBytes(f) + r && ValidField(f) && f.Delimited?
    ensures ReadPayload(s, i + |f.tag|) == Ok((f.payload, i + |FieldBytes(f)|))
  {
    hide ReadVarint;
    var rest := f.payload + r;
    var j := i + |f.tag|;
    Append4(f.tag, f.length, f.payload, r);
    SuffixParts(s, i, f.tag, f.length + rest);
    TagThen(s, j, f.length, rest);
    SuffixParts(s, j + |f.length|, f.payload, r);
  }

  lemma Append4(a: Bytes, b: Bytes, c: Bytes, d: Bytes)
    ensures a + b + c + d == a + (b + (c + d))
  {
  }

  // ---------------------------------------------------------------- a record is one accepted field

  lemma FieldOfRecord(known: nat, s: Bytes, i: nat) returns (f: Field)
    requires i < |s| <= MAX_INT && NextRecord(known, s, i).Ok?
    ensures Accepted(known, f)
    ensures var (record, next) := NextRecord(known, s, i).value;
            record == RecordOf(known, f) && s[i..next] == FieldBytes(f)
  {
    hide SkipFrom, NextToken, ReadVarint;
    var wire, j, tag := TagAt(s, i);
    var (record, next) := NextRecord(known, s, i).value;
    if FieldNumber(wire) <= known {
      f := FieldOfPayload(s, i, j, tag);
    } else {
      f := FieldOfUnknown(s, i, tag);
    }
  }

  lemma FieldOfPayload(s: Bytes, i: nat, j: nat, tag: Bytes) returns (f: Field)
    requires i < j <= |s| <= MAX_INT && tag == s[i..j] && IsVarint(tag) && WireType(tag) == 2
    requires ReadPayload(s, j).Ok?
    ensures ValidField(f) && f.Delimited? && f.tag == tag && f.payload == ReadPayload(s, j).value.0
    ensures s[i..ReadPayload(s, j).value.1] == FieldBytes(f)
  {
    hide ReadVarint, ScanVarint;
    var (payload, next) := ReadPayload(s, j).value;
    var length, k, digits := TagAt(s, j);
    f := Delimited(tag, digits, payload);
    assert payload == s[k..next];
    assert s[i..next] == s[i..j] + s[j..k] + s[k..next];
  }

  lemma FieldOfUnknown(s: Bytes, i: nat, tag: Bytes) returns (f: Field)
    requires i < |s| <= MAX_INT && IsVarint(tag) && i + |tag| <= |s| && tag == s[i..i + |tag|]
    requires ReadUnknown(s, i).Ok?
    ensures ValidField(f) && VarintValue(f.tag) == VarintValue(tag)
    ensures ReadUnknown(s, i).value.0 == FieldBytes(f)
    ensures s[i..ReadUnknown(s, i).value.1] == FieldBytes(f)
  {
    hide SkipFrom, NextToken, ReadVarint;
    var k := Skip(s[i..]).value;
    f := SkipSound(s[i..], k);
    assert s[i..][..k] == s[i..i + k];
    var body := TagOfField(f, s[i + k..]);
    assert s[i..] == s[i..i + k] + s[i + k..];
    TagThen(s, i, f.tag, body);
    assert s[i..] == tag + s[i + |tag|..];
    TagThen(s, i, tag, s[i + |tag|..]);
  }

  // ---------------------------------------------------------------- whole messages

  lemma {:induction false} ParseFields(known: nat, s: Bytes, i: nat, fs: Fields, b: Bytes, r: Bytes)
    requires AllAccepted(known, fs) && b == FieldsBytes(fs)
    requires i <= |s| <= MAX_INT && s[i..] == b + r
    ensures i + |b| <= |s|
    ensures var rest := Parse(known, s, i + |b|);
            Parse(known, s, i) == Parsed(RecordsOf(known, fs) + rest.records, rest.outcome)
    decreases fs
  {
    hide NextRecord;
    match fs
    case Nil =>
      assert [] + Parse(known, s, i).records == Parse(known, s, i).records;
    case Cons(f, tail) =>
      var a, c := FieldBytes(f), FieldsBytes(tail);
      FieldNonEmpty(f);
      Append3(a, c, r);
      SuffixParts(s, i, a, c + r);
      NextRecordOfField(known, s, i, f, c + r);
      ParseFields(known, s, i + |a|, tail, c, r);
      var rest := Parse(known, s, i + |b|);
      assert [RecordOf(known, f)] + (RecordsOf(known, tail) + rest.records)
          == RecordsOf(known, fs) + rest.records;
  }

  /** Decoding reads the records of every sequence of accepted fields. */
  lemma ParseComplete(known: nat, fs: Fields)
    requires AllAccepted(known, fs) && |FieldsBytes(fs)| <= MAX_INT
    ensures Parse(known, FieldsBytes(fs), 0) == Parsed(RecordsOf(known, fs), Success)
  {
    var s := FieldsBytes(fs);
    assert s[0..] == s + [];
    ParseFields(known, s, 0, fs, s, []);
    assert RecordsOf(known, fs) + [] == RecordsOf(known, fs);
  }

  lemma {:induction false} ParseSound(known: nat, s: Bytes, i: nat) returns (fs: Fields)
    requires i <= |s| <= MAX_INT && Parse(known, s, i).outcome == Success
    ensures AllAccepted(known, fs) && s[i..] == FieldsBytes(fs)
    ensures Parse(known, s, i).records == RecordsOf(known, fs)
    decreases |s| - i
  {
    hide NextRecord;
    if i == |s| {
      fs := Nil;
    } else {
      var (record, next) := NextRecord(known, s, i).value;
      var head := FieldOfRecord(known, s, i);
      var tail := ParseSound(known, s, next);
      fs := Cons(head, tail);
      assert s[i..] == s[i..next] + s[next..];
    }
  }

  /** Decoding succeeds exactly on the inputs that are a sequence of accepted complete fields. */
  lemma ParseIffGrammar(known: nat, s: Bytes)
    requires |s| <= MAX_INT
    ensures Parse(known, s, 0).outcome == Success
       <==> exists fs :: AllAccepted(known, fs) && FieldsBytes(fs) == s
  {
    hide Parse;
    if Parse(known, s, 0).outcome == Success {
      var fs := ParseSound(known, s, 0);
      assert s[0..] == s;
    }
    if fs :| AllAccepted(known, fs) && FieldsBytes(fs) == s {
      ParseComplete(known, fs);
    }
  }

  /** A suffix is decoded as if it stood alone. */
  lemma ParseSuffix(known: nat, s: Bytes, i: nat)
    requires i <= |s| <= MAX_INT
    ensures Parse(known, s, i).outcome == Success <==> Parse(known, s[i..], 0).outcome == Success
    ensures Parse(known, s, i).outcome == Success ==> Parse(known, s, i) == Parse(known, s[i..], 0)
  {
    hide Parse;
    if Parse(known, s, i).outcome == Success {
      var fs := ParseSound(known, s, i);
      ParseComplete(known, fs);
    }
    if Parse(known, s[i..], 0).outcome == Success {
      var fs := ParseSound(known, s[i..], 0);
      assert s[i..][0..] == s[i..] == FieldsBytes(fs) + [];
      ParseFields(known, s, i, fs, FieldsBytes(fs), []);
      ParseAtEnd(known, s);
    }
  }

  lemma ParseAtEnd(known: nat, s: Bytes)
    requires |s| <= MAX_INT
    ensures Parse(known, s, |s|) == Parsed([], Success)
  {
  }

  /** After an input that decodes, a second one is decoded exactly as it would be on its own. */
  lemma ParseConcat(known: nat, a: Bytes, b: Bytes)
    requires |a + b| <= MAX_INT && Parse(known, a, 0).outcome == Success
    ensures Parse(known, a + b, 0).outcome == Success <==> Parse(known, b, 0).outcome == Success
    ensures Parse(known, b, 0).outcome == Success ==>
              Parse(known, a + b, 0).records == Parse(known, a, 0).records + Parse(known, b, 0).records
  {
    hide Parse;
    var fs := ParseSound(known, a, 0);
    assert a[0..] == a;
    assert (a + b)[0..] == a + b;
    ParseFields(known, a + b, 0, fs, a, b);
    assert (a + b)[|a|..] == b;
    ParseSuffix(known, a + b, |a|);
  }

  // ---------------------------------------------------------------- requests that are cut off

  /** A nonempty beginning of an accepted field, at the end of the input, is reported as such. */
  lemma NextRecordOfCut(known: nat, s: Bytes, i: nat, f: Field)
    requires i < |s| && IsCutField(f, s[i..]) && Accepted(known, f) && i + |FieldBytes(f)| <= MAX_INT
    ensures |s| <= MAX_INT
    ensures NextRecord(known, s, i) == Err(UnexpectedEOF)
  {
    hide SkipFrom, NextToken, ReadVarint, FieldBytes;
    var body := TagOfField(f, []);
    assert FieldBytes(f) + [] == FieldBytes(f);
    var q := CutTag(s, i, f.tag, body);
    if |s[i..]| >= |f.tag| {
      if FieldNum(f) <= known {
        PayloadOfCut(s, i, f, body);
      } else {
        assert s[i..][0..] == s[i..];
        SkipCutField(s[i..], 0, f, 0);
      }
    }
  }

  lemma PayloadOfCut(s: Bytes, i: nat, f: Field, body: Bytes)
    requires ValidField(f) && f.Delimited? && FieldBytes(f) == f.tag + body && i + |FieldBytes(f)| <= MAX_INT
    requires i + |f.tag| <= |s| && s[i + |f.tag|..] <= body && s[i + |f.tag|..] != body
    ensures |s| <= MAX_INT
    ensures ReadPayload(s, i + |f.tag|) == Err(UnexpectedEOF)
  {
    hide ReadVarint;
    assert f.tag + body == f.tag + (f.length + f.payload);
    assert (f.tag + body)[|f.tag|..] == body;
    var q := CutTag(s, i + |f.tag|, f.length, f.payload);
  }

  /**
   * A request that ends inside a field fails with an unexpected end, whatever the field and wherever it is cut, and
   * has given one record for each field before it.
   */
  lemma ParseTruncated(known: nat, fs: Fields, f: Field, p: Bytes)
    requires AllAccepted(known, fs) && Accepted(known, f) && IsCutField(f, p)
    requires |FieldsBytes(fs)| + |FieldBytes(f)| <= MAX_INT
    ensures Parse(known, FieldsBytes(fs) + p, 0) == Parsed(RecordsOf(known, fs), Failure(UnexpectedEOF))
  {
    hide NextRecord;
    var b := FieldsBytes(fs);
    var s := b + p;
    assert s[0..] == s && s[|b|..] == p;
    NextRecordOfCut(known, s, |b|, f);
    ParseFields(known, s, 0, fs, b, p);
    assert RecordsOf(known, fs) + [] == RecordsOf(known, fs);
  }

  /** Where a sequence of fields is cut: between two of them, or inside one. */
  lemma {:induction false} CutFields(known: nat, fs: Fields, n: nat) returns (init: Fields, f: Field, p: Bytes)
    requires AllAccepted(known, fs) && n < |FieldsBytes(fs)|
    ensures AllAccepted(known, init) && Accepted(known, f) && RecordsOf(known, init) <= RecordsOf(known, fs)
    ensures FieldsBytes(fs)[..n] == FieldsBytes(init) + p && (p == [] || IsCutField(f, p))
    ensures |FieldsBytes(init)| + |FieldBytes(f)| <= |FieldsBytes(fs)|
    decreases fs
  {
    match fs
    case Cons(head, tail) =>
      var a := FieldBytes(head);
      if n < |a| {
        init, f, p := Nil, head, a[..n];
        assert FieldsBytes(fs)[..n] == p;
      } else {
        var rest;
        rest, f, p := CutFields(known, tail, n - |a|);
        init := Cons(head, rest);
        assert FieldsBytes(fs)[..n] == a + FieldsBytes(tail)[..n - |a|];
      }
  }

  /** Every beginning of an input that decodes is decoded as well, or fails with an unexpected end. */
  lemma ParseBeginning(known: nat, s: Bytes, n: nat)
    requires |s| <= MAX_INT && n <= |s| && Parse(known, s, 0).outcome == Success
    ensures Parse(known, s[..n], 0).outcome in [Success, Failure(UnexpectedEOF)]
    ensures Parse(known, s[..n], 0).records <= Parse(known, s, 0).records
  {
    hide Parse;
    var fs := ParseSound(known, s, 0);
    assert s[0..] == s && s[..|s|] == s;
    if n < |s| {
      var init, f, p := CutFields(known, fs, n);
      if p == [] {
        assert FieldsBytes(init) + p == FieldsBytes(init);
        ParseComplete(known, init);
      } else {
        ParseTruncated(known, init, f, p);
      }
    }
  }

  // ---------------------------------------------------------------- fields that are rejected

  /** What a decoder of `known` string fields says about a complete tag that it does not accept. */
  lemma RejectedTag(known: nat, s: Bytes, i: nat, tag: Bytes, r: Bytes)
    requires i < |s| <= MAX_INT && s[i..] == tag + r && IsVarint(tag)
    ensures var wire := VarintValue(tag);
            var num := if wire / 8 % 0x1_0000_0000 < 0x8000_0000 then wire / 8 % 0x1_0000_0000
                       else wire / 8 % 0x1_0000_0000 - 0x1_0000_0000;
            var e := NextRecord(known, s, i);
            && (wire % 8 == 4 ==> e == Err(EndGroupForNonGroup))
            && (wire % 8 != 4 && num <= 0 ==> e == Err(IllegalTag(num, wire)))
            && (wire % 8 !in [2, 4] && 1 <= num <= known ==> e == Err(WrongWireType(wire % 8, num)))
            && (wire % 8 >= 6 && num > 0 && num > known ==> e == Err(IllegalWireType(wire % 8)))
  {
    hide ReadVarint;
    TagThen(s, i, tag, r);
    assert s[i..][0..] == s[i..];
  }

  /** A tag, or the length of a string or of an unknown field, that is not a complete varint. */
  lemma RejectedTagBytes(known: nat, s: Bytes, i: nat, tag: Bytes, r: Bytes)
    requires i < |s| <= MAX_INT
    ensures IsCut(s[i..]) ==> NextRecord(known, s, i) == Err(UnexpectedEOF)
    ensures IsOverlong(s[i..]) ==> NextRecord(known, s, i) == Err(IntOverflow)
    ensures s[i..] == tag + r && IsVarint(tag) && WireType(tag) == 2 && FieldNumber(VarintValue(tag)) > 0 ==>
              && (IsCut(r) ==> NextRecord(known, s, i) == Err(UnexpectedEOF))
              && (IsOverlong(r) ==> NextRecord(known, s, i) == Err(IntOverflow))
  {
    hide ReadVarint, FieldNumber, SkipFrom;
    ReadVarintErrors(s[i..]);
    ReadVarintErrors(r);
    if s[i..] == tag + r && IsVarint(tag) {
      TagThen(s, i, tag, r);
      assert s[i..][0..] == s[i..];
      RejectedVarint(s[i..], 0, 0, tag, r);
    }
  }

  /** A string or an unknown field whose announced length is not within the input. */
  lemma RejectedLength(known: nat, s: Bytes, i: nat, tag: Bytes, length: Bytes, r: Bytes)
    requires i < |s| <= MAX_INT && s[i..] == tag + (length + r)
    requires IsVarint(tag) && WireType(tag) == 2 && FieldNumber(VarintValue(tag)) > 0 && IsVarint(length)
    ensures var end := i + |tag| + |length| + VarintValue(length);
            && (end >= 0x8000_0000_0000_0000 ==> NextRecord(known, s, i) == Err(InvalidLength))
            && (|s| < end < 0x8000_0000_0000_0000 ==> NextRecord(known, s, i) == Err(UnexpectedEOF))
  {
    hide ReadVarint, FieldNumber, SkipFrom, IsVarint, VarintValue;
    TagThen(s, i, tag, length + r);
    if FieldNumber(VarintValue(tag)) <= known {
      TagThen(s, i + |tag|, length, r);
    } else {
      assert s[i..][0..] == s[i..];
      SkippedLength(s[i..], 0, 0, tag, length, r);
    }
  }

  // ---------------------------------------------------------------- the loops

  method PassPayload(data: Bytes, i: nat) returns (r: Result<(Bytes, nat)>)
    requires i <= |data| <= MAX_INT
    ensures r == ReadPayload(data, i)
  {
    var length := DecodeVarint(data, i);
    if length.Err? {
      return Err(length.error);
    }
    var (stringLen, at) := length.value;
    var intStringLen := Wrap64(stringLen);
    if intStringLen < 0 {
      return Err(InvalidLength);
    }
    var postIndex := Wrap64(at + intStringLen);
    if postIndex < 0 {
      return Err(InvalidLength);
    }
    if postIndex > |data| {
      return Err(UnexpectedEOF);
    }
    r := Ok((data[at..postIndex], postIndex));
  }

  method PassUnknown(data: Bytes, i: nat) returns (r: Result<(Bytes, nat)>)
    requires i < |data| <= MAX_INT
    ensures r == ReadUnknown(data, i)
  {
    var skipped := SkipDrivemount(data[i..]);
    if skipped.Err? {
      return Err(skipped.error);
    }
    var skippy := skipped.value;
    assert skippy >= 0; // the check for a negative length is never taken
    if Wrap64(i + skippy) < 0 {
      return Err(InvalidLength);
    }
    if Wrap64(i + skippy) > |data| {
      return Err(UnexpectedEOF);
    }
    r := Ok((data[i..i + skippy], i + skippy));
  }

  /** The body of the tag loop, up to the assignment to the message's fields. */
  method PassRecord(known: nat, data: Bytes, i: nat) returns (r: Result<(Record, nat)>)
    requires i < |data| <= MAX_INT
    ensures r == NextRecord(known, data, i)
  {
    var tag := DecodeVarint(data, i);
    if tag.Err? {
      return Err(tag.error);
    }
    var (wire, at) := tag.value;
    var fieldNum, wireType := ToInt32(wire / 8), wire % 8;
    if wireType == 4 {
      return Err(EndGroupForNonGroup);
    }
    if fieldNum <= 0 {
      return Err(IllegalTag(fieldNum, wire));
    }
    if fieldNum <= known {
      if wireType != 2 {
        return Err(WrongWireType(wireType, fieldNum));
      }
      var payload := PassPayload(data, at);
      return if payload.Err? then Err(payload.error)
             else Ok((Known(fieldNum, payload.value.0), payload.value.1));
    }
    var unknown := PassUnknown(data, i);
    return if unknown.Err? then Err(unknown.error)
           else Ok((Unknown(unknown.value.0), unknown.value.1));
  }
}
