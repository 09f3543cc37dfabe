/** The two drivemount requests as values: encoding, decoding, and the laws between them. */
module Messages {
  import opened Machine
  import opened Varint
  import opened Wire
  import opened Records

  datatype Mount = Mount(
    driveID: Bytes,
    destinationPath: Bytes,
    filesystemType: Bytes,
    options: seq<Bytes>,
    unrecognized: Bytes)

  datatype Unmount = Unmount(driveID: Bytes, unrecognized: Bytes)

  const NO_MOUNT := Mount([], [], [], [], [])
  const NO_UNMOUNT := Unmount([], [])

  const MOUNT_FIELDS := 4
  const UNMOUNT_FIELDS := 1

  // ---------------------------------------------------------------- encoding

  /** A tag of wire type 2, a length, and the bytes. */
  function StringBytes(num: nat, text: Bytes): Bytes
    requires num <= MOUNT_FIELDS
  {
    [num * 8 + 2] + EncodeVarint(|text|) + text
  }

  /** Proto3 leaves an empty singular string out. */
  function OptionalBytes(num: nat, text: Bytes): Bytes
    requires num <= MOUNT_FIELDS
  {
    if |text| > 0 then StringBytes(num, text) else []
  }

  /** A repeated string keeps its empty elements. */
  function RepeatedBytes(num: nat, texts: seq<Bytes>): Bytes
    requires num <= MOUNT_FIELDS
  {
    if texts == [] then [] else StringBytes(num, texts[0]) + RepeatedBytes(num, texts[1..])
  }

  function EncodeMount(m: Mount): Bytes {
    OptionalBytes(1, m.driveID) +
    (OptionalBytes(2, m.destinationPath) +
     (OptionalBytes(3, m.filesystemType) +
      (RepeatedBytes(4, m.options) + m.unrecognized)))
  }

  function EncodeUnmount(m: Unmount): Bytes {
    OptionalBytes(1, m.driveID) + m.unrecognized
  }

  // ---------------------------------------------------------------- decoding

  /** The assignment each case of the switch makes. */
  function ApplyMount(m: Mount, record: Record): Mount {
    match record
    case Unknown(bytes) => m.(unrecognized := m.unrecognized + bytes)
    case Known(num, text) =>
      if num == 1 then m.(driveID := text)
      else if num == 2 then m.(destinationPath := text)
      else if num == 3 then m.(filesystemType := text)
      else m.(options := m.options + [text])
  }

  function ApplyUnmount(m: Unmount, record: Record): Unmount {
    match record
    case Unknown(bytes) => m.(unrecognized := m.unrecognized + bytes)
    case Known(_, text) => m.(driveID := text)
  }

  function MergeMount(m: Mount, records: seq<Record>): Mount
    decreases |records|
  {
    if records == [] then m else MergeMount(ApplyMount(m, records[0]), records[1..])
  }

  function MergeUnmount(m: Unmount, records: seq<Record>): Unmount
    decreases |records|
  {
    if records == [] then m else MergeUnmount(ApplyUnmount(m, records[0]), records[1..])
  }

  /** The message after decoding `s` into `m`, also when decoding fails part of the way, and the outcome. */
  function DecodeMount(m: Mount, s: Bytes): (Mount, Outcome)
    requires |s| <= MAX_INT
  {
    var p := Parse(MOUNT_FIELDS, s, 0);
    (MergeMount(m, p.records), p.outcome)
  }

  function DecodeUnmount(m: Unmount, s: Bytes): (Unmount, Outcome)
    requires |s| <= MAX_INT
  {
    var p := Parse(UNMOUNT_FIELDS, s, 0);
    (MergeUnmount(m, p.records), p.outcome)
  }

  // ---------------------------------------------------------------- decoding is a merge

  lemma {:induction false} MergeMountAppend(m: Mount, a: seq<Record>, b: seq<Record>)
    ensures MergeMount(m, a + b) == MergeMount(MergeMount(m, a), b)
    decreases |a|
  {
    if a == [] {
      assert a + b == b;
    } else {
      assert (a + b)[1..] == a[1..] + b;
      MergeMountAppend(ApplyMount(m, a[0]), a[1..], b);
    }
  }

  lemma {:induction false} MergeUnmountAppend(m: Unmount, a: seq<Record>, b: seq<Record>)
    ensures MergeUnmount(m, a + b) == MergeUnmount(MergeUnmount(m, a), b)
    decreases |a|
  {
    if a == [] {
      assert a + b == b;
    } else {
      assert (a + b)[1..] == a[1..] + b;
      MergeUnmountAppend(ApplyUnmount(m, a[0]), a[1..], b);
    }
  }

  /** Decoding a concatenation is decoding the parts one after the other into the same message. */
  lemma DecodeMountConcat(m: Mount, a: Bytes, b: Bytes)
    requires |a + b| <= MAX_INT && DecodeMount(m, a).1 == Success
    ensures DecodeMount(m, a + b).1 == Success <==> DecodeMount(m, b).1 == Success
    ensures DecodeMount(m, b).1 == Success ==>
              DecodeMount(m, a + b) == DecodeMount(DecodeMount(m, a).0, b)
  {
    hide Parse;
    ParseConcat(MOUNT_FIELDS, a, b);
    MergeMountAppend(m, Parse(MOUNT_FIELDS, a, 0).records, Parse(MOUNT_FIELDS, b, 0).records);
  }

  lemma DecodeUnmountConcat(m: Unmount, a: Bytes, b: Bytes)
    requires |a + b| <= MAX_INT && DecodeUnmount(m, a).1 == Success
    ensures DecodeUnmount(m, a + b).1 == Success <==> DecodeUnmount(m, b).1 == Success
    ensures DecodeUnmount(m, b).1 == Success ==>
              DecodeUnmount(m, a + b) == DecodeUnmount(DecodeUnmount(m, a).0, b)
  {
    hide Parse;
    ParseConcat(UNMOUNT_FIELDS, a, b);
    MergeUnmountAppend(m, Parse(UNMOUNT_FIELDS, a, 0).records, Parse(UNMOUNT_FIELDS, b, 0).records);
  }

  /** The last payload of field `num`, or `before` if there is none. */
  ghost function LastOf(num: nat, before: Bytes, records: seq<Record>): Bytes {
    if records == [] then before
    else
      var r := records[|records| - 1];
      if r.Known? && r.num == num then r.payload else LastOf(num, before, records[..|records| - 1])
  }

  /** All payloads of field `num`, in order. */
  ghost function AllOf(num: nat, records: seq<Record>): seq<Bytes> {
    if records == [] then []
    else (if records[0].Known? && records[0].num == num then [records[0].payload] else [])
         + AllOf(num, records[1..])
  }

  /** The unknown fields, in order. */
  ghost function UnknownBytes(records: seq<Record>): Bytes {
    if records == [] then []
    else (if records[0].Unknown? then records[0].bytes else []) + UnknownBytes(records[1..])
  }

  lemma {:induction false} AllOfSnoc(num: nat, records: seq<Record>, r: Record)
    ensures AllOf(num, records + [r]) == AllOf(num, records) + AllOf(num, [r])
  {
    if records == [] {
      assert records + [r] == [r];
    } else {
      assert (records + [r])[1..] == records[1..] + [r];
      AllOfSnoc(num, records[1..], r);
    }
  }

  lemma {:induction false} UnknownBytesSnoc(records: seq<Record>, r: Record)
    ensures UnknownBytes(records + [r]) == UnknownBytes(records) + UnknownBytes([r])
  {
    if records == [] {
      assert records + [r] == [r];
    } else {
      assert (records + [r])[1..] == records[1..] + [r];
      UnknownBytesSnoc(records[1..], r);
    }
  }

  lemma LastOfSnoc(num: nat, before: Bytes, records: seq<Record>, r: Record)
    ensures LastOf(num, before, records + [r])
         == if r.Known? && r.num == num then r.payload else LastOf(num, before, records)
  {
    assert (records + [r])[..|records|] == records;
  }

  lemma OneRecord(num: nat, r: Record)
    ensures AllOf(num, [r]) == if r.Known? && r.num == num then [r.payload] else []
    ensures UnknownBytes([r]) == if r.Unknown? then r.bytes else []
  {
    assert [r][1..] == [];
  }

  lemma AppendMore<T>(a: seq<T>, b: seq<T>, c: seq<T>)
    ensures a + (b + c) == a + b + c
    ensures c == [] ==> a + (b + c) == a + b
  {
  }

  lemma {:induction false} MergeMountSnoc(m: Mount, records: seq<Record>, r: Record)
    ensures MergeMount(m, records + [r]) == ApplyMount(MergeMount(m, records), r)
  {
    MergeMountAppend(m, records, [r]);
    assert [r][1..] == [];
  }

  /** Last one wins for the single strings; options and unknown fields accumulate in order. */
  lemma {:induction false} MergeMountMeaning(m: Mount, records: seq<Record>)
    requires forall i :: 0 <= i < |records| && records[i].Known? ==> 1 <= records[i].num <= MOUNT_FIELDS
    ensures MergeMount(m, records) == Mount(
              LastOf(1, m.driveID, records),
              LastOf(2, m.destinationPath, records),
              LastOf(3, m.filesystemType, records),
              m.options + AllOf(4, records),
              m.unrecognized + UnknownBytes(records))
    decreases |records|
  {
    if records == [] {
      assert m.options + [] == m.options && m.unrecognized + [] == m.unrecognized;
    } else {
      var init, r := records[..|records| - 1], records[|records| - 1];
      assert records == init + [r];
      MergeMountMeaning(m, init);
      hide LastOf, AllOf, UnknownBytes, MergeMount;
      MergeMountSnoc(m, init, r);
      AllOfSnoc(4, init, r);
      UnknownBytesSnoc(init, r);
      LastOfSnoc(1, m.driveID, init, r);
      LastOfSnoc(2, m.destinationPath, init, r);
      LastOfSnoc(3, m.filesystemType, init, r);
      OneRecord(4, r);
      AppendMore(m.options, AllOf(4, init), AllOf(4, [r]));
      AppendMore(m.unrecognized, UnknownBytes(init), UnknownBytes([r]));
    }
  }

  lemma {:induction false} MergeUnmountSnoc(m: Unmount, records: seq<Record>, r: Record)
    ensures MergeUnmount(m, records + [r]) == ApplyUnmount(MergeUnmount(m, records), r)
  {
    MergeUnmountAppend(m, records, [r]);
    assert [r][1..] == [];
  }

  /** The same for the unmount request: the last drive ID wins. */
  lemma {:induction false} MergeUnmountMeaning(m: Unmount, records: seq<Record>)
    requires forall i :: 0 <= i < |records| && records[i].Known? ==> 1 <= records[i].num <= UNMOUNT_FIELDS
    ensures MergeUnmount(m, records) == Unmount(
              LastOf(1, m.driveID, records),
              m.unrecognized + UnknownBytes(records))
    decreases |records|
  {
    if records == [] {
      assert m.unrecognized + [] == m.unrecognized;
    } else {
      var init, r := records[..|records| - 1], records[|records| - 1];
      assert records == init + [r];
      MergeUnmountMeaning(m, init);
      MergeUnmountSnoc(m, init, r);
      UnknownBytesSnoc(init, r);
      assert [r][1..] == [];
    }
  }

  // ---------------------------------------------------------------- encoded strings are accepted fields

  function StringField(num: nat, text: Bytes): (f: Field)
    requires 1 <= num <= MOUNT_FIELDS
    ensures FieldBytes(f) == StringBytes(num, text)
  {
    Delimited([num * 8 + 2], EncodeVarint(|text|), text)
  }

  lemma StringFieldAccepted(known: nat, num: nat, text: Bytes)
    requires 1 <= num <= MOUNT_FIELDS && |text| <= MAX_INT
    ensures Accepted(known, StringField(num, text)) && FieldNum(StringField(num, text)) == num
    ensures RecordOf(known, StringField(num, text))
         == if num <= known then Known(num, text) else Unknown(StringBytes(num, text))
  {
    hide EncodeVarint;
    var tag: Bytes := [num * 8 + 2];
    VarintRoundTrip(|text|, []);
    assert RawValue(tag) == tag[0] % 128 + 128 * RawValue(tag[1..]);
    assert VarintValue(tag) == num * 8 + 2;
  }

  function Append(fs: Fields, gs: Fields): (r: Fields) {
    match fs
    case Nil => gs
    case Cons(f, rest) => Cons(f, Append(rest, gs))
  }

  lemma {:induction false} AppendMeaning(known: nat, fs: Fields, gs: Fields)
    requires AllAccepted(known, fs) && AllAccepted(known, gs)
    ensures AllAccepted(known, Append(fs, gs))
    ensures FieldsBytes(Append(fs, gs)) == FieldsBytes(fs) + FieldsBytes(gs)
    ensures RecordsOf(known, Append(fs, gs)) == RecordsOf(known, fs) + RecordsOf(known, gs)
  {
    hide RecordOf, FieldBytes;
    match fs
    case Nil =>
    case Cons(f, rest) =>
      AppendMeaning(known, rest, gs);
      Append3(FieldBytes(f), FieldsBytes(rest), FieldsBytes(gs));
  }

  function OptionalField(num: nat, text: Bytes): Fields
    requires 1 <= num <= MOUNT_FIELDS
  {
    if |text| > 0 then Cons(StringField(num, text), Nil) else Nil
  }

  function RepeatedFields(num: nat, texts: seq<Bytes>): Fields
    requires 1 <= num <= MOUNT_FIELDS
  {
    if texts == [] then Nil else Cons(StringField(num, texts[0]), RepeatedFields(num, texts[1..]))
  }

  /** The record a string of field `num` decodes to. */
  function StringRecord(known: nat, num: nat, text: Bytes): Record
    requires 1 <= num <= MOUNT_FIELDS
  {
    if num <= known then Known(num, text) else Unknown(StringBytes(num, text))
  }

  lemma OptionalFieldMeaning(known: nat, num: nat, text: Bytes)
    requires 1 <= num <= MOUNT_FIELDS && |OptionalBytes(num, text)| <= MAX_INT
    ensures AllAccepted(known, OptionalField(num, text))
    ensures FieldsBytes(OptionalField(num, text)) == OptionalBytes(num, text)
    ensures RecordsOf(known, OptionalField(num, text)) == OptionalRecord(known, num, text)
  {
    if |text| > 0 {
      StringFieldAccepted(known, num, text);
      assert FieldsBytes(Cons(StringField(num, text), Nil)) == StringBytes(num, text) + [];
    }
  }

  lemma {:induction false} RepeatedFieldsMeaning(known: nat, num: nat, texts: seq<Bytes>)
    requires 1 <= num <= MOUNT_FIELDS && |RepeatedBytes(num, texts)| <= MAX_INT
    ensures AllAccepted(known, RepeatedFields(num, texts))
    ensures FieldsBytes(RepeatedFields(num, texts)) == RepeatedBytes(num, texts)
    ensures RecordsOf(known, RepeatedFields(num, texts)) == RepeatedRecords(known, num, texts)
  {
    if texts != [] {
      StringFieldAccepted(known, num, texts[0]);
      RepeatedFieldsMeaning(known, num, texts[1..]);
    }
  }

  /** The fields an encoded request starts with, before its unrecognized bytes. */
  function MountFields(m: Mount): Fields {
    Append(OptionalField(1, m.driveID),
    Append(OptionalField(2, m.destinationPath),
    Append(OptionalField(3, m.filesystemType), RepeatedFields(4, m.options))))
  }

  function OptionalRecord(known: nat, num: nat, text: Bytes): seq<Record>
    requires 1 <= num <= MOUNT_FIELDS
  {
    if |text| > 0 then [StringRecord(known, num, text)] else []
  }

  function RepeatedRecords(known: nat, num: nat, texts: seq<Bytes>): seq<Record>
    requires 1 <= num <= MOUNT_FIELDS
  {
    seq(|texts|, i requires 0 <= i < |texts| => StringRecord(known, num, texts[i]))
  }

  function MountRecords(known: nat, m: Mount): seq<Record> {
    OptionalRecord(known, 1, m.driveID) +
    (OptionalRecord(known, 2, m.destinationPath) +
     (OptionalRecord(known, 3, m.filesystemType) + RepeatedRecords(known, 4, m.options)))
  }

  lemma PrependOptional(known: nat, num: nat, text: Bytes, gs: Fields, rest: Bytes)
    requires 1 <= num <= MOUNT_FIELDS && |OptionalBytes(num, text)| <= MAX_INT && AllAccepted(known, gs)
    ensures var fs := Append(OptionalField(num, text), gs);
            && AllAccepted(known, fs)
            && FieldsBytes(fs) + rest == OptionalBytes(num, text) + (FieldsBytes(gs) + rest)
            && RecordsOf(known, fs) == OptionalRecord(known, num, text) + RecordsOf(known, gs)
  {
    hide OptionalField, OptionalBytes, OptionalRecord, RecordOf;
    OptionalFieldMeaning(known, num, text);
    AppendMeaning(known, OptionalField(num, text), gs);
    Append3(OptionalBytes(num, text), FieldsBytes(gs), rest);
  }

  lemma MountFieldsMeaning(known: nat, m: Mount)
    requires |EncodeMount(m)| <= MAX_INT
    ensures AllAccepted(known, MountFields(m))
    ensures FieldsBytes(MountFields(m)) + m.unrecognized == EncodeMount(m)
    ensures RecordsOf(known, MountFields(m)) == MountRecords(known, m)
  {
    hide Append, OptionalField, RepeatedFields, OptionalBytes, RepeatedBytes, OptionalRecord, RepeatedRecords;
    var f4 := RepeatedFields(4, m.options);
    RepeatedFieldsMeaning(known, 4, m.options);
    var f3 := Append(OptionalField(3, m.filesystemType), f4);
    PrependOptional(known, 3, m.filesystemType, f4, m.unrecognized);
    var f2 := Append(OptionalField(2, m.destinationPath), f3);
    PrependOptional(known, 2, m.destinationPath, f3, m.unrecognized);
    PrependOptional(known, 1, m.driveID, f2, m.unrecognized);
  }

  // ---------------------------------------------------------------- unrecognized bytes

  ghost predicate AllUnknown(records: seq<Record>) {
    forall i :: 0 <= i < |records| ==> records[i].Unknown?
  }

  /** Complete fields, all of them numbered above `known`. */
  ghost predicate AllAbove(known: nat, fs: Fields) {
    match fs
    case Nil => true
    case Cons(f, rest) => ValidField(f) && FieldNum(f) > known && AllAbove(known, rest)
  }

  /** `u` is a sequence of complete fields, all of them numbered above `known`. */
  ghost predicate CompleteUnknown(known: nat, u: Bytes) {
    exists fs :: AllAbove(known, fs) && FieldsBytes(fs) == u
  }

  lemma {:induction false} AboveIsUnknown(known: nat, fs: Fields)
    requires AllAbove(known, fs)
    ensures AllAccepted(known, fs) && AllUnknown(RecordsOf(known, fs))
  {
    match fs
    case Nil =>
    case Cons(f, rest) =>
      AboveIsUnknown(known, rest);
      ConsUnknown(RecordOf(known, f), RecordsOf(known, rest));
  }

  lemma {:induction false} UnknownIsAbove(known: nat, fs: Fields)
    requires AllAccepted(known, fs) && AllUnknown(RecordsOf(known, fs))
    ensures AllAbove(known, fs)
  {
    match fs
    case Nil =>
    case Cons(f, rest) =>
      ConsUnknown(RecordOf(known, f), RecordsOf(known, rest));
      UnknownIsAbove(known, rest);
  }

  /** The decoder keeps all of an input exactly when it is such a sequence. */
  lemma CompleteIffKept(known: nat, u: Bytes)
    requires |u| <= MAX_INT
    ensures CompleteUnknown(known, u)
       <==> Parse(known, u, 0).outcome == Success && AllUnknown(Parse(known, u, 0).records)
  {
    hide Parse, AllUnknown;
    if Parse(known, u, 0).outcome == Success && AllUnknown(Parse(known, u, 0).records) {
      var fs := ParseSound(known, u, 0);
      assert u[0..] == u;
      UnknownIsAbove(known, fs);
    }
    if fs :| AllAbove(known, fs) && FieldsBytes(fs) == u {
      AboveIsUnknown(known, fs);
      ParseComplete(known, fs);
    }
  }

  lemma CancelPrefix(a: Bytes, x: Bytes, y: Bytes)
    ensures a + x == a + y <==> x == y
  {
    assert (a + x)[|a|..] == x && (a + y)[|a|..] == y;
  }

  lemma ConsUnknown(record: Record, records: seq<Record>)
    ensures AllUnknown([record] + records) <==> record.Unknown? && AllUnknown(records)
    ensures UnknownBytes([record] + records)
         == (if record.Unknown? then record.bytes else []) + UnknownBytes(records)
  {
    var all := [record] + records;
    assert all[1..] == records;
    assert all[0] == record;
    assert forall i :: 0 <= i < |records| ==> records[i] == all[i + 1];
  }

  /** Only unknown fields leave their bytes in the message. */
  lemma {:induction false} UnknownBytesOf(known: nat, fs: Fields)
    requires AllAccepted(known, fs)
    ensures |UnknownBytes(RecordsOf(known, fs))| <= |FieldsBytes(fs)|
    ensures UnknownBytes(RecordsOf(known, fs)) == FieldsBytes(fs) <==> AllUnknown(RecordsOf(known, fs))
  {
    hide AllUnknown, UnknownBytes;
    match fs
    case Nil =>
      NoRecords();
    case Cons(f, rest) =>
      var records := RecordsOf(known, rest);
      FieldNonEmpty(f);
      UnknownBytesOf(known, rest);
      ConsUnknown(RecordOf(known, f), records);
      CancelPrefix(FieldBytes(f), UnknownBytes(records), FieldsBytes(rest));
  }

  lemma NoRecords()
    ensures AllUnknown([]) && UnknownBytes([]) == []
  {
  }

  function UnknownOnly(known: nat, fs: Fields): Fields {
    match fs
    case Nil => Nil
    case Cons(f, rest) =>
      if FieldNum(f) <= known then UnknownOnly(known, rest) else Cons(f, UnknownOnly(known, rest))
  }

  lemma {:induction false} UnknownOnlyMeaning(known: nat, fs: Fields)
    requires AllAccepted(known, fs)
    ensures AllAccepted(known, UnknownOnly(known, fs))
    ensures FieldsBytes(UnknownOnly(known, fs)) == UnknownBytes(RecordsOf(known, fs))
    ensures AllUnknown(RecordsOf(known, UnknownOnly(known, fs)))
  {
    match fs
    case Nil =>
    case Cons(f, rest) =>
      UnknownOnlyMeaning(known, rest);
      assert ([RecordOf(known, f)] + RecordsOf(known, rest))[1..] == RecordsOf(known, rest);
  }

  /** What a successful decoding keeps as unrecognized is always made of complete unknown fields. */
  lemma KeptIsComplete(known: nat, s: Bytes)
    requires |s| <= MAX_INT && Parse(known, s, 0).outcome == Success
    ensures var kept := UnknownBytes(Parse(known, s, 0).records);
            |kept| <= |s| && CompleteUnknown(known, kept)
  {
    hide Parse;
    var fs := ParseSound(known, s, 0);
    assert s[0..] == s;
    UnknownBytesOf(known, fs);
    UnknownOnlyMeaning(known, fs);
    UnknownIsAbove(known, UnknownOnly(known, fs));
  }

  lemma KnownInRange(known: nat, s: Bytes)
    requires |s| <= MAX_INT && Parse(known, s, 0).outcome == Success
    ensures forall i :: 0 <= i < |Parse(known, s, 0).records| ==>
              var r := Parse(known, s, 0).records[i]; r.Known? ==> 1 <= r.num <= known
  {
    hide Parse;
    var fs := ParseSound(known, s, 0);
    RecordsInRange(known, fs);
  }

  lemma {:induction false} RecordsInRange(known: nat, fs: Fields)
    requires AllAccepted(known, fs)
    ensures forall i :: 0 <= i < |RecordsOf(known, fs)| ==>
              var r := RecordsOf(known, fs)[i]; r.Known? ==> 1 <= r.num <= known
  {
    match fs
    case Nil =>
    case Cons(f, rest) => RecordsInRange(known, rest);
  }

  // ---------------------------------------------------------------- round trips

  /** Decoding an encoded request reads its own strings and then its unrecognized bytes. */
  lemma ParseEncodedMount(known: nat, m: Mount)
    requires |EncodeMount(m)| <= MAX_INT
    ensures var p, q := Parse(known, EncodeMount(m), 0), Parse(known, m.unrecognized, 0);
            && (p.outcome == Success <==> q.outcome == Success)
            && (q.outcome == Success ==> p.records == MountRecords(known, m) + q.records)
  {
    hide Parse, MountRecords, MountFields;
    var s, b := EncodeMount(m), FieldsBytes(MountFields(m));
    MountFieldsMeaning(known, m);
    hide EncodeMount;
    assert s[0..] == b + m.unrecognized;
    ParseFields(known, s, 0, MountFields(m), b, m.unrecognized);
    SuffixParts(s, 0, b, m.unrecognized);
    ParseSuffix(known, s, |b|);
  }

  lemma MergeOneOptional(m: Mount, num: nat, text: Bytes)
    requires 1 <= num <= 3
    ensures MergeMount(m, OptionalRecord(MOUNT_FIELDS, num, text))
         == if |text| > 0 then ApplyMount(m, Known(num, text)) else m
  {
    assert [Known(num, text)][1..] == [];
  }

  lemma {:induction false} MergeRepeated(m: Mount, texts: seq<Bytes>)
    ensures MergeMount(m, RepeatedRecords(MOUNT_FIELDS, 4, texts)) == m.(options := m.options + texts)
    decreases |texts|
  {
    var records := RepeatedRecords(MOUNT_FIELDS, 4, texts);
    if texts == [] {
      assert m.options + texts == m.options;
    } else {
      assert records[1..] == RepeatedRecords(MOUNT_FIELDS, 4, texts[1..]);
      MergeRepeated(ApplyMount(m, records[0]), texts[1..]);
      assert m.options + [texts[0]] + texts[1..] == m.options + texts;
    }
  }

  lemma MergeMountRecords(m: Mount)
    ensures MergeMount(NO_MOUNT, MountRecords(MOUNT_FIELDS, m)) == m.(unrecognized := [])
  {
    hide MergeMount, OptionalRecord, RepeatedRecords;
    var r1 := OptionalRecord(MOUNT_FIELDS, 1, m.driveID);
    var r2 := OptionalRecord(MOUNT_FIELDS, 2, m.destinationPath);
    var r3 := OptionalRecord(MOUNT_FIELDS, 3, m.filesystemType);
    var r4 := RepeatedRecords(MOUNT_FIELDS, 4, m.options);
    var m1 := NO_MOUNT.(driveID := m.driveID);
    var m2 := m1.(destinationPath := m.destinationPath);
    var m3 := m2.(filesystemType := m.filesystemType);
    MergeOneOptional(NO_MOUNT, 1, m.driveID);
    MergeOneOptional(m1, 2, m.destinationPath);
    MergeOneOptional(m2, 3, m.filesystemType);
    MergeRepeated(m3, m.options);
    MergeMountAppend(NO_MOUNT, r1, r2 + (r3 + r4));
    MergeMountAppend(m1, r2, r3 + r4);
    MergeMountAppend(m2, r3, r4);
    assert [] + m.options == m.options;
  }

  lemma {:induction false} MergeUnknownOnly(m: Mount, records: seq<Record>)
    requires AllUnknown(records)
    ensures MergeMount(m, records) == m.(unrecognized := m.unrecognized + UnknownBytes(records))
    decreases |records|
  {
    if records == [] {
      assert m.unrecognized + [] == m.unrecognized;
    } else {
      MergeUnknownOnly(ApplyMount(m, records[0]), records[1..]);
      Append3(m.unrecognized, records[0].bytes, UnknownBytes(records[1..]));
    }
  }

  /** A request survives encoding and decoding exactly when its unrecognized bytes are complete unknown fields. */
  lemma MountRoundTrip(m: Mount)
    requires |EncodeMount(m)| <= MAX_INT
    ensures DecodeMount(NO_MOUNT, EncodeMount(m)) == (m, Success)
       <==> CompleteUnknown(MOUNT_FIELDS, m.unrecognized)
  {
    var q := Parse(MOUNT_FIELDS, m.unrecognized, 0);
    CompleteIffKept(MOUNT_FIELDS, m.unrecognized);
    hide Parse, EncodeMount, MountRecords, MergeMount, CompleteUnknown;
    ParseEncodedMount(MOUNT_FIELDS, m);
    if q.outcome == Success {
      var fs := ParseSound(MOUNT_FIELDS, m.unrecognized, 0);
      assert m.unrecognized[0..] == m.unrecognized;
      UnknownBytesOf(MOUNT_FIELDS, fs);
      MergeMountRecords(m);
      MergeMountAppend(NO_MOUNT, MountRecords(MOUNT_FIELDS, m), q.records);
      KnownInRange(MOUNT_FIELDS, m.unrecognized);
      MergeMountMeaning(m.(unrecognized := []), q.records);
      assert [] + UnknownBytes(q.records) == UnknownBytes(q.records);
      if AllUnknown(q.records) {
        MergeUnknownOnly(m.(unrecognized := []), q.records);
      }
    }
  }

  // ---------------------------------------------------------------- re-encoding is canonical

  lemma StringNoLonger(f: Field, num: nat)
    requires ValidField(f) && f.Delimited? && num <= MOUNT_FIELDS
    ensures |StringBytes(num, f.payload)| <= |FieldBytes(f)|
  {
    hide EncodeVarint;
    EncodeVarintMinimal(f.length);
    VarintSize(f.tag);
  }

  lemma {:induction false} RepeatedSnoc(texts: seq<Bytes>, text: Bytes)
    ensures |RepeatedBytes(4, texts + [text])| == |RepeatedBytes(4, texts)| + |StringBytes(4, text)|
  {
    hide StringBytes;
    if texts == [] {
      assert (texts + [text])[1..] == [];
    } else {
      assert (texts + [text])[1..] == texts[1..] + [text];
      RepeatedSnoc(texts[1..], text);
    }
  }

  /** Decoding one field lengthens the message's own encoding by no more than that field. */
  lemma ApplyCost(m: Mount, f: Field)
    requires Accepted(MOUNT_FIELDS, f)
    ensures |EncodeMount(ApplyMount(m, RecordOf(MOUNT_FIELDS, f)))| <= |EncodeMount(m)| + |FieldBytes(f)|
  {
    hide StringBytes, RepeatedBytes;
    if FieldNum(f) <= MOUNT_FIELDS {
      StringNoLonger(f, FieldNum(f));
      RepeatedSnoc(m.options, f.payload);
    }
  }

  lemma {:induction false} MergeCost(m: Mount, fs: Fields)
    requires AllAccepted(MOUNT_FIELDS, fs)
    ensures |EncodeMount(MergeMount(m, RecordsOf(MOUNT_FIELDS, fs)))| <= |EncodeMount(m)| + |FieldsBytes(fs)|
    decreases fs
  {
    hide EncodeMount;
    match fs
    case Nil =>
    case Cons(f, rest) =>
      ApplyCost(m, f);
      MergeCost(ApplyMount(m, RecordOf(MOUNT_FIELDS, f)), rest);
      assert RecordsOf(MOUNT_FIELDS, fs)[1..] == RecordsOf(MOUNT_FIELDS, rest);
  }

  /** Whatever bytes a request was decoded from, re-encoding it is no longer and decodes to it again. */
  lemma MountCanonical(s: Bytes, m: Mount)
    requires |s| <= MAX_INT && DecodeMount(NO_MOUNT, s) == (m, Success)
    ensures |EncodeMount(m)| <= |s|
    ensures DecodeMount(NO_MOUNT, EncodeMount(m)) == (m, Success)
  {
    var records := Parse(MOUNT_FIELDS, s, 0).records;
    assert |EncodeMount(NO_MOUNT)| == 0;
    hide Parse, EncodeMount, MergeMount;
    var fs := ParseSound(MOUNT_FIELDS, s, 0);
    assert s[0..] == s;
    MergeCost(NO_MOUNT, fs);
    KnownInRange(MOUNT_FIELDS, s);
    MergeMountMeaning(NO_MOUNT, records);
    assert m.unrecognized == [] + UnknownBytes(records) == UnknownBytes(records);
    KeptIsComplete(MOUNT_FIELDS, s);
    MountRoundTrip(m);
  }

  // ---------------------------------------------------------------- the smaller request

  lemma {:induction false} MergeUnmountUnknown(m: Unmount, records: seq<Record>)
    requires AllUnknown(records)
    ensures MergeUnmount(m, records) == m.(unrecognized := m.unrecognized + UnknownBytes(records))
    decreases |records|
  {
    if records == [] {
      assert m.unrecognized + [] == m.unrecognized;
    } else {
      MergeUnmountUnknown(ApplyUnmount(m, records[0]), records[1..]);
      Append3(m.unrecognized, records[0].bytes, UnknownBytes(records[1..]));
    }
  }

  lemma MergeUnmountDriveID(id: Bytes)
    ensures MergeUnmount(NO_UNMOUNT, OptionalRecord(UNMOUNT_FIELDS, 1, id)) == Unmount(id, [])
  {
    assert [Known(1, id)][1..] == [];
  }

  /** An encoded mount request, read by a program that only knows field 1. */
  lemma MountReadAsUnmount(m: Mount)
    requires |EncodeMount(m)| <= MAX_INT && CompleteUnknown(UNMOUNT_FIELDS, m.unrecognized)
    ensures DecodeUnmount(NO_UNMOUNT, EncodeMount(m))
         == (Unmount(m.driveID, EncodeMount(m.(driveID := []))), Success)
  {
    hide Parse, OptionalRecord, RepeatedRecords, StringBytes, CompleteUnknown;
    CompleteIffKept(UNMOUNT_FIELDS, m.unrecognized);
    var q := Parse(UNMOUNT_FIELDS, m.unrecognized, 0).records;
    var r1 := OptionalRecord(UNMOUNT_FIELDS, 1, m.driveID);
    var others := m.(driveID := []);
    ParseEncodedMount(UNMOUNT_FIELDS, m);
    var r := OtherRecords(m);
    assert MountRecords(UNMOUNT_FIELDS, m) == r1 + r;
    assert r1 + r + q == r1 + (r + q);
    MergeUnmountDriveID(m.driveID);
    MergeUnmountAppend(NO_UNMOUNT, r1, r + q);
    UnknownOfOthers(m, q);
    MergeUnmountUnknown(Unmount(m.driveID, []), r + q);
    var kept := UnknownBytes(r + q);
    assert [] + kept == kept;
  }

  function OtherRecords(m: Mount): seq<Record> {
    OptionalRecord(UNMOUNT_FIELDS, 2, m.destinationPath) +
    (OptionalRecord(UNMOUNT_FIELDS, 3, m.filesystemType) + RepeatedRecords(UNMOUNT_FIELDS, 4, m.options))
  }

  lemma {:induction false} UnknownBytesAppend(a: seq<Record>, b: seq<Record>)
    ensures UnknownBytes(a + b) == UnknownBytes(a) + UnknownBytes(b)
  {
    if a == [] {
      assert a + b == b;
    } else {
      assert (a + b)[1..] == a[1..] + b;
      UnknownBytesAppend(a[1..], b);
    }
  }

  lemma OptionalUnknown(num: nat, text: Bytes)
    requires 2 <= num <= MOUNT_FIELDS
    ensures AllUnknown(OptionalRecord(UNMOUNT_FIELDS, num, text))
    ensures UnknownBytes(OptionalRecord(UNMOUNT_FIELDS, num, text)) == OptionalBytes(num, text)
  {
    var r := Unknown(StringBytes(num, text));
    assert [r][1..] == [];
    assert UnknownBytes([r]) == r.bytes + [];
  }

  lemma {:induction false} RepeatedUnknown(texts: seq<Bytes>)
    ensures AllUnknown(RepeatedRecords(UNMOUNT_FIELDS, 4, texts))
    ensures UnknownBytes(RepeatedRecords(UNMOUNT_FIELDS, 4, texts)) == RepeatedBytes(4, texts)
  {
    if texts != [] {
      assert RepeatedRecords(UNMOUNT_FIELDS, 4, texts)[1..] == RepeatedRecords(UNMOUNT_FIELDS, 4, texts[1..]);
      RepeatedUnknown(texts[1..]);
    }
  }

  /** Fields 2 to 4 and the unrecognized bytes go through the skipper unchanged and in order. */
  lemma UnknownOfOthers(m: Mount, q: seq<Record>)
    requires AllUnknown(q) && |m.unrecognized| <= MAX_INT
    requires Parse(UNMOUNT_FIELDS, m.unrecognized, 0) == Parsed(q, Success)
    ensures AllUnknown(OtherRecords(m) + q)
    ensures UnknownBytes(OtherRecords(m) + q) == EncodeMount(m.(driveID := []))
  {
    hide Parse, OptionalRecord, RepeatedRecords, RepeatedBytes, UnknownBytes;
    var r2 := OptionalRecord(UNMOUNT_FIELDS, 2, m.destinationPath);
    var r3 := OptionalRecord(UNMOUNT_FIELDS, 3, m.filesystemType);
    var r4 := RepeatedRecords(UNMOUNT_FIELDS, 4, m.options);
    var fs := ParseSound(UNMOUNT_FIELDS, m.unrecognized, 0);
    assert m.unrecognized[0..] == m.unrecognized;
    UnknownBytesOf(UNMOUNT_FIELDS, fs);
    OptionalUnknown(2, m.destinationPath);
    OptionalUnknown(3, m.filesystemType);
    RepeatedUnknown(m.options);
    assert OtherRecords(m) + q == r2 + (r3 + (r4 + q));
    UnknownBytesAppend(r2, r3 + (r4 + q));
    UnknownBytesAppend(r3, r4 + q);
    UnknownBytesAppend(r4, q);
    assert EncodeMount(m.(driveID := [])) ==
      OptionalBytes(2, m.destinationPath) +
      (OptionalBytes(3, m.filesystemType) + (RepeatedBytes(4, m.options) + m.unrecognized));
  }

  lemma {:induction false} AboveFewer(fs: Fields)
    requires AllAbove(MOUNT_FIELDS, fs)
    ensures AllAbove(UNMOUNT_FIELDS, fs)
  {
    match fs
    case Nil =>
    case Cons(f, rest) => AboveFewer(rest);
  }

  lemma CompleteForFewer(u: Bytes)
    requires CompleteUnknown(MOUNT_FIELDS, u)
    ensures CompleteUnknown(UNMOUNT_FIELDS, u)
  {
    var fs :| AllAbove(MOUNT_FIELDS, fs) && FieldsBytes(fs) == u;
    AboveFewer(fs);
  }

  /** A mount request passes through a program that only knows unmount requests byte for byte. */
  lemma ForwardCompatible(m: Mount)
    requires |EncodeMount(m)| <= MAX_INT && CompleteUnknown(MOUNT_FIELDS, m.unrecognized)
    ensures DecodeUnmount(NO_UNMOUNT, EncodeMount(m)).1 == Success
    ensures EncodeUnmount(DecodeUnmount(NO_UNMOUNT, EncodeMount(m)).0) == EncodeMount(m)
  {
    hide Parse, DecodeUnmount, CompleteUnknown;
    CompleteForFewer(m.unrecognized);
    MountReadAsUnmount(m);
    hide StringBytes, RepeatedBytes;
    var rest := EncodeMount(m.(driveID := []));
    assert OptionalBytes(1, []) == [];
    assert EncodeMount(m) == OptionalBytes(1, m.driveID) + rest;
  }

  /** An unmount request is encoded like a mount request that only has a drive ID. */
  lemma UnmountAsMount(m: Unmount)
    ensures EncodeUnmount(m) == EncodeMount(Mount(m.driveID, [], [], [], m.unrecognized))
  {
    hide StringBytes;
  }

  lemma UnmountRoundTrip(m: Unmount)
    requires |EncodeUnmount(m)| <= MAX_INT
    ensures DecodeUnmount(NO_UNMOUNT, EncodeUnmount(m)) == (m, Success)
       <==> CompleteUnknown(UNMOUNT_FIELDS, m.unrecognized)
  {
    var mount := Mount(m.driveID, [], [], [], m.unrecognized);
    var r1 := OptionalRecord(UNMOUNT_FIELDS, 1, m.driveID);
    var q := Parse(UNMOUNT_FIELDS, m.unrecognized, 0);
    assert MountRecords(UNMOUNT_FIELDS, mount) == r1;
    CompleteIffKept(UNMOUNT_FIELDS, m.unrecognized);
    hide Parse, MountRecords, MergeUnmount, EncodeMount, EncodeUnmount, CompleteUnknown;
    UnmountAsMount(m);
    ParseEncodedMount(UNMOUNT_FIELDS, mount);
    if q.outcome == Success {
      var fs := ParseSound(UNMOUNT_FIELDS, m.unrecognized, 0);
      assert m.unrecognized[0..] == m.unrecognized;
      UnknownBytesOf(UNMOUNT_FIELDS, fs);
      MergeUnmountDriveID(m.driveID);
      MergeUnmountAppend(NO_UNMOUNT, r1, q.records);
      KnownInRange(UNMOUNT_FIELDS, m.unrecognized);
      MergeUnmountMeaning(Unmount(m.driveID, []), q.records);
      assert [] + UnknownBytes(q.records) == UnknownBytes(q.records);
      if AllUnknown(q.records) {
        MergeUnmountUnknown(Unmount(m.driveID, []), q.records);
      }
    }
  }

  /** Decoding one field lengthens the unmount request's own encoding by no more than that field, either. */
  lemma ApplyUnmountCost(m: Unmount, f: Field)
    requires Accepted(UNMOUNT_FIELDS, f)
    ensures |EncodeUnmount(ApplyUnmount(m, RecordOf(UNMOUNT_FIELDS, f)))| <= |EncodeUnmount(m)| + |FieldBytes(f)|
  {
    hide StringBytes;
    if FieldNum(f) <= UNMOUNT_FIELDS {
      StringNoLonger(f, FieldNum(f));
    }
  }

  lemma {:induction false} MergeUnmountCost(m: Unmount, fs: Fields)
    requires AllAccepted(UNMOUNT_FIELDS, fs)
    ensures |EncodeUnmount(MergeUnmount(m, RecordsOf(UNMOUNT_FIELDS, fs)))| <= |EncodeUnmount(m)| + |FieldsBytes(fs)|
    decreases fs
  {
    hide EncodeUnmount;
    match fs
    case Nil =>
    case Cons(f, rest) =>
      ApplyUnmountCost(m, f);
      MergeUnmountCost(ApplyUnmount(m, RecordOf(UNMOUNT_FIELDS, f)), rest);
      assert RecordsOf(UNMOUNT_FIELDS, fs)[1..] == RecordsOf(UNMOUNT_FIELDS, rest);
  }

  /** Whatever bytes an unmount request was decoded from, re-encoding it is no longer and decodes to it again. */
  lemma UnmountCanonical(s: Bytes, m: Unmount)
    requires |s| <= MAX_INT && DecodeUnmount(NO_UNMOUNT, s) == (m, Success)
    ensures |EncodeUnmount(m)| <= |s|
    ensures DecodeUnmount(NO_UNMOUNT, EncodeUnmount(m)) == (m, Success)
  {
    var records := Parse(UNMOUNT_FIELDS, s, 0).records;
    assert |EncodeUnmount(NO_UNMOUNT)| == 0;
    hide Parse, EncodeUnmount, MergeUnmount;
    var fs := ParseSound(UNMOUNT_FIELDS, s, 0);
    assert s[0..] == s;
    MergeUnmountCost(NO_UNMOUNT, fs);
    KnownInRange(UNMOUNT_FIELDS, s);
    MergeUnmountMeaning(NO_UNMOUNT, records);
    assert m.unrecognized == [] + UnknownBytes(records) == UnknownBytes(records);
    KeptIsComplete(UNMOUNT_FIELDS, s);
    UnmountRoundTrip(m);
  }

  // ---------------------------------------------------------------- the order of an encoding

  /** Known fields by number, lowest first, and then the others. */
  ghost predicate Ascending(records: seq<Record>) {
    forall i, j :: 0 <= i < j < |records| && records[j].Known? ==>
      records[i].Known? && records[i].num <= records[j].num
  }

  /** A request is encoded with its fields in ascending order, the unrecognized ones last. */
  lemma EncodingAscending(m: Mount)
    requires |EncodeMount(m)| <= MAX_INT && CompleteUnknown(MOUNT_FIELDS, m.unrecognized)
    ensures Ascending(Parse(MOUNT_FIELDS, EncodeMount(m), 0).records)
  {
    CompleteIffKept(MOUNT_FIELDS, m.unrecognized);
    hide Parse, EncodeMount, CompleteUnknown, AllUnknown, Ascending, MountRecords;
    ParseEncodedMount(MOUNT_FIELDS, m);
    var q := Parse(MOUNT_FIELDS, m.unrecognized, 0).records;
    OwnAscending(m);
    var own := MountRecords(MOUNT_FIELDS, m);
    AscendingThen(own, q);
  }

  lemma AscendingThen(own: seq<Record>, others: seq<Record>)
    requires Ascending(own) && AllUnknown(others) && forall i :: 0 <= i < |own| ==> own[i].Known?
    ensures Ascending(own + others)
  {
  }

  lemma OwnAscending(m: Mount)
    ensures var own := MountRecords(MOUNT_FIELDS, m);
            Ascending(own) && forall i :: 0 <= i < |own| ==> own[i].Known?
  {
  }

  lemma OptionsExample()
    ensures RepeatedBytes(4, [[], [100]]) == [0x22, 0, 0x22, 1, 100]
  {
    assert [[], [100]][1..] == [[100]] && [[100]][1..] == [];
    assert StringBytes(4, []) == [0x22, 0] && StringBytes(4, [100]) == [0x22, 1, 100];
  }

  lemma StringsExample()
    ensures OptionalBytes(1, [97]) == [0x0A, 1, 97] && OptionalBytes(2, [98, 98]) == [0x12, 2, 98, 98]
    ensures OptionalBytes(3, [99]) == [0x1A, 1, 99]
  {
  }

  /** The bytes of a small request: the tags are 0x0A, 0x12, 0x1A and 0x22. */
  lemma EncodingExample()
    ensures EncodeMount(Mount([97], [98, 98], [99], [[], [100]], [0x28, 7]))
         == [0x0A, 1, 97, 0x12, 2, 98, 98, 0x1A, 1, 99, 0x22, 0, 0x22, 1, 100, 0x28, 7]
    ensures EncodeUnmount(Unmount([97], [0x12, 0])) == [0x0A, 1, 97, 0x12, 0]
  {
    hide OptionalBytes, RepeatedBytes;
    OptionsExample();
    StringsExample();
  }

  // ---------------------------------------------------------------- requests that are cut off

  /** A request that ends inside a field fails with an unexpected end and keeps what was decoded before. */
  lemma DecodeMountTruncated(m: Mount, fs: Fields, f: Field, p: Bytes)
    requires AllAccepted(MOUNT_FIELDS, fs) && Accepted(MOUNT_FIELDS, f) && IsCutField(f, p)
    requires |FieldsBytes(fs)| + |FieldBytes(f)| <= MAX_INT
    ensures DecodeMount(m, FieldsBytes(fs) + p)
         == (MergeMount(m, RecordsOf(MOUNT_FIELDS, fs)), Failure(UnexpectedEOF))
  {
    ParseTruncated(MOUNT_FIELDS, fs, f, p);
  }

  lemma DecodeUnmountTruncated(m: Unmount, fs: Fields, f: Field, p: Bytes)
    requires AllAccepted(UNMOUNT_FIELDS, fs) && Accepted(UNMOUNT_FIELDS, f) && IsCutField(f, p)
    requires |FieldsBytes(fs)| + |FieldBytes(f)| <= MAX_INT
    ensures DecodeUnmount(m, FieldsBytes(fs) + p)
         == (MergeUnmount(m, RecordsOf(UNMOUNT_FIELDS, fs)), Failure(UnexpectedEOF))
  {
    ParseTruncated(UNMOUNT_FIELDS, fs, f, p);
  }
}
