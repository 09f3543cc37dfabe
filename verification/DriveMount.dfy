/** The generated request types: fields assigned by decoding, buffers written from the end by encoding. */
module DriveMount {
  import opened Machine
  import opened Varint
  import opened Wire
  import opened Records
  import opened Messages

  // ---------------------------------------------------------------- writing backwards

  /** Progress from the end: `text` is written from `i` on, and before `i` the buffer is as it was. */
  ghost predicate Written(buffer: array<Byte>, before: Bytes, i: nat, text: Bytes)
    reads buffer
  {
    && |before| == buffer.Length && i <= buffer.Length
    && buffer[i..] == text && buffer[..i] == before[..i]
  }

  method WriteBytes(buffer: array<Byte>, i: nat, text: Bytes, ghost before: Bytes, ghost after: Bytes)
    returns (j: nat)
    requires |text| <= i && Written(buffer, before, i, after)
    modifies buffer
    ensures j == i - |text| && Written(buffer, before, j, text + after)
  {
    j := i - |text|;
    forall k | 0 <= k < |text| {
      buffer[j + k] := text[k];
    }
    assert buffer[j..] == text + buffer[i..];
    assert buffer[..j] == before[..i][..j];
  }

  method WriteTag(buffer: array<Byte>, i: nat, tag: Byte, ghost before: Bytes, ghost after: Bytes)
    returns (j: nat)
    requires 1 <= i && Written(buffer, before, i, after)
    modifies buffer
    ensures j == i - 1 && Written(buffer, before, j, [tag] + after)
  {
    j := i - 1;
    buffer[j] := tag;
    assert buffer[j..] == [tag] + buffer[i..];
    assert buffer[..j] == before[..i][..j];
  }

  method WriteLength(buffer: array<Byte>, i: nat, length: UInt64, ghost before: Bytes, ghost after: Bytes)
    returns (j: nat)
    requires |EncodeVarint(length)| <= i && Written(buffer, before, i, after)
    modifies buffer
    ensures j == i - |EncodeVarint(length)| && Written(buffer, before, j, EncodeVarint(length) + after)
  {
    hide EncodeVarint;
    j := WriteVarint(buffer, i, length);
    assert buffer[j..] == buffer[j..i] + buffer[i..];
    assert buffer[..j] == before[..i][..j];
  }

  /** A string field: the bytes, then their length before them, then the tag before that. */
  method WriteString(buffer: array<Byte>, i: nat, num: nat, text: Bytes,
                     ghost before: Bytes, ghost after: Bytes)
    returns (j: nat)
    requires num <= MOUNT_FIELDS && |text| <= MAX_INT && |StringBytes(num, text)| <= i
    requires Written(buffer, before, i, after)
    modifies buffer
    ensures j == i - |StringBytes(num, text)| && Written(buffer, before, j, StringBytes(num, text) + after)
  {
    hide EncodeVarint, Written;
    ghost var length := EncodeVarint(|text|);
    Append4([num * 8 + 2], length, text, after);
    j := WriteBytes(buffer, i, text, before, after);
    j := WriteLength(buffer, j, |text|, before, text + after);
    j := WriteTag(buffer, j, num * 8 + 2, before, length + (text + after));
  }

  method WriteOptional(buffer: array<Byte>, i: nat, num: nat, text: Bytes,
                       ghost before: Bytes, ghost after: Bytes)
    returns (j: nat)
    requires num <= MOUNT_FIELDS && |text| <= MAX_INT && |OptionalBytes(num, text)| <= i
    requires Written(buffer, before, i, after)
    modifies buffer
    ensures j == i - |OptionalBytes(num, text)| && Written(buffer, before, j, OptionalBytes(num, text) + after)
  {
    hide StringBytes, Written;
    j := i;
    if |text| > 0 {
      j := WriteString(buffer, i, num, text, before, after);
    } else {
      assert [] + after == after;
    }
  }

  lemma RepeatedSplit(texts: seq<Bytes>, k: nat)
    requires k < |texts|
    ensures RepeatedBytes(4, texts[k..]) == StringBytes(4, texts[k]) + RepeatedBytes(4, texts[k + 1..])
  {
    assert texts[k..][1..] == texts[k + 1..];
  }

  lemma {:induction false} RepeatedTailFits(texts: seq<Bytes>, k: nat)
    requires k <= |texts|
    ensures |RepeatedBytes(4, texts[k..])| <= |RepeatedBytes(4, texts)|
  {
    hide StringBytes;
    if k == 0 {
      assert texts[0..] == texts;
    } else {
      RepeatedSplit(texts, k - 1);
      RepeatedTailFits(texts, k - 1);
    }
  }

  lemma StringFits(num: nat, text: Bytes)
    requires num <= MOUNT_FIELDS
    ensures |text| < |StringBytes(num, text)|
  {
  }

  method WriteRepeated(buffer: array<Byte>, i: nat, texts: seq<Bytes>,
                       ghost before: Bytes, ghost after: Bytes)
    returns (j: nat)
    requires |RepeatedBytes(4, texts)| <= i <= MAX_INT && Written(buffer, before, i, after)
    modifies buffer
    ensures j == i - |RepeatedBytes(4, texts)| && Written(buffer, before, j, RepeatedBytes(4, texts) + after)
  {
    hide StringBytes, RepeatedBytes, Written;
    j := i;
    NoRepeats(texts[|texts|..]);
    assert [] + after == after;
    for k := |texts| downto 0
      invariant j == i - |RepeatedBytes(4, texts[k..])|
      invariant Written(buffer, before, j, RepeatedBytes(4, texts[k..]) + after)
    {
      RepeatedSplit(texts, k);
      RepeatedTailFits(texts, k);
      StringFits(4, texts[k]);
      ghost var tail := RepeatedBytes(4, texts[k + 1..]);
      Append3(StringBytes(4, texts[k]), tail, after);
      j := WriteString(buffer, j, 4, texts[k], before, tail + after);
    }
    assert texts[0..] == texts;
  }

  lemma NoRepeats(texts: seq<Bytes>)
    requires texts == []
    ensures RepeatedBytes(4, texts) == []
  {
  }

  /** The size of a string field by the size formula. */
  method SizeString(num: nat, text: Bytes) returns (n: nat)
    requires num <= MOUNT_FIELDS && |text| <= MAX_INT
    ensures n == |StringBytes(num, text)|
  {
    SovIsLength(|text|);
    n := 1 + |text| + Sov(|text|);
  }

  method SizeOptional(num: nat, text: Bytes) returns (n: nat)
    requires num <= MOUNT_FIELDS && |text| <= MAX_INT
    ensures n == |OptionalBytes(num, text)|
  {
    n := 0;
    if |text| > 0 {
      n := SizeString(num, text);
    }
  }

  // ---------------------------------------------------------------- MountDriveRequest

  class MountDriveRequest {
    var driveID: Bytes
    var destinationPath: Bytes
    var filesystemType: Bytes
    var options: seq<Bytes>
    var unrecognized: Bytes

    ghost function Value(): Mount
      reads this
    {
      Mount(driveID, destinationPath, filesystemType, options, unrecognized)
    }

    /** A request that fits in a Go slice once encoded. */
    ghost predicate Encodable()
      reads this
    {
      |EncodeMount(Value())| <= MAX_INT
    }

    constructor ()
      ensures Value() == NO_MOUNT
    {
      driveID, destinationPath, filesystemType, options, unrecognized := [], [], [], [], [];
    }

    lemma PartsFit()
      ensures |driveID| <= |EncodeMount(Value())| && |destinationPath| <= |EncodeMount(Value())|
      ensures |filesystemType| <= |EncodeMount(Value())|
      ensures |RepeatedBytes(4, options)| <= |EncodeMount(Value())|
    {
      hide StringBytes;
      StringFits(1, driveID);
      StringFits(2, destinationPath);
      StringFits(3, filesystemType);
    }

    method Size() returns (n: nat)
      requires Encodable()
      ensures n == |EncodeMount(Value())|
    {
      hide OptionalBytes, RepeatedBytes, StringBytes;
      PartsFit();
      var l := SizeOptional(1, driveID);
      n := l;
      l := SizeOptional(2, destinationPath);
      n := n + l;
      l := SizeOptional(3, filesystemType);
      n := n + l;
      ghost var singular := n;
      NoRepeats(options[|options|..]);
      var seen := 0;
      assert options[0..] == options;
      while seen < |options|
        invariant seen <= |options|
        invariant n + |RepeatedBytes(4, options[seen..])| == singular + |RepeatedBytes(4, options)|
      {
        RepeatedSplit(options, seen);
        RepeatedTailFits(options, seen);
        StringFits(4, options[seen]);
        l := SizeString(4, options[seen]);
        n := n + l;
        seen := seen + 1;
      }
      n := n + |unrecognized|;
    }

    /** On any buffer that is large enough, writes the encoding at the end and nothing before it. */
    method MarshalToSizedBuffer(buffer: array<Byte>) returns (n: nat)
      requires |EncodeMount(Value())| <= buffer.Length <= MAX_INT
      modifies buffer
      ensures n == |EncodeMount(Value())|
      ensures Written(buffer, old(buffer[..]), buffer.Length - n, EncodeMount(Value()))
    {
      hide OptionalBytes, RepeatedBytes, StringBytes;
      PartsFit();
      ghost var before := buffer[..];
      ghost var text4 := RepeatedBytes(4, options) + unrecognized;
      ghost var text3 := OptionalBytes(3, filesystemType) + text4;
      ghost var text2 := OptionalBytes(2, destinationPath) + text3;
      var i := buffer.Length;
      assert Written(buffer, before, i, []);
      hide Written;
      i := WriteBytes(buffer, i, unrecognized, before, []);
      assert unrecognized + [] == unrecognized;
      i := WriteRepeated(buffer, i, options, before, unrecognized);
      i := WriteOptional(buffer, i, 3, filesystemType, before, text4);
      i := WriteOptional(buffer, i, 2, destinationPath, before, text3);
      i := WriteOptional(buffer, i, 1, driveID, before, text2);
      n := buffer.Length - i;
    }

    /** On a buffer of exactly `Size` bytes nothing is left in front. */
    method Marshal() returns (data: array<Byte>)
      requires Encodable()
      ensures fresh(data) && data[..] == EncodeMount(Value())
    {
      var size := Size();
      data := new Byte[size];
      var n := MarshalToSizedBuffer(data);
      assert data.Length - n == 0;
      assert data[0..] == data[..];
    }

    /** Decodes into this message: what was decoded before an error stays. */
    method Unmarshal(data: Bytes) returns (outcome: Outcome)
      requires |data| <= MAX_INT
      modifies this
      ensures (Value(), outcome) == DecodeMount(old(Value()), data)
    {
      hide NextRecord;
      ghost var m := Value();
      ghost var done: seq<Record> := [];
      var i := 0;
      while i < |data|
        invariant i <= |data|
        invariant var rest := Parse(MOUNT_FIELDS, data, i);
                  Parse(MOUNT_FIELDS, data, 0) == Parsed(done + rest.records, rest.outcome)
        invariant Value() == MergeMount(m, done)
      {
        var next := PassRecord(MOUNT_FIELDS, data, i);
        if next.Err? {
          assert done + [] == done;
          return Failure(next.error);
        }
        var (record, at) := next.value;
        MergeMountSnoc(m, done, record);
        assert done + ([record] + Parse(MOUNT_FIELDS, data, at).records)
            == done + [record] + Parse(MOUNT_FIELDS, data, at).records;
        match record {
          case Unknown(bytes) => unrecognized := unrecognized + bytes;
          case Known(num, text) =>
            match num {
              case 1 => driveID := text;
              case 2 => destinationPath := text;
              case 3 => filesystemType := text;
              case _ => options := options + [text];
            }
        }
        done := done + [record];
        i := at;
      }
      assert i == |data|; // so the bounds check after the loop never fails
      assert done + [] == done;
      outcome := Success;
    }
  }

  // ---------------------------------------------------------------- UnmountDriveRequest

  class UnmountDriveRequest {
    var driveID: Bytes
    var unrecognized: Bytes

    ghost function Value(): Unmount
      reads this
    {
      Unmount(driveID, unrecognized)
    }

    constructor ()
      ensures Value() == NO_UNMOUNT
    {
      driveID, unrecognized := [], [];
    }

    lemma PartsFit()
      ensures |driveID| <= |EncodeUnmount(Value())|
    {
      hide StringBytes;
      StringFits(1, driveID);
    }

    method Size() returns (n: nat)
      requires |EncodeUnmount(Value())| <= MAX_INT
      ensures n == |EncodeUnmount(Value())|
    {
      PartsFit();
      n := SizeOptional(1, driveID);
      n := n + |unrecognized|;
    }

    method MarshalToSizedBuffer(buffer: array<Byte>) returns (n: nat)
      requires |EncodeUnmount(Value())| <= buffer.Length <= MAX_INT
      modifies buffer
      ensures n == |EncodeUnmount(Value())|
      ensures Written(buffer, old(buffer[..]), buffer.Length - n, EncodeUnmount(Value()))
    {
      hide OptionalBytes;
      PartsFit();
      ghost var before := buffer[..];
      var i := buffer.Length;
      assert Written(buffer, before, i, []);
      hide Written;
      i := WriteBytes(buffer, i, unrecognized, before, []);
      assert unrecognized + [] == unrecognized;
      i := WriteOptional(buffer, i, 1, driveID, before, unrecognized);
      n := buffer.Length - i;
    }

    method Marshal() returns (data: array<Byte>)
      requires |EncodeUnmount(Value())| <= MAX_INT
      ensures fresh(data) && data[..] == EncodeUnmount(Value())
    {
      var size := Size();
      data := new Byte[size];
      var n := MarshalToSizedBuffer(data);
      assert data.Length - n == 0;
      assert data[0..] == data[..];
    }

    method Unmarshal(data: Bytes) returns (outcome: Outcome)
      requires |data| <= MAX_INT
      modifies this
      ensures (Value(), outcome) == DecodeUnmount(old(Value()), data)
    {
      hide NextRecord;
      ghost var m := Value();
      ghost var done: seq<Record> := [];
      var i := 0;
      while i < |data|
        invariant i <= |data|
        invariant var rest := Parse(UNMOUNT_FIELDS, data, i);
                  Parse(UNMOUNT_FIELDS, data, 0) == Parsed(done + rest.records, rest.outcome)
        invariant Value() == MergeUnmount(m, done)
      {
        var next := PassRecord(UNMOUNT_FIELDS, data, i);
        if next.Err? {
          assert done + [] == done;
          return Failure(next.error);
        }
        var (record, at) := next.value;
        MergeUnmountAppend(m, done, [record]);
        assert [record][1..] == [];
        assert done + ([record] + Parse(UNMOUNT_FIELDS, data, at).records)
            == done + [record] + Parse(UNMOUNT_FIELDS, data, at).records;
        match record {
          case Unknown(bytes) => unrecognized := unrecognized + bytes;
          case Known(_, text) => driveID := text;
        }
        done := done + [record];
        i := at;
      }
      assert i == |data|; // so the bounds check after the loop never fails
      assert done + [] == done;
      outcome := Success;
    }
  }
}
