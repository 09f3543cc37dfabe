/** The content of a stub drive file: magic bytes, a length, a drive ID. */
module StubContent {
  import opened Machine
  import opened Options

  const MAGIC: Bytes := [214, 244, 216, 245, 215, 177, 177, 177]
  const MAX_ID := 0xFF

  /** The character verb on a one-byte number: its UTF-8 encoding (section 3 of RFC 3629). */
  function Utf8(n: Byte): Bytes {
    if n < 0x80 then [n] else [0xC0 + n / 64, 0x80 + n % 64]
  }

  /** `GenerateStubContent`: nothing for an ID that is too long. */
  function Generate(id: Bytes): Option<Bytes> {
    if |id| > MAX_ID then None else Some(MAGIC + Utf8(|id|) + id)
  }

  function Zeroes(n: nat): Bytes { seq(n, _ => 0) }

  /** Up to `n` bytes read into a zeroed buffer of `n`; nothing at the end of the input or for `n == 0`. */
  function ReadInto(s: Bytes, n: nat): Option<Bytes> {
    if n == 0 || s == [] then None
    else if |s| >= n then Some(s[..n])
    else Some(s + Zeroes(n - |s|))
  }

  function After(s: Bytes, n: nat): Bytes {
    if |s| >= n then s[n..] else []
  }

  /** What `ParseStubContent` returns for an input: the magic bytes are passed over, not compared. */
  function Parse(s: Bytes): Option<Bytes> {
    if s == [] then None else
      match ReadInto(After(s, |MAGIC|), 1)
      case None => None
      case Some(size) => ReadInto(After(s, |MAGIC| + 1), size[0])
  }

  /** What `IsStubDrive` returns for an input. */
  predicate IsStub(s: Bytes) { MAGIC <= s }

  // ---------------------------------------------------------------- reading

  /** A reader that delivers all the bytes asked for as long as there are any. */
  class Reader {
    const content: Bytes
    var pos: nat

    ghost predicate Valid()
      reads this
    {
      pos <= |content|
    }

    ghost function Rest(): Bytes
      requires Valid()
      reads this
    {
      content[pos..]
    }

    constructor (content: Bytes)
      ensures Valid() && Rest() == content
    {
      this.content := content;
      pos := 0;
    }

    /** One `Read` of a buffer of `limit` bytes through a `LimitReader` of `limit`. */
    method ReadLimited(limit: nat) returns (buffer: Option<Bytes>, n: nat)
      requires Valid()
      modifies this
      ensures Valid() && Rest() == After(old(Rest()), limit)
      ensures buffer == ReadInto(old(Rest()), limit)
      ensures buffer.Some? ==> n == if |old(Rest())| < limit then |old(Rest())| else limit
    {
      ghost var rest := Rest();
      if limit == 0 || pos == |content| {
        assert limit > 0 ==> rest == [];
        return None, 0;
      }
      n := if |content| - pos < limit then |content| - pos else limit;
      var read := content[pos..pos + n];
      assert read == rest[..n];
      buffer := Some(read + Zeroes(limit - n));
      if n == limit {
        assert read + Zeroes(0) == read;
      } else {
        assert read == rest;
      }
      pos := pos + n;
    }
  }

  method IsStubDrive(r: Reader) returns (stub: bool)
    requires r.Valid()
    modifies r
    ensures r.Valid() && stub == IsStub(old(r.Rest()))
    ensures stub <==> |old(r.Rest())| >= 8 && old(r.Rest())[..8] == [214, 244, 216, 245, 215, 177, 177, 177]
  {
    var buffer, n := r.ReadLimited(|MAGIC|);
    if buffer.None? {
      return false;
    }
    if n != |MAGIC| {
      return false;
    }
    return buffer.value[..n] == MAGIC;
  }

  method ParseStubContent(r: Reader) returns (id: Option<Bytes>)
    requires r.Valid()
    modifies r
    ensures r.Valid() && id == Parse(old(r.Rest()))
  {
    ghost var s := r.Rest();
    var magicBytes, _ := r.ReadLimited(|MAGIC|);
    if magicBytes.None? {
      return None;
    }
    var sizeByte, _ := r.ReadLimited(1);
    if sizeByte.None? {
      return None;
    }
    assert After(After(s, |MAGIC|), 1) == After(s, |MAGIC| + 1);
    var idBytes, _ := r.ReadLimited(sizeByte.value[0]);
    id := idBytes;
  }

  // ---------------------------------------------------------------- what the bytes mean

  /** A stub starts with these eight bytes, and nothing else is one. */
  lemma StubBytes(s: Bytes)
    ensures IsStub(s) <==> |s| >= 8 && s[..8] == [214, 244, 216, 245, 215, 177, 177, 177]
  {
  }

  /** The ID in the bytes of a stub: as many bytes as the ninth one says, zeroes where there are none. */
  function IDIn(s: Bytes): Bytes
    requires |s| > 9
  {
    seq(s[8], i requires 0 <= i < s[8] => if 9 + i < |s| then s[9 + i] else 0)
  }

  /** Parsing fails exactly on inputs without a length, with the length zero, or with nothing after it. */
  lemma ParseMeaning(s: Bytes)
    ensures Parse(s).Some? <==> |s| > 9 && s[8] != 0
    ensures Parse(s).Some? ==> Parse(s).value == IDIn(s)
  {
    if |s| > 9 {
      assert After(s, 8)[..1] == [s[8]];
      assert ReadInto(After(s, 8), 1) == Some([s[8]]);
      assert forall i :: 0 <= i < |s| - 9 ==> After(s, 9)[i] == s[9 + i];
      if s[8] != 0 { assert ReadInto(After(s, 9), s[8]).value == IDIn(s); }
    }
  }

  /** The bytes of a generated stub: the magic ones, the length as a character, and the ID. */
  lemma GenerateMeaning(id: Bytes)
    ensures Generate(id).Some? <==> |id| <= 255
    ensures |id| <= 255 ==>
              Generate(id).value == [214, 244, 216, 245, 215, 177, 177, 177]
                + (if |id| < 128 then [|id|] else [192 + |id| / 64, 128 + |id| % 64]) + id
  {
  }

  // ---------------------------------------------------------------- round trip

  /** Every generated stub is recognised, whatever follows it. */
  lemma GeneratedIsStub(id: Bytes, pad: Bytes)
    requires |id| <= MAX_ID
    ensures IsStub(Generate(id).value + pad)
  {
  }

  lemma ParseOneByteLength(id: Bytes, pad: Bytes)
    requires |id| < 0x80
    ensures Parse(Generate(id).value + pad) == if id == [] then None else Some(id)
  {
    var s := Generate(id).value + pad;
    assert s[8] == |id|;
    assert After(s, |MAGIC| + 1) == id + pad;
    assert After(s, |MAGIC|)[..1] == [|id|];
    if id != [] { assert (id + pad)[..|id|] == id; }
  }

  /** From 128 on the length takes two bytes: the first is read as the length, the second as part of the ID. */
  lemma ParseTwoByteLength(id: Bytes, pad: Bytes)
    requires 0x80 <= |id| <= MAX_ID
    ensures var length := 0xC0 + |id| / 64;
            Parse(Generate(id).value + pad) == ReadInto([0x80 + |id| % 64] + (id + pad), length)
  {
    var s := Generate(id).value + pad;
    assert s[8] == 0xC0 + |id| / 64;
    assert After(s, |MAGIC| + 1) == [0x80 + |id| % 64] + (id + pad);
    assert After(s, |MAGIC|)[..1] == [0xC0 + |id| / 64];
  }

  /** The one long ID that the two-byte length leaves intact. */
  function Coincidence(): Bytes { seq(195, _ => 0x83) }

  lemma {:induction false} ShiftedConstant(id: Bytes, c: Byte, k: nat)
    requires k < |id| && id[0] == c && forall i :: 1 <= i < |id| ==> id[i] == id[i - 1]
    ensures id[k] == c
  {
    if k > 0 { ShiftedConstant(id, c, k - 1); }
  }

  lemma ShiftedEqual(id: Bytes, pad: Bytes)
    requires |id| == 195
    ensures ([0x83] + (id + pad))[..195] == id <==> id == Coincidence()
  {
    var shifted := ([0x83] + (id + pad))[..195];
    assert shifted[0] == 0x83;
    assert forall i :: 1 <= i < 195 ==> shifted[i] == id[i - 1];
    if shifted == id {
      assert forall i :: 1 <= i < |id| ==> id[i] == id[i - 1];
      forall k | 0 <= k < |id| ensures id[k] == 0x83 {
        ShiftedConstant(id, 0x83, k);
      }
    }
  }

  /** Exactly the IDs of 1 to 127 bytes survive a stub, and one of 195 bytes that is its own shift. */
  lemma StubRoundTrip(id: Bytes, pad: Bytes)
    requires |id| <= MAX_ID
    ensures Parse(Generate(id).value + pad) == Some(id) <==> 1 <= |id| <= 127 || id == Coincidence()
  {
    if |id| < 0x80 {
      ParseOneByteLength(id, pad);
    } else {
      ParseTwoByteLength(id, pad);
      var length := 0xC0 + |id| / 64;
      var read := ReadInto([0x80 + |id| % 64] + (id + pad), length);
      assert |read.value| == length;
      if |id| == 195 {
        ShiftedEqual(id, pad);
      }
    }
  }
}
