/** The wire grammar of fields, and the skipper that recognises one field with a depth counter. */
module Wire {
  import opened Machine
  import opened Varint

  // ---------------------------------------------------------------- the grammar

  /** One complete field, as written. Tags and lengths are any complete varints, not only shortest ones. */
  datatype Field =
    | Scalar(tag: Bytes, value: Bytes)
    | Fixed(tag: Bytes, value: Bytes)
    | Delimited(tag: Bytes, length: Bytes, payload: Bytes)
    | Group(tag: Bytes, members: Fields, close: Bytes)

  datatype Fields = Nil | Cons(head: Field, tail: Fields)

  function WireType(tag: Bytes): nat {
    VarintValue(tag) % 8
  }

  ghost predicate ValidField(f: Field) {
    && IsVarint(f.tag)
    && match f
       case Scalar(tag, value) => WireType(tag) == 0 && IsVarint(value)
       case Fixed(tag, value) =>
         || (WireType(tag) == 1 && |value| == 8)
         || (WireType(tag) == 5 && |value| == 4)
       case Delimited(tag, length, payload) =>
         WireType(tag) == 2 && IsVarint(length) && VarintValue(length) == |payload|
       case Group(tag, members, close) =>
         WireType(tag) == 3 && ValidFields(members) && IsVarint(close) && WireType(close) == 4
  }

  ghost predicate ValidFields(fs: Fields) {
    match fs
    case Nil => true
    case Cons(f, rest) => ValidField(f) && ValidFields(rest)
  }

  function FieldBytes(f: Field): Bytes {
    match f
    case Scalar(tag, value) => tag + value
    case Fixed(tag, value) => tag + value
    case Delimited(tag, length, payload) => tag + length + payload
    case Group(tag, members, close) => tag + FieldsBytes(members) + close
  }

  function FieldsBytes(fs: Fields): Bytes {
    match fs
    case Nil => []
    case Cons(f, rest) => FieldBytes(f) + FieldsBytes(rest)
  }

  // ---------------------------------------------------------------- the skipper's steps

  datatype Token = Leaf | Open | Close

  /** The rest of a token whose tag ended at index `j`, and the index after it. */
  function TokenBody(s: Bytes, j: nat, wireType: nat): (r: Result<(Token, int)>)
    requires j <= |s| <= MAX_INT
    ensures r.Ok? ==> r.value.1 < 0 || j <= r.value.1 <= MAX_INT
  {
    match wireType
    case 0 =>
      var k :- ScanVarint(s[j..], 0);
      Ok((Leaf, j + k))
    case 1 => Ok((Leaf, Wrap64(j + 8)))
    case 2 =>
      var (length, k) :- ReadVarint(s[j..]);
      if Wrap64(length) < 0 then Err(InvalidLength) else Ok((Leaf, Wrap64(j + k + length)))
    case 3 => Ok((Open, j))
    case 4 => Ok((Close, j))
    case 5 => Ok((Leaf, Wrap64(j + 4)))
    case _ => Err(IllegalWireType(wireType))
  }

  /** The token at index `i` and the index after it, which may lie past the end or have wrapped around. */
  function NextToken(s: Bytes, i: nat): (r: Result<(Token, int)>)
    requires i < |s| <= MAX_INT
    ensures r.Ok? ==> r.value.1 < 0 || i < r.value.1 <= MAX_INT
  {
    var (wire, n) :- ReadVarint(s[i..]);
    TokenBody(s, i + n, wire % 8)
  }

  function DepthAfter(token: Token, depth: nat): nat
    requires token == Close ==> depth > 0
  {
    match token
    case Leaf => depth
    case Open => depth + 1
    case Close => depth - 1
  }

  /** What the skipper does from index `i` with `depth` groups open: it returns as soon as none is. */
  function SkipFrom(s: Bytes, i: nat, depth: nat): (r: Result<nat>)
    requires |s| <= MAX_INT
    ensures r.Ok? ==> i < r.value <= MAX_INT
    decreases |s| - i
  {
    if i >= |s| then Err(UnexpectedEOF) else
      var (token, next) :- NextToken(s, i);
      if token == Close && depth == 0 then Err(UnexpectedEndOfGroup)
      else if next < 0 then Err(InvalidLength)
      else if DepthAfter(token, depth) == 0 then Ok(next)
      else SkipFrom(s, next, DepthAfter(token, depth))
  }

  function Skip(s: Bytes): (r: Result<nat>)
    requires |s| <= MAX_INT
    ensures r.Ok? ==> 0 < r.value <= MAX_INT
  {
    SkipFrom(s, 0, 0)
  }

  /** What remains to be done at index `n`. */
  function Resume(s: Bytes, n: nat, depth: nat): Result<nat>
    requires |s| <= MAX_INT
  {
    if depth == 0 then Ok(n) else SkipFrom(s, n, depth)
  }

  // ---------------------------------------------------------------- fields are skipped exactly

  lemma OpenStep(s: Bytes, i: nat, tag: Bytes, r: Bytes, depth: nat)
    requires i < |s| <= MAX_INT && s[i..] == tag + r && IsVarint(tag) && WireType(tag) == 3
    ensures SkipFrom(s, i, depth) == SkipFrom(s, i + |tag|, depth + 1)
  {
    TagThen(s, i, tag, r);
    assert NextToken(s, i) == Ok((Open, i + |tag|));
  }

  lemma CloseStep(s: Bytes, i: nat, tag: Bytes, r: Bytes, depth: nat)
    requires i < |s| <= MAX_INT && s[i..] == tag + r && IsVarint(tag) && WireType(tag) == 4
    ensures SkipFrom(s, i, depth + 1) == Resume(s, i + |tag|, depth)
  {
    TagThen(s, i, tag, r);
    assert NextToken(s, i) == Ok((Close, i + |tag|));
  }

  lemma LeafStep(s: Bytes, i: nat, f: Field, r: Bytes, depth: nat)
    requires i < |s| <= MAX_INT && s[i..] == FieldBytes(f) + r
    requires ValidField(f) && !f.Group?
    ensures SkipFrom(s, i, depth) == Resume(s, i + |FieldBytes(f)|, depth)
  {
    hide TokenBody, FieldBytes;
    var body := LeafSplit(f, r);
    TagThen(s, i, f.tag, body + r);
    LeafBody(s, i + |f.tag|, f, body, r);
    assert NextToken(s, i) == Ok((Leaf, i + |FieldBytes(f)|));
  }

  lemma LeafSplit(f: Field, r: Bytes) returns (body: Bytes)
    requires !f.Group?
    ensures FieldBytes(f) == f.tag + body && FieldBytes(f) + r == f.tag + (body + r)
  {
    body := FieldBytes(f)[|f.tag|..];
  }

  lemma LeafBody(s: Bytes, j: nat, f: Field, body: Bytes, r: Bytes)
    requires ValidField(f) && !f.Group? && FieldBytes(f) == f.tag + body
    requires j <= |s| <= MAX_INT && s[j..] == body + r
    ensures TokenBody(s, j, WireType(f.tag)) == Ok((Leaf, j + |body|))
  {
    hide ScanVarint, RawValue, ReadVarint, IsVarint;
    assert |body| == |FieldBytes(f)| - |f.tag|;
    match f
    case Scalar(tag, value) =>
      assert body == value by { SuffixParts(f.tag + body, |tag|, value, []); }
      assert (value + r)[..|value|] == value;
      VarintSize(value);
      ScanOfVarint(value + r, 0, |value|);
    case Fixed(tag, value) =>
    case Delimited(tag, length, payload) =>
      assert body == (length + payload) by {
        assert f.tag + body == tag + (length + payload);
        assert (f.tag + body)[|tag|..] == body;
      }
      assert s[j..] == length + (payload + r);
      ReadVarintAppend(length, payload + r);
  }

  lemma TagThen(s: Bytes, i: nat, tag: Bytes, body: Bytes)
    requires i <= |s| && s[i..] == tag + body && IsVarint(tag)
    ensures ReadVarint(s[i..]) == Ok((VarintValue(tag), |tag|)) && s[i + |tag|..] == body
    ensures i + |tag| + |body| == |s|
  {
    ReadVarintAppend(tag, body);
    SuffixParts(s, i, tag, body);
  }

  lemma {:induction false} SkipField(s: Bytes, i: nat, f: Field, r: Bytes, depth: nat)
    requires i < |s| <= MAX_INT && s[i..] == FieldBytes(f) + r
    requires ValidField(f)
    ensures SkipFrom(s, i, depth) == Resume(s, i + |FieldBytes(f)|, depth)
    decreases f, 1
  {
    hide SkipFrom, NextToken, ReadVarint;
    match f
    case Group(tag, members, close) =>
      GroupSplit(tag, FieldsBytes(members), close, r);
      SkipGroup(s, i, tag, members, FieldsBytes(members), close, r, depth);
    case _ => LeafStep(s, i, f, r, depth);
  }

  lemma GroupSplit(tag: Bytes, inner: Bytes, close: Bytes, r: Bytes)
    ensures tag + inner + close + r == tag + (inner + (close + r))
  {
  }

  lemma {:induction false} SkipGroup(
    s: Bytes, i: nat, tag: Bytes, members: Fields, inner: Bytes, close: Bytes, r: Bytes, depth: nat)
    requires IsVarint(tag) && WireType(tag) == 3 && IsVarint(close) && WireType(close) == 4
    requires ValidFields(members) && inner == FieldsBytes(members)
    requires i < |s| <= MAX_INT && s[i..] == tag + (inner + (close + r))
    ensures SkipFrom(s, i, depth) == Resume(s, i + |tag| + |inner| + |close|, depth)
    decreases members, 1
  {
    hide SkipFrom, NextToken;
    var last := close + r;
    var j := i + |tag|;
    var k := j + |inner|;
    SuffixParts(s, i, tag, inner + last);
    SuffixParts(s, j, inner, last);
    OpenStep(s, i, tag, inner + last, depth);
    SkipFields(s, j, members, inner, last, depth + 1);
    CloseStep(s, k, close, r, depth);
  }

  lemma {:induction false} SkipFields(s: Bytes, i: nat, fs: Fields, b: Bytes, r: Bytes, depth: nat)
    requires ValidFields(fs) && b == FieldsBytes(fs)
    requires i <= |s| <= MAX_INT && s[i..] == b + r && depth > 0
    ensures SkipFrom(s, i, depth) == SkipFrom(s, i + |b|, depth)
    decreases fs, 0
  {
    hide SkipFrom, NextToken;
    match fs
    case Nil =>
    case Cons(f, rest) =>
      var a, c := FieldBytes(f), FieldsBytes(rest);
      FieldNonEmpty(f);
      Append3(a, c, r);
      SuffixParts(s, i, a, c + r);
      SkipField(s, i, f, c + r, depth);
      SkipFields(s, i + |a|, rest, c, r, depth);
  }

  lemma FieldNonEmpty(f: Field)
    requires ValidField(f)
    ensures |FieldBytes(f)| > 0
  {
  }

  lemma Append3(a: Bytes, b: Bytes, c: Bytes)
    ensures a + b + c == a + (b + c)
  {
  }

  /** Every complete field is skipped exactly, whatever bytes follow it. */
  lemma SkipExact(f: Field, r: Bytes)
    requires ValidField(f) && |FieldBytes(f) + r| <= MAX_INT
    ensures Skip(FieldBytes(f) + r) == Ok(|FieldBytes(f)|)
  {
    hide SkipFrom;
    FieldNonEmpty(f);
    SkipField(FieldBytes(f) + r, 0, f, r, 0);
  }

  // ---------------------------------------------------------------- only fields are skipped

  lemma TokenLeaf(s: Bytes, i: nat, n: nat) returns (f: Field)
    requires i < |s| <= MAX_INT && n <= |s|
    requires NextToken(s, i) == Ok((Leaf, n))
    ensures ValidField(f) && i < n && s[i..n] == FieldBytes(f)
  {
    var wire, j, tag := TagAt(s, i);
    var body := s[j..n];
    assert TokenBody(s, j, wire % 8) == Ok((Leaf, n));
    f := BodyLeaf(s, j, n, tag);
    assert s[i..n] == tag + body;
  }

  lemma BodyLeaf(s: Bytes, j: nat, n: nat, tag: Bytes) returns (f: Field)
    requires j <= |s| <= MAX_INT && n <= |s| && IsVarint(tag)
    requires TokenBody(s, j, WireType(tag)) == Ok((Leaf, n))
    ensures ValidField(f) && j <= n && FieldBytes(f) == tag + s[j..n]
  {
    hide ScanVarint, RawValue, ReadVarint;
    match WireType(tag)
    case 0 =>
      var k := ScanVarint(s[j..], 0).value;
      ScanIsVarint(s[j..], 0, k);
      assert s[j..][..k] == s[j..n];
      f := Scalar(tag, s[j..n]);
    case 2 =>
      var length, k, digits := TagAt(s, j);
      f := Delimited(tag, digits, s[k..n]);
      assert s[j..n] == digits + s[k..n];
    case _ =>
      f := Fixed(tag, s[j..n]);
  }

  lemma TagAt(s: Bytes, i: nat) returns (wire: UInt64, j: nat, tag: Bytes)
    requires i <= |s| && ReadVarint(s[i..]).Ok?
    ensures ReadVarint(s[i..]) == Ok((wire, j - i)) && i < j <= |s|
    ensures tag == s[i..j] && IsVarint(tag) && VarintValue(tag) == wire
  {
    var (v, t) := ReadVarint(s[i..]).value;
    wire, j := v, i + t;
    ReadVarintIff(s[i..], wire, t);
    tag := s[i..j];
    assert s[i..][..t] == tag;
  }

  lemma TokenTag(s: Bytes, i: nat, n: int) returns (tag: Bytes)
    requires i < |s| <= MAX_INT
    requires NextToken(s, i) == Ok((Open, n)) || NextToken(s, i) == Ok((Close, n))
    ensures i < n <= |s| && tag == s[i..n] && IsVarint(tag)
    ensures WireType(tag) == if NextToken(s, i) == Ok((Open, n)) then 3 else 4
  {
    var wire, j, t := TagAt(s, i);
    tag := t;
  }

  /** Closing several groups is closing the innermost one and then the others. */
  lemma {:induction false} CloseInnermost(s: Bytes, i: nat, depth: nat, n: nat) returns (m: nat)
    requires |s| <= MAX_INT && depth >= 2
    requires SkipFrom(s, i, depth) == Ok(n) && n <= |s|
    ensures i < m < n && SkipFrom(s, i, 1) == Ok(m) && SkipFrom(s, m, depth - 1) == Ok(n)
    decreases |s| - i
  {
    hide NextToken;
    var (token, next) := NextToken(s, i).value;
    match token
    case Leaf => m := CloseInnermost(s, next, depth, n);
    case Close => m := next;
    case Open =>
      var p := CloseInnermost(s, next, depth + 1, n);
      m := CloseInnermost(s, p, depth, n);
      CloseJoin(s, next, p, m);
  }

  /** Conversely, two closings in a row close two levels. */
  lemma {:induction false} CloseJoin(s: Bytes, i: nat, p: nat, m: nat)
    requires |s| <= MAX_INT
    requires SkipFrom(s, i, 1) == Ok(p) && SkipFrom(s, p, 1) == Ok(m)
    ensures SkipFrom(s, i, 2) == Ok(m)
    decreases |s| - i
  {
    CloseJoinAt(s, i, p, 1, m);
  }

  lemma {:induction false} CloseJoinAt(s: Bytes, i: nat, p: nat, depth: nat, m: nat)
    requires |s| <= MAX_INT && depth >= 1
    requires SkipFrom(s, i, depth) == Ok(p) && SkipFrom(s, p, 1) == Ok(m)
    ensures SkipFrom(s, i, depth + 1) == Ok(m)
    decreases |s| - i
  {
    hide NextToken;
    var (token, next) := NextToken(s, i).value;
    var d := DepthAfter(token, depth);
    if d > 0 { CloseJoinAt(s, next, p, d, m); }
  }

  lemma {:induction false} SkippedMembers(s: Bytes, i: nat, n: nat) returns (fs: Fields, close: Bytes)
    requires |s| <= MAX_INT && SkipFrom(s, i, 1) == Ok(n) && n <= |s|
    ensures i < n && ValidFields(fs) && IsVarint(close) && WireType(close) == 4
    ensures s[i..n] == FieldsBytes(fs) + close
    decreases n - i, 1
  {
    var (token, next) := NextToken(s, i).value;
    if token == Close {
      close := TokenTag(s, i, next);
      fs := Nil;
    } else {
      var head, m := SkippedMember(s, i, n);
      var tail, end := SkippedMembers(s, m, n);
      fs, close := Cons(head, tail), end;
      ConsSplit(s, i, m, n, head, tail, end);
    }
  }

  lemma ConsSplit(s: Bytes, i: nat, m: nat, n: nat, head: Field, tail: Fields, end: Bytes)
    requires i <= m <= n <= |s|
    requires s[i..m] == FieldBytes(head) && s[m..n] == FieldsBytes(tail) + end
    ensures s[i..n] == FieldsBytes(Cons(head, tail)) + end
  {
    assert s[i..n] == s[i..m] + s[m..n];
  }

  lemma {:induction false} SkippedMember(s: Bytes, i: nat, n: nat) returns (f: Field, m: nat)
    requires i < |s| <= MAX_INT && SkipFrom(s, i, 1) == Ok(n) && n <= |s|
    requires NextToken(s, i).value.0 != Close
    ensures i < m < n && SkipFrom(s, m, 1) == Ok(n)
    ensures ValidField(f) && s[i..m] == FieldBytes(f)
    decreases n - i, 0
  {
    var (token, next) := NextToken(s, i).value;
    m := next;
    if token == Leaf {
      f := TokenLeaf(s, i, next);
    } else {
      m := CloseInnermost(s, next, 2, n);
      f := SkippedGroup(s, i, next, m);
    }
  }

  lemma {:induction false} SkippedGroup(s: Bytes, i: nat, next: nat, m: nat) returns (f: Field)
    requires i < |s| <= MAX_INT && NextToken(s, i) == Ok((Open, next))
    requires SkipFrom(s, next, 1) == Ok(m) && m <= |s|
    ensures i < m && ValidField(f) && s[i..m] == FieldBytes(f)
    decreases m - i, 0
  {
    hide SkipFrom, NextToken, VarintValue;
    var tag := TokenTag(s, i, next);
    var members, close := SkippedMembers(s, next, m);
    f := Group(tag, members, close);
    assert s[i..m] == s[i..next] + s[next..m];
  }

  /** Whatever the skipper accepts within its input is one complete field. */
  lemma SkipSound(s: Bytes, n: nat) returns (f: Field)
    requires |s| <= MAX_INT && Skip(s) == Ok(n) && n <= |s|
    ensures ValidField(f) && s[..n] == FieldBytes(f)
  {
    var (token, next) := NextToken(s, 0).value;
    assert Skip(s) == Resume(s, next, DepthAfter(token, 0));
    if token == Leaf {
      f := TokenLeaf(s, 0, next);
    } else {
      f := SkippedGroup(s, 0, next, n);
    }
    assert s[0..n] == s[..n];
  }

  /** The depth counter refines the recursive grammar: both directions. */
  lemma SkipIffField(s: Bytes, n: nat)
    requires |s| <= MAX_INT && n <= |s|
    ensures Skip(s) == Ok(n) <==> exists f :: ValidField(f) && FieldBytes(f) == s[..n]
  {
    if Skip(s) == Ok(n) {
      var f := SkipSound(s, n);
    }
    if f :| ValidField(f) && FieldBytes(f) == s[..n] {
      assert s == FieldBytes(f) + s[n..];
      SkipExact(f, s[n..]);
    }
  }

  // ---------------------------------------------------------------- fields that are cut off

  /** A nonempty beginning of a field, but not all of it. */
  ghost predicate IsCutField(f: Field, p: Bytes) {
    ValidField(f) && p != [] && p <= FieldBytes(f) && p != FieldBytes(f)
  }

  /** The input ends inside the tag, or after it. */
  lemma CutTag(s: Bytes, i: nat, tag: Bytes, body: Bytes) returns (q: Bytes)
    requires i <= |s| && IsVarint(tag) && s[i..] <= tag + body && s[i..] != tag + body
    ensures |s[i..]| < |tag| ==> ReadVarint(s[i..]) == Err(UnexpectedEOF)
    ensures |s[i..]| >= |tag| ==>
              && s[i..] == tag + q && q <= body && q != body
              && ReadVarint(s[i..]) == Ok((VarintValue(tag), |tag|)) && s[i + |tag|..] == q
  {
    var p := s[i..];
    q := [];
    if |p| < |tag| {
      assert p == tag[..|p|];
      CutVarint(tag, p);
    } else {
      q := p[|tag|..];
      assert p == tag + q;
      assert q == body[..|q|];
      TagThen(s, i, tag, q);
    }
  }

  /** The rest of a cut leaf either ends too early or promises more than there is. */
  lemma CutBody(s: Bytes, j: nat, f: Field, body: Bytes)
    requires ValidField(f) && !f.Group? && FieldBytes(f) == f.tag + body
    requires j <= |s| && s[j..] <= body && s[j..] != body && j + |body| <= MAX_INT
    ensures var r := TokenBody(s, j, WireType(f.tag));
            r == Err(UnexpectedEOF) || (r.Ok? && r.value.0 == Leaf && |s| < r.value.1 <= j + |body|)
  {
    hide ScanVarint, RawValue, ReadVarint, IsVarint;
    assert |body| == |FieldBytes(f)| - |f.tag|;
    match f
    case Scalar(tag, value) =>
      assert body == value by { assert (tag + body)[|tag|..] == body; }
      CutVarint(value, s[j..]);
    case Fixed(tag, value) =>
    case Delimited(tag, length, payload) =>
      assert body == length + payload by {
        assert tag + body == tag + (length + payload);
        assert (tag + body)[|tag|..] == body;
      }
      var q := CutTag(s, j, length, payload);
  }

  lemma CutLeaf(s: Bytes, i: nat, f: Field)
    requires i < |s| && IsCutField(f, s[i..]) && !f.Group? && i + |FieldBytes(f)| <= MAX_INT
    ensures var r := NextToken(s, i);
            r == Err(UnexpectedEOF) || (r.Ok? && r.value.0 == Leaf && |s| < r.value.1 <= i + |FieldBytes(f)|)
  {
    hide TokenBody, FieldBytes, ReadVarint;
    var body := LeafSplit(f, []);
    assert |s| <= i + |FieldBytes(f)|;
    var q := CutTag(s, i, f.tag, body);
    if |s[i..]| >= |f.tag| {
      CutBody(s, i + |f.tag|, f, body);
    }
  }

  /** Skipping a cut field fails, or, for an outermost leaf, gives a length past the end. */
  lemma {:induction false} SkipCutField(s: Bytes, i: nat, f: Field, depth: nat)
    requires i < |s| && IsCutField(f, s[i..]) && i + |FieldBytes(f)| <= MAX_INT
    ensures |s| <= MAX_INT
    ensures var r := SkipFrom(s, i, depth);
            r == Err(UnexpectedEOF) || (depth == 0 && r.Ok? && |s| < r.value <= i + |FieldBytes(f)|)
    decreases f, 1
  {
    hide NextToken;
    assert |s[i..]| <= |FieldBytes(f)|;
    match f
    case Group(tag, members, close) =>
      var inner := FieldsBytes(members);
      assert FieldBytes(f) == tag + (inner + close);
      SkipCutGroup(s, i, tag, members, inner, close, depth);
    case _ =>
      CutLeaf(s, i, f);
  }

  lemma {:induction false} SkipCutGroup(
    s: Bytes, i: nat, tag: Bytes, members: Fields, inner: Bytes, close: Bytes, depth: nat)
    requires IsVarint(tag) && WireType(tag) == 3 && IsVarint(close) && WireType(close) == 4
    requires ValidFields(members) && inner == FieldsBytes(members)
    requires i < |s| <= MAX_INT && s[i..] <= tag + (inner + close) && s[i..] != tag + (inner + close)
    requires i + |tag| + |inner| + |close| <= MAX_INT
    ensures SkipFrom(s, i, depth) == Err(UnexpectedEOF)
    decreases members, 1
  {
    hide NextToken, SkipFrom;
    var q := CutTag(s, i, tag, inner + close);
    if |s[i..]| < |tag| {
      CutToken(s, i, depth);
    } else {
      OpenStep(s, i, tag, q, depth);
      SkipCutInner(s, i + |tag|, members, inner, close, depth + 1);
    }
  }

  lemma {:induction false} SkipCutInner(s: Bytes, j: nat, members: Fields, inner: Bytes, close: Bytes, depth: nat)
    requires IsVarint(close) && ValidFields(members) && inner == FieldsBytes(members) && depth > 0
    requires j <= |s| <= MAX_INT && s[j..] <= inner + close && s[j..] != inner + close
    requires j + |inner| + |close| <= MAX_INT
    ensures SkipFrom(s, j, depth) == Err(UnexpectedEOF)
    decreases members, 0, 1
  {
    hide NextToken, SkipFrom, ReadVarint, IsVarint, FieldsBytes;
    var q := s[j..];
    if |q| < |inner| {
      assert q == inner[..|q|];
      SkipCutFields(s, j, members, inner, depth);
    } else {
      var last := q[|inner|..];
      assert q == inner + last;
      assert last == close[..|last|];
      SkipFields(s, j, members, inner, last, depth);
      SuffixParts(s, j, inner, last);
      CutVarint(close, last);
      CutToken(s, j + |inner|, depth);
    }
  }

  lemma CutToken(s: Bytes, i: nat, depth: nat)
    requires i <= |s| <= MAX_INT && (i < |s| ==> ReadVarint(s[i..]) == Err(UnexpectedEOF))
    ensures SkipFrom(s, i, depth) == Err(UnexpectedEOF)
  {
  }

  lemma {:induction false} SkipCutFields(s: Bytes, i: nat, fs: Fields, b: Bytes, depth: nat)
    requires ValidFields(fs) && b == FieldsBytes(fs) && depth > 0
    requires i <= |s| <= MAX_INT && s[i..] <= b && s[i..] != b && i + |b| <= MAX_INT
    ensures SkipFrom(s, i, depth) == Err(UnexpectedEOF)
    decreases fs, 0, 0
  {
    hide NextToken, SkipFrom, ReadVarint;
    var q := s[i..];
    if q == [] {
      CutToken(s, i, depth);
    } else {
      match fs
      case Cons(f, rest) =>
        var a, c := FieldBytes(f), FieldsBytes(rest);
        if |q| < |a| {
          assert q == a[..|q|];
          SkipCutField(s, i, f, depth);
        } else {
          var r := q[|a|..];
          assert q == a + r;
          assert r == c[..|r|];
          SkipField(s, i, f, r, depth);
          SuffixParts(s, i, a, r);
          SkipCutFields(s, i + |a|, rest, c, depth);
        }
    }
  }

  // ---------------------------------------------------------------- tokens that are rejected

  /** A varint that is cut off or too long, with any number of groups open. */
  lemma RejectedVarint(s: Bytes, i: nat, depth: nat, tag: Bytes, r: Bytes)
    requires i < |s| <= MAX_INT
    ensures IsCut(s[i..]) ==> SkipFrom(s, i, depth) == Err(UnexpectedEOF)
    ensures IsOverlong(s[i..]) ==> SkipFrom(s, i, depth) == Err(IntOverflow)
    ensures s[i..] == tag + r && IsVarint(tag) && WireType(tag) in [0, 2] ==>
              && (IsCut(r) ==> SkipFrom(s, i, depth) == Err(UnexpectedEOF))
              && (IsOverlong(r) ==> SkipFrom(s, i, depth) == Err(IntOverflow))
  {
    hide ReadVarint, ScanVarint;
    ReadVarintErrors(s[i..]);
    ReadVarintErrors(r);
    ScanErrors(r, 0);
    if s[i..] == tag + r && IsVarint(tag) { TagThen(s, i, tag, r); }
  }

  /** A wire type that does not exist, and the end of a group that was not opened. */
  lemma RejectedWireType(s: Bytes, i: nat, depth: nat, tag: Bytes, r: Bytes)
    requires i < |s| <= MAX_INT && s[i..] == tag + r && IsVarint(tag)
    ensures WireType(tag) >= 6 ==> SkipFrom(s, i, depth) == Err(IllegalWireType(WireType(tag)))
    ensures WireType(tag) == 4 && depth == 0 ==> SkipFrom(s, i, depth) == Err(UnexpectedEndOfGroup)
  {
    hide ReadVarint;
    TagThen(s, i, tag, r);
  }

  /** A length that leads past the largest `int`, or past the end of the input. */
  lemma SkippedLength(s: Bytes, i: nat, depth: nat, tag: Bytes, length: Bytes, r: Bytes)
    requires i < |s| <= MAX_INT && s[i..] == tag + (length + r)
    requires IsVarint(tag) && WireType(tag) == 2 && IsVarint(length)
    ensures var end := i + |tag| + |length| + VarintValue(length);
            && (end >= 0x8000_0000_0000_0000 ==> SkipFrom(s, i, depth) == Err(InvalidLength))
            && (|s| <= end < 0x8000_0000_0000_0000 ==>
                  SkipFrom(s, i, depth) == if depth == 0 then Ok(end) else Err(UnexpectedEOF))
  {
    hide ReadVarint, IsVarint, VarintValue;
    TagThen(s, i, tag, length + r);
    TagThen(s, i + |tag|, length, r);
  }

  // ---------------------------------------------------------------- the loops

  /** The loop that passes over a varint without keeping its value. */
  method PassVarint(data: Bytes, start: nat) returns (r: Result<nat>)
    requires start <= |data|
    ensures r == match ScanVarint(data[start..], 0) case Err(e) => Err(e) case Ok(n) => Ok(start + n)
  {
    var i, shift := start, 0;
    ghost var k := 0;
    while true
      invariant 0 <= k <= MAX_GROUPS && shift == 7 * k && i == start + k <= |data|
      invariant ScanVarint(data[start..], 0) == ScanVarint(data[start..], k)
      decreases MAX_GROUPS - k
    {
      if shift >= 64 {
        return Err(IntOverflow);
      }
      if i >= |data| {
        return Err(UnexpectedEOF);
      }
      i := i + 1;
      if data[i - 1] < 0x80 {
        return Ok(i);
      }
      shift := shift + 7;
      k := k + 1;
    }
  }

  /** The body of the wire-type switch: the token and the index after it. */
  method PassToken(data: Bytes, i: nat) returns (r: Result<(Token, int)>)
    requires i < |data| <= MAX_INT
    ensures r == NextToken(data, i)
  {
    var tag := DecodeVarint(data, i);
    if tag.Err? {
      return Err(tag.error);
    }
    var (wire, at) := tag.value;
    match wire % 8 {
      case 0 =>
        var passed := PassVarint(data, at);
        return if passed.Err? then Err(passed.error) else Ok((Leaf, passed.value));
      case 1 =>
        return Ok((Leaf, Wrap64(at + 8)));
      case 2 =>
        var length := DecodeVarint(data, at);
        if length.Err? {
          return Err(length.error);
        }
        if Wrap64(length.value.0) < 0 {
          return Err(InvalidLength);
        }
        return Ok((Leaf, Wrap64(length.value.1 + length.value.0)));
      case 3 =>
        return Ok((Open, at));
      case 4 =>
        return Ok((Close, at));
      case 5 =>
        return Ok((Leaf, Wrap64(at + 4)));
      case _ =>
        return Err(IllegalWireType(wire % 8));
    }
  }

  /** `skipDrivemount`: the length of the field at the start of `data`, which may lie past its end. */
  method SkipDrivemount(data: Bytes) returns (r: Result<nat>)
    requires |data| <= MAX_INT
    ensures r == Skip(data)
  {
    var i, depth := 0, 0;
    while i < |data|
      invariant SkipFrom(data, i, depth) == Skip(data)
      decreases |data| - i
    {
      var step := PassToken(data, i);
      if step.Err? {
        return Err(step.error);
      }
      var (token, next) := step.value;
      match token {
        case Leaf =>
        case Open =>
          depth := depth + 1;
        case Close =>
          if depth == 0 {
            return Err(UnexpectedEndOfGroup);
          }
          depth := depth - 1;
      }
      if next < 0 {
        return Err(InvalidLength);
      }
      if depth == 0 {
        return Ok(next);
      }
      i := next;
    }
    r := Err(UnexpectedEOF);
  }
}
