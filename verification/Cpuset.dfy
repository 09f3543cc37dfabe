/** The cpuset builder, and its output read back by the list format of cpuset(7). */
module Cpuset {
  import opened Options
  import opened Text

  datatype Range = Range(min: int, max: int) {
    function String(): string { Itoa(min) + "-" + Itoa(max) }
  }

  datatype CPUSet = CPUSet(cpus: string, mems: string)

  /** The numbers from `low` to `high`. */
  function Interval(low: int, high: int): (r: set<int>)
    ensures forall n :: n in r <==> low <= n <= high
    decreases high - low
  {
    if low > high then {} else {low} + Interval(low + 1, high)
  }

  // ---------------------------------------------------------------- the list format

  /** One item: a number, or two numbers in ascending order with a hyphen, in ASCII decimal. */
  function ParseItem(s: string): Option<set<int>> {
    var parts := Split(s, '-');
    if |parts| == 1 && IsDecimal(parts[0]) then Some({DecimalValue(parts[0])})
    else if |parts| == 2 && IsDecimal(parts[0]) && IsDecimal(parts[1])
            && DecimalValue(parts[0]) <= DecimalValue(parts[1])
    then Some(Interval(DecimalValue(parts[0]), DecimalValue(parts[1])))
    else None
  }

  function ParseItems(items: seq<string>): Option<set<int>> {
    if items == [] then Some({}) else
      match (ParseItem(items[0]), ParseItems(items[1..]))
      case (Some(a), Some(b)) => Some(a + b)
      case _ => None
  }

  /** A comma-separated list of numbers and ranges; the empty string is the empty set. */
  function ParseList(s: string): Option<set<int>> {
    if s == "" then Some({}) else ParseItems(Split(s, ','))
  }

  // ---------------------------------------------------------------- what was added

  function Elements(elems: seq<int>): (r: set<int>)
    ensures forall n :: n in r <==> n in elems
  {
    set e | e in elems
  }

  function Ranges(ranges: seq<Range>): (r: set<int>)
    ensures forall n :: n in r <==> exists i :: 0 <= i < |ranges| && ranges[i].min <= n <= ranges[i].max
  {
    if ranges == [] then {}
    else
      var rest := Ranges(ranges[1..]);
      assert ranges == [ranges[0]] + ranges[1..];
      Interval(ranges[0].min, ranges[0].max) + rest
  }

  /** What a cpuset list can express: no negative numbers, and ranges in ascending order. */
  ghost predicate Expressible(elems: seq<int>, ranges: seq<Range>) {
    && (forall i :: 0 <= i < |elems| ==> elems[i] >= 0)
    && (forall i :: 0 <= i < |ranges| ==> 0 <= ranges[i].min <= ranges[i].max)
  }

  // ---------------------------------------------------------------- what is printed

  function ElemStrings(elems: seq<int>): seq<string> {
    if elems == [] then [] else [Itoa(elems[0])] + ElemStrings(elems[1..])
  }

  function RangeStrings(ranges: seq<Range>): seq<string> {
    if ranges == [] then [] else [ranges[0].String()] + RangeStrings(ranges[1..])
  }

  function Stringify(elems: seq<int>, ranges: seq<Range>): string {
    Join(ElemStrings(elems) + RangeStrings(ranges), ',')
  }

  lemma DecimalLacks(n: nat, c: char)
    requires !IsDigit(c)
    ensures c !in Decimal(n) && IsDecimal(Decimal(n)) && DecimalValue(Decimal(n)) == n
  {
    DecimalRoundTrip(n);
  }

  /** A printed number splits at its sign only. */
  lemma SplitItoa(n: int)
    ensures Split(Itoa(n), '-') == if n < 0 then ["", Decimal(-n)] else [Decimal(n)]
    ensures ',' !in Itoa(n)
  {
    var d := Decimal(if n < 0 then -n else n);
    DecimalLacks(if n < 0 then -n else n, '-');
    DecimalLacks(if n < 0 then -n else n, ',');
    SplitNone(d, '-');
    if n < 0 {
      SplitFirst("", d, '-');
      assert "" + ['-'] + d == "-" + d;
    }
  }

  lemma ParseElem(n: int)
    ensures ParseItem(Itoa(n)) == if n >= 0 then Some({n}) else None
    ensures ',' !in Itoa(n)
  {
    SplitItoa(n);
    if n >= 0 { DecimalRoundTrip(n); }
  }

  lemma ParseRange(r: Range)
    ensures ParseItem(r.String()) == if 0 <= r.min <= r.max then Some(Interval(r.min, r.max)) else None
    ensures ',' !in r.String()
  {
    SplitItoa(r.min);
    SplitItoa(r.max);
    SplitAppend(Itoa(r.min), Itoa(r.max), '-');
    if r.min >= 0 { DecimalRoundTrip(r.min); }
    if r.max >= 0 { DecimalRoundTrip(r.max); }
  }

  lemma {:induction false} ParseRanges(ranges: seq<Range>)
    ensures ParseItems(RangeStrings(ranges))
         == if Expressible([], ranges) then Some(Ranges(ranges)) else None
    ensures Free(RangeStrings(ranges), ',')
  {
    hide Expressible, ParseItem, Interval, Range.String;
    if ranges != [] {
      ParseRange(ranges[0]);
      ParseRanges(ranges[1..]);
      assert RangeStrings(ranges)[1..] == RangeStrings(ranges[1..]);
    }
    ExpressibleRanges(ranges);
  }

  lemma ExpressibleRanges(ranges: seq<Range>)
    ensures Expressible([], ranges) <==>
            ranges == [] || (0 <= ranges[0].min <= ranges[0].max && Expressible([], ranges[1..]))
  {
    if ranges != [] {
      assert ranges == [ranges[0]] + ranges[1..];
      assert forall i :: 0 <= i < |ranges[1..]| ==> ranges[1..][i] == ranges[i + 1];
    }
  }

  lemma ExpressibleCons(elems: seq<int>, ranges: seq<Range>)
    requires elems != []
    ensures Expressible(elems, ranges) <==> elems[0] >= 0 && Expressible(elems[1..], ranges)
    ensures Elements(elems) + Ranges(ranges) == {elems[0]} + (Elements(elems[1..]) + Ranges(ranges))
  {
    assert elems == [elems[0]] + elems[1..];
    assert forall i :: 0 <= i < |elems[1..]| ==> elems[1..][i] == elems[i + 1];
  }

  lemma {:induction false} ParseAll(elems: seq<int>, ranges: seq<Range>)
    ensures ParseItems(ElemStrings(elems) + RangeStrings(ranges))
         == if Expressible(elems, ranges) then Some(Elements(elems) + Ranges(ranges)) else None
    ensures Free(ElemStrings(elems) + RangeStrings(ranges), ',')
  {
    hide ParseItem, Elements, Ranges, Itoa, RangeStrings;
    if elems == [] {
      ParseRanges(ranges);
      NoElements();
      assert ElemStrings(elems) + RangeStrings(ranges) == RangeStrings(ranges);
      assert Elements(elems) + Ranges(ranges) == Ranges(ranges);
    } else {
      var items := ElemStrings(elems) + RangeStrings(ranges);
      ParseElem(elems[0]);
      ParseAll(elems[1..], ranges);
      assert items[1..] == ElemStrings(elems[1..]) + RangeStrings(ranges);
      ExpressibleCons(elems, ranges);
    }
  }

  lemma NoElements()
    ensures Elements([]) == {}
  {
  }

  /**
   * The printed list denotes exactly the union of the elements and the ranges, and is a list at all
   * exactly when no number is negative and no range is descending.
   */
  lemma StringifyMeaning(elems: seq<int>, ranges: seq<Range>)
    ensures ParseList(Stringify(elems, ranges))
         == if Expressible(elems, ranges) then Some(Elements(elems) + Ranges(ranges)) else None
    ensures Stringify(elems, ranges) == "" <==> elems == [] && ranges == []
  {
    var items := ElemStrings(elems) + RangeStrings(ranges);
    ParseAll(elems, ranges);
    if items != [] {
      SplitJoin(items, ',');
      assert |items[0]| > 0;
    } else {
      assert elems == [] && ranges == [];
      assert Elements([]) + Ranges([]) == {};
    }
  }

  /** The items of the list: the elements in the order they were added, and then the ranges. */
  lemma StringifyItems(elems: seq<int>, ranges: seq<Range>)
    requires elems != [] || ranges != []
    ensures var items := Split(Stringify(elems, ranges), ',');
            && |items| == |elems| + |ranges|
            && (forall i :: 0 <= i < |elems| ==> items[i] == Itoa(elems[i]))
            && (forall i :: 0 <= i < |ranges| ==>
                  items[|elems| + i] == Itoa(ranges[i].min) + "-" + Itoa(ranges[i].max))
  {
    var items := ElemStrings(elems) + RangeStrings(ranges);
    ElemItems(elems);
    RangeItems(ranges);
    ParseAll(elems, ranges);
    SplitJoin(items, ',');
  }

  lemma {:induction false} ElemItems(elems: seq<int>)
    ensures |ElemStrings(elems)| == |elems| && forall i :: 0 <= i < |elems| ==> ElemStrings(elems)[i] == Itoa(elems[i])
  {
    if elems != [] { ElemItems(elems[1..]); }
  }

  lemma {:induction false} RangeItems(ranges: seq<Range>)
    ensures |RangeStrings(ranges)| == |ranges|
    ensures forall i :: 0 <= i < |ranges| ==>
              RangeStrings(ranges)[i] == Itoa(ranges[i].min) + "-" + Itoa(ranges[i].max)
  {
    if ranges != [] { RangeItems(ranges[1..]); }
  }

  /** A number is printed without leading zeroes, a negative one with a sign. */
  lemma ItoaMeaning(n: int)
    ensures n < 0 ==> Itoa(n) == "-" + Itoa(-n)
    ensures n >= 0 ==> IsDecimal(Itoa(n)) && DecimalValue(Itoa(n)) == n && (|Itoa(n)| > 1 ==> Itoa(n)[0] != '0')
  {
    if n >= 0 { DecimalRoundTrip(n); }
  }

  // ---------------------------------------------------------------- the loops

  lemma NextElem(elems: seq<int>, strs: seq<string>, i: nat)
    requires i < |elems|
    ensures strs + ElemStrings(elems[i..]) == strs + [Itoa(elems[i])] + ElemStrings(elems[i + 1..])
  {
    assert elems[i..][1..] == elems[i + 1..];
  }

  lemma NextRange(ranges: seq<Range>, strs: seq<string>, i: nat)
    requires i < |ranges|
    ensures strs + RangeStrings(ranges[i..]) == strs + [ranges[i].String()] + RangeStrings(ranges[i + 1..])
  {
    assert ranges[i..][1..] == ranges[i + 1..];
  }

  method BuildList(elems: seq<int>, ranges: seq<Range>) returns (s: string)
    ensures s == Stringify(elems, ranges)
  {
    var strs: seq<string> := [];
    assert elems[0..] == elems && ranges[0..] == ranges;
    assert elems[|elems|..] == [] && ElemStrings([]) == [];
    assert ranges[|ranges|..] == [] && RangeStrings([]) == [];
    hide ElemStrings, RangeStrings, Itoa, Range.String;
    for i := 0 to |elems|
      invariant strs + ElemStrings(elems[i..]) == ElemStrings(elems)
    {
      NextElem(elems, strs, i);
      strs := strs + [Itoa(elems[i])];
    }
    ghost var first := strs;
    assert first == ElemStrings(elems);
    for i := 0 to |ranges|
      invariant strs + RangeStrings(ranges[i..]) == first + RangeStrings(ranges)
    {
      NextRange(ranges, strs, i);
      strs := strs + [ranges[i].String()];
    }
    assert strs == first + RangeStrings(ranges);
    s := Join(strs, ',');
  }

  // ---------------------------------------------------------------- slices

  /** A slice from the start of its array; the rest of the array is its spare capacity. */
  datatype Slice<T> = Slice(data: array<T>, len: nat) {
    ghost predicate Valid() { len <= data.Length }

    predicate IsFull() { len == data.Length }

    function Contents(): seq<T>
      requires Valid()
      reads data
    {
      data[..len]
    }
  }

  /** `append` of one element: in place if there is room, and otherwise into a larger copy. */
  method Append<T(0)>(s: Slice<T>, x: T, spare: nat) returns (r: Slice<T>)
    requires s.Valid()
    modifies s.data
    ensures r.Valid() && r.Contents() == old(s.Contents()) + [x]
    ensures s.Contents() == old(s.Contents())
    ensures s.IsFull() ==> fresh(r.data) && r.data.Length == s.len + 1 + spare && s.data[..] == old(s.data[..])
    ensures !s.IsFull() ==> r.data == s.data && s.data[..] == old(s.data[..])[s.len := x]
  {
    if s.len < s.data.Length {
      s.data[s.len] := x;
      r := Slice(s.data, s.len + 1);
    } else {
      var larger := new T[s.len + 1 + spare];
      for i := 0 to s.len
        invariant larger[..i] == s.data[..i]
        invariant s.data[..] == old(s.data[..])
      {
        larger[i] := s.data[i];
      }
      larger[s.len] := x;
      r := Slice(larger, s.len + 1);
    }
  }

  /**
   * Two slices made from one are independent exactly when the one has no spare capacity, or both got the same
   * element; otherwise the second `append` overwrites the element of the first.
   */
  method AppendTwice<T(0, ==)>(s: Slice<T>, x: T, y: T, spare: nat) returns (a: Slice<T>, b: Slice<T>)
    requires s.Valid()
    modifies s.data
    ensures a.Valid() && b.Valid()
    ensures b.Contents() == old(s.Contents()) + [y]
    ensures a.Contents() == old(s.Contents()) + [x] <==> s.IsFull() || x == y
    ensures a.Contents() == old(s.Contents()) + [if s.IsFull() then x else y]
  {
    a := Append(s, x, spare);
    b := Append(s, y, spare);
    assert a.Contents()[s.len] == if s.IsFull() then x else y;
  }

  // ---------------------------------------------------------------- the builder

  /** Every `Add` returns a copy whose slices may share arrays with the builder it was called on. */
  datatype Builder = Builder(
    cpus: Slice<int>, cpuRanges: Slice<Range>, mems: Slice<int>, memRanges: Slice<Range>)
  {
    ghost predicate Valid() {
      && cpus.Valid() && cpuRanges.Valid() && mems.Valid() && memRanges.Valid()
      && cpus.data != mems.data && cpuRanges.data != memRanges.data
    }

    ghost function CPUMembers(): set<int>
      requires Valid()
      reads cpus.data, cpuRanges.data
    {
      Elements(cpus.Contents()) + Ranges(cpuRanges.Contents())
    }

    ghost function MemMembers(): set<int>
      requires Valid()
      reads mems.data, memRanges.data
    {
      Elements(mems.Contents()) + Ranges(memRanges.Contents())
    }

    method AddCPU(cpu: int, spare: nat) returns (b: Builder)
      requires Valid()
      modifies cpus.data
      ensures b.Valid() && b == this.(cpus := b.cpus) && b.cpus.Contents() == old(cpus.Contents()) + [cpu]
      ensures cpus.IsFull() ==> fresh(b.cpus.data) && b.cpus.data.Length == cpus.len + 1 + spare
      ensures cpus.IsFull() ==> cpus.data[..] == old(cpus.data[..])
      ensures !cpus.IsFull() ==> b.cpus.data == cpus.data && cpus.data[..] == old(cpus.data[..])[cpus.len := cpu]
      ensures b.CPUMembers() == old(CPUMembers()) + {cpu} && b.MemMembers() == old(MemMembers())
      ensures CPUMembers() == old(CPUMembers())
    {
      var longer := Append(cpus, cpu, spare);
      b := this.(cpus := longer);
    }

    method AddCPURange(min: int, max: int, spare: nat) returns (b: Builder)
      requires Valid()
      modifies cpuRanges.data
      ensures b.Valid() && b == this.(cpuRanges := b.cpuRanges)
      ensures b.cpuRanges.Contents() == old(cpuRanges.Contents()) + [Range(min, max)]
      ensures cpuRanges.IsFull() ==> fresh(b.cpuRanges.data) && b.cpuRanges.data.Length == cpuRanges.len + 1 + spare
      ensures cpuRanges.IsFull() ==> cpuRanges.data[..] == old(cpuRanges.data[..])
      ensures !cpuRanges.IsFull() ==>
                && b.cpuRanges.data == cpuRanges.data
                && cpuRanges.data[..] == old(cpuRanges.data[..])[cpuRanges.len := Range(min, max)]
      ensures b.CPUMembers() == old(CPUMembers()) + Interval(min, max) && b.MemMembers() == old(MemMembers())
      ensures CPUMembers() == old(CPUMembers())
    {
      RangesSnoc(cpuRanges.Contents(), Range(min, max));
      var longer := Append(cpuRanges, Range(min, max), spare);
      b := this.(cpuRanges := longer);
    }

    method AddMem(mem: int, spare: nat) returns (b: Builder)
      requires Valid()
      modifies mems.data
      ensures b.Valid() && b == this.(mems := b.mems) && b.mems.Contents() == old(mems.Contents()) + [mem]
      ensures mems.IsFull() ==> fresh(b.mems.data) && b.mems.data.Length == mems.len + 1 + spare
      ensures mems.IsFull() ==> mems.data[..] == old(mems.data[..])
      ensures !mems.IsFull() ==> b.mems.data == mems.data && mems.data[..] == old(mems.data[..])[mems.len := mem]
      ensures b.MemMembers() == old(MemMembers()) + {mem} && b.CPUMembers() == old(CPUMembers())
      ensures MemMembers() == old(MemMembers())
    {
      var longer := Append(mems, mem, spare);
      b := this.(mems := longer);
    }

    method AddMemRange(min: int, max: int, spare: nat) returns (b: Builder)
      requires Valid()
      modifies memRanges.data
      ensures b.Valid() && b == this.(memRanges := b.memRanges)
      ensures b.memRanges.Contents() == old(memRanges.Contents()) + [Range(min, max)]
      ensures memRanges.IsFull() ==> fresh(b.memRanges.data) && b.memRanges.data.Length == memRanges.len + 1 + spare
      ensures memRanges.IsFull() ==> memRanges.data[..] == old(memRanges.data[..])
      ensures !memRanges.IsFull() ==>
                && b.memRanges.data == memRanges.data
                && memRanges.data[..] == old(memRanges.data[..])[memRanges.len := Range(min, max)]
      ensures b.MemMembers() == old(MemMembers()) + Interval(min, max) && b.CPUMembers() == old(CPUMembers())
      ensures MemMembers() == old(MemMembers())
    {
      RangesSnoc(memRanges.Contents(), Range(min, max));
      var longer := Append(memRanges, Range(min, max), spare);
      b := this.(memRanges := longer);
    }

    /** Reading the two built strings back gives the CPUs and the memory nodes that were added. */
    method Build() returns (result: CPUSet)
      requires Valid()
      ensures ParseList(result.cpus)
           == if Expressible(cpus.Contents(), cpuRanges.Contents()) then Some(CPUMembers()) else None
      ensures ParseList(result.mems)
           == if Expressible(mems.Contents(), memRanges.Contents()) then Some(MemMembers()) else None
    {
      var c := BuildList(cpus.Contents(), cpuRanges.Contents());
      var m := BuildList(mems.Contents(), memRanges.Contents());
      StringifyMeaning(cpus.Contents(), cpuRanges.Contents());
      StringifyMeaning(mems.Contents(), memRanges.Contents());
      result := CPUSet(c, m);
    }
  }

  /** The empty builder: nothing was added, and nothing can be added in place. */
  method NewBuilder() returns (b: Builder)
    ensures b.Valid() && b.CPUMembers() == {} && b.MemMembers() == {}
    ensures fresh(b.cpus.data) && fresh(b.cpuRanges.data) && fresh(b.mems.data) && fresh(b.memRanges.data)
    ensures b.cpus.Contents() == [] && b.cpuRanges.Contents() == []
    ensures b.mems.Contents() == [] && b.memRanges.Contents() == []
    ensures b.cpus.IsFull() && b.cpuRanges.IsFull() && b.mems.IsFull() && b.memRanges.IsFull()
  {
    var cpus, mems := new int[0], new int[0];
    var cpuRanges, memRanges := new Range[0], new Range[0];
    b := Builder(Slice(cpus, 0), Slice(cpuRanges, 0), Slice(mems, 0), Slice(memRanges, 0));
  }

  /** Two builders made from one: the second `AddCPU` replaces the first one's number exactly when there is room. */
  method AddCPUTwice(b: Builder, x: int, y: int, spare: nat) returns (first: Builder, second: Builder)
    requires b.Valid()
    modifies b.cpus.data
    ensures first.Valid() && second.Valid() && second.cpus.Contents() == old(b.cpus.Contents()) + [y]
    ensures first.cpus.Contents() == old(b.cpus.Contents()) + [if b.cpus.IsFull() then x else y]
    ensures first.cpus.Contents() == old(b.cpus.Contents()) + [x] <==> b.cpus.IsFull() || x == y
    ensures first == b.(cpus := first.cpus) && second == b.(cpus := second.cpus)
  {
    first := b.AddCPU(x, spare);
    second := b.AddCPU(y, spare);
    assert first.cpus.Contents()[b.cpus.len] == if b.cpus.IsFull() then x else y;
  }

  /** With arrays that double, there is room after the third number. */
  method ThreeCPUs() returns (b: Builder)
    ensures b.Valid() && fresh(b.cpus.data) && b.cpus.Contents() == [0, 1, 2] && !b.cpus.IsFull()
    ensures b.cpuRanges.Contents() == []
  {
    hide Builder.CPUMembers, Builder.MemMembers;
    b := NewBuilder();
    b := b.AddCPU(0, 0);
    b := b.AddCPU(1, 0);
    b := b.AddCPU(2, 1);
  }

  lemma MembersOf(b: Builder)
    requires b.Valid() && b.cpus.Contents() == [0, 1, 2, 4] && b.cpuRanges.Contents() == []
    ensures b.CPUMembers() == {0, 1, 2, 4} && Expressible(b.cpus.Contents(), b.cpuRanges.Contents())
  {
    assert Elements([0, 1, 2, 4]) == {0, 1, 2, 4};
  }

  /** So two builders that add CPU 3 and CPU 4 to it print the same. */
  method Overwritten() returns (first: CPUSet, second: CPUSet)
    ensures ParseList(first.cpus) == Some({0, 1, 2, 4}) && ParseList(second.cpus) == Some({0, 1, 2, 4})
  {
    hide Expressible, ParseList, Builder.CPUMembers, Builder.MemMembers;
    var b := ThreeCPUs();
    var with3, with4 := AddCPUTwice(b, 3, 4, 0);
    assert with3.cpus.Contents() == [0, 1, 2, 4] == with4.cpus.Contents();
    MembersOf(with3);
    MembersOf(with4);
    first := with3.Build();
    second := with4.Build();
  }

  lemma {:induction false} RangesSnoc(ranges: seq<Range>, r: Range)
    ensures Ranges(ranges + [r]) == Ranges(ranges) + Interval(r.min, r.max)
  {
    if ranges == [] {
      assert ranges + [r] == [r];
      assert [r][1..] == [];
    } else {
      assert (ranges + [r])[1..] == ranges[1..] + [r];
      RangesSnoc(ranges[1..], r);
    }
  }
}
