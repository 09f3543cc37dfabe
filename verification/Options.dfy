/** A value that may be missing: Go's nil results and failed lookups. */
module Options {
  datatype Option<+T> = None | Some(value: T)

  /** A number above all those of a finite set. */
  lemma Bound(s: set<nat>) returns (n: nat)
    ensures forall x :: x in s ==> x < n
    decreases |s|
  {
    if s == {} {
      n := 0;
    } else {
      var x :| x in s;
      var m := Bound(s - {x});
      n := if m <= x then x + 1 else m;
      assert forall y :: y in s ==> y == x || y in s - {x};
    }
  }
}
