/** Small pieces the other modules share. */
module Collections {

  /** An optional value. */
  datatype Option<+T> = None | Some(value: T) {
    function GetOr(default: T): T {
      if Some? then value else default
    }
  }

  lemma Associates<T>(a: seq<T>, b: seq<T>, c: seq<T>)
    ensures a + (b + c) == a + b + c
  {
  }

  lemma {:induction false} SubsetSize<T>(a: set<T>, b: set<T>)
    requires a <= b
    ensures |a| <= |b|
  {
    if a != {} {
      var x :| x in a;
      SubsetSize(a - {x}, b - {x});
    }
  }

  lemma NothingMore<T>(a: seq<T>)
    ensures a + [] == a
  {
  }

  /** Some element of a nonempty set. */
  method Any<T>(s: set<T>) returns (x: T)
    requires s != {}
    ensures x in s
  {
    x :| x in s;
  }

  /** The largest of a set of numbers, if it has one. */
  method Largest(s: set<int>) returns (m: Option<int>)
    ensures m.None? <==> s == {}
    ensures m.Some? ==> m.value in s && forall x :: x in s ==> x <= m.value
  {
    m := None;
    var rest := s;
    while rest != {}
      invariant rest <= s
      invariant m.None? ==> rest == s
      invariant m.Some? ==> m.value in s
      invariant forall x :: x in s && x !in rest ==> m.Some? && x <= m.value
      decreases |rest|
    {
      var x := Any(rest);
      if m.None? || m.value < x {
        m := Some(x);
      }
      rest := rest - {x};
    }
  }
}
