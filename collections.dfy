/** Small collection helpers shared by the service. */
module Collections {

  datatype Option<T> = None | Some(value: T)

  predicate NoDuplicates<T(==)>(s: seq<T>) {
    forall i, j :: 0 <= i < j < |s| ==> s[i] != s[j]
  }

  function Elements<T(==)>(s: seq<T>): set<T> {
    set x | x in s
  }

  /** Lists the elements of a set once each, in an order the caller cannot
      rely on: the way a hash set or the active-meeting store hands out its
      contents when it is iterated or copied into a list. */
  method Enumerate<T(==)>(s: set<T>) returns (r: seq<T>)
    ensures NoDuplicates(r)
    ensures Elements(r) == s
    ensures |r| == |s|
  {
    r := [];
    var rest := s;
    while rest != {}
      invariant rest <= s
      invariant NoDuplicates(r)
      invariant Elements(r) == s - rest
      invariant |r| + |rest| == |s|
      decreases rest
    {
      var x :| x in rest;
      assert Elements(r + [x]) == Elements(r) + {x};
      r := r + [x];
      rest := rest - {x};
    }
  }

  /** The multiset of a union of disjoint sets is the sum of their multisets. */
  lemma MultisetOfDisjointUnion<T>(a: set<T>, b: set<T>)
    requires a !! b
    ensures multiset(a + b) == multiset(a) + multiset(b)
  {
  }
}
