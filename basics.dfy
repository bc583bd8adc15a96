/** Small generic helpers shared by the other modules. */
module Basics {

  datatype Option<T> = None | Some(value: T)

  /** The concatenation of a sequence of sequences, built by appending one part at a time. */
  function Concat<T>(parts: seq<seq<T>>): seq<T>
  {
    if parts == [] then [] else Concat(parts[..|parts| - 1]) + parts[|parts| - 1]
  }

  lemma {:induction false} ConcatCons<T>(p: seq<T>, parts: seq<seq<T>>)
    ensures Concat([p] + parts) == p + Concat(parts)
  {
    if parts != [] {
      var n := |parts|;
      assert ([p] + parts)[..n] == [p] + parts[..n - 1];
      ConcatCons(p, parts[..n - 1]);
    }
  }

  /** The parts `f` gives for the elements of `xs`, joined in order. */
  function FlatMap<T, U>(f: T -> seq<U>, xs: seq<T>): seq<U>
  {
    if xs == [] then [] else FlatMap(f, xs[..|xs| - 1]) + f(xs[|xs| - 1])
  }

  /** A value is in the joined parts exactly when it is in the part of some element. */
  lemma {:induction false} FlatMapMembership<T, U>(f: T -> seq<U>, xs: seq<T>, x: U)
    ensures x in FlatMap(f, xs) <==> exists y :: y in xs && x in f(y)
  {
    if xs != [] {
      var init := xs[..|xs| - 1];
      var last := xs[|xs| - 1];
      FlatMapMembership(f, init, x);
      if x in FlatMap(f, init) {
        var y :| y in init && x in f(y);
        var k :| 0 <= k < |init| && init[k] == y;
        assert xs[k] == y;
      }
      if y :| y in xs && x in f(y) {
        var k :| 0 <= k < |xs| && xs[k] == y;
        if k < |init| {
          assert init[k] == y;
        }
      }
    }
  }

  /** No value occurs twice. */
  predicate NoDup<T(==)>(s: seq<T>)
  {
    forall i, j :: 0 <= i < j < |s| ==> s[i] != s[j]
  }

  function Min(a: int, b: int): int
  {
    if a <= b then a else b
  }
}
