/**
 * PHP values as they occur in the configuration array, PHP's `empty()`, and the
 * array functions of the standard library that the command relies on, over
 * integer ids (the only values they are applied to). PHP arrays
 * used as lists are modelled as sequences in iteration order; where a function keeps
 * the original keys, only the order of the values matters to the rest of the command.
 */
module Php {
  import opened Basics

  /** A PHP value (floats and objects are not modelled). */
  datatype Value = Null | Bool(b: bool) | Int(i: int) | Str(s: string) | Array(items: seq<Value>)

  /** PHP's `empty()`: null, false, 0, "", "0" and the empty array. */
  predicate IsEmpty(v: Value)
  {
    match v
    case Null => true
    case Bool(b) => !b
    case Int(i) => i == 0
    case Str(s) => s == "" || s == "0"
    case Array(items) => items == []
  }

  /** PHP truthiness of a value that is either null or an integer. */
  predicate IsTruthy(v: Option<int>)
  {
    v.Some? && v.value != 0
  }

  /** `array_unique`: keeps the first occurrence of every value, in order. */
  function Unique(s: seq<int>): (r: seq<int>)
    ensures NoDup(r)
    ensures forall x :: x in r <==> x in s
    ensures |r| <= |s|
  {
    if s == [] then []
    else
      var u := Unique(s[..|s| - 1]);
      var x := s[|s| - 1];
      assert forall y :: y in s <==> y in s[..|s| - 1] || y == x by {
        assert s == s[..|s| - 1] + [x];
      }
      if x in u then u else u + [x]
  }

  /** `array_diff`: the values of `a` that do not occur in `b`, in their order in `a`. */
  function Diff(a: seq<int>, b: seq<int>): (r: seq<int>)
    ensures forall x :: x in r <==> x in a && x !in b
    ensures NoDup(a) ==> NoDup(r)
  {
    if a == [] then []
    else (if a[0] in b then [] else [a[0]]) + Diff(a[1..], b)
  }

  /** `array_intersect`: the values of `a` that also occur in `b`, in their order in `a`. */
  function Intersect(a: seq<int>, b: seq<int>): (r: seq<int>)
    ensures forall x :: x in r <==> x in a && x in b
  {
    if a == [] then []
    else (if a[0] in b then [a[0]] else []) + Intersect(a[1..], b)
  }

  /** `array_diff` decides each value of the first list on its own: it distributes over concatenation. */
  lemma {:induction false} DiffConcat(a: seq<int>, c: seq<int>, b: seq<int>)
    ensures Diff(a + c, b) == Diff(a, b) + Diff(c, b)
  {
    if a != [] {
      assert (a + c)[1..] == a[1..] + c;
      DiffConcat(a[1..], c, b);
      assert (a + c)[0] == a[0];
      calc {
        Diff(a + c, b);
        (if a[0] in b then [] else [a[0]]) + Diff(a[1..] + c, b);
        (if a[0] in b then [] else [a[0]]) + (Diff(a[1..], b) + Diff(c, b));
      }
    } else {
      assert a + c == c;
    }
  }

  /** Removing values that do not occur changes nothing. */
  lemma {:induction false} DiffDisjoint(a: seq<int>, b: seq<int>)
    requires forall i :: 0 <= i < |a| ==> a[i] !in b
    ensures Diff(a, b) == a
  {
    if a != [] {
      var rest := a[1..];
      assert a[0] !in b;
      assert forall i :: 0 <= i < |rest| ==> rest[i] == a[i + 1];
      DiffDisjoint(rest, b);
      assert Diff(a, b) == [a[0]] + Diff(rest, b);
      assert a == [a[0]] + rest;
    }
  }
}
