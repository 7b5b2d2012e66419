/** A single combinator for the `filter`/`map` chains and the `push`-inside-a-loop
    builders that the scrapers use: keep, in order, what a partial mapping
    produces. */
module Seqs {

  import opened Wrappers

  function OptionToSeq<U>(o: Option<U>): seq<U>
  {
    if o.Some? then [o.value] else []
  }

  /** The values `f` produces for the elements of `s` it accepts, in the order of `s`.
      Defined on the last element so that a loop appending to a result follows it. */
  function FilterMap<T, U>(f: T -> Option<U>, s: seq<T>): (r: seq<U>)
    ensures |r| <= |s|
    decreases |s|
  {
    if s == [] then [] else FilterMap(f, s[..|s| - 1]) + OptionToSeq(f(s[|s| - 1]))
  }

  /** Filtering and mapping work element by element: a concatenation maps to a concatenation. */
  lemma {:induction false} FilterMapConcat<T, U>(f: T -> Option<U>, a: seq<T>, b: seq<T>)
    ensures FilterMap(f, a + b) == FilterMap(f, a) + FilterMap(f, b)
    decreases |b|
  {
    if b == [] {
      assert a + b == a;
    } else {
      var b' := b[..|b| - 1];
      assert (a + b)[..|a + b| - 1] == a + b';
      assert (a + b)[|a + b| - 1] == b[|b| - 1];
      FilterMapConcat(f, a, b');
    }
  }

  lemma FilterMapSingle<T, U>(f: T -> Option<U>, x: T)
    ensures FilterMap(f, [x]) == OptionToSeq(f(x))
  {
    assert [x][..0] == [];
  }

  /** An element `f` rejects contributes nothing, wherever it stands. */
  lemma FilterMapSkips<T, U>(f: T -> Option<U>, a: seq<T>, x: T, b: seq<T>)
    requires f(x).None?
    ensures FilterMap(f, a + [x] + b) == FilterMap(f, a + b)
  {
    FilterMapConcat(f, a + [x], b);
    FilterMapConcat(f, a, [x]);
    FilterMapSingle(f, x);
    FilterMapConcat(f, a, b);
  }

  /** An element `f` accepts contributes exactly its image, in its place. */
  lemma FilterMapKeeps<T, U>(f: T -> Option<U>, a: seq<T>, x: T, b: seq<T>)
    requires f(x).Some?
    ensures FilterMap(f, a + [x] + b) == FilterMap(f, a) + [f(x).value] + FilterMap(f, b)
  {
    FilterMapConcat(f, a + [x], b);
    FilterMapConcat(f, a, [x]);
    FilterMapSingle(f, x);
  }

  /** Every value in the result is the image of some element of the input. */
  lemma {:induction false} FilterMapFrom<T, U>(f: T -> Option<U>, s: seq<T>, y: U)
    requires y in FilterMap(f, s)
    ensures exists x :: x in s && f(x) == Some(y)
    decreases |s|
  {
    var s' := s[..|s| - 1];
    var x := s[|s| - 1];
    if y in FilterMap(f, s') {
      FilterMapFrom(f, s', y);
      var x' :| x' in s' && f(x') == Some(y);
      assert x' in s;
    } else {
      assert y in OptionToSeq(f(x));
      assert x in s;
    }
  }

  /** When every element is accepted, nothing is dropped. */
  lemma {:induction false} FilterMapAllAccepted<T, U>(f: T -> Option<U>, s: seq<T>)
    requires forall x :: x in s ==> f(x).Some?
    ensures |FilterMap(f, s)| == |s|
    decreases |s|
  {
    if s != [] {
      var s' := s[..|s| - 1];
      assert forall x :: x in s' ==> x in s;
      assert s[|s| - 1] in s;
      FilterMapAllAccepted(f, s');
    }
  }

  /** Two inputs whose elements have the same images, position by position,
      give the same result. */
  lemma {:induction false} FilterMapPointwise<T, V, U>(f: T -> Option<U>, s: seq<T>, g: V -> Option<U>, t: seq<V>)
    requires |s| == |t|
    requires forall i :: 0 <= i < |s| ==> f(s[i]) == g(t[i])
    ensures FilterMap(f, s) == FilterMap(g, t)
    decreases |s|
  {
    if s != [] {
      FilterMapPointwise(f, s[..|s| - 1], g, t[..|t| - 1]);
    }
  }
}
