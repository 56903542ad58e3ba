/** Small generic helpers shared by the renderer model. */
module Util {

  /** An optional value: a JSON field that may be absent. */
  datatype Option<+T> = None | Some(value: T)

  /** The concatenation of f(x) for each x of xs, in order: what a
      forEach that appends f(x) to a list produces. */
  function FlatMap<T, U>(f: T -> seq<U>, xs: seq<T>): seq<U>
  {
    if xs == [] then [] else f(xs[0]) + FlatMap(f, xs[1..])
  }

  /** Flattening distributes over concatenation of the input. */
  lemma {:induction false} FlatMapAppend<T, U>(f: T -> seq<U>, a: seq<T>, b: seq<T>)
    ensures FlatMap(f, a + b) == FlatMap(f, a) + FlatMap(f, b)
  {
    if a == [] {
      assert a + b == b;
    } else {
      assert (a + b)[0] == a[0];
      assert (a + b)[1..] == a[1..] + b;
      FlatMapAppend(f, a[1..], b);
    }
  }

  /** Processing one more element appends exactly its own output. */
  lemma FlatMapSnoc<T, U>(f: T -> seq<U>, xs: seq<T>, x: T)
    ensures FlatMap(f, xs + [x]) == FlatMap(f, xs) + f(x)
  {
    FlatMapAppend(f, xs, [x]);
    assert [x][1..] == [];
  }

  /** The output of element i sits, unchanged and contiguous, right after
      the output of the elements before it. */
  lemma FlatMapBlock<T, U>(f: T -> seq<U>, xs: seq<T>, i: nat)
    requires i < |xs|
    ensures |FlatMap(f, xs[..i])| + |f(xs[i])| <= |FlatMap(f, xs)|
    ensures FlatMap(f, xs)[|FlatMap(f, xs[..i])|..|FlatMap(f, xs[..i])| + |f(xs[i])|] == f(xs[i])
  {
    var rest := [xs[i]] + xs[i + 1..];
    assert xs == xs[..i] + rest;
    FlatMapAppend(f, xs[..i], rest);
    assert rest[0] == xs[i] && rest[1..] == xs[i + 1..];
  }

  /** The output of any leading part of xs is a leading part of the whole
      output: elements are processed in array order. */
  lemma FlatMapPrefixes<T, U>(f: T -> seq<U>, xs: seq<T>)
    ensures forall i :: 0 <= i <= |xs| ==> FlatMap(f, xs[..i]) <= FlatMap(f, xs)
  {
    forall i | 0 <= i <= |xs|
      ensures FlatMap(f, xs[..i]) <= FlatMap(f, xs)
    {
      assert xs == xs[..i] + xs[i..];
      FlatMapAppend(f, xs[..i], xs[i..]);
    }
  }
}
