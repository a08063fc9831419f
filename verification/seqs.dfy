/** Generic sequence helpers: selecting positions by a predicate, and flattening. */
module Seqs {

  /** Every offset moved one place on. */
  function Shift(idx: seq<nat>): (r: seq<nat>)
    ensures |r| == |idx|
    ensures forall k | 0 <= k < |idx| :: r[k] == idx[k] + 1
  {
    seq(|idx|, k requires 0 <= k < |idx| => idx[k] + 1)
  }

  /** The offsets of the elements of `xs` that satisfy `p`, in increasing order. */
  function Where<T>(xs: seq<T>, p: T -> bool): seq<nat> {
    if |xs| == 0 then []
    else (if p(xs[0]) then [0] else []) + Shift(Where(xs[1..], p))
  }

  /**
   * Where selects exactly the satisfying offsets: each offset it yields is in
   * range and satisfies `p`, the offsets strictly increase, and no satisfying
   * offset is missing.
   */
  lemma {:induction false} WhereSpec<T>(xs: seq<T>, p: T -> bool)
    ensures forall k | 0 <= k < |Where(xs, p)| :: Where(xs, p)[k] < |xs| && p(xs[Where(xs, p)[k]])
    ensures forall k, l | 0 <= k < l < |Where(xs, p)| :: Where(xs, p)[k] < Where(xs, p)[l]
    ensures forall j | 0 <= j < |xs| && p(xs[j]) :: j in Where(xs, p)
  {
    if |xs| > 0 {
      var tail := xs[1..];
      var rest := Where(tail, p);
      var head: seq<nat> := if p(xs[0]) then [0] else [];
      WhereSpec(tail, p);
      assert Where(xs, p) == head + Shift(rest);
      WhereStepValid(xs, tail, p, head, rest);
      WhereStepIncreasing(head, rest);
      WhereStepComplete(xs, tail, p, head, rest);
    }
  }

  /** Every offset the step produces is in range and satisfies `p`. */
  lemma WhereStepValid<T>(xs: seq<T>, tail: seq<T>, p: T -> bool, head: seq<nat>, rest: seq<nat>)
    requires |xs| > 0 && tail == xs[1..]
    requires head == if p(xs[0]) then [0] else []
    requires forall k | 0 <= k < |rest| :: rest[k] < |tail| && p(tail[rest[k]])
    ensures forall k | 0 <= k < |head + Shift(rest)| ::
      (head + Shift(rest))[k] < |xs| && p(xs[(head + Shift(rest))[k]])
  {
    var shifted := Shift(rest);
    var idx := head + shifted;
    forall k | 0 <= k < |idx|
      ensures idx[k] < |xs| && p(xs[idx[k]])
    {
      if k >= |head| {
        var i := k - |head|;
        assert idx[k] == shifted[i] == rest[i] + 1;
        assert tail[rest[i]] == xs[idx[k]];
      }
    }
  }

  /** The step keeps the offsets strictly increasing. */
  lemma WhereStepIncreasing(head: seq<nat>, rest: seq<nat>)
    requires head == [] || head == [0]
    requires forall k, l | 0 <= k < l < |rest| :: rest[k] < rest[l]
    ensures forall k, l | 0 <= k < l < |head + Shift(rest)| ::
      (head + Shift(rest))[k] < (head + Shift(rest))[l]
  {
    var shifted := Shift(rest);
    var idx := head + shifted;
    forall k, l | 0 <= k < l < |idx|
      ensures idx[k] < idx[l]
    {
      assert idx[l] == shifted[l - |head|];
      if k >= |head| {
        assert idx[k] == shifted[k - |head|];
      }
    }
  }

  /** The step misses no satisfying offset. */
  lemma WhereStepComplete<T>(xs: seq<T>, tail: seq<T>, p: T -> bool, head: seq<nat>, rest: seq<nat>)
    requires |xs| > 0 && tail == xs[1..]
    requires head == if p(xs[0]) then [0] else []
    requires forall j | 0 <= j < |tail| && p(tail[j]) :: j in rest
    ensures forall j | 0 <= j < |xs| && p(xs[j]) :: j in head + Shift(rest)
  {
    var shifted := Shift(rest);
    var idx := head + shifted;
    forall j | 0 <= j < |xs| && p(xs[j])
      ensures j in idx
    {
      if j == 0 {
        assert idx[0] == 0;
      } else {
        assert tail[j - 1] == xs[j];
        var k :| 0 <= k < |rest| && rest[k] == j - 1;
        assert idx[|head| + k] == shifted[k] == j;
      }
    }
  }

  /** `f` of each element of `xs` that satisfies `p`, in order. */
  function Select<T, U>(xs: seq<T>, p: T -> bool, f: T -> U): (r: seq<U>)
    ensures |r| <= |xs|
  {
    if |xs| == 0 then []
    else (if p(xs[0]) then [f(xs[0])] else []) + Select(xs[1..], p, f)
  }

  /** Select keeps every satisfying element, repeats included, in order: its k-th item is `f` of the k-th one. */
  lemma {:induction false} SelectInOrder<T, U>(xs: seq<T>, p: T -> bool, f: T -> U)
    ensures |Select(xs, p, f)| == |Where(xs, p)|
    ensures forall k | 0 <= k < |Where(xs, p)| ::
              Where(xs, p)[k] < |xs| && Select(xs, p, f)[k] == f(xs[Where(xs, p)[k]])
  {
    if |xs| > 0 {
      var tail := xs[1..];
      var rest := Where(tail, p);
      SelectInOrder(tail, p, f);
      WhereSpec(tail, p);
      var idx := Where(xs, p);
      var r := Select(xs, p, f);
      if p(xs[0]) {
        assert idx == [0] + Shift(rest);
        assert r == [f(xs[0])] + Select(tail, p, f);
        forall k | 0 <= k < |idx|
          ensures idx[k] < |xs| && r[k] == f(xs[idx[k]])
        {
          if k > 0 {
            assert idx[k] == rest[k - 1] + 1;
            assert xs[idx[k]] == tail[rest[k - 1]];
            assert r[k] == Select(tail, p, f)[k - 1];
          }
        }
      } else {
        assert idx == Shift(rest);
        assert r == Select(tail, p, f);
        forall k | 0 <= k < |idx|
          ensures idx[k] < |xs| && r[k] == f(xs[idx[k]])
        {
          assert idx[k] == rest[k] + 1;
          assert xs[idx[k]] == tail[rest[k]];
        }
      }
    }
  }

  /** An item is selected exactly when it is `f` of a satisfying element. */
  lemma {:induction false} SelectMembers<T, U>(xs: seq<T>, p: T -> bool, f: T -> U)
    ensures forall y :: y in Select(xs, p, f) <==> exists j | 0 <= j < |xs| :: p(xs[j]) && y == f(xs[j])
  {
    if |xs| > 0 {
      SelectMembers(xs[1..], p, f);
      assert forall j | 1 <= j < |xs| :: xs[j] == xs[1..][j - 1];
    }
  }

  /** The sequences `f` gives for the elements of `xs`, one after the other. */
  function FlatMap<T, U>(xs: seq<T>, f: T -> seq<U>): seq<U> {
    if |xs| == 0 then [] else f(xs[0]) + FlatMap(xs[1..], f)
  }

  /** FlatMap distributes over concatenation. */
  lemma {:induction false} FlatMapAppend<T, U>(xs: seq<T>, ys: seq<T>, f: T -> seq<U>)
    ensures FlatMap(xs + ys, f) == FlatMap(xs, f) + FlatMap(ys, f)
  {
    if |xs| == 0 {
      assert xs + ys == ys;
    } else {
      assert (xs + ys)[1..] == xs[1..] + ys;
      FlatMapAppend(xs[1..], ys, f);
    }
  }

  /** The FlatMap of one element is its own sequence. */
  lemma FlatMapOne<T, U>(x: T, f: T -> seq<U>)
    ensures FlatMap([x], f) == f(x)
  {
    assert [x][1..] == [];
  }

  /** The sequences of `xss`, one after the other. */
  function Flatten<T>(xss: seq<seq<T>>): seq<T> {
    if |xss| == 0 then [] else xss[0] + Flatten(xss[1..])
  }

  /** `f` of every element of `xs`, in order. */
  function Map<T, U>(xs: seq<T>, f: T -> U): (r: seq<U>)
    ensures |r| == |xs|
    ensures forall k | 0 <= k < |xs| :: r[k] == f(xs[k])
  {
    seq(|xs|, k requires 0 <= k < |xs| => f(xs[k]))
  }

  /** FlatMap is the flattening of the elements' sequences, taken in order. */
  lemma {:induction false} FlatMapFlatten<T, U>(xs: seq<T>, f: T -> seq<U>, yss: seq<seq<U>>)
    requires |yss| == |xs| && forall k | 0 <= k < |xs| :: yss[k] == f(xs[k])
    ensures FlatMap(xs, f) == Flatten(yss)
  {
    if |xs| > 0 {
      FlatMapFlatten(xs[1..], f, yss[1..]);
    }
  }

  /** FlatMap is Map followed by Flatten. */
  lemma FlatMapIsFlattenMap<T, U>(xs: seq<T>, f: T -> seq<U>)
    ensures FlatMap(xs, f) == Flatten(Map(xs, f))
  {
    FlatMapFlatten(xs, f, Map(xs, f));
  }

  /** An item is in the FlatMap exactly when it is in the sequence of some element. */
  lemma {:induction false} FlatMapMembers<T, U>(xs: seq<T>, f: T -> seq<U>)
    ensures forall y :: y in FlatMap(xs, f) <==> exists k | 0 <= k < |xs| :: y in f(xs[k])
  {
    if |xs| > 0 {
      FlatMapMembers(xs[1..], f);
      assert forall k | 1 <= k < |xs| :: xs[k] == xs[1..][k - 1];
    }
  }
}
