/** `Iterator::filter_map` on sequences, and what it keeps. */
module Seqs {
  import opened Wrappers

  /** The `Some` results of `f` over `xs`, in order. */
  function FilterMap<T, U>(xs: seq<T>, f: T -> Option<U>): (ys: seq<U>)
    ensures |ys| <= |xs|
  {
    if xs == [] then []
    else if f(xs[0]).Some? then [f(xs[0]).value] + FilterMap(xs[1..], f)
    else FilterMap(xs[1..], f)
  }

  predicate Increasing(idx: seq<nat>) {
    forall a, b :: 0 <= a < b < |idx| ==> idx[a] < idx[b]
  }

  function Shift(idx: seq<nat>): (s: seq<nat>)
    ensures |s| == |idx|
    ensures forall k :: 0 <= k < |idx| ==> s[k] == idx[k] + 1
  {
    if idx == [] then [] else [idx[0] + 1] + Shift(idx[1..])
  }

  /** The positions of the elements `f` maps to `Some`, in increasing order. */
  function Kept<T, U>(xs: seq<T>, f: T -> Option<U>): (idx: seq<nat>)
  {
    if xs == [] then []
    else if f(xs[0]).Some? then [0] + Shift(Kept(xs[1..], f))
    else Shift(Kept(xs[1..], f))
  }

  lemma {:induction false} KeptLength<T, U>(xs: seq<T>, f: T -> Option<U>)
    ensures |Kept(xs, f)| == |FilterMap(xs, f)|
    decreases |xs|
  {
    if xs != [] {
      KeptLength(xs[1..], f);
    }
  }

  lemma {:induction false} KeptBounded<T, U>(xs: seq<T>, f: T -> Option<U>)
    ensures forall k :: 0 <= k < |Kept(xs, f)| ==> Kept(xs, f)[k] < |xs|
    decreases |xs|
  {
    if xs != [] {
      KeptBounded(xs[1..], f);
    }
  }

  lemma {:induction false} KeptIncreasing<T, U>(xs: seq<T>, f: T -> Option<U>)
    ensures Increasing(Kept(xs, f))
    decreases |xs|
  {
    if xs != [] {
      KeptIncreasing(xs[1..], f);
      var tail := Shift(Kept(xs[1..], f));
      assert Increasing(tail);
      if f(xs[0]).Some? {
        var idx := [0] + tail;
        forall a, b | 0 <= a < b < |idx|
          ensures idx[a] < idx[b]
        {
          if a > 0 {
            assert idx[a] == tail[a - 1] && idx[b] == tail[b - 1];
          }
        }
      }
    }
  }

  lemma {:induction false} KeptSound<T, U>(xs: seq<T>, f: T -> Option<U>)
    requires |Kept(xs, f)| == |FilterMap(xs, f)|
    ensures forall k :: 0 <= k < |Kept(xs, f)| ==>
      Kept(xs, f)[k] < |xs| && f(xs[Kept(xs, f)[k]]) == Some(FilterMap(xs, f)[k])
    decreases |xs|
  {
    if xs != [] {
      KeptLength(xs[1..], f);
      KeptSound(xs[1..], f);
      var tail := Kept(xs[1..], f);
      var rest := FilterMap(xs[1..], f);
      assert forall k :: 0 <= k < |tail| ==> xs[1..][tail[k]] == xs[tail[k] + 1];
      if f(xs[0]).Some? {
        assert forall k :: 1 <= k < |Kept(xs, f)| ==>
          Kept(xs, f)[k] == tail[k - 1] + 1 && FilterMap(xs, f)[k] == rest[k - 1];
      }
    }
  }

  lemma {:induction false} KeptComplete<T, U>(xs: seq<T>, f: T -> Option<U>)
    ensures forall i :: 0 <= i < |xs| && f(xs[i]).Some? ==> i in Kept(xs, f)
    decreases |xs|
  {
    if xs != [] {
      KeptComplete(xs[1..], f);
      var tail := Kept(xs[1..], f);
      forall i | 1 <= i < |xs| && f(xs[i]).Some?
        ensures i in Kept(xs, f)
      {
        assert xs[1..][i - 1] == xs[i];
        var k :| 0 <= k < |tail| && tail[k] == i - 1;
        assert Shift(tail)[k] == i;
      }
    }
  }

  /** `FilterMap` keeps exactly the elements `f` maps to `Some`, each once,
      in order: `idx` lists their positions. */
  lemma FilterMapKeeps<T, U>(xs: seq<T>, f: T -> Option<U>) returns (idx: seq<nat>)
    ensures |idx| == |FilterMap(xs, f)|
    ensures Increasing(idx)
    ensures forall k :: 0 <= k < |idx| ==> idx[k] < |xs| && f(xs[idx[k]]) == Some(FilterMap(xs, f)[k])
    ensures forall i :: 0 <= i < |xs| && f(xs[i]).Some? ==> i in idx
  {
    idx := Kept(xs, f);
    KeptLength(xs, f);
    KeptIncreasing(xs, f);
    KeptSound(xs, f);
    KeptComplete(xs, f);
  }

  /** When `f` never answers `None`, nothing is dropped. */
  lemma {:induction false} FilterMapKeepsAll<T, U>(xs: seq<T>, f: T -> Option<U>)
    requires forall i :: 0 <= i < |xs| ==> f(xs[i]).Some?
    ensures |FilterMap(xs, f)| == |xs|
    ensures forall i :: 0 <= i < |xs| ==> f(xs[i]) == Some(FilterMap(xs, f)[i])
    decreases |xs|
  {
    if xs != [] {
      FilterMapKeepsAll(xs[1..], f);
      assert forall i :: 1 <= i < |xs| ==> xs[1..][i - 1] == xs[i];
    }
  }

  /** Filtering distributes over concatenation. */
  lemma {:induction false} FilterMapAppend<T, U>(a: seq<T>, b: seq<T>, f: T -> Option<U>)
    ensures FilterMap(a + b, f) == FilterMap(a, f) + FilterMap(b, f)
    decreases |a|
  {
    if a == [] {
      assert a + b == b;
    } else {
      assert (a + b)[0] == a[0];
      assert (a + b)[1..] == a[1..] + b;
      FilterMapAppend(a[1..], b, f);
      if f(a[0]).Some? {
        calc {
          FilterMap(a + b, f);
          [f(a[0]).value] + FilterMap(a[1..] + b, f);
          [f(a[0]).value] + (FilterMap(a[1..], f) + FilterMap(b, f));
          ([f(a[0]).value] + FilterMap(a[1..], f)) + FilterMap(b, f);
        }
      }
    }
  }
}
