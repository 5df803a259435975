/** Failure-carrying datatypes shared by the other modules, and the values kept from a run of optional results. */
module Wrappers {

  /** Python's `None` versus a present value. */
  datatype Option<+T> = None | Some(value: T) {
    /** `value if present else default`, the shape of `dict.get(key, default)`. */
    function GetOr(default: T): T {
      match this
      case Some(v) => v
      case None => default
    }
  }

  /** A value, or the exception that an operation raises instead. */
  datatype Result<+R, +E> = Success(value: R) | Failure(error: E)

  /** An operation that returns nothing, or the exception it raises. */
  datatype Outcome<+E> = Pass | Fail(error: E)

  /** `f` applied to every element, in order. */
  function Map<A, B>(f: A -> B, xs: seq<A>): (ys: seq<B>)
    ensures |ys| == |xs|
    ensures forall i :: 0 <= i < |xs| ==> ys[i] == f(xs[i])
  {
    seq(|xs|, i requires 0 <= i < |xs| => f(xs[i]))
  }

  /** Mapping distributes over concatenation. */
  lemma MapAppend<A, B>(f: A -> B, a: seq<A>, b: seq<A>)
    ensures Map(f, a + b) == Map(f, a) + Map(f, b)
  {
    assert Map(f, a + b) == Map(f, a) + Map(f, b);
  }

  /** The concatenation of the pieces, in order. */
  function Flatten<T>(pieces: seq<seq<T>>): seq<T>
  {
    if |pieces| == 0 then [] else Flatten(pieces[..|pieces| - 1]) + pieces[|pieces| - 1]
  }

  /** Flattening distributes over concatenation. */
  lemma {:induction false} FlattenAppend<T>(a: seq<seq<T>>, b: seq<seq<T>>)
    ensures Flatten(a + b) == Flatten(a) + Flatten(b)
  {
    if |b| == 0 {
      assert a + b == a;
    } else {
      var b', last := b[..|b| - 1], b[|b| - 1];
      FlattenAppend(a, b');
      assert (a + b)[..|a + b| - 1] == a + b';
      assert (a + b)[|a + b| - 1] == last;
    }
  }

  /** Every element of a flattening comes from one of the pieces. */
  lemma {:induction false} FlattenMember<T>(pieces: seq<seq<T>>, x: T)
    requires x in Flatten(pieces)
    ensures exists i :: 0 <= i < |pieces| && x in pieces[i]
  {
    var n := |pieces|;
    if x in pieces[n - 1] {
    } else {
      FlattenMember(pieces[..n - 1], x);
      var i :| 0 <= i < n - 1 && x in pieces[..n - 1][i];
      assert pieces[..n - 1][i] == pieces[i];
    }
  }

  /** The values of the present results, in order: a loop that skips every `None`. */
  function Present<T>(results: seq<Option<T>>): seq<T>
  {
    if |results| == 0 then []
    else
      var last := results[|results| - 1];
      Present(results[..|results| - 1]) + (if last.Some? then [last.value] else [])
  }

  /** The positions of the present results, in increasing order. */
  function PresentPositions<T>(results: seq<Option<T>>): seq<nat>
  {
    if |results| == 0 then []
    else PresentPositions(results[..|results| - 1]) + (if results[|results| - 1].Some? then [|results| - 1] else [])
  }

  /** One more result adds its value, if present, at the end. */
  lemma PresentSnoc<T>(results: seq<Option<T>>, r: Option<T>)
    ensures Present(results + [r]) == Present(results) + (if r.Some? then [r.value] else [])
  {
    assert (results + [r])[..|results|] == results;
  }

  /** Mapping one more element of `xs` adds its image, if present, at the end. */
  lemma PresentMapStep<A, B>(f: A -> Option<B>, xs: seq<A>, i: nat)
    requires i < |xs|
    ensures Present(Map(f, xs[..i + 1])) == Present(Map(f, xs[..i])) + (if f(xs[i]).Some? then [f(xs[i]).value] else [])
  {
    assert xs[..i + 1] == xs[..i] + [xs[i]];
    MapAppend(f, xs[..i], [xs[i]]);
    assert Map(f, [xs[i]]) == [f(xs[i])];
    PresentSnoc(Map(f, xs[..i]), f(xs[i]));
  }

  /** Keeping the present values distributes over concatenation. */
  lemma {:induction false} PresentAppend<T>(a: seq<Option<T>>, b: seq<Option<T>>)
    ensures Present(a + b) == Present(a) + Present(b)
  {
    if |b| == 0 {
      assert a + b == a;
    } else {
      var b', r := b[..|b| - 1], b[|b| - 1];
      PresentAppend(a, b');
      assert a + b == (a + b') + [r];
      assert b == b' + [r];
      PresentSnoc(a + b', r);
      PresentSnoc(b', r);
    }
  }

  /** A `None` between two runs of results contributes nothing and leaves both runs' values as they are. */
  lemma PresentSkipsNone<T>(a: seq<Option<T>>, b: seq<Option<T>>)
    ensures Present(a + [None] + b) == Present(a + b)
  {
    PresentAppend(a + [None], b);
    PresentSnoc(a, None);
    PresentAppend(a, b);
  }

  /** At most one value per result; exactly one per result iff every result is present. */
  lemma {:induction false} PresentLength<T>(results: seq<Option<T>>)
    ensures |Present(results)| <= |results|
    ensures |Present(results)| == |results| <==> forall i :: 0 <= i < |results| ==> results[i].Some?
  {
    if |results| > 0 {
      var n := |results|;
      var init := results[..n - 1];
      PresentLength(init);
      if results[n - 1].Some? {
        if forall i :: 0 <= i < n - 1 ==> init[i].Some? {
          forall i | 0 <= i < n
            ensures results[i].Some?
          {
            if i < n - 1 {
              assert results[i] == init[i];
            }
          }
        } else {
          var i :| 0 <= i < n - 1 && init[i].None?;
          assert results[i] == init[i];
        }
      }
    }
  }

  /**
   * The kept values are an in-order subsequence of the results: the k-th
   * value is the result at the k-th kept position, the positions increase,
   * and every present result is kept.
   */
  lemma {:induction false} PresentIsSubsequence<T>(results: seq<Option<T>>)
    ensures
      var out, pos := Present(results), PresentPositions(results);
      && |pos| == |out|
      && (forall k :: 0 <= k < |pos| ==> pos[k] < |results| && results[pos[k]] == Some(out[k]))
      && (forall k, l :: 0 <= k < l < |pos| ==> pos[k] < pos[l])
      && (forall i :: 0 <= i < |results| && results[i].Some? ==> i in pos)
  {
    if |results| > 0 {
      var n := |results|;
      var init := results[..n - 1];
      PresentIsSubsequence(init);
      var initPos := PresentPositions(init);
      forall k | 0 <= k < |initPos|
        ensures results[initPos[k]] == init[initPos[k]]
      {
      }
      forall i | 0 <= i < n - 1 && results[i].Some?
        ensures i in initPos
      {
        assert results[i] == init[i];
      }
    }
  }
}
