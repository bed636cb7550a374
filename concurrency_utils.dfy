/**
 * ConcurrencyUtils.waitForAllAndMerge: the futures of every strategy, joined in stream order,
 * their lists concatenated. Each future is taken as already completed.
 */
module ConcurrencyUtils {
  import opened Wrappers

  /** Reference concatenation of a sequence of lists, in order. */
  function Flatten<T>(xss: seq<seq<T>>): (r: seq<T>)
    ensures |r| == TotalLength(xss)
  {
    if xss == [] then [] else xss[0] + Flatten(xss[1..])
  }

  /** An element is in the concatenation exactly when it is in one of the lists. */
  lemma {:induction false} FlattenMembership<T>(xss: seq<seq<T>>)
    ensures forall x :: x in Flatten(xss) <==> exists i :: 0 <= i < |xss| && x in xss[i]
  {
    if xss != [] {
      FlattenMembership(xss[1..]);
      forall x ensures x in Flatten(xss) <==> exists i :: 0 <= i < |xss| && x in xss[i] {
        if x in Flatten(xss[1..]) {
          var i :| 0 <= i < |xss[1..]| && x in xss[1..][i];
          assert x in xss[i + 1];
        }
        if exists i :: 1 <= i < |xss| && x in xss[i] {
          var i :| 1 <= i < |xss| && x in xss[i];
          assert x in xss[1..][i - 1];
        }
      }
    }
  }

  /** Each position of the concatenation holds an element of one of the lists. */
  lemma {:induction false} FlattenPositions<T>(xss: seq<seq<T>>)
    ensures forall k :: 0 <= k < |Flatten(xss)| ==> exists i :: 0 <= i < |xss| && Flatten(xss)[k] in xss[i]
  {
    if xss != [] {
      FlattenPositions(xss[1..]);
      forall k | 0 <= k < |Flatten(xss)|
        ensures exists i :: 0 <= i < |xss| && Flatten(xss)[k] in xss[i]
      {
        if k < |xss[0]| {
          assert Flatten(xss)[k] == xss[0][k];
        } else {
          assert Flatten(xss)[k] == Flatten(xss[1..])[k - |xss[0]|];
          var i :| 0 <= i < |xss[1..]| && Flatten(xss[1..])[k - |xss[0]|] in xss[1..][i];
          assert Flatten(xss)[k] in xss[i + 1];
        }
      }
    } else {
      assert Flatten(xss) == [];
    }
  }

  function TotalLength<T>(xss: seq<seq<T>>): nat
  {
    if xss == [] then 0 else |xss[0]| + TotalLength(xss[1..])
  }

  /** Flattening a concatenation flattens each part. */
  lemma {:induction false} FlattenAppend<T>(a: seq<seq<T>>, b: seq<seq<T>>)
    ensures Flatten(a + b) == Flatten(a) + Flatten(b)
  {
    if a == [] {
      assert a + b == b;
    } else {
      assert (a + b)[1..] == a[1..] + b;
      FlattenAppend(a[1..], b);
    }
  }

  /** Every future completed normally. */
  predicate AllCompleted<T>(fs: seq<Future<T>>)
  {
    forall i :: 0 <= i < |fs| ==> fs[i].Ok?
  }

  /** CompletableFuture.join: the list of a completed future, or a CompletionException around its cause. */
  function Join<T>(f: Future<T>): (r: Result<seq<T>>)
    ensures f.Ok? ==> r == Ok(f.value)
    ensures f.Throws? ==> r == Throws(CompletionException(f.exception))
  {
    match f
    case Ok(xs) => Ok(xs)
    case Throws(e) => Throws(CompletionException(e))
  }

  /**
   * map(join).flatMap(List::stream) over a stream of futures: the lists concatenated in order,
   * or, at the first future that failed, the exception its join throws.
   */
  function JoinAndConcat<T>(fs: seq<Future<T>>): (r: Result<seq<T>>)
    ensures r.Ok? <==> AllCompleted(fs)
    ensures r.Throws? ==>
              exists i :: 0 <= i < |fs| && fs[i].Throws? && (forall j :: 0 <= j < i ==> fs[j].Ok?)
                && r.exception == CompletionException(fs[i].exception)
  {
    if fs == [] then Ok([])
    else match Join(fs[0])
      case Throws(e) => Throws(e)
      case Ok(xs) =>
        var rest := JoinAndConcat(fs[1..]);
        if rest.Throws? then
          var i :| 0 <= i < |fs[1..]| && fs[1..][i].Throws? && (forall j :: 0 <= j < i ==> fs[1..][j].Ok?)
                   && rest.exception == CompletionException(fs[1..][i].exception);
          assert fs[i + 1] == fs[1..][i];
          assert forall j :: 1 <= j < i + 1 ==> fs[j] == fs[1..][j - 1];
          Throws(rest.exception)
        else
          assert forall i :: 1 <= i < |fs| ==> fs[i] == fs[1..][i - 1];
          Ok(xs + rest.value)
  }

  /**
   * Joining two runs of futures one after the other: the first run's exception if it has one,
   * else the second run's, else both lists concatenated.
   */
  lemma {:induction false} JoinAndConcatAppend<T>(a: seq<Future<T>>, b: seq<Future<T>>)
    ensures JoinAndConcat(a).Throws? ==> JoinAndConcat(a + b) == JoinAndConcat(a)
    ensures JoinAndConcat(a).Ok? && JoinAndConcat(b).Throws? ==> JoinAndConcat(a + b) == JoinAndConcat(b)
    ensures JoinAndConcat(a).Ok? && JoinAndConcat(b).Ok? ==> JoinAndConcat(a + b) == Ok(JoinAndConcat(a).value + JoinAndConcat(b).value)
  {
    if a == [] {
      assert a + b == b;
      if JoinAndConcat(b).Ok? {
        assert [] + JoinAndConcat(b).value == JoinAndConcat(b).value;
      }
    } else {
      assert (a + b)[0] == a[0] && (a + b)[1..] == a[1..] + b;
      JoinAndConcatAppend(a[1..], b);
      if JoinAndConcat(a).Ok? && JoinAndConcat(b).Ok? {
        var x, xs, ys := a[0].value, JoinAndConcat(a[1..]).value, JoinAndConcat(b).value;
        assert JoinAndConcat(a).value == x + xs;
        assert JoinAndConcat(a + b) == Ok(x + (xs + ys));
        assert x + (xs + ys) == (x + xs) + ys;
      }
    }
  }

  /** The lists of futures that all completed normally. */
  function Lists<T>(fs: seq<Future<T>>): (r: seq<seq<T>>)
    requires AllCompleted(fs)
    ensures |r| == |fs| && forall i :: 0 <= i < |fs| ==> r[i] == fs[i].value
  {
    seq(|fs|, i requires 0 <= i < |fs| => fs[i].value)
  }

  /** When every future completed normally, the result is the ordered concatenation of their lists. */
  lemma {:induction false} JoinAndConcatIsFlatten<T>(fs: seq<Future<T>>)
    requires AllCompleted(fs)
    ensures JoinAndConcat(fs) == Ok(Flatten(Lists(fs)))
  {
    if fs != [] {
      JoinAndConcatIsFlatten(fs[1..]);
      assert Lists(fs)[1..] == Lists(fs[1..]);
    }
  }

  /** waitForAllAndMerge: every strategy's futures in stream order, joined one by one, concatenated. */
  function WaitForAllAndMerge<T>(stream: seq<seq<Future<T>>>): (r: Result<seq<T>>)
    ensures r.Ok? <==> AllCompleted(Flatten(stream))
    ensures r.Throws? ==> r.exception.CompletionException?
  {
    JoinAndConcat(Flatten(stream))
  }

  /**
   * With every future completed normally, the result is the concatenation of all lists in
   * strategy, future and list order; its length is the sum of their lengths (duplicates are
   * kept) and an element is in it exactly when it is in one of the lists.
   */
  lemma WaitForAllAndMergeConcatenates<T>(stream: seq<seq<Future<T>>>)
    requires AllCompleted(Flatten(stream))
    ensures WaitForAllAndMerge(stream) == Ok(Flatten(Lists(Flatten(stream))))
    ensures |WaitForAllAndMerge(stream).value| == TotalLength(Lists(Flatten(stream)))
    ensures forall x :: x in WaitForAllAndMerge(stream).value
              <==> exists i :: 0 <= i < |Flatten(stream)| && x in Flatten(stream)[i].value
  {
    var fs := Flatten(stream);
    JoinAndConcatIsFlatten(fs);
    FlattenMembership(Lists(fs));
  }

  lemma {:induction false} JoinAndConcatOfEmptyLists<T>(fs: seq<Future<T>>)
    requires forall i :: 0 <= i < |fs| ==> fs[i].Ok? && fs[i].value == []
    ensures JoinAndConcat(fs).Ok? && JoinAndConcat(fs).value == []
  {
    if fs != [] {
      JoinAndConcatOfEmptyLists(fs[1..]);
    }
  }

  /** No strategies, or only futures with empty lists, give the empty list. */
  lemma WaitForAllAndMergeOfEmptyLists<T>(stream: seq<seq<Future<T>>>)
    requires forall i :: 0 <= i < |Flatten(stream)| ==> Flatten(stream)[i].Ok? && Flatten(stream)[i].value == []
    ensures WaitForAllAndMerge(stream).Ok? && WaitForAllAndMerge(stream).value == []
  {
    JoinAndConcatOfEmptyLists(Flatten(stream));
  }

  /** The same object in two lists appears twice: the list merge keeps duplicates. */
  lemma WaitForAllAndMergeKeepsDuplicates<T>(x: T, stream: seq<seq<Future<T>>>)
    requires stream == [[Ok([x])], [Ok([x])]]
    ensures WaitForAllAndMerge(stream).Ok? && WaitForAllAndMerge(stream).value == [x, x]
  {
    assert stream[1..] == [[Ok([x])]] && stream[1..][1..] == [];
    assert Flatten(stream[1..][1..]) == [];
    assert Flatten(stream[1..]) == [Ok([x])];
    var fs := Flatten(stream);
    assert fs == [Ok([x]), Ok([x])];
    assert fs[1..] == [Ok([x])] && fs[1..][1..] == [];
    assert JoinAndConcat(fs[1..][1..]).value == [];
    assert Join(fs[1..][0]) == Ok([x]) && [x] + [] == [x];
    assert JoinAndConcat(fs[1..]) == Ok([x]);
  }
}
