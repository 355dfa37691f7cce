/** What the catalog code uses of java.util.ArrayList beyond append: removal of an
    element by reference. Album and Photo only overload equals for their own
    type, so ArrayList.remove(Object) falls back to identity and removes the
    first element that IS the given object. */
module Lists {

  /** No element occurs twice. */
  predicate Distinct<T(==)>(xs: seq<T>) {
    forall i, j :: 0 <= i < j < |xs| ==> xs[i] != xs[j]
  }

  /** ArrayList.remove(Object): drop the first element equal to `x`; a list
      without `x` is left as it is. */
  function RemoveFirst<T(==)>(xs: seq<T>, x: T): (r: seq<T>)
    ensures x !in xs ==> r == xs
    ensures x in xs ==> |r| == |xs| - 1
    ensures forall y :: y in r ==> y in xs
  {
    if xs == [] then []
    else if xs[0] == x then xs[1..]
    else [xs[0]] + RemoveFirst(xs[1..], x)
  }

  /** Removing the element found at index `i`, when no earlier position
      holds it, deletes exactly position `i` and keeps the order of the rest:
      it is the first occurrence that goes. */
  lemma {:induction false} RemoveFirstAt<T>(xs: seq<T>, i: nat)
    requires i < |xs|
    requires forall k :: 0 <= k < i ==> xs[k] != xs[i]
    ensures RemoveFirst(xs, xs[i]) == xs[..i] + xs[i + 1..]
  {
    if i > 0 {
      assert xs[0] == xs[..i][0];
      assert forall k :: 0 <= k < i - 1 ==> xs[1..][k] != xs[1..][i - 1] by {
        forall k | 0 <= k < i - 1 ensures xs[1..][k] != xs[1..][i - 1] {
          assert xs[1..][k] == xs[k + 1];
        }
      }
      RemoveFirstAt(xs[1..], i - 1);
      assert xs[1..][i - 1] == xs[i];
      assert [xs[0]] + (xs[1..][..i - 1] + xs[1..][i..]) == xs[..i] + xs[i + 1..];
    }
  }

  /** Appending a new element keeps a list free of repetitions. */
  lemma DistinctSnoc<T>(xs: seq<T>, x: T)
    requires Distinct(xs) && x !in xs
    ensures Distinct(xs + [x])
  {
    var ys := xs + [x];
    forall p, q | 0 <= p < q < |ys| ensures ys[p] != ys[q] {
      assert ys[p] == xs[p];
    }
  }

  /** Deleting one position keeps a list free of repetitions. */
  lemma DistinctWithout<T>(xs: seq<T>, i: nat)
    requires i < |xs| && Distinct(xs)
    ensures Distinct(xs[..i] + xs[i + 1..])
  {
    var ys := xs[..i] + xs[i + 1..];
    forall p, q | 0 <= p < q < |ys| ensures ys[p] != ys[q] {
      var p' := if p < i then p else p + 1;
      var q' := if q < i then q else q + 1;
      assert ys[p] == xs[p'] && ys[q] == xs[q'];
    }
  }
}
