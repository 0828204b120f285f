/** The one array combinator the modelled code relies on: `Array.prototype.filter`. */
module Arrays {

  /** The elements of `xs` that `keep` accepts, in their original order. */
  function Filter<T(!new)>(xs: seq<T>, keep: T -> bool): (r: seq<T>)
    ensures |r| <= |xs|
    ensures forall x :: x in r <==> x in xs && keep(x)
  {
    if xs == [] then []
    else (if keep(xs[0]) then [xs[0]] else []) + Filter(xs[1..], keep)
  }

  /** Filtering an element put in front decides that element, then filters the rest. */
  lemma FilterCons<T(!new)>(x: T, xs: seq<T>, keep: T -> bool)
    ensures Filter([x] + xs, keep) == (if keep(x) then [x] else []) + Filter(xs, keep)
  {
    assert ([x] + xs)[1..] == xs;
  }

  /** One step of filtering `xs` from the front onto the kept prefix `done`. */
  lemma FilterStep<T(!new)>(done: seq<T>, xs: seq<T>, k: nat, keep: T -> bool)
    requires k < |xs|
    ensures done + Filter(xs[k..], keep) == (if keep(xs[k]) then done + [xs[k]] else done) + Filter(xs[k + 1..], keep)
  {
    assert xs[k..] == [xs[k]] + xs[k + 1..];
    FilterCons(xs[k], xs[k + 1..], keep);
  }

  /** Filtering keeps the relative order of what it keeps: an order that holds
      between every earlier and later element of `xs` still holds in the result. */
  lemma {:induction false} FilterKeepsOrder<T(!new)>(xs: seq<T>, keep: T -> bool, before: (T, T) -> bool)
    requires forall i, j :: 0 <= i < j < |xs| ==> before(xs[i], xs[j])
    ensures forall i, j :: 0 <= i < j < |Filter(xs, keep)| ==> before(Filter(xs, keep)[i], Filter(xs, keep)[j])
  {
    if xs != [] {
      var tail := Filter(xs[1..], keep);
      TailOrdered(xs, before);
      FilterKeepsOrder(xs[1..], keep, before);
      if keep(xs[0]) {
        var r := [xs[0]] + tail;
        assert Filter(xs, keep) == r;
        HeadBefore(xs, before);
        forall i, j | 0 <= i < j < |r| ensures before(r[i], r[j]) {
          var y := tail[j - 1];
          assert r[j] == y;
          if i == 0 {
            assert y in tail;
            assert y in xs[1..];
          } else {
            assert r[i] == tail[i - 1];
          }
        }
      } else {
        assert Filter(xs, keep) == tail;
      }
    }
  }

  /** The order holds among the later elements too. */
  lemma TailOrdered<T>(xs: seq<T>, before: (T, T) -> bool)
    requires xs != []
    requires forall i, j :: 0 <= i < j < |xs| ==> before(xs[i], xs[j])
    ensures forall i, j :: 0 <= i < j < |xs[1..]| ==> before(xs[1..][i], xs[1..][j])
  {
    forall i, j | 0 <= i < j < |xs[1..]| ensures before(xs[1..][i], xs[1..][j]) {
      assert xs[1..][i] == xs[i + 1] && xs[1..][j] == xs[j + 1];
    }
  }

  /** The first element comes before every later one. */
  lemma HeadBefore<T>(xs: seq<T>, before: (T, T) -> bool)
    requires xs != []
    requires forall i, j :: 0 <= i < j < |xs| ==> before(xs[i], xs[j])
    ensures forall y :: y in xs[1..] ==> before(xs[0], y)
  {
    forall y | y in xs[1..] ensures before(xs[0], y) {
      var k :| 0 <= k < |xs[1..]| && xs[1..][k] == y;
      assert y == xs[k + 1];
    }
  }
}
