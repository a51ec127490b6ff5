/**
 * The median the forecasters take of their candidate values (numpy's
 * `median`, as called by src/forecasting/gci.py:66 and
 * db/forecast_experiment.py:57).
 *
 * The median of a non-empty list is the middle element of its sorted copy, or
 * the mean of the two middle elements when the length is even. numpy answers
 * NaN for an empty list and for a list holding a NaN; NaN is `None` here.
 */
module Statistics {
  import opened Wrappers

  predicate Sorted(s: seq<real>)
  {
    forall i, j :: 0 <= i < j < |s| ==> s[i] <= s[j]
  }

  /** `x` inserted into the sorted `s` before the first larger element. */
  function Insert(x: real, s: seq<real>): (r: seq<real>)
    requires Sorted(s)
    ensures Sorted(r)
    ensures multiset(r) == multiset(s) + multiset{x}
    ensures |r| == |s| + 1
    ensures r[0] == if s == [] || x <= s[0] then x else s[0]
  {
    if s == [] then [x]
    else if x <= s[0] then
      PrependSorted(x, s);
      [x] + s
    else
      assert s == [s[0]] + s[1..];
      var rest := Insert(x, s[1..]);
      PrependSorted(s[0], rest);
      [s[0]] + rest
  }

  lemma PrependSorted(h: real, s: seq<real>)
    requires Sorted(s) && (s == [] || h <= s[0])
    ensures Sorted([h] + s)
  {
    forall i, j | 0 <= i < j < |[h] + s| ensures ([h] + s)[i] <= ([h] + s)[j] {
      if i == 0 && j > 1 {
        assert s[0] <= s[j - 1];
      }
    }
  }

  /** The values in ascending order. */
  function Sort(s: seq<real>): (r: seq<real>)
    ensures Sorted(r)
    ensures multiset(r) == multiset(s)
    ensures |r| == |s|
  {
    if s == [] then []
    else
      assert s == [s[0]] + s[1..];
      Insert(s[0], Sort(s[1..]))
  }

  /** The median of an already sorted, non-empty list. */
  function MedianOfSorted(r: seq<real>): (m: real)
    requires Sorted(r) && r != []
    ensures r[0] <= m <= r[|r| - 1]
  {
    if |r| % 2 == 1 then r[|r| / 2] else (r[|r| / 2 - 1] + r[|r| / 2]) / 2.0
  }

  /** The median of a list of numbers; NaN (`None`) for the empty list. */
  function MedianOf(s: seq<real>): (m: Option<real>)
    ensures m.Some? <==> s != []
  {
    if s == [] then None else Some(MedianOfSorted(Sort(s)))
  }

  /** No candidate is NaN. */
  predicate AllNumbers(points: seq<Option<real>>)
  {
    forall i :: 0 <= i < |points| ==> points[i].Some?
  }

  function Numbers(points: seq<Option<real>>): (s: seq<real>)
    requires AllNumbers(points)
    ensures |s| == |points|
    ensures forall i :: 0 <= i < |points| ==> s[i] == points[i].value
  {
    seq(|points|, i requires 0 <= i < |points| => points[i].value)
  }

  /** `np.median` of candidates that may be NaN: NaN when any is, or when there are none. */
  function Median(points: seq<Option<real>>): (m: Option<real>)
    ensures m.Some? <==> points != [] && AllNumbers(points)
  {
    if AllNumbers(points) then MedianOf(Numbers(points)) else None
  }

  /** Two sorted lists with the same elements are the same list. */
  lemma {:induction false} SortedUnique(a: seq<real>, b: seq<real>)
    requires Sorted(a) && Sorted(b) && multiset(a) == multiset(b)
    ensures a == b
    decreases |a|
  {
    if a != [] {
      assert |b| == |a| by {
        assert |multiset(a)| == |a| && |multiset(b)| == |b|;
      }
      assert a[0] in multiset(b) && b[0] in multiset(a) by {
        assert a[0] in multiset(a) && b[0] in multiset(b);
      }
      assert a[0] == b[0] by {
        var i :| 0 <= i < |b| && b[i] == a[0];
        var j :| 0 <= j < |a| && a[j] == b[0];
        assert b[0] <= b[i] && a[0] <= a[j];
      }
      assert a == [a[0]] + a[1..] && b == [b[0]] + b[1..];
      calc {
        multiset(a[1..]);
        multiset(a) - multiset{a[0]};
        multiset(b) - multiset{b[0]};
        multiset(b[1..]);
      }
      SortedUnique(a[1..], b[1..]);
    }
  }

  /** The median does not depend on the order in which the candidates were collected. */
  lemma MedianOfPermutation(s: seq<real>, t: seq<real>)
    requires multiset(s) == multiset(t)
    ensures MedianOf(s) == MedianOf(t)
  {
    if s != [] {
      assert |s| == |t| by {
        assert |multiset(s)| == |s| && |multiset(t)| == |t|;
      }
      SortedUnique(Sort(s), Sort(t));
    }
  }

  /** The median lies between the smallest and the largest candidate. */
  lemma MedianWithinRange(s: seq<real>)
    requires s != []
    ensures exists i :: 0 <= i < |s| && s[i] <= MedianOf(s).value
    ensures exists j :: 0 <= j < |s| && MedianOf(s).value <= s[j]
  {
    var r := Sort(s);
    assert r[0] in multiset(s) && r[|r| - 1] in multiset(s) by {
      assert r[0] in multiset(r) && r[|r| - 1] in multiset(r);
    }
    var i :| 0 <= i < |s| && s[i] == r[0];
    var j :| 0 <= j < |s| && s[j] == r[|r| - 1];
  }

  /** The median of one value is that value. */
  lemma MedianOfOne(a: real)
    ensures MedianOf([a]) == Some(a)
  {
  }

  /** The median of two values is their mean. */
  lemma MedianOfTwo(a: real, b: real)
    ensures MedianOf([a, b]) == Some((a + b) / 2.0)
  {
    assert [a, b][1..] == [b] && [b][1..] == [];
    var one := Sort([b]);
    assert one == Insert(b, Sort([]));
    assert one == [b];
    var two := Sort([a, b]);
    assert two == Insert(a, one);
    if a <= b {
      assert two == [a, b];
    } else {
      assert Insert(a, []) == [a];
      assert two == [b] + Insert(a, [b][1..]);
      assert two == [b, a];
    }
    assert MedianOfSorted(two) == (two[0] + two[1]) / 2.0;
  }

  /** Two candidates that are both numbers have their mean as median. */
  lemma MedianOfTwoPoints(a: real, b: real)
    ensures Median([Some(a), Some(b)]) == Some((a + b) / 2.0)
  {
    var points := [Some(a), Some(b)];
    assert AllNumbers(points);
    assert Numbers(points) == [a, b];
    MedianOfTwo(a, b);
  }
}
