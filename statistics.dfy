/** The order statistics of the benchmark analysis: sorting, the median split and the paired differences. */
module Statistics {
  predicate Sorted(s: seq<real>) {
    forall i, j :: 0 <= i < j < |s| ==> s[i] <= s[j]
  }

  function Insert(x: real, s: seq<real>): (r: seq<real>)
    ensures |r| == |s| + 1 && multiset(r) == multiset(s) + multiset{x}
  {
    if s == [] || x <= s[0] then [x] + s
    else assert s == [s[0]] + s[1..]; [s[0]] + Insert(x, s[1..])
  }

  lemma {:induction false} InsertSorted(x: real, s: seq<real>)
    requires Sorted(s)
    ensures Sorted(Insert(x, s))
  {
    if s != [] && x > s[0] {
      InsertSorted(x, s[1..]);
      var r := Insert(x, s[1..]);
      assert forall k :: 0 <= k < |r| ==> s[0] <= r[k] by {
        forall k | 0 <= k < |r| ensures s[0] <= r[k] {
          assert r[k] in multiset(r);
          assert r[k] in multiset(s[1..]) + multiset{x};
          if r[k] in multiset(s[1..]) {
            var m :| 0 <= m < |s[1..]| && s[1..][m] == r[k];
            assert s[1 + m] == r[k];
          }
        }
      }
    }
  }

  /** `sorted`: the values in increasing order. */
  function Sort(s: seq<real>): (r: seq<real>)
    ensures |r| == |s| && multiset(r) == multiset(s)
  {
    if s == [] then [] else assert s == [s[0]] + s[1..]; Insert(s[0], Sort(s[1..]))
  }

  lemma {:induction false} SortSorted(s: seq<real>)
    ensures Sorted(Sort(s))
  {
    if s != [] {
      SortSorted(s[1..]);
      InsertSorted(s[0], Sort(s[1..]));
    }
  }

  /** The split of already sorted values: lower half, upper half and the median. */
  function Split(s: seq<real>): (r: (seq<real>, seq<real>, real))
    requires |s| > 0
  {
    var mid, rem := |s| / 2, |s| % 2;
    if rem != 0 then (s[..mid], s[mid + 1..], s[mid])
    else (s[..mid], s[mid..], (s[mid - 1] + s[mid]) / 2.0)
  }

  /**
   * `median`: the split of the sorted values. The two halves are equally
   * long, and together with the median for an odd count they hold
   * exactly the sample's values.
   */
  function Median(x: seq<real>): (r: (seq<real>, seq<real>, real))
    requires |x| > 0
    ensures |r.0| == |r.1| == |x| / 2
    ensures multiset(r.0) + multiset(r.1) + (if |x| % 2 == 1 then multiset{r.2} else multiset{}) == multiset(x)
  {
    SplitParts(Sort(x));
    Split(Sort(x))
  }

  /**
   * The halves and the median put back together are the sorted values; for
   * an odd count the median is the middle value and belongs to neither
   * half, for an even count it is the mean of the two middle values.
   */
  lemma SplitParts(s: seq<real>)
    requires |s| > 0
    ensures |Split(s).0| == |Split(s).1| == |s| / 2
    ensures |s| % 2 == 1 ==> Split(s).0 + [Split(s).2] + Split(s).1 == s && Split(s).2 == s[|s| / 2]
    ensures |s| % 2 == 0 ==> Split(s).0 + Split(s).1 == s
    ensures |s| % 2 == 0 ==> Split(s).2 == (s[|s| / 2 - 1] + s[|s| / 2]) / 2.0
  {
    var mid := |s| / 2;
    if |s| % 2 == 1 {
      assert s[..mid] + [s[mid]] + s[mid + 1..] == s;
    } else {
      assert s[..mid] + s[mid..] == s;
    }
  }

  lemma MedianSplits(x: seq<real>)
    requires |x| > 0
    ensures |Median(x).0| == |Median(x).1| == |x| / 2
    ensures |x| % 2 == 1 ==> Median(x).0 + [Median(x).2] + Median(x).1 == Sort(x) && Median(x).2 == Sort(x)[|x| / 2]
    ensures |x| % 2 == 0 ==> Median(x).0 + Median(x).1 == Sort(x)
    ensures |x| % 2 == 0 ==> Median(x).2 == (Sort(x)[|x| / 2 - 1] + Sort(x)[|x| / 2]) / 2.0
  {
    SplitParts(Sort(x));
  }

  /** Every value of the lower half is at most the median, which is at most every value of the upper half. */
  lemma MedianOrdered(x: seq<real>)
    requires |x| > 0
    ensures var (lower, upper, m) := Median(x);
      (forall i :: 0 <= i < |lower| ==> lower[i] <= m) && (forall j :: 0 <= j < |upper| ==> m <= upper[j])
  {
    var s := Sort(x);
    SortSorted(x);
    var mid := |s| / 2;
    assert Median(x) == Split(s);
    if |x| % 2 == 0 {
      assert s[mid - 1] <= s[mid];
      forall i | 0 <= i < mid ensures s[i] <= (s[mid - 1] + s[mid]) / 2.0 {
        assert s[i] <= s[mid - 1];
      }
      forall j | mid <= j < |s| ensures (s[mid - 1] + s[mid]) / 2.0 <= s[j] {
        assert s[mid] <= s[j];
      }
    }
  }

  /** The paired difference series of the two sorted samples, as long as the first one. */
  function Differences(arr1: seq<real>, arr2: seq<real>): (arr: seq<real>)
    requires |arr1| <= |arr2|
    ensures |arr| == |arr1|
    ensures forall i :: 0 <= i < |arr| ==> arr[i] == Sort(arr2)[i] - Sort(arr1)[i]
  {
    var s1, s2 := Sort(arr1), Sort(arr2);
    seq(|s1|, i requires 0 <= i < |s1| => s2[i] - s1[i])
  }

  /** A sample compared with any reordering of itself gives only zero differences. */
  lemma DifferencesOfPermutation(a: seq<real>, b: seq<real>)
    requires multiset(a) == multiset(b)
    ensures |a| == |b| && forall i :: 0 <= i < |a| ==> Differences(a, b)[i] == 0.0
  {
    assert |a| == |multiset(a)| == |b|;
    SortSorted(a);
    SortSorted(b);
    SortUnique(Sort(a), Sort(b));
  }

  lemma MultisetTail(s: seq<real>)
    requires s != []
    ensures multiset(s[1..]) == multiset(s) - multiset{s[0]}
  {
    assert s == [s[0]] + s[1..];
  }

  lemma SortedTail(s: seq<real>)
    requires Sorted(s) && s != []
    ensures Sorted(s[1..])
  {
    forall i, j | 0 <= i < j < |s| - 1 ensures s[1..][i] <= s[1..][j] {
      assert s[1..][i] == s[i + 1] && s[1..][j] == s[j + 1];
    }
  }

  /** The first value of a non-empty sorted sequence is its least element. */
  lemma SortedHead(s: seq<real>, x: real)
    requires Sorted(s) && x in multiset(s)
    ensures s[0] <= x
  {
    var j :| 0 <= j < |s| && s[j] == x;
  }

  /** Two sorted sequences with the same elements are equal. */
  lemma {:induction false} SortUnique(s: seq<real>, t: seq<real>)
    requires Sorted(s) && Sorted(t) && multiset(s) == multiset(t)
    ensures s == t
    decreases |s|
  {
    assert |t| == |multiset(t)| == |s|;
    if s != [] {
      assert t[0] in multiset(s) && s[0] in multiset(t);
      SortedHead(s, t[0]);
      SortedHead(t, s[0]);
      MultisetTail(s);
      MultisetTail(t);
      SortedTail(s);
      SortedTail(t);
      assert s[0] == t[0];
      assert multiset(s[1..]) == multiset(t[1..]);
      SortUnique(s[1..], t[1..]);
      assert s == [s[0]] + s[1..] && t == [t[0]] + t[1..];
    }
  }

  /** The median of a sample does not depend on the order of its values. */
  lemma MedianOfPermutation(a: seq<real>, b: seq<real>)
    requires |a| > 0 && multiset(a) == multiset(b)
    ensures |b| > 0 && Median(a) == Median(b)
  {
    assert |a| == |multiset(a)| == |b|;
    SortSorted(a);
    SortSorted(b);
    SortUnique(Sort(a), Sort(b));
  }
}
