/** The median of a list of numbers: the middle one in ascending order, or the mean of the middle
    two. */
module Medians {
  function InsertInto(sorted: seq<int>, x: int): (r: seq<int>)
    ensures |r| == |sorted| + 1
  {
    if sorted == [] || x <= sorted[0] then [x] + sorted else [sorted[0]] + InsertInto(sorted[1..], x)
  }

  function Sort(s: seq<int>): (r: seq<int>)
    ensures |r| == |s|
  {
    if s == [] then [] else InsertInto(Sort(s[1..]), s[0])
  }

  predicate Ascending(s: seq<int>) {
    forall i, j | 0 <= i < j < |s| :: s[i] <= s[j]
  }

  lemma {:induction false} InsertKeeps(sorted: seq<int>, x: int)
    ensures multiset(InsertInto(sorted, x)) == multiset(sorted) + multiset{x}
  {
    if sorted != [] && x > sorted[0] {
      InsertKeeps(sorted[1..], x);
      assert sorted == [sorted[0]] + sorted[1..];
    }
  }

  lemma AscendingCons(x: int, rest: seq<int>)
    requires Ascending(rest) && forall y | y in multiset(rest) :: x <= y
    ensures Ascending([x] + rest)
  {
    var s := [x] + rest;
    forall i, j | 0 <= i < j < |s|
      ensures s[i] <= s[j]
    {
      assert rest[j - 1] in multiset(rest);
      if i > 0 {
        assert rest[i - 1] <= rest[j - 1];
      }
    }
  }

  lemma {:induction false} InsertAscends(sorted: seq<int>, x: int)
    requires Ascending(sorted)
    ensures Ascending(InsertInto(sorted, x))
  {
    if sorted == [] || x <= sorted[0] {
      AscendingCons(x, sorted);
    } else {
      InsertAscends(sorted[1..], x);
      InsertKeeps(sorted[1..], x);
      AscendingCons(sorted[0], InsertInto(sorted[1..], x));
    }
  }

  // What the median is read from: the deltas in ascending order.
  lemma {:induction false} SortSorts(s: seq<int>)
    ensures Ascending(Sort(s)) && multiset(Sort(s)) == multiset(s)
  {
    if s != [] {
      SortSorts(s[1..]);
      InsertAscends(Sort(s[1..]), s[0]);
      InsertKeeps(Sort(s[1..]), s[0]);
      assert s == [s[0]] + s[1..];
    }
  }

  function Median(s: seq<int>): real
    requires s != []
  {
    var t, m := Sort(s), |s| / 2;
    if |s| % 2 == 1 then t[m] as real else (t[m - 1] + t[m]) as real / 2.0
  }

  // ---------- it is the middle ----------

  function Count(s: seq<int>, p: int -> bool): nat {
    if s == [] then 0 else (if p(s[0]) then 1 else 0) + Count(s[1..], p)
  }

  function Below(s: seq<int>, x: real): nat {
    Count(s, v => v as real < x)
  }

  function Above(s: seq<int>, x: real): nat {
    Count(s, v => v as real > x)
  }

  lemma {:induction false} InsertCounts(sorted: seq<int>, x: int, p: int -> bool)
    ensures Count(InsertInto(sorted, x), p) == Count(sorted, p) + if p(x) then 1 else 0
  {
    if sorted == [] || x <= sorted[0] {
      assert ([x] + sorted)[1..] == sorted;
    } else {
      InsertCounts(sorted[1..], x, p);
    }
  }

  lemma {:induction false} SortCounts(s: seq<int>, p: int -> bool)
    ensures Count(Sort(s), p) == Count(s, p)
  {
    if s != [] {
      SortCounts(s[1..], p);
      InsertCounts(Sort(s[1..]), s[0], p);
    }
  }

  // From k on it holds of none, or before k of none.
  lemma {:induction false} CountAtMost(t: seq<int>, p: int -> bool, k: nat)
    requires k <= |t|
    ensures (forall i | k <= i < |t| :: !p(t[i])) ==> Count(t, p) <= k
    ensures (forall i | 0 <= i < k :: !p(t[i])) ==> Count(t, p) <= |t| - k
  {
    if t != [] {
      var rest := t[1..];
      assert forall i | 0 <= i < |rest| :: rest[i] == t[i + 1];
      CountAtMost(rest, p, if k == 0 then 0 else k - 1);
    }
  }

  lemma Ranked(s: seq<int>, x: real, k: nat, l: nat)
    requires k <= |s| && l <= |s|
    requires forall i | k <= i < |s| :: Sort(s)[i] as real >= x
    requires forall i | 0 <= i < l :: Sort(s)[i] as real <= x
    ensures Below(s, x) <= k && Above(s, x) <= |s| - l
  {
    var below, above := (v: int) => v as real < x, (v: int) => v as real > x;
    CountAtMost(Sort(s), below, k);
    CountAtMost(Sort(s), above, l);
    SortCounts(s, below);
    SortCounts(s, above);
    assert Below(s, x) == Count(s, below) && Above(s, x) == Count(s, above);
  }

  // One of the values with fewer than this many below it, and fewer than that many above.
  predicate HasRank(s: seq<int>, x: int, fewerBelow: nat, fewerAbove: nat) {
    x in s && Below(s, x as real) < fewerBelow && Above(s, x as real) < fewerAbove
  }

  lemma SortKeeps(s: seq<int>, i: nat)
    requires i < |s|
    ensures Sort(s)[i] in s
  {
    SortSorts(s);
    assert Sort(s)[i] in multiset(Sort(s));
  }

  lemma SortedOrder(s: seq<int>, i: nat, j: nat)
    requires i <= j < |s|
    ensures Sort(s)[i] <= Sort(s)[j]
  {
    SortSorts(s);
  }

  lemma RankOf(s: seq<int>, i: nat)
    requires i < |s|
    ensures HasRank(s, Sort(s)[i], i + 1, |s| - i)
  {
    SortKeeps(s, i);
    forall j | 0 <= j < |s| ensures j <= i ==> Sort(s)[j] <= Sort(s)[i]
      ensures i <= j ==> Sort(s)[i] <= Sort(s)[j]
    {
      SortedOrder(s, if j <= i then j else i, if j <= i then i else j);
    }
    Ranked(s, Sort(s)[i] as real, i, i + 1);
  }

  // At most half of the values lie on either side.  For an odd count it is the value in the
  // middle; for an even one the mean of the two there.
  predicate IsMiddle(s: seq<int>, m: real)
    requires s != []
  {
    && 2 * Below(s, m) <= |s| && 2 * Above(s, m) <= |s|
    && (|s| % 2 == 1 ==> exists x | x in s :: HasRank(s, x, |s| / 2 + 1, |s| / 2 + 1) && m == x as real)
    && (|s| % 2 == 0 ==>
          exists x, y | x in s && y in s ::
            HasRank(s, x, |s| / 2, |s| / 2 + 1) && HasRank(s, y, |s| / 2 + 1, |s| / 2) && x <= y
            && m == (x as real + y as real) / 2.0)
  }

  lemma MedianIsMiddle(s: seq<int>)
    requires s != []
    ensures IsMiddle(s, Median(s))
  {
    var t, m := Sort(s), |s| / 2;
    RankOf(s, m);
    if |s| % 2 == 1 {
      MiddleOfOdd(s);
    } else {
      RankOf(s, m - 1);
      SortedOrder(s, m - 1, m);
      MiddleOfEven(s, t[m - 1], t[m]);
    }
  }

  lemma MiddleOfOdd(s: seq<int>)
    requires |s| % 2 == 1 && HasRank(s, Sort(s)[|s| / 2], |s| / 2 + 1, |s| - |s| / 2)
    ensures Median(s) == Sort(s)[|s| / 2] as real && HasRank(s, Sort(s)[|s| / 2], |s| / 2 + 1, |s| / 2 + 1)
    ensures 2 * Below(s, Median(s)) <= |s| && 2 * Above(s, Median(s)) <= |s|
  {
  }

  lemma MiddleOfEven(s: seq<int>, x: int, y: int)
    requires |s| % 2 == 0 && HasRank(s, x, |s| / 2, |s| / 2 + 1) && HasRank(s, y, |s| / 2 + 1, |s| / 2)
    requires x <= y && s != [] && x == Sort(s)[|s| / 2 - 1] && y == Sort(s)[|s| / 2]
    ensures Median(s) == (x as real + y as real) / 2.0
    ensures 2 * Below(s, Median(s)) <= |s| && 2 * Above(s, Median(s)) <= |s|
  {
    BelowMore(s, Median(s), y as real);
    AboveMore(s, Median(s), x as real);
  }

  lemma {:induction false} BelowMore(s: seq<int>, x: real, y: real)
    requires x <= y
    ensures Below(s, x) <= Below(s, y)
  {
    if s != [] {
      BelowMore(s[1..], x, y);
      BelowCons(s, x);
      BelowCons(s, y);
    }
  }

  lemma {:induction false} AboveMore(s: seq<int>, x: real, y: real)
    requires y <= x
    ensures Above(s, x) <= Above(s, y)
  {
    if s != [] {
      AboveMore(s[1..], x, y);
      BelowCons(s, x);
      BelowCons(s, y);
    }
  }

  lemma BelowCons(s: seq<int>, x: real)
    requires s != []
    ensures Below(s, x) == Below(s[1..], x) + if s[0] as real < x then 1 else 0
    ensures Above(s, x) == Above(s[1..], x) + if s[0] as real > x then 1 else 0
  {
  }
}
