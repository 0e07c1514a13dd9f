/**
 * The data-flow chart: capture timestamps, taken relative to the earliest
 * one and grouped into 20-second buckets, each bucket labelled and counted.
 *
 * A bucket label is the wall-clock time `first + 20 * n` seconds; it is
 * represented here by the bucket number `n`.
 */
module Flow {
  import opened Packets

  /** Seconds per bucket. */
  const IntervalPeriod: nat := 20

  // ---------------------------------------------------------------------
  // Sorting: `sorted(...)` on timestamps
  // ---------------------------------------------------------------------

  predicate Sorted(s: seq<real>) {
    forall i, j :: 0 <= i < j < |s| ==> s[i] <= s[j]
  }

  /** Places `x` behind every element not greater than it. */
  function InsertReal(x: real, s: seq<real>): (r: seq<real>)
    ensures |r| == |s| + 1
    decreases |s|
  {
    if s == [] then [x]
    else if s[0] <= x then [s[0]] + InsertReal(x, s[1..])
    else [x] + s
  }

  /** Insertion adds `x` and loses nothing. */
  lemma {:induction false} InsertRealPermutes(x: real, s: seq<real>)
    ensures multiset(InsertReal(x, s)) == multiset(s) + multiset{x}
    decreases |s|
  {
    if s != [] && s[0] <= x {
      InsertRealPermutes(x, s[1..]);
      assert s == [s[0]] + s[1..];
    }
  }

  /** Every element of the insertion is `x` or an element of `s`. */
  lemma {:induction false} InsertRealFrom(x: real, s: seq<real>)
    ensures forall y :: y in InsertReal(x, s) ==> y == x || y in s
    decreases |s|
  {
    if s != [] && s[0] <= x {
      InsertRealFrom(x, s[1..]);
    }
  }

  lemma {:induction false} InsertRealSorted(x: real, s: seq<real>)
    requires Sorted(s)
    ensures Sorted(InsertReal(x, s))
    decreases |s|
  {
    if s != [] && s[0] <= x {
      InsertRealSorted(x, s[1..]);
      InsertRealFrom(x, s[1..]);
      var r := InsertReal(x, s);
      forall i, j | 0 <= i < j < |r|
        ensures r[i] <= r[j]
      {
        if i == 0 {
          assert r[j] in InsertReal(x, s[1..]);
        }
      }
    }
  }

  /** `sorted(...)`: an insertion sort, from the last element back. */
  function SortReals(s: seq<real>): (r: seq<real>)
    ensures |r| == |s|
    ensures Sorted(r)
    decreases |s|
  {
    if s == [] then []
    else
      var r := SortReals(s[..|s| - 1]);
      InsertRealSorted(s[|s| - 1], r);
      InsertReal(s[|s| - 1], r)
  }

  /** Sorting keeps exactly the elements it is given. */
  lemma {:induction false} SortRealsPermutes(s: seq<real>)
    ensures multiset(SortReals(s)) == multiset(s)
    decreases |s|
  {
    if s != [] {
      var init, x := s[..|s| - 1], s[|s| - 1];
      assert s == init + [x];
      calc {
        multiset(SortReals(s));
        multiset(InsertReal(x, SortReals(init)));
        { InsertRealPermutes(x, SortReals(init)); }
        multiset(SortReals(init)) + multiset{x};
        { SortRealsPermutes(init); }
        multiset(init) + multiset{x};
        multiset(init + [x]);
      }
    }
  }

  lemma {:induction false} InsertRealLast(x: real, s: seq<real>)
    requires forall i :: 0 <= i < |s| ==> s[i] <= x
    ensures InsertReal(x, s) == s + [x]
    decreases |s|
  {
    if s != [] {
      InsertRealLast(x, s[1..]);
      assert s == [s[0]] + s[1..];
    }
  }

  /** Sorting what is already sorted changes nothing. */
  lemma {:induction false} SortRealsSorted(s: seq<real>)
    requires Sorted(s)
    ensures SortReals(s) == s
    decreases |s|
  {
    if s != [] {
      var init := s[..|s| - 1];
      SortRealsSorted(init);
      InsertRealLast(s[|s| - 1], init);
      assert init + [s[|s| - 1]] == s;
    }
  }

  /** Each timestamp's offset from the first, in seconds. */
  function Offsets(s: seq<real>): (r: seq<real>)
    requires s != []
    ensures |r| == |s|
    ensures forall i :: 0 <= i < |s| ==> r[i] == s[i] - s[0]
    ensures Sorted(s) ==> r[0] == 0.0 && Sorted(r) && forall i :: 0 <= i < |r| ==> r[i] >= 0.0
  {
    seq(|s|, i requires 0 <= i < |s| => s[i] - s[0])
  }

  /** The relative times the chart is built from: offsets of the sorted timestamps, sorted again. */
  function RelativeTimes(ts: seq<real>): seq<real>
    requires ts != []
  {
    SortReals(Offsets(SortReals(ts)))
  }

  /** The second sort is already sorted: the relative times start at 0 and never decrease. */
  lemma RelativeTimesShape(ts: seq<real>)
    requires ts != []
    ensures |RelativeTimes(ts)| == |ts|
    ensures RelativeTimes(ts)[0] == 0.0
    ensures Sorted(RelativeTimes(ts))
    ensures forall i :: 0 <= i < |ts| ==> RelativeTimes(ts)[i] >= 0.0
  {
    var s := SortReals(ts);
    var o := Offsets(s);
    assert Sorted(o);
    SortRealsSorted(o);
  }

  // ---------------------------------------------------------------------
  // Bucketing
  // ---------------------------------------------------------------------

  /**
   * The bucket a relative time is filed under, given the current bucket: the
   * current one while the time is below its upper bound, otherwise the next
   * one. The label moves on by at most one bucket per time.
   */
  function Advance(cursor: nat, x: real): nat {
    if x < UpperBound(cursor) then cursor else cursor + 1
  }

  /** The exclusive upper bound of bucket `cursor`, in seconds after the first time. */
  function UpperBound(cursor: nat): real {
    (cursor + 1) as real * 20.0
  }

  /** The current bucket after the times `xs`. */
  function Cursor(xs: seq<real>): nat
    decreases |xs|
  {
    if xs == [] then 0 else Advance(Cursor(xs[..|xs| - 1]), xs[|xs| - 1])
  }

  /** A chart point: bucket number and the number of times filed under it. */
  datatype Bucket = Bucket(index: nat, count: nat)

  /**
   * The dictionary of buckets after the times `xs`, in insertion order.
   * Bucket numbers are consecutive, every bucket holds at least one time,
   * and the last bucket is the current one.
   */
  function Histogram(xs: seq<real>): (h: seq<Bucket>)
    ensures xs == [] <==> h == []
    ensures h != [] ==> h[|h| - 1].index == Cursor(xs)
    ensures forall j :: 0 <= j < |h| ==> h[j].count >= 1
    ensures Contiguous(h)
    decreases |xs|
  {
    if xs == [] then []
    else
      var h := Histogram(xs[..|xs| - 1]);
      assert h != [] ==> Cursor(xs) == h[|h| - 1].index || Cursor(xs) == h[|h| - 1].index + 1;
      Filed(h, Cursor(xs))
  }

  /** Bucket numbers go up by one from each bucket to the next. */
  predicate Contiguous(h: seq<Bucket>) {
    forall j :: 0 < j < |h| ==> h[j].index == h[j - 1].index + 1
  }

  /** The dictionary after filing one more time under bucket `c`. */
  function Filed(h: seq<Bucket>, c: nat): (r: seq<Bucket>)
    ensures r != [] && r[|r| - 1].index == c
    ensures (forall j :: 0 <= j < |h| ==> h[j].count >= 1) ==> forall j :: 0 <= j < |r| ==> r[j].count >= 1
    ensures Contiguous(h) && (h == [] || c == h[|h| - 1].index || c == h[|h| - 1].index + 1) ==> Contiguous(r)
    ensures Total(r) == Total(h) + 1
  {
    if h != [] && h[|h| - 1].index == c then
      var r := h[..|h| - 1] + [Bucket(c, h[|h| - 1].count + 1)];
      assert r[..|r| - 1] == h[..|h| - 1];
      r
    else
      var r := h + [Bucket(c, 1)];
      assert r[..|r| - 1] == h;
      r
  }

  /** One more time: the cursor steps and the time is filed under it. */
  lemma PrefixStep(xs: seq<real>, i: nat)
    requires i < |xs|
    ensures Cursor(xs[..i + 1]) == Advance(Cursor(xs[..i]), xs[i])
    ensures Histogram(xs[..i + 1]) == Filed(Histogram(xs[..i]), Cursor(xs[..i + 1]))
  {
    assert xs[..i + 1][..i] == xs[..i];
  }

  function Total(h: seq<Bucket>): nat
    decreases |h|
  {
    if h == [] then 0 else Total(h[..|h| - 1]) + h[|h| - 1].count
  }

  /** Every time is counted in exactly one bucket. */
  lemma {:induction false} HistogramTotal(xs: seq<real>)
    ensures Total(Histogram(xs)) == |xs|
    decreases |xs|
  {
    if xs != [] {
      HistogramTotal(xs[..|xs| - 1]);
    }
  }

  /** The first bucket is the one the first time falls in. */
  lemma {:induction false} HistogramFirst(xs: seq<real>)
    requires xs != []
    ensures Histogram(xs)[0].index == Advance(0, xs[0])
    decreases |xs|
  {
    if |xs| > 1 {
      var init := xs[..|xs| - 1];
      HistogramFirst(init);
      assert init[0] == xs[0];
    } else {
      assert xs[..0] == [];
      assert Histogram(xs[..0]) == [] && Cursor(xs[..0]) == 0;
    }
  }

  /**
   * The labels lag behind: for sorted, non-negative times, the current bucket
   * never starts after the latest time.
   */
  lemma {:induction false} CursorNotAhead(xs: seq<real>)
    requires xs != [] && Sorted(xs)
    requires forall i :: 0 <= i < |xs| ==> xs[i] >= 0.0
    ensures Cursor(xs) as real * 20.0 <= xs[|xs| - 1]
    decreases |xs|
  {
    if |xs| > 1 {
      CursorNotAhead(xs[..|xs| - 1]);
    } else {
      assert xs[..0] == [];
    }
  }

  /**
   * One step per time: a time 100 seconds after the first is filed under the
   * bucket labelled 20 seconds, not the one labelled 100 seconds.
   */
  lemma LabelLagExample()
    ensures Histogram([0.0, 100.0]) == [Bucket(0, 1), Bucket(1, 1)]
  {
    assert [0.0, 100.0][..1] == [0.0];
    assert [0.0][..0] == [];
    assert Cursor([0.0]) == 0;
    assert Histogram([0.0]) == [Bucket(0, 1)];
  }

  function Indices(h: seq<Bucket>): (r: seq<nat>)
    ensures |r| == |h| && forall j :: 0 <= j < |h| ==> r[j] == h[j].index
  {
    seq(|h|, j requires 0 <= j < |h| => h[j].index)
  }

  function Counts(h: seq<Bucket>): (r: seq<nat>)
    ensures |r| == |h| && forall j :: 0 <= j < |h| ==> r[j] == h[j].count
  {
    seq(|h|, j requires 0 <= j < |h| => h[j].count)
  }

  function SumNat(s: seq<nat>): nat
    decreases |s|
  {
    if s == [] then 0 else SumNat(s[..|s| - 1]) + s[|s| - 1]
  }

  lemma {:induction false} SumCounts(h: seq<Bucket>)
    ensures SumNat(Counts(h)) == Total(h)
    decreases |h|
  {
    if h != [] {
      SumCounts(h[..|h| - 1]);
      assert Counts(h)[..|h| - 1] == Counts(h[..|h| - 1]);
    }
  }

  /** The buckets as the dictionary holds them: lists of times keyed by bucket number. */
  ghost predicate Holds(labels: seq<nat>, groups: map<nat, seq<real>>, h: seq<Bucket>) {
    && |labels| == |h|
    && (forall k :: k in groups <==> k in labels)
    && (forall j :: 0 <= j < |h| ==> labels[j] == h[j].index && labels[j] in groups && |groups[labels[j]]| == h[j].count)
  }

  /** Every bucket but the last has a smaller number than the last. */
  lemma BelowLast(h: seq<Bucket>)
    requires Contiguous(h)
    ensures forall j :: 0 <= j < |h| - 1 ==> h[j].index < h[|h| - 1].index
  {
    forall j | 0 <= j < |h| - 1
      ensures h[j].index < h[|h| - 1].index
    {
      IndicesBelow(h, j);
    }
  }

  /** Filing under the last bucket's label appends the time to that label's list. */
  lemma FileExisting(labels: seq<nat>, groups: map<nat, seq<real>>, h: seq<Bucket>, c: nat, x: real)
    requires Holds(labels, groups, h) && Contiguous(h)
    requires h != [] && c == h[|h| - 1].index
    ensures c in groups
    ensures Holds(labels, groups[c := groups[c] + [x]], Filed(h, c))
  {
    var n := |h|;
    assert labels[n - 1] == c;
    BelowLast(h);
    var r := Filed(h, c);
    assert r == h[..n - 1] + [Bucket(c, h[n - 1].count + 1)];
    var g := groups[c := groups[c] + [x]];
    forall j | 0 <= j < n
      ensures labels[j] == r[j].index && labels[j] in g && |g[labels[j]]| == r[j].count
    {
      if j < n - 1 {
        assert r[j] == h[j];
      }
    }
  }

  /** Filing under a label past the last bucket's enters the label with a one-element list. */
  lemma FileNew(labels: seq<nat>, groups: map<nat, seq<real>>, h: seq<Bucket>, c: nat, x: real)
    requires Holds(labels, groups, h) && Contiguous(h)
    requires h == [] || c == h[|h| - 1].index + 1
    ensures c !in groups
    ensures Holds(labels + [c], groups[c := [x]], Filed(h, c))
  {
    BelowLast(h);
    assert forall j :: 0 <= j < |h| ==> labels[j] < c;
    var r := Filed(h, c);
    assert r == h + [Bucket(c, 1)];
    var g := groups[c := [x]];
    var l := labels + [c];
    forall j | 0 <= j < |r|
      ensures l[j] == r[j].index && l[j] in g && |g[l[j]]| == r[j].count
    {
      if j < |h| {
        assert l[j] == labels[j] && r[j] == h[j];
      }
    }
  }

  lemma {:induction false} IndicesBelow(h: seq<Bucket>, j: nat)
    requires j < |h| && Contiguous(h)
    ensures h[j].index + (|h| - 1 - j) == h[|h| - 1].index
    decreases |h| - j
  {
    if j < |h| - 1 {
      IndicesBelow(h, j + 1);
    }
  }

  /**
   * Filing a time in the dictionary: under an existing label the time is
   * appended to its list, otherwise the label is entered with a one-element
   * list. The label exists exactly when it is the last bucket's.
   */
  lemma FileStep(labels: seq<nat>, groups: map<nat, seq<real>>, h: seq<Bucket>, c: nat, x: real)
    requires Holds(labels, groups, h) && Contiguous(h)
    requires h == [] || c == h[|h| - 1].index || c == h[|h| - 1].index + 1
    ensures Holds(if c in groups then labels else labels + [c],
                  groups[c := if c in groups then groups[c] + [x] else [x]],
                  Filed(h, c))
  {
    if h != [] && c == h[|h| - 1].index {
      FileExisting(labels, groups, h, c, x);
    } else {
      FileNew(labels, groups, h, c, x);
    }
  }

  /** Filing the next time under the next cursor extends the dictionary to one more time. */
  lemma FileNext(times: seq<real>, i: nat, labels: seq<nat>, groups: map<nat, seq<real>>)
    requires i < |times| && Holds(labels, groups, Histogram(times[..i]))
    ensures Cursor(times[..i + 1]) == Advance(Cursor(times[..i]), times[i])
    ensures var c := Cursor(times[..i + 1]);
      Holds(if c in groups then labels else labels + [c],
            groups[c := if c in groups then groups[c] + [times[i]] else [times[i]]],
            Histogram(times[..i + 1]))
  {
    PrefixStep(times, i);
    var h := Histogram(times[..i]);
    FileStep(labels, groups, h, Cursor(times[..i + 1]), times[i]);
  }

  /** `mydict[label]` gets `x` appended, the label being entered first when it is new. */
  method FileUnder(labels: seq<nat>, groups: map<nat, seq<real>>, c: nat, x: real)
    returns (labels': seq<nat>, groups': map<nat, seq<real>>)
    ensures labels' == if c in groups then labels else labels + [c]
    ensures groups' == groups[c := if c in groups then groups[c] + [x] else [x]]
  {
    if c !in groups {
      labels', groups' := labels + [c], groups[c := [x]];
    } else {
      labels', groups' := labels, groups[c := groups[c] + [x]];
    }
  }

  /**
   * The bucketing loop: files each relative time under the current label,
   * moving the label on when the time reaches the bucket's upper bound, then
   * lists each label with the number of times filed under it.
   */
  method Bucketize(times: seq<real>) returns (xValues: seq<nat>, yValues: seq<nat>)
    ensures xValues == Indices(Histogram(times))
    ensures yValues == Counts(Histogram(times))
  {
    var labels, groups := FileAll(times);
    xValues, yValues := Series(labels, groups);
    SeriesOfHeld(labels, groups, Histogram(times), xValues, yValues);
  }

  /** The labels and list lengths of a dictionary holding `h` are its bucket numbers and counts. */
  lemma SeriesOfHeld(labels: seq<nat>, groups: map<nat, seq<real>>, h: seq<Bucket>, xs: seq<nat>, ys: seq<nat>)
    requires Holds(labels, groups, h)
    requires |xs| == |labels| && |ys| == |labels|
    requires forall j :: 0 <= j < |labels| ==> xs[j] == labels[j] && ys[j] == |groups[labels[j]]|
    ensures xs == Indices(h) && ys == Counts(h)
  {
  }

  /** The first loop: the dictionary of labels to lists of times. */
  method FileAll(times: seq<real>) returns (labels: seq<nat>, groups: map<nat, seq<real>>)
    ensures Holds(labels, groups, Histogram(times))
  {
    var interval: real := IntervalPeriod as real;
    var current: nat := 0;
    groups, labels := map[], [];
    var i := 0;
    while i < |times|
      invariant 0 <= i <= |times|
      invariant current == Cursor(times[..i])
      invariant interval == UpperBound(current)
      invariant Holds(labels, groups, Histogram(times[..i]))
    {
      FileNext(times, i, labels, groups);
      current, interval, labels, groups := FileOne(times[i], current, interval, labels, groups);
      i := i + 1;
    }
    assert times[..i] == times;
  }

  /**
   * One turn of the first loop: a time below the bound is filed under the
   * current label; otherwise the label and the bound move on by one bucket
   * first.
   */
  method FileOne(x: real, current: nat, interval: real, labels: seq<nat>, groups: map<nat, seq<real>>)
    returns (current': nat, interval': real, labels': seq<nat>, groups': map<nat, seq<real>>)
    requires interval == UpperBound(current)
    ensures current' == Advance(current, x) && interval' == UpperBound(current')
    ensures labels' == if current' in groups then labels else labels + [current']
    ensures groups' == groups[current' := if current' in groups then groups[current'] + [x] else [x]]
  {
    current', interval' := current, interval;
    if x < interval {
      labels', groups' := FileUnder(labels, groups, current', x);
    } else {
      current' := current' + 1;
      interval' := interval' + IntervalPeriod as real;
      labels', groups' := FileUnder(labels, groups, current', x);
    }
  }

  /** Lists each label in insertion order with the length of its list. */
  method Series(labels: seq<nat>, groups: map<nat, seq<real>>) returns (xValues: seq<nat>, yValues: seq<nat>)
    requires forall j :: 0 <= j < |labels| ==> labels[j] in groups
    ensures |xValues| == |labels| && |yValues| == |labels|
    ensures forall j :: 0 <= j < |labels| ==> xValues[j] == labels[j] && yValues[j] == |groups[labels[j]]|
  {
    xValues, yValues := [], [];
    var j := 0;
    while j < |labels|
      invariant 0 <= j <= |labels|
      invariant |xValues| == j && |yValues| == j
      invariant forall k :: 0 <= k < j ==> xValues[k] == labels[k] && yValues[k] == |groups[labels[k]]|
    {
      xValues := xValues + [labels[j]];
      yValues := yValues + [|groups[labels[j]]|];
      j := j + 1;
    }
  }

  /** The two series the chart plots. */
  datatype Chart = Chart(xValues: seq<nat>, yValues: seq<nat>)

  /** The flow-chart collector. */
  class FlowChart {
    var timestamps: seq<real>

    constructor ()
      ensures timestamps == []
    {
      timestamps := [];
    }

    method AddTimestamp(ts: real)
      modifies this
      ensures timestamps == old(timestamps) + [ts]
    {
      timestamps := timestamps + [ts];
    }

    /**
     * Builds the chart. With no timestamps, reading the first one fails;
     * with fewer than two buckets the threshold's standard deviation fails.
     * Otherwise the labels are consecutive from the first bucket and the
     * counts add up to the number of timestamps.
     */
    method Output() returns (chart: Option<Chart>)
      modifies this
      ensures timestamps == SortReals(old(timestamps))
      ensures old(timestamps) == [] ==> chart == None
      ensures old(timestamps) != [] ==>
        chart == (if |Histogram(RelativeTimes(old(timestamps)))| < 2 then None
                  else Some(Chart(Indices(Histogram(RelativeTimes(old(timestamps)))),
                                  Counts(Histogram(RelativeTimes(old(timestamps)))))))
      ensures chart.Some? ==> |chart.value.xValues| >= 2 && chart.value.xValues[0] == 0
      ensures chart.Some? ==> forall j :: 0 < j < |chart.value.xValues| ==> chart.value.xValues[j] == chart.value.xValues[j - 1] + 1
      ensures chart.Some? ==> SumNat(chart.value.yValues) == |old(timestamps)|
    {
      timestamps := SortReals(timestamps);
      if timestamps == [] {
        return None;
      }
      var relative := SortReals(Offsets(timestamps));
      assert relative == RelativeTimes(old(timestamps));
      var xs, ys := Bucketize(relative);
      if |xs| < 2 {
        return None;
      }
      RelativeTimesShape(old(timestamps));
      HistogramFirst(relative);
      HistogramTotal(relative);
      SumCounts(Histogram(relative));
      chart := Some(Chart(xs, ys));
    }
  }
}
