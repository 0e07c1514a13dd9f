/**
 * Lists that only ever receive values not already present: the collected
 * mail entries and the distinct addresses kept for the map export. Appending
 * goes through `if x not in list: list.append(x)`.
 */
module Dedup {

  predicate NoDuplicates(s: seq<string>) {
    forall i, j :: 0 <= i < j < |s| ==> s[i] != s[j]
  }

  /** `if x not in list: list.append(x)` */
  function AddNew(list: seq<string>, x: string): seq<string> {
    if x in list then list else list + [x]
  }

  /**
   * The list after offering every element of `xs` in turn. The old list is
   * kept as a prefix, the membership is the union, no duplicate is
   * introduced, and what is added comes from `xs` and was not there before.
   */
  function AddAllNew(list: seq<string>, xs: seq<string>): (r: seq<string>)
    ensures |list| <= |r| && r[..|list|] == list
    ensures forall x :: x in r <==> x in list || x in xs
    ensures forall i :: |list| <= i < |r| ==> r[i] in xs && r[i] !in list
    ensures NoDuplicates(list) ==> NoDuplicates(r)
    decreases |xs|
  {
    if xs == [] then list
    else
      var r := AddAllNew(list, xs[..|xs| - 1]);
      var x := xs[|xs| - 1];
      assert forall y :: y in xs <==> y in xs[..|xs| - 1] || y == x by {
        assert xs == xs[..|xs| - 1] + [x];
      }
      AddNew(r, x)
  }

  /** Offering one more value is one more `if x not in list: list.append(x)`. */
  lemma AddAllNewStep(list: seq<string>, xs: seq<string>, x: string)
    ensures AddAllNew(list, xs + [x]) == AddNew(AddAllNew(list, xs), x)
  {
    assert (xs + [x])[..|xs|] == xs;
  }

  /** Offering `xs` and then `ys` is offering `xs + ys`. */
  lemma {:induction false} AddAllNewConcat(list: seq<string>, xs: seq<string>, ys: seq<string>)
    ensures AddAllNew(AddAllNew(list, xs), ys) == AddAllNew(list, xs + ys)
    decreases |ys|
  {
    if ys == [] {
      assert xs + ys == xs;
    } else {
      var init, y := ys[..|ys| - 1], ys[|ys| - 1];
      assert ys == init + [y];
      assert xs + ys == (xs + init) + [y];
      calc {
        AddAllNew(AddAllNew(list, xs), ys);
        { AddAllNewStep(AddAllNew(list, xs), init, y); }
        AddNew(AddAllNew(AddAllNew(list, xs), init), y);
        { AddAllNewConcat(list, xs, init); }
        AddNew(AddAllNew(list, xs + init), y);
        { AddAllNewStep(list, xs + init, y); }
        AddAllNew(list, xs + ys);
      }
    }
  }

  /** Offering two values is offering one after the other. */
  lemma AddAllNewPair(list: seq<string>, x: string, y: string)
    ensures AddAllNew(list, [x, y]) == AddNew(AddNew(list, x), y)
  {
    assert [x, y][..1] == [x] && [x][..0] == [];
    assert AddAllNew(list, [x]) == AddNew(list, x);
  }

  /** Offering values that are all present already changes nothing. */
  lemma {:induction false} AddAllNewPresent(list: seq<string>, xs: seq<string>)
    requires forall x :: x in xs ==> x in list
    ensures AddAllNew(list, xs) == list
    decreases |xs|
  {
    if xs != [] {
      var init := xs[..|xs| - 1];
      assert forall x :: x in init ==> x in xs;
      AddAllNewPresent(list, init);
      assert xs[|xs| - 1] in xs;
    }
  }

  /** Feeding the same values a second time leaves the list unchanged. */
  lemma AddAllNewIdempotent(list: seq<string>, xs: seq<string>)
    ensures AddAllNew(AddAllNew(list, xs), xs) == AddAllNew(list, xs)
  {
    AddAllNewPresent(AddAllNew(list, xs), xs);
  }

  /** Index of the first occurrence of `x` in `xs`. */
  function FirstIndex(xs: seq<string>, x: string): (k: nat)
    requires x in xs
    ensures k < |xs| && xs[k] == x && x !in xs[..k]
  {
    if xs[0] == x then 0
    else
      assert x in xs[1..] by { assert xs == [xs[0]] + xs[1..]; }
      var k := FirstIndex(xs[1..], x);
      assert xs[..k + 1] == [xs[0]] + xs[1..][..k];
      k + 1
  }

  /** Adding to the end of `xs` does not move first occurrences already in it. */
  lemma {:induction false} FirstIndexExtend(xs: seq<string>, x: string, y: string)
    requires y in xs
    ensures y in xs + [x] && FirstIndex(xs + [x], y) == FirstIndex(xs, y)
  {
    if xs[0] != y {
      assert (xs + [x])[1..] == xs[1..] + [x];
      assert y in xs[1..] by { assert xs == [xs[0]] + xs[1..]; }
      FirstIndexExtend(xs[1..], x, y);
    }
  }

  /** A value new to `xs` is first seen where it is appended. */
  lemma {:induction false} FirstIndexNew(xs: seq<string>, x: string)
    requires x !in xs
    ensures FirstIndex(xs + [x], x) == |xs|
  {
    if xs != [] {
      assert (xs + [x])[1..] == xs[1..] + [x];
      assert x !in xs[1..] by { assert xs == [xs[0]] + xs[1..]; }
      FirstIndexNew(xs[1..], x);
    }
  }

  /** What is added keeps first-seen order: it is ordered by first occurrence in `xs`. */
  lemma {:induction false} AddAllNewFirstSeenOrder(list: seq<string>, xs: seq<string>, i: nat, j: nat)
    requires |list| <= i < j < |AddAllNew(list, xs)|
    ensures AddAllNew(list, xs)[i] in xs && AddAllNew(list, xs)[j] in xs
    ensures FirstIndex(xs, AddAllNew(list, xs)[i]) < FirstIndex(xs, AddAllNew(list, xs)[j])
    decreases |xs|
  {
    var init := xs[..|xs| - 1];
    var x := xs[|xs| - 1];
    assert xs == init + [x];
    var r := AddAllNew(list, init);
    var r' := AddAllNew(list, xs);
    var a, b := r'[i], r'[j];
    if j < |r| {
      assert a == r[i] && b == r[j];
      AddAllNewFirstSeenOrder(list, init, i, j);
      FirstIndexExtend(init, x, a);
      FirstIndexExtend(init, x, b);
    } else {
      assert x !in r && b == x && a == r[i];
      assert x !in init;
      FirstIndexExtend(init, x, a);
      FirstIndexNew(init, x);
    }
  }
}
