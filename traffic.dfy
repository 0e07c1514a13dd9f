/**
 * The traffic table: for every IP address seen, how many packets it sent and
 * how many it received, kept in a dictionary in first-seen order, and the
 * table ranking the addresses by total traffic.
 */
module Traffic {
  import opened Dedup

  /** The `[sent, received]` pair stored for one address. */
  datatype Traffic = Traffic(sent: nat, received: nat)

  /** Which half of the pair a count refers to. */
  datatype Side = Sent | Received

  function Other(side: Side): Side {
    if side == Sent then Received else Sent
  }

  function CountOf(v: Traffic, side: Side): nat {
    match side
    case Sent => v.sent
    case Received => v.received
  }

  /** The pair with one more packet on `side`. */
  function Bumped(v: Traffic, side: Side): (w: Traffic)
    ensures CountOf(w, side) == CountOf(v, side) + 1
    ensures CountOf(w, Other(side)) == CountOf(v, Other(side))
  {
    match side
    case Sent => v.(sent := v.sent + 1)
    case Received => v.(received := v.received + 1)
  }

  /** The count of `a` on one side, 0 for an address not in the dictionary. */
  function Count(m: map<string, Traffic>, a: string, side: Side): nat {
    if a in m then CountOf(m[a], side) else 0
  }

  /** The side's counts summed over the addresses `keys`. */
  function Sum(keys: seq<string>, m: map<string, Traffic>, side: Side): nat
    decreases |keys|
  {
    if keys == [] then 0
    else Sum(keys[..|keys| - 1], m, side) + Count(m, keys[|keys| - 1], side)
  }

  /** The sum only looks at the addresses it ranges over. */
  lemma {:induction false} SumSame(keys: seq<string>, m: map<string, Traffic>, m': map<string, Traffic>, side: Side)
    requires forall a :: a in keys ==> Count(m, a, side) == Count(m', a, side)
    ensures Sum(keys, m, side) == Sum(keys, m', side)
    decreases |keys|
  {
    if keys != [] {
      var init := keys[..|keys| - 1];
      assert forall a :: a in init ==> a in keys;
      SumSame(init, m, m', side);
      assert keys[|keys| - 1] in keys;
    }
  }

  /** A first-seen address adds its counts to the sum. */
  lemma SumFresh(keys: seq<string>, m: map<string, Traffic>, x: string, v: Traffic, side: Side)
    requires x !in keys
    ensures Sum(keys + [x], m[x := v], side) == Sum(keys, m, side) + CountOf(v, side)
  {
    assert (keys + [x])[..|keys|] == keys;
    SumSame(keys, m, m[x := v], side);
  }

  /** Replacing the pair of an address listed once changes the sum by the difference. */
  lemma {:induction false} SumReplace(keys: seq<string>, m: map<string, Traffic>, x: string, v: Traffic, side: Side)
    requires NoDuplicates(keys) && x in keys
    ensures Sum(keys, m[x := v], side) + Count(m, x, side) == Sum(keys, m, side) + CountOf(v, side)
    decreases |keys|
  {
    var init := keys[..|keys| - 1];
    var last := keys[|keys| - 1];
    assert NoDuplicates(init);
    if last == x {
      assert x !in init;
      SumSame(init, m, m[x := v], side);
    } else {
      assert x in init by { assert keys == init + [last]; }
      SumReplace(init, m, x, v, side);
    }
  }

  /** One row of the printed table: sent, received, address, total. */
  datatype Row = Row(sent: nat, received: nat, address: string, total: nat)

  /** The dictionary's items as rows, in the dictionary's order. */
  function Entries(keys: seq<string>, m: map<string, Traffic>): (r: seq<Row>)
    requires forall a :: a in keys ==> a in m
    ensures |r| == |keys|
    ensures forall i :: 0 <= i < |r| ==> r[i].address == keys[i]
    ensures forall i :: 0 <= i < |r| ==> r[i].sent == m[keys[i]].sent && r[i].received == m[keys[i]].received
    ensures forall i :: 0 <= i < |r| ==> r[i].total == r[i].sent + r[i].received
    ensures NoDuplicates(keys) && (forall a :: a in m ==> a in keys) ==>
      forall a :: a in m ==>
        exists i :: 0 <= i < |r| && r[i].address == a && (forall j :: 0 <= j < |r| && r[j].address == a ==> j == i)
  {
    seq(|keys|, i requires 0 <= i < |keys| =>
      Row(m[keys[i]].sent, m[keys[i]].received, keys[i], m[keys[i]].sent + m[keys[i]].received))
  }

  predicate Descending(s: seq<Row>) {
    forall i, j :: 0 <= i < j < |s| ==> s[i].total >= s[j].total
  }

  /** The rows with total `t`, in order. */
  function WithTotal(s: seq<Row>, t: nat): seq<Row>
    decreases |s|
  {
    if s == [] then []
    else (if s[0].total == t then [s[0]] else []) + WithTotal(s[1..], t)
  }

  lemma {:induction false} WithTotalAppend(a: seq<Row>, b: seq<Row>, t: nat)
    ensures WithTotal(a + b, t) == WithTotal(a, t) + WithTotal(b, t)
    decreases |a|
  {
    if a == [] {
      assert a + b == b;
    } else {
      var head := if a[0].total == t then [a[0]] else [];
      assert (a + b)[0] == a[0];
      assert (a + b)[1..] == a[1..] + b;
      calc {
        WithTotal(a + b, t);
        head + WithTotal(a[1..] + b, t);
        { WithTotalAppend(a[1..], b, t); }
        head + (WithTotal(a[1..], t) + WithTotal(b, t));
        (head + WithTotal(a[1..], t)) + WithTotal(b, t);
        WithTotal(a, t) + WithTotal(b, t);
      }
    }
  }

  lemma {:induction false} WithTotalNone(s: seq<Row>, t: nat)
    requires forall i :: 0 <= i < |s| ==> s[i].total < t
    ensures WithTotal(s, t) == []
    decreases |s|
  {
    if s != [] {
      WithTotalNone(s[1..], t);
    }
  }

  lemma WithTotalSingle(x: Row, t: nat)
    ensures WithTotal([x], t) == if x.total == t then [x] else []
  {
    assert [x][1..] == [];
  }

  /** Places `x` behind every row whose total is at least its own. */
  function Insert(x: Row, s: seq<Row>): seq<Row>
    decreases |s|
  {
    if s == [] then [x]
    else if s[0].total >= x.total then [s[0]] + Insert(x, s[1..])
    else [x] + s
  }

  /** Insertion adds `x` and loses nothing. */
  lemma {:induction false} InsertPermutes(x: Row, s: seq<Row>)
    ensures multiset(Insert(x, s)) == multiset(s) + multiset{x}
    decreases |s|
  {
    if s != [] && s[0].total >= x.total {
      InsertPermutes(x, s[1..]);
      assert s == [s[0]] + s[1..];
    }
  }

  /** Every row of the insertion is `x` or a row of `s`. */
  lemma {:induction false} InsertFrom(x: Row, s: seq<Row>)
    ensures forall y :: y in Insert(x, s) ==> y == x || y in s
    decreases |s|
  {
    if s != [] && s[0].total >= x.total {
      InsertFrom(x, s[1..]);
    }
  }

  /** Insertion into a descending sequence keeps it descending. */
  lemma {:induction false} InsertDescending(x: Row, s: seq<Row>)
    requires Descending(s)
    ensures Descending(Insert(x, s))
    decreases |s|
  {
    if s != [] && s[0].total >= x.total {
      InsertDescending(x, s[1..]);
      InsertFrom(x, s[1..]);
      var r := Insert(x, s);
      forall i, j | 0 <= i < j < |r|
        ensures r[i].total >= r[j].total
      {
        if i == 0 {
          assert r[j] in Insert(x, s[1..]);
        }
      }
    }
  }

  /** Inserting into a descending sequence puts `x` after the rows of its total. */
  lemma {:induction false} InsertWithTotal(x: Row, s: seq<Row>, t: nat)
    requires Descending(s)
    ensures WithTotal(Insert(x, s), t) == WithTotal(s, t) + (if x.total == t then [x] else [])
    decreases |s|
  {
    var e := if x.total == t then [x] else [];
    WithTotalSingle(x, t);
    if s == [] {
      assert Insert(x, s) == [x];
    } else if s[0].total >= x.total {
      var rest := s[1..];
      assert Descending(rest);
      assert s == [s[0]] + rest;
      calc {
        WithTotal(Insert(x, s), t);
        WithTotal([s[0]] + Insert(x, rest), t);
        { WithTotalAppend([s[0]], Insert(x, rest), t); }
        WithTotal([s[0]], t) + WithTotal(Insert(x, rest), t);
        { InsertWithTotal(x, rest, t); }
        WithTotal([s[0]], t) + (WithTotal(rest, t) + e);
        (WithTotal([s[0]], t) + WithTotal(rest, t)) + e;
        { WithTotalAppend([s[0]], rest, t); }
        WithTotal(s, t) + e;
      }
    } else {
      WithTotalAppend([x], s, t);
      if x.total == t {
        WithTotalNone(s, t);
      } else {
        assert [] + WithTotal(s, t) == WithTotal(s, t);
      }
    }
  }

  /**
   * `sorted(items, key=sent+received, reverse=True)`: a stable sort, so
   * addresses with equal totals keep their dictionary order.
   */
  function RankByTotal(s: seq<Row>): (r: seq<Row>)
    ensures Descending(r)
    decreases |s|
  {
    if s == [] then []
    else
      var r := RankByTotal(s[..|s| - 1]);
      InsertDescending(s[|s| - 1], r);
      Insert(s[|s| - 1], r)
  }

  /** Ranking reorders the rows and does nothing else. */
  lemma {:induction false} RankByTotalPermutes(s: seq<Row>)
    ensures multiset(RankByTotal(s)) == multiset(s)
    decreases |s|
  {
    if s != [] {
      var init, x := s[..|s| - 1], s[|s| - 1];
      assert s == init + [x];
      calc {
        multiset(RankByTotal(s));
        multiset(Insert(x, RankByTotal(init)));
        { InsertPermutes(x, RankByTotal(init)); }
        multiset(RankByTotal(init)) + multiset{x};
        { RankByTotalPermutes(init); }
        multiset(init) + multiset{x};
        multiset(init + [x]);
      }
    }
  }

  /** Ranking is stable: for every total, the rows with that total keep their relative order. */
  /** Stability for every total at once. */
  lemma RankByTotalStableAll(s: seq<Row>)
    ensures forall t :: WithTotal(RankByTotal(s), t) == WithTotal(s, t)
  {
    forall t: nat {
      RankByTotalStable(s, t);
    }
  }

  lemma {:induction false} RankByTotalStable(s: seq<Row>, t: nat)
    ensures WithTotal(RankByTotal(s), t) == WithTotal(s, t)
    decreases |s|
  {
    if s != [] {
      var init, x := s[..|s| - 1], s[|s| - 1];
      var r := RankByTotal(init);
      var e := if x.total == t then [x] else [];
      RankByTotalStable(init, t);
      InsertWithTotal(x, r, t);
      WithTotalAppend(init, [x], t);
      WithTotalSingle(x, t);
      calc {
        WithTotal(RankByTotal(s), t);
        WithTotal(Insert(x, r), t);
        WithTotal(r, t) + e;
        WithTotal(init, t) + WithTotal([x], t);
        WithTotal(init + [x], t);
        { assert s == init + [x]; }
        WithTotal(s, t);
      }
    }
  }

  /** Equal totals keep first-seen order, larger totals come first. */
  lemma RankingExample()
    ensures RankByTotal([Row(3, 1, "A", 4), Row(0, 5, "B", 5), Row(2, 2, "C", 4)])
         == [Row(0, 5, "B", 5), Row(3, 1, "A", 4), Row(2, 2, "C", 4)]
  {
    var s := [Row(3, 1, "A", 4), Row(0, 5, "B", 5), Row(2, 2, "C", 4)];
    assert s[..2] == [Row(3, 1, "A", 4), Row(0, 5, "B", 5)];
    assert s[..2][..1] == [Row(3, 1, "A", 4)];
    assert [Row(3, 1, "A", 4)][..0] == [];
    assert RankByTotal([Row(3, 1, "A", 4)]) == [Row(3, 1, "A", 4)];
    assert RankByTotal(s[..2]) == [Row(0, 5, "B", 5), Row(3, 1, "A", 4)];
    assert [Row(0, 5, "B", 5), Row(3, 1, "A", 4)][1..] == [Row(3, 1, "A", 4)];
    assert [Row(3, 1, "A", 4)][1..] == [];
    assert Insert(Row(2, 2, "C", 4), [Row(3, 1, "A", 4)]) == [Row(3, 1, "A", 4), Row(2, 2, "C", 4)];
  }

  /** The counts after storing `v`, one more on `side` than before, for `x`. */
  lemma BumpCounts(m: map<string, Traffic>, x: string, v: Traffic, side: Side)
    requires CountOf(v, side) == Count(m, x, side) + 1
    requires CountOf(v, Other(side)) == Count(m, x, Other(side))
    ensures forall a :: Count(m[x := v], a, side) == Count(m, a, side) + (if a == x then 1 else 0)
    ensures forall a :: Count(m[x := v], a, Other(side)) == Count(m, a, Other(side))
  {
  }

  /** The sums after storing `v` for `x`: one more on `side`, the same on the other. */
  lemma BumpSums(order: seq<string>, m: map<string, Traffic>, x: string, v: Traffic, side: Side)
    requires NoDuplicates(order) && forall a :: a in m <==> a in order
    requires CountOf(v, side) == Count(m, x, side) + 1
    requires CountOf(v, Other(side)) == Count(m, x, Other(side))
    ensures NoDuplicates(AddNew(order, x)) && forall a :: a in m[x := v] <==> a in AddNew(order, x)
    ensures Sum(AddNew(order, x), m[x := v], side) == Sum(order, m, side) + 1
    ensures Sum(AddNew(order, x), m[x := v], Other(side)) == Sum(order, m, Other(side))
  {
    if x !in order {
      SumFresh(order, m, x, v, side);
      SumFresh(order, m, x, v, Other(side));
    } else {
      SumReplace(order, m, x, v, side);
      SumReplace(order, m, x, v, Other(side));
    }
  }

  /** The traffic collector. */
  class TrafficTable {
    /** The dictionary's keys in insertion order. */
    var order: seq<string>
    var addresses: map<string, Traffic>

    ghost predicate Valid()
      reads this
    {
      && (forall a :: a in addresses <==> a in order)
      && NoDuplicates(order)
    }

    constructor ()
      ensures Valid() && order == [] && addresses == map[]
    {
      order, addresses := [], map[];
    }

    /** Counts one packet: sent by `src`, received by `dst`. */
    method AddAddress(src: string, dst: string)
      requires Valid()
      modifies this
      ensures Valid()
      ensures order == AddAllNew(old(order), [src, dst])
      ensures forall a :: Count(addresses, a, Sent) == Count(old(addresses), a, Sent) + (if a == src then 1 else 0)
      ensures forall a :: Count(addresses, a, Received) == Count(old(addresses), a, Received) + (if a == dst then 1 else 0)
      ensures Sum(order, addresses, Sent) == Sum(old(order), old(addresses), Sent) + 1
      ensures Sum(order, addresses, Received) == Sum(old(order), old(addresses), Received) + 1
    {
      AddAllNewPair(order, src, dst);
      Tally(src, Sent);
      Tally(dst, Received);
    }

    /**
     * One half of AddAddress: a first-seen address gets the pair with a 1 on
     * `side` and a 0 on the other; a known one has that side incremented.
     */
    method Tally(x: string, side: Side)
      requires Valid()
      modifies this
      ensures Valid()
      ensures order == AddNew(old(order), x)
      ensures forall a :: Count(addresses, a, side) == Count(old(addresses), a, side) + (if a == x then 1 else 0)
      ensures forall a :: Count(addresses, a, Other(side)) == Count(old(addresses), a, Other(side))
      ensures Sum(order, addresses, side) == Sum(old(order), old(addresses), side) + 1
      ensures Sum(order, addresses, Other(side)) == Sum(old(order), old(addresses), Other(side))
    {
      ghost var order0, m0 := order, addresses;
      var v;
      if x !in addresses {
        v := Bumped(Traffic(0, 0), side);
        order := order + [x];
      } else {
        v := Bumped(addresses[x], side);
      }
      addresses := addresses[x := v];
      BumpCounts(m0, x, v, side);
      BumpSums(order0, m0, x, v, side);
    }

    /** The rows of the traffic table, in the order they are printed. */
    function Ranking(): (r: seq<Row>)
      requires Valid()
      reads this
      ensures multiset(r) == multiset(Entries(order, addresses))
      ensures Descending(r)
      ensures forall t :: WithTotal(r, t) == WithTotal(Entries(order, addresses), t)
    {
      RankByTotalPermutes(Entries(order, addresses));
      RankByTotalStableAll(Entries(order, addresses));
      RankByTotal(Entries(order, addresses))
    }
  }
}
