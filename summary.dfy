/**
 * The packet summary: per-protocol counters, total length and timestamp
 * range for TCP, UDP and IGMP, a counter of unrecognised packets and a
 * counter of every packet sorted.
 */
module Summary {
  import opened Packets

  /**
   * One protocol's statistics dictionary. A minimum timestamp of 0 stands
   * for "not set yet", so 0 is never kept as a minimum.
   */
  datatype ProtoStats = ProtoStats(counter: nat, totalLength: nat, meanLength: nat, minTs: real, maxTs: real)

  /** The dictionary as it is created: every entry 0. */
  const Fresh := ProtoStats(0, 0, 0, 0.0, 0.0)

  predicate Recognised(proto: int) {
    proto == TCP || proto == UDP || proto == IGMP
  }

  /** The update a packet of this protocol makes to its dictionary. */
  function Observe(s: ProtoStats, length: nat, ts: real): ProtoStats {
    s.(counter := s.counter + 1,
       totalLength := s.totalLength + length,
       maxTs := if ts > s.maxTs then ts else s.maxTs,
       minTs := if ts < s.minTs || s.minTs == 0.0 then ts else s.minTs)
  }

  /** The dictionary of protocol `kind` after a packet of protocol `proto`. */
  function Route(s: ProtoStats, kind: int, proto: int, length: nat, ts: real): ProtoStats {
    if proto == kind then Observe(s, length, ts) else s
  }

  function Dist(a: int, b: int): nat {
    if a >= b then a - b else b - a
  }

  /**
   * The quotient is within half a divisor of `n` when the remainder is at
   * most half of it, and the quotient plus one when the remainder is at least
   * half; exactly half-way only when the remainder is exactly half.
   */
  lemma Nearest(n: nat, d: nat, r: nat)
    requires d > 0
    requires (r == n / d && 2 * (n % d) <= d) || (r == n / d + 1 && 2 * (n % d) >= d)
    ensures 2 * Dist(r * d, n) <= d
    ensures 2 * Dist(r * d, n) == d ==> 2 * (n % d) == d
  {
    assert n == (n / d) * d + n % d;
    if r == n / d + 1 {
      assert r * d == (n / d) * d + d;
    }
  }

  /**
   * Python's `round(n / d)`: the integer nearest to n/d, and the even one of
   * the two when n/d lies exactly half-way.
   */
  function RoundHalfEven(n: nat, d: nat): (r: nat)
    requires d > 0
    ensures 2 * Dist(r * d, n) <= d
    ensures 2 * Dist(r * d, n) == d ==> r % 2 == 0
  {
    var q, rem := n / d, n % d;
    if 2 * rem < d then Nearest(n, d, q); q
    else if 2 * rem > d then Nearest(n, d, q + 1); q + 1
    else if q % 2 == 0 then Nearest(n, d, q); q
    else Nearest(n, d, q + 1); q + 1
  }

  /**
   * The `mean_length` the output step computes: the rounded mean packet
   * length, and 0 where the division by a zero counter is trapped.
   */
  function MeanLength(s: ProtoStats): (m: nat)
    ensures s.counter == 0 ==> m == 0
    ensures s.counter > 0 ==> 2 * Dist(m * s.counter, s.totalLength) <= s.counter
    ensures s.counter > 0 && 2 * Dist(m * s.counter, s.totalLength) == s.counter ==> m % 2 == 0
  {
    if s.counter == 0 then 0 else RoundHalfEven(s.totalLength, s.counter)
  }

  /** A packet's length and capture timestamp, as the summary receives them. */
  datatype Sample = Sample(length: nat, ts: real)

  /** A protocol's dictionary after the samples, in order. */
  function ObserveAll(s: ProtoStats, xs: seq<Sample>): ProtoStats
    decreases |xs|
  {
    if xs == [] then s
    else Observe(ObserveAll(s, xs[..|xs| - 1]), xs[|xs| - 1].length, xs[|xs| - 1].ts)
  }

  function TotalLength(xs: seq<Sample>): nat
    decreases |xs|
  {
    if xs == [] then 0 else TotalLength(xs[..|xs| - 1]) + xs[|xs| - 1].length
  }

  /** The least timestamp of a non-empty sample sequence. */
  function MinTs(xs: seq<Sample>): real
    requires xs != []
    decreases |xs|
  {
    if |xs| == 1 then xs[0].ts
    else
      var m := MinTs(xs[..|xs| - 1]);
      if xs[|xs| - 1].ts < m then xs[|xs| - 1].ts else m
  }

  /** The greatest timestamp of a non-empty sample sequence. */
  function MaxTs(xs: seq<Sample>): real
    requires xs != []
    decreases |xs|
  {
    if |xs| == 1 then xs[0].ts
    else
      var m := MaxTs(xs[..|xs| - 1]);
      if xs[|xs| - 1].ts > m then xs[|xs| - 1].ts else m
  }

  lemma {:induction false} MinNotAboveMax(xs: seq<Sample>)
    requires xs != []
    ensures MinTs(xs) <= MaxTs(xs)
    decreases |xs|
  {
    if |xs| > 1 {
      MinNotAboveMax(xs[..|xs| - 1]);
    }
  }

  /**
   * With positive timestamps the dictionary agrees with the direct
   * definitions: the counter is the number of samples, the total length
   * their sum, and min_ts / max_ts the least and greatest timestamp; so
   * min_ts <= max_ts once the counter is positive.
   */
  lemma {:induction false} ObserveAllAgrees(xs: seq<Sample>)
    requires forall i :: 0 <= i < |xs| ==> xs[i].ts > 0.0
    ensures ObserveAll(Fresh, xs).counter == |xs|
    ensures ObserveAll(Fresh, xs).totalLength == TotalLength(xs)
    ensures xs == [] ==> ObserveAll(Fresh, xs) == Fresh
    ensures xs != [] ==> ObserveAll(Fresh, xs).minTs == MinTs(xs)
    ensures xs != [] ==> ObserveAll(Fresh, xs).maxTs == MaxTs(xs)
    ensures xs != [] ==> ObserveAll(Fresh, xs).minTs <= ObserveAll(Fresh, xs).maxTs
    decreases |xs|
  {
    if xs != [] {
      var init := xs[..|xs| - 1];
      ObserveAllAgrees(init);
      if init != [] {
        assert init[..|init| - 1] == xs[..|xs| - 2];
        assert MinTs(init) > 0.0 by { MinIsSome(init); }
      }
      MinNotAboveMax(xs);
    }
  }

  lemma {:induction false} MinIsSome(xs: seq<Sample>)
    requires xs != []
    ensures exists i :: 0 <= i < |xs| && xs[i].ts == MinTs(xs)
    decreases |xs|
  {
    if |xs| == 1 {
      assert xs[0].ts == MinTs(xs);
    } else {
      var init := xs[..|xs| - 1];
      MinIsSome(init);
      var i :| 0 <= i < |init| && init[i].ts == MinTs(init);
      assert xs[i] == init[i];
      if xs[|xs| - 1].ts < MinTs(init) {
        assert xs[|xs| - 1].ts == MinTs(xs);
      } else {
        assert xs[i].ts == MinTs(xs);
      }
    }
  }

  /**
   * A timestamp of exactly 0 clears the minimum: after 5, 0, 7 the recorded
   * minimum is 7, although the least timestamp seen is 0.
   */
  lemma ZeroTimestampRearms()
    ensures ObserveAll(Fresh, [Sample(60, 5.0), Sample(60, 0.0), Sample(60, 7.0)]).minTs == 7.0
  {
    var xs := [Sample(60, 5.0), Sample(60, 0.0), Sample(60, 7.0)];
    assert xs[..2] == [Sample(60, 5.0), Sample(60, 0.0)];
    assert xs[..2][..1] == [Sample(60, 5.0)];
    assert [Sample(60, 5.0)][..0] == [];
    assert ObserveAll(Fresh, [Sample(60, 5.0)]).minTs == 5.0;
    assert ObserveAll(Fresh, xs[..2]).minTs == 0.0;
  }

  /** The packet summary collector. */
  class PacketSummary {
    var tcp: ProtoStats
    var udp: ProtoStats
    var igmp: ProtoStats
    var errorCount: nat
    var counter: nat

    /** Every sorted packet is counted by exactly one protocol or as unrecognised. */
    ghost predicate Valid()
      reads this
    {
      counter == tcp.counter + udp.counter + igmp.counter + errorCount
    }

    constructor ()
      ensures Valid()
      ensures tcp == Fresh && udp == Fresh && igmp == Fresh
      ensures errorCount == 0 && counter == 0
    {
      tcp, udp, igmp := Fresh, Fresh, Fresh;
      errorCount, counter := 0, 0;
    }

    /** The updates of one protocol's dictionary, in the order the collector makes them. */
    static method Update(s: ProtoStats, length: nat, ts: real) returns (t: ProtoStats)
      ensures t == Observe(s, length, ts)
    {
      t := s.(totalLength := s.totalLength + length);
      t := t.(counter := t.counter + 1);
      if ts > t.maxTs {
        t := t.(maxTs := ts);
      }
      if ts < t.minTs || t.minTs == 0.0 {
        t := t.(minTs := ts);
      }
    }

    /** Sorts a packet by protocol number. */
    method SortPacket(proto: int, length: nat, ts: real)
      requires Valid()
      modifies this
      ensures Valid()
      ensures counter == old(counter) + 1
      ensures tcp == Route(old(tcp), TCP, proto, length, ts)
      ensures udp == Route(old(udp), UDP, proto, length, ts)
      ensures igmp == Route(old(igmp), IGMP, proto, length, ts)
      ensures errorCount == old(errorCount) + (if Recognised(proto) then 0 else 1)
    {
      counter := counter + 1;
      if proto == TCP {
        tcp := Update(tcp, length, ts);
      } else if proto == UDP {
        udp := Update(udp, length, ts);
      } else if proto == IGMP {
        igmp := Update(igmp, length, ts);
      } else {
        errorCount := errorCount + 1;
      }
    }

    /** The mean lengths the output step stores before printing. */
    method ComputeMeans()
      modifies this
      ensures tcp == old(tcp).(meanLength := MeanLength(old(tcp)))
      ensures udp == old(udp).(meanLength := MeanLength(old(udp)))
      ensures igmp == old(igmp).(meanLength := MeanLength(old(igmp)))
      ensures counter == old(counter) && errorCount == old(errorCount)
    {
      tcp := tcp.(meanLength := MeanLength(tcp));
      udp := udp.(meanLength := MeanLength(udp));
      igmp := igmp.(meanLength := MeanLength(igmp));
    }
  }
}
