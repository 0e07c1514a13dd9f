/**
 * The network map: a nested dictionary from source address to destination
 * address to the number of packets sent along that edge.
 */
module Graph {

  /** The packets seen from `src` to `dst`, 0 for an edge never seen. */
  function Weight(net: map<string, map<string, nat>>, src: string, dst: string): nat {
    if src in net && dst in net[src] then net[src][dst] else 0
  }

  /**
   * Every recorded edge has been seen at least once, and a source is only
   * entered together with its first destination.
   */
  predicate WellFormed(net: map<string, map<string, nat>>) {
    forall s :: s in net ==> net[s] != map[] && forall d :: d in net[s] ==> net[s][d] >= 1
  }

  /** The map with one more packet on the edge `src` -> `dst`. */
  function Bump(net: map<string, map<string, nat>>, src: string, dst: string): map<string, map<string, nat>> {
    net[src := (if src in net then net[src] else map[])[dst := Weight(net, src, dst) + 1]]
  }

  /**
   * One more packet on an edge raises that edge's weight by one and no
   * other, enters the source if it is new, and keeps the map well formed.
   */
  lemma BumpCounts(net: map<string, map<string, nat>>, src: string, dst: string)
    requires WellFormed(net)
    ensures WellFormed(Bump(net, src, dst))
    ensures Weight(Bump(net, src, dst), src, dst) == Weight(net, src, dst) + 1
    ensures forall s, d :: (s != src || d != dst) ==> Weight(Bump(net, src, dst), s, d) == Weight(net, s, d)
    ensures Bump(net, src, dst).Keys == net.Keys + {src}
    ensures forall s :: s in net && s != src ==> Bump(net, src, dst)[s] == net[s]
  {
  }

  /** The network-map collector. */
  class NodeGraph {
    var networkMap: map<string, map<string, nat>>

    ghost predicate Valid()
      reads this
    {
      WellFormed(networkMap)
    }

    constructor ()
      ensures Valid() && networkMap == map[]
    {
      networkMap := map[];
    }

    /** Counts one packet on the edge `src` -> `dst`. */
    method AddConnection(src: string, dst: string)
      requires Valid()
      modifies this
      ensures Valid()
      ensures Weight(networkMap, src, dst) == Weight(old(networkMap), src, dst) + 1
      ensures forall s, d :: (s != src || d != dst) ==> Weight(networkMap, s, d) == Weight(old(networkMap), s, d)
      ensures networkMap.Keys == old(networkMap).Keys + {src}
      ensures forall s :: s in old(networkMap) && s != src ==> networkMap[s] == old(networkMap)[s]
    {
      ghost var net := networkMap;
      if src !in networkMap {
        networkMap := networkMap[src := map[]];
      }
      if dst !in networkMap[src] {
        networkMap := networkMap[src := networkMap[src][dst := 1]];
      } else {
        networkMap := networkMap[src := networkMap[src][dst := networkMap[src][dst] + 1]];
      }
      assert networkMap == Bump(net, src, dst);
      BumpCounts(net, src, dst);
    }

    /** The dictionary handed to the connections table. */
    method GetDict() returns (net: map<string, map<string, nat>>)
      requires Valid()
      ensures net == networkMap
      ensures WellFormed(net)
    {
      net := networkMap;
    }
  }
}
