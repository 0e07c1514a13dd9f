/**
 * The map collector: the distinct IP addresses seen, source before
 * destination, in first-seen order, for the later geolocation lookup.
 */
module Kml {
  import opened Dedup

  class KmlFile {
    var distinctIpList: seq<string>

    ghost predicate Valid()
      reads this
    {
      NoDuplicates(distinctIpList)
    }

    constructor ()
      ensures Valid() && distinctIpList == []
    {
      distinctIpList := [];
    }

    /** Lists the packet's source, then its destination, unless already listed. */
    method AddAddresses(src: string, dst: string)
      requires Valid()
      modifies this
      ensures Valid()
      ensures distinctIpList == AddAllNew(old(distinctIpList), [src, dst])
      ensures src in distinctIpList && dst in distinctIpList
      ensures forall a :: a in distinctIpList <==> a in old(distinctIpList) || a == src || a == dst
    {
      AddAllNewPair(distinctIpList, src, dst);
      if src !in distinctIpList {
        distinctIpList := distinctIpList + [src];
      }
      if dst !in distinctIpList {
        distinctIpList := distinctIpList + [dst];
      }
    }
  }
}
