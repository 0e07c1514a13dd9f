/**
 * The record loop: every record of the capture is decoded and handed to the
 * seven collectors in a fixed order (flow chart, traffic table, network map,
 * map file, mail extractor, image table, packet summary). An exception in any
 * step counts the record as an error and skips the steps after it; what the
 * earlier steps did is kept.
 */
module Analyser {
  import opened Packets
  import opened Dedup
  import Summary
  import Flow
  import Traffic
  import Graph
  import Kml
  import Mail
  import Images

  /** How far a record got: the step that raised, or all seven done. */
  datatype Stage = DecodeFailed | AddressFailed | MailFailed | ImagesFailed | Completed

  predicate IsTcp(r: Record) {
    r.decoded.Ipv4? && r.decoded.packet.proto == TCP
  }

  /** The text the mail extractor holds after `r`, given what it held before. */
  function MailNext(r: Record, mail: Option<string>): Option<string> {
    if IsTcp(r) then Some(Mail.PayloadText(r.decoded.packet)) else mail
  }

  /**
   * The step at which a record stops. A frame that cannot be decoded stops
   * before the flow chart; one that carries no IPv4 packet stops at the
   * traffic table, after its timestamp is kept; a non-TCP packet before any
   * TCP packet stops at the mail extractor; a request the image table cannot
   * handle stops there.
   */
  function StageOf(r: Record, mail: Option<string>): Stage {
    match r.decoded
    case Malformed => DecodeFailed
    case NotIpv4 => AddressFailed
    case Ipv4(p) =>
      if MailNext(r, mail).None? then MailFailed
      else if !Images.Outcome(p).ok then ImagesFailed
      else Completed
  }

  // -----------------------------------------------------------------------
  // What the collectors hold after a sequence of records
  // -----------------------------------------------------------------------

  /** The mail extractor's text after the records: the payload of the last TCP packet. */
  function MailAfter(rs: seq<Record>): Option<string>
    decreases |rs|
  {
    if rs == [] then None else MailNext(rs[|rs| - 1], MailAfter(rs[..|rs| - 1]))
  }

  /** The stage of the last record, given the ones before it. */
  function LastStage(rs: seq<Record>): Stage
    requires rs != []
  {
    StageOf(rs[|rs| - 1], MailAfter(rs[..|rs| - 1]))
  }

  /** Records that completed all seven steps. */
  function CompletedCount(rs: seq<Record>): nat
    decreases |rs|
  {
    if rs == [] then 0
    else CompletedCount(rs[..|rs| - 1]) + (if LastStage(rs) == Completed then 1 else 0)
  }

  /** Records counted by the loop's exception handler. */
  function Errors(rs: seq<Record>): nat
    decreases |rs|
  {
    if rs == [] then 0
    else Errors(rs[..|rs| - 1]) + (if LastStage(rs) == Completed then 0 else 1)
  }

  /** What one record gives the flow chart: its timestamp once its frame is decoded. */
  function TimeOf(r: Record): seq<real> {
    if r.decoded.Malformed? then [] else [r.ts]
  }

  /** The timestamps of every record whose frame was decoded. */
  function Timestamps(rs: seq<Record>): seq<real>
    decreases |rs|
  {
    if rs == [] then [] else Timestamps(rs[..|rs| - 1]) + TimeOf(rs[|rs| - 1])
  }

  /** Source then destination of an IPv4 packet. */
  function EndpointsOf(r: Record): seq<string> {
    if r.decoded.Ipv4? then [r.decoded.packet.src, r.decoded.packet.dst] else []
  }

  /** Source then destination of every IPv4 packet. */
  function Endpoints(rs: seq<Record>): seq<string>
    decreases |rs|
  {
    if rs == [] then [] else Endpoints(rs[..|rs| - 1]) + EndpointsOf(rs[|rs| - 1])
  }

  /** 1 when `r` is an IPv4 packet sent (side Sent) or received (side Received) by `a`. */
  function TallyOf(r: Record, a: string, side: Traffic.Side): nat {
    if r.decoded.Ipv4? && a == (if side == Traffic.Sent then r.decoded.packet.src else r.decoded.packet.dst) then 1 else 0
  }

  /** IPv4 packets sent or received by `a`. */
  function Tally(rs: seq<Record>, a: string, side: Traffic.Side): nat
    decreases |rs|
  {
    if rs == [] then 0 else Tally(rs[..|rs| - 1], a, side) + TallyOf(rs[|rs| - 1], a, side)
  }

  function EdgeOf(r: Record, s: string, d: string): nat {
    if r.decoded.Ipv4? && r.decoded.packet.src == s && r.decoded.packet.dst == d then 1 else 0
  }

  /** IPv4 packets from `s` to `d`. */
  function Edges(rs: seq<Record>, s: string, d: string): nat
    decreases |rs|
  {
    if rs == [] then 0 else Edges(rs[..|rs| - 1], s, d) + EdgeOf(rs[|rs| - 1], s, d)
  }

  /** The entries an IPv4 packet offers to the mail list: those of the text scanned after it. */
  function EntriesOf(r: Record, mail: Option<string>): seq<string> {
    if r.decoded.Ipv4? && MailNext(r, mail).Some? then Mail.Entries(MailNext(r, mail).value) else []
  }

  function MailEntries(rs: seq<Record>): seq<string>
    decreases |rs|
  {
    if rs == [] then [] else MailEntries(rs[..|rs| - 1]) + EntriesOf(rs[|rs| - 1], MailAfter(rs[..|rs| - 1]))
  }

  /** What the image table adds for a record: nothing unless the record reaches the table. */
  function ScanOf(r: Record, mail: Option<string>): Images.Scan {
    if r.decoded.Ipv4? && StageOf(r, mail) != MailFailed then Images.Outcome(r.decoded.packet)
    else Images.Scan([], [], true)
  }

  function ImageRows(rs: seq<Record>): seq<Images.ImageRow>
    decreases |rs|
  {
    if rs == [] then [] else ImageRows(rs[..|rs| - 1]) + ScanOf(rs[|rs| - 1], MailAfter(rs[..|rs| - 1])).rows
  }

  function ImageUris(rs: seq<Record>): seq<string>
    decreases |rs|
  {
    if rs == [] then [] else ImageUris(rs[..|rs| - 1]) + ScanOf(rs[|rs| - 1], MailAfter(rs[..|rs| - 1])).uris
  }

  /** What a record gives the summary of protocol `kind`: its length and timestamp if it completes with that protocol. */
  function SampleOf(r: Record, mail: Option<string>, kind: int): seq<Summary.Sample> {
    if StageOf(r, mail) == Completed && r.decoded.Ipv4? && r.decoded.packet.proto == kind
    then [Summary.Sample(r.length, r.ts)] else []
  }

  function Samples(rs: seq<Record>, kind: int): seq<Summary.Sample>
    decreases |rs|
  {
    if rs == [] then [] else Samples(rs[..|rs| - 1], kind) + SampleOf(rs[|rs| - 1], MailAfter(rs[..|rs| - 1]), kind)
  }

  function UnrecognisedOf(r: Record, mail: Option<string>): nat {
    if StageOf(r, mail) == Completed && r.decoded.Ipv4? && !Summary.Recognised(r.decoded.packet.proto) then 1 else 0
  }

  /** Completed packets of a protocol the summary does not recognise. */
  function Unrecognised(rs: seq<Record>): nat
    decreases |rs|
  {
    if rs == [] then 0 else Unrecognised(rs[..|rs| - 1]) + UnrecognisedOf(rs[|rs| - 1], MailAfter(rs[..|rs| - 1]))
  }

  // -----------------------------------------------------------------------
  // Properties of the record loop
  // -----------------------------------------------------------------------

  /** Every record is either completed or counted as an error, never both. */
  lemma {:induction false} Accounted(rs: seq<Record>)
    ensures CompletedCount(rs) + Errors(rs) == |rs|
    decreases |rs|
  {
    if rs != [] {
      Accounted(rs[..|rs| - 1]);
    }
  }

  /** The mail extractor holds no text exactly while no TCP packet has been seen. */
  lemma {:induction false} MailAfterNone(rs: seq<Record>)
    ensures MailAfter(rs).None? <==> forall i :: 0 <= i < |rs| ==> !IsTcp(rs[i])
    decreases |rs|
  {
    if rs != [] {
      var init := rs[..|rs| - 1];
      MailAfterNone(init);
      assert forall i :: 0 <= i < |init| ==> init[i] == rs[i];
    }
  }

  /** The mail extractor holds the payload of the last TCP packet. */
  lemma {:induction false} MailAfterLast(rs: seq<Record>, i: nat)
    requires i < |rs| && IsTcp(rs[i])
    requires forall j :: i < j < |rs| ==> !IsTcp(rs[j])
    ensures MailAfter(rs) == Some(Mail.PayloadText(rs[i].decoded.packet))
    decreases |rs|
  {
    if i < |rs| - 1 {
      var init := rs[..|rs| - 1];
      assert forall j :: i < j < |init| ==> init[j] == rs[j];
      MailAfterLast(init, i);
    }
  }

  /** An IPv4 packet other than TCP that comes before any TCP packet makes the mail extractor raise. */
  lemma MailFailsBeforeTcp(rs: seq<Record>, r: Record)
    requires forall i :: 0 <= i < |rs| ==> !IsTcp(rs[i])
    requires r.decoded.Ipv4? && !IsTcp(r)
    ensures StageOf(r, MailAfter(rs)) == MailFailed
  {
    MailAfterNone(rs);
  }

  /** The flow chart holds the timestamp of every record whose frame decoded, and nothing else. */
  lemma {:induction false} TimestampsExactly(rs: seq<Record>)
    ensures |Timestamps(rs)| <= |rs|
    ensures forall t :: t in Timestamps(rs) <==> exists i :: 0 <= i < |rs| && !rs[i].decoded.Malformed? && rs[i].ts == t
    decreases |rs|
  {
    if rs != [] {
      var init := rs[..|rs| - 1];
      TimestampsExactly(init);
      assert forall i :: 0 <= i < |init| ==> init[i] == rs[i];
      forall t | t in Timestamps(rs)
        ensures exists i :: 0 <= i < |rs| && !rs[i].decoded.Malformed? && rs[i].ts == t
      {
        if t !in Timestamps(init) {
          assert !rs[|rs| - 1].decoded.Malformed? && rs[|rs| - 1].ts == t;
        }
      }
      forall t | exists i :: 0 <= i < |rs| && !rs[i].decoded.Malformed? && rs[i].ts == t
        ensures t in Timestamps(rs)
      {
        var i :| 0 <= i < |rs| && !rs[i].decoded.Malformed? && rs[i].ts == t;
        if i < |init| {
          assert t in Timestamps(init);
        }
      }
    }
  }

  // -----------------------------------------------------------------------
  // The collectors
  // -----------------------------------------------------------------------

  datatype Collectors = Collectors(
    chart: Flow.FlowChart, traffic: Traffic.TrafficTable, graph: Graph.NodeGraph, kml: Kml.KmlFile,
    emails: Mail.FindEmails, images: Images.ImageTable, summary: Summary.PacketSummary)

  /** The flow chart holds the timestamp of every decoded frame. */
  ghost predicate ChartHolds(f: Flow.FlowChart, rs: seq<Record>)
    reads f
  {
    f.timestamps == Timestamps(rs)
  }

  /** The dictionary counts the packets each address sent and received, keyed in first-seen order. */
  ghost predicate TrafficAgrees(order: seq<string>, addresses: map<string, Traffic.Traffic>, rs: seq<Record>) {
    && order == AddAllNew([], Endpoints(rs))
    && (forall a :: Traffic.Count(addresses, a, Traffic.Sent) == Tally(rs, a, Traffic.Sent))
    && (forall a :: Traffic.Count(addresses, a, Traffic.Received) == Tally(rs, a, Traffic.Received))
  }

  ghost predicate TrafficHolds(t: Traffic.TrafficTable, rs: seq<Record>)
    reads t
  {
    t.Valid() && TrafficAgrees(t.order, t.addresses, rs)
  }

  /** Every edge of the network map weighs the number of packets sent along it. */
  ghost predicate GraphHolds(g: Graph.NodeGraph, rs: seq<Record>)
    reads g
  {
    g.Valid() && forall s, d :: Graph.Weight(g.networkMap, s, d) == Edges(rs, s, d)
  }

  /** The map file lists every endpoint once, in first-seen order. */
  ghost predicate KmlHolds(k: Kml.KmlFile, rs: seq<Record>)
    reads k
  {
    k.Valid() && k.distinctIpList == AddAllNew([], Endpoints(rs))
  }

  /** The mail extractor holds the last TCP payload and every entry offered so far, once. */
  ghost predicate EmailsHold(e: Mail.FindEmails, rs: seq<Record>)
    reads e
  {
    e.Valid() && e.mail == MailAfter(rs) && e.myEmails == AddAllNew([], MailEntries(rs))
  }

  /** The image table holds the rows and URIs of every request that reached it. */
  ghost predicate ImagesHold(t: Images.ImageTable, rs: seq<Record>)
    reads t
  {
    t.Valid() && t.rows == ImageRows(rs) && t.uris == ImageUris(rs)
  }

  /** The summary has sorted exactly the packets that completed. */
  ghost predicate SummaryAgrees(s: Summary.PacketSummary, rs: seq<Record>)
    reads s
  {
    && s.tcp == Summary.ObserveAll(Summary.Fresh, Samples(rs, TCP))
    && s.udp == Summary.ObserveAll(Summary.Fresh, Samples(rs, UDP))
    && s.igmp == Summary.ObserveAll(Summary.Fresh, Samples(rs, IGMP))
    && s.errorCount == Unrecognised(rs)
    && s.counter == CompletedCount(rs)
  }

  ghost predicate SummaryHolds(s: Summary.PacketSummary, rs: seq<Record>)
    reads s
  {
    s.Valid() && SummaryAgrees(s, rs)
  }

  /** Each collector is valid and holds exactly what the records `rs` put into it. */
  ghost predicate Agrees(c: Collectors, rs: seq<Record>)
    reads c.chart, c.traffic, c.graph, c.kml, c.emails, c.images, c.summary
  {
    && ChartHolds(c.chart, rs) && TrafficHolds(c.traffic, rs) && GraphHolds(c.graph, rs) && KmlHolds(c.kml, rs)
    && EmailsHold(c.emails, rs) && ImagesHold(c.images, rs) && SummaryHolds(c.summary, rs)
  }

  /** A capture file: one that cannot be opened or read as a capture, or its records in order. */
  datatype Capture = Unopenable | Readable(records: seq<Record>)

  /** The collectors after the scan and the loop's error count. */
  datatype Run = Run(collectors: Collectors, errorCount: nat)

  /** One more record, seen from the end of the sequence. */
  lemma Snoc(rs: seq<Record>, r: Record)
    ensures (rs + [r])[..|rs|] == rs && (rs + [r])[|rs|] == r
    ensures LastStage(rs + [r]) == StageOf(r, MailAfter(rs))
    ensures MailAfter(rs + [r]) == MailNext(r, MailAfter(rs))
  {
    assert (rs + [r])[..|rs|] == rs;
  }

  lemma TimestampsStep(rs: seq<Record>, r: Record)
    ensures Timestamps(rs + [r]) == Timestamps(rs) + TimeOf(r)
  {
    Snoc(rs, r);
  }

  lemma EndpointsStep(rs: seq<Record>, r: Record)
    ensures Endpoints(rs + [r]) == Endpoints(rs) + EndpointsOf(r)
  {
    Snoc(rs, r);
  }

  lemma TallyUnfold(rs: seq<Record>, r: Record)
    ensures forall a, side :: Tally(rs + [r], a, side) == Tally(rs, a, side) + TallyOf(r, a, side)
  {
    Snoc(rs, r);
  }

  lemma EdgesUnfold(rs: seq<Record>, r: Record)
    ensures forall s, d :: Edges(rs + [r], s, d) == Edges(rs, s, d) + EdgeOf(r, s, d)
  {
    Snoc(rs, r);
  }

  lemma MailEntriesStep(rs: seq<Record>, r: Record)
    ensures MailEntries(rs + [r]) == MailEntries(rs) + EntriesOf(r, MailAfter(rs))
  {
    Snoc(rs, r);
  }

  lemma ImagesUnfold(rs: seq<Record>, r: Record)
    ensures ImageRows(rs + [r]) == ImageRows(rs) + ScanOf(r, MailAfter(rs)).rows
    ensures ImageUris(rs + [r]) == ImageUris(rs) + ScanOf(r, MailAfter(rs)).uris
  {
    Snoc(rs, r);
  }

  lemma SummaryUnfold(rs: seq<Record>, r: Record)
    ensures forall kind :: Samples(rs + [r], kind) == Samples(rs, kind) + SampleOf(r, MailAfter(rs), kind)
    ensures Unrecognised(rs + [r]) == Unrecognised(rs) + UnrecognisedOf(r, MailAfter(rs))
    ensures CompletedCount(rs + [r]) == CompletedCount(rs) + (if StageOf(r, MailAfter(rs)) == Completed then 1 else 0)
  {
    Snoc(rs, r);
  }

  lemma ErrorsStep(rs: seq<Record>, r: Record)
    ensures Errors(rs + [r]) == Errors(rs) + (if StageOf(r, MailAfter(rs)) == Completed then 0 else 1)
  {
    Snoc(rs, r);
  }

  /** A record without an IPv4 packet adds nothing to the collectors after the flow chart. */
  lemma NotIpv4Keeps(c: Collectors, rs: seq<Record>, r: Record)
    requires !r.decoded.Ipv4?
    requires TrafficHolds(c.traffic, rs) && GraphHolds(c.graph, rs) && KmlHolds(c.kml, rs)
    requires EmailsHold(c.emails, rs) && ImagesHold(c.images, rs) && SummaryHolds(c.summary, rs)
    ensures TrafficHolds(c.traffic, rs + [r]) && GraphHolds(c.graph, rs + [r]) && KmlHolds(c.kml, rs + [r])
    ensures EmailsHold(c.emails, rs + [r]) && ImagesHold(c.images, rs + [r]) && SummaryHolds(c.summary, rs + [r])
  {
    Snoc(rs, r);
    EndpointsStep(rs, r);
    TallyUnfold(rs, r);
    EdgesUnfold(rs, r);
    MailEntriesStep(rs, r);
    assert Endpoints(rs) + [] == Endpoints(rs);
    assert MailEntries(rs) + [] == MailEntries(rs);
    ImagesKeep(c.images, rs, r);
    SummaryKeeps(c.summary, rs, r);
  }

  /** Offering a packet's source and destination extends the first-seen list of endpoints. */
  lemma EndpointsOffered(rs: seq<Record>, r: Record)
    requires r.decoded.Ipv4?
    ensures AddAllNew(AddAllNew([], Endpoints(rs)), [r.decoded.packet.src, r.decoded.packet.dst])
         == AddAllNew([], Endpoints(rs + [r]))
  {
    EndpointsStep(rs, r);
    AddAllNewConcat([], Endpoints(rs), [r.decoded.packet.src, r.decoded.packet.dst]);
  }

  /** The dictionary after one more packet from `r`'s source to its destination agrees with one more record. */
  lemma TrafficAgreesStep(order: seq<string>, before: map<string, Traffic.Traffic>, after: map<string, Traffic.Traffic>, rs: seq<Record>, r: Record)
    requires r.decoded.Ipv4?
    requires TrafficAgrees(order, before, rs)
    requires forall a :: Traffic.Count(after, a, Traffic.Sent) == Traffic.Count(before, a, Traffic.Sent) + (if a == r.decoded.packet.src then 1 else 0)
    requires forall a :: Traffic.Count(after, a, Traffic.Received) == Traffic.Count(before, a, Traffic.Received) + (if a == r.decoded.packet.dst then 1 else 0)
    ensures TrafficAgrees(AddAllNew(order, [r.decoded.packet.src, r.decoded.packet.dst]), after, rs + [r])
  {
    TallyUnfold(rs, r);
    EndpointsOffered(rs, r);
    assert forall a :: TallyOf(r, a, Traffic.Sent) == (if a == r.decoded.packet.src then 1 else 0);
    assert forall a :: TallyOf(r, a, Traffic.Received) == (if a == r.decoded.packet.dst then 1 else 0);
  }

  /** `my_traffic.add_address(ip)` */
  method TrafficStep(t: Traffic.TrafficTable, ghost rs: seq<Record>, r: Record)
    requires r.decoded.Ipv4? && TrafficHolds(t, rs)
    modifies t
    ensures TrafficHolds(t, rs + [r])
  {
    ghost var order, addresses := t.order, t.addresses;
    t.AddAddress(r.decoded.packet.src, r.decoded.packet.dst);
    TrafficAgreesStep(order, addresses, t.addresses, rs, r);
  }

  /** `my_network_graph.add_connection(ip)` */
  method GraphStep(g: Graph.NodeGraph, ghost rs: seq<Record>, r: Record)
    requires r.decoded.Ipv4? && GraphHolds(g, rs)
    modifies g
    ensures GraphHolds(g, rs + [r])
  {
    EdgesUnfold(rs, r);
    ghost var net := g.networkMap;
    g.AddConnection(r.decoded.packet.src, r.decoded.packet.dst);
    forall s, d
      ensures Graph.Weight(g.networkMap, s, d) == Edges(rs + [r], s, d)
    {
      assert Graph.Weight(net, s, d) == Edges(rs, s, d);
    }
  }

  /** `my_map.add_addresses(ip)` */
  method KmlStep(k: Kml.KmlFile, ghost rs: seq<Record>, r: Record)
    requires r.decoded.Ipv4? && KmlHolds(k, rs)
    modifies k
    ensures KmlHolds(k, rs + [r])
  {
    EndpointsOffered(rs, r);
    k.AddAddresses(r.decoded.packet.src, r.decoded.packet.dst);
  }

  /** The traffic table, the network map and the map file, for a decoded IPv4 packet. */
  method AddressSteps(c: Collectors, ghost rs: seq<Record>, r: Record)
    requires r.decoded.Ipv4?
    requires TrafficHolds(c.traffic, rs) && GraphHolds(c.graph, rs) && KmlHolds(c.kml, rs)
    modifies c.traffic, c.graph, c.kml
    ensures TrafficHolds(c.traffic, rs + [r]) && GraphHolds(c.graph, rs + [r]) && KmlHolds(c.kml, rs + [r])
  {
    TrafficStep(c.traffic, rs, r);
    GraphStep(c.graph, rs, r);
    KmlStep(c.kml, rs, r);
  }

  /** A record that does not complete leaves the summary as it was. */
  lemma SummaryKeeps(s: Summary.PacketSummary, rs: seq<Record>, r: Record)
    requires StageOf(r, MailAfter(rs)) != Completed && SummaryHolds(s, rs)
    ensures SummaryHolds(s, rs + [r])
  {
    SummaryUnfold(rs, r);
    assert Samples(rs, TCP) + [] == Samples(rs, TCP);
    assert Samples(rs, UDP) + [] == Samples(rs, UDP);
    assert Samples(rs, IGMP) + [] == Samples(rs, IGMP);
  }

  /** A record that does not reach the image table leaves it as it was. */
  lemma ImagesKeep(t: Images.ImageTable, rs: seq<Record>, r: Record)
    requires !r.decoded.Ipv4? || StageOf(r, MailAfter(rs)) == MailFailed
    requires ImagesHold(t, rs)
    ensures ImagesHold(t, rs + [r])
  {
    ImagesUnfold(rs, r);
    assert ImageRows(rs) + [] == ImageRows(rs) && ImageUris(rs) + [] == ImageUris(rs);
  }

  /** `email_addresses.check_emails(ip)`, which raises when there is no payload to scan. */
  method EmailsStep(e: Mail.FindEmails, ghost rs: seq<Record>, r: Record) returns (ok: bool)
    requires r.decoded.Ipv4? && EmailsHold(e, rs)
    modifies e
    ensures EmailsHold(e, rs + [r])
    ensures ok <==> StageOf(r, MailAfter(rs)) != MailFailed
  {
    Snoc(rs, r);
    MailEntriesStep(rs, r);
    ok := e.CheckEmails(r.decoded.packet);
    if ok {
      AddAllNewConcat([], MailEntries(rs), Mail.Entries(e.mail.value));
    } else {
      assert MailEntries(rs) + [] == MailEntries(rs);
    }
  }

  /** `my_images.check_packet(ip)`, which raises on a request it cannot handle. */
  method ImagesStep(t: Images.ImageTable, ghost rs: seq<Record>, r: Record) returns (ok: bool)
    requires r.decoded.Ipv4? && StageOf(r, MailAfter(rs)) != MailFailed
    requires ImagesHold(t, rs)
    modifies t
    ensures ImagesHold(t, rs + [r])
    ensures StageOf(r, MailAfter(rs)) == (if ok then Completed else ImagesFailed)
  {
    ImagesUnfold(rs, r);
    ok := t.CheckPacket(r.decoded.packet);
  }

  /** Feeding one more sample to a protocol's dictionary is routing the packet to it. */
  lemma RouteStep(xs: seq<Summary.Sample>, kind: int, proto: int, length: nat, ts: real)
    ensures Summary.ObserveAll(Summary.Fresh, xs + (if proto == kind then [Summary.Sample(length, ts)] else []))
         == Summary.Route(Summary.ObserveAll(Summary.Fresh, xs), kind, proto, length, ts)
  {
    if proto == kind {
      assert (xs + [Summary.Sample(length, ts)])[..|xs|] == xs;
    } else {
      assert xs + [] == xs;
    }
  }

  /** `my_summary.sort_packet(ip, buf, ts)` */
  method SummaryStep(s: Summary.PacketSummary, ghost rs: seq<Record>, r: Record)
    requires r.decoded.Ipv4? && StageOf(r, MailAfter(rs)) == Completed
    requires SummaryHolds(s, rs)
    modifies s
    ensures SummaryHolds(s, rs + [r])
  {
    SummaryUnfold(rs, r);
    var p := r.decoded.packet;
    RouteStep(Samples(rs, TCP), TCP, p.proto, r.length, r.ts);
    RouteStep(Samples(rs, UDP), UDP, p.proto, r.length, r.ts);
    RouteStep(Samples(rs, IGMP), IGMP, p.proto, r.length, r.ts);
    s.SortPacket(p.proto, r.length, r.ts);
  }

  /** The mail extractor, then the image table unless the mail extractor raised. */
  method MailThenImages(e: Mail.FindEmails, t: Images.ImageTable, ghost rs: seq<Record>, r: Record) returns (stage: Stage)
    requires r.decoded.Ipv4? && EmailsHold(e, rs) && ImagesHold(t, rs)
    modifies e, t
    ensures EmailsHold(e, rs + [r]) && ImagesHold(t, rs + [r])
    ensures stage == StageOf(r, MailAfter(rs))
  {
    var ok := EmailsStep(e, rs, r);
    if !ok {
      stage := MailFailed;
      ImagesKeep(t, rs, r);
    } else {
      ok := ImagesStep(t, rs, r);
      stage := if ok then Completed else ImagesFailed;
    }
  }

  /** The mail extractor, the image table and the summary, up to the first that raises. */
  method ContentSteps(c: Collectors, ghost rs: seq<Record>, r: Record) returns (stage: Stage)
    requires r.decoded.Ipv4?
    requires EmailsHold(c.emails, rs) && ImagesHold(c.images, rs) && SummaryHolds(c.summary, rs)
    modifies c.emails, c.images, c.summary
    ensures EmailsHold(c.emails, rs + [r]) && ImagesHold(c.images, rs + [r]) && SummaryHolds(c.summary, rs + [r])
    ensures stage == StageOf(r, MailAfter(rs))
  {
    stage := MailThenImages(c.emails, c.images, rs, r);
    if stage == Completed {
      SummaryStep(c.summary, rs, r);
    } else {
      SummaryKeeps(c.summary, rs, r);
    }
  }

  /** The collectors after the flow chart, for a record whose frame decoded. */
  method AddressOnward(c: Collectors, ghost rs: seq<Record>, r: Record) returns (stage: Stage)
    requires !r.decoded.Malformed?
    requires TrafficHolds(c.traffic, rs) && GraphHolds(c.graph, rs) && KmlHolds(c.kml, rs)
    requires EmailsHold(c.emails, rs) && ImagesHold(c.images, rs) && SummaryHolds(c.summary, rs)
    modifies c.traffic, c.graph, c.kml, c.emails, c.images, c.summary
    ensures TrafficHolds(c.traffic, rs + [r]) && GraphHolds(c.graph, rs + [r]) && KmlHolds(c.kml, rs + [r])
    ensures EmailsHold(c.emails, rs + [r]) && ImagesHold(c.images, rs + [r]) && SummaryHolds(c.summary, rs + [r])
    ensures stage == StageOf(r, MailAfter(rs))
  {
    if r.decoded.NotIpv4? {
      NotIpv4Keeps(c, rs, r);
      stage := AddressFailed;
    } else {
      AddressSteps(c, rs, r);
      stage := ContentSteps(c, rs, r);
    }
  }

  /** Runs one record through the collectors, up to the first step that raises. */
  method ProcessRecord(c: Collectors, ghost rs: seq<Record>, r: Record) returns (stage: Stage)
    requires Agrees(c, rs)
    modifies c.chart, c.traffic, c.graph, c.kml, c.emails, c.images, c.summary
    ensures Agrees(c, rs + [r])
    ensures stage == StageOf(r, MailAfter(rs))
  {
    TimestampsStep(rs, r);
    if r.decoded.Malformed? {
      assert Timestamps(rs) + [] == Timestamps(rs);
      NotIpv4Keeps(c, rs, r);
      stage := DecodeFailed;
    } else {
      c.chart.AddTimestamp(r.ts);
      stage := AddressOnward(c, rs, r);
    }
  }

  /** The seven collectors as the scan creates them. */
  method NewCollectors() returns (c: Collectors)
    ensures Agrees(c, [])
    ensures fresh(c.chart) && fresh(c.traffic) && fresh(c.graph) && fresh(c.kml)
    ensures fresh(c.emails) && fresh(c.images) && fresh(c.summary)
  {
    var images := new Images.ImageTable();
    var emails := new Mail.FindEmails();
    var summary := new Summary.PacketSummary();
    var chart := new Flow.FlowChart();
    var traffic := new Traffic.TrafficTable();
    var graph := new Graph.NodeGraph();
    var kml := new Kml.KmlFile();
    c := Collectors(chart, traffic, graph, kml, emails, images, summary);
  }

  /** A prefix one longer is the prefix and the next element. */
  lemma PrefixSnoc<T>(s: seq<T>, i: nat)
    requires i < |s|
    ensures s[..i + 1] == s[..i] + [s[i]]
  {
  }

  /** One turn of the record loop: record `i` is run through the collectors and counted when a step raised. */
  method ScanRecord(c: Collectors, ghost records: seq<Record>, i: nat, r: Record, errorCount: nat) returns (errorCount': nat)
    requires i < |records| && r == records[i]
    requires Agrees(c, records[..i]) && errorCount == Errors(records[..i])
    modifies c.chart, c.traffic, c.graph, c.kml, c.emails, c.images, c.summary
    ensures Agrees(c, records[..i + 1])
    ensures errorCount' == Errors(records[..i + 1])
  {
    PrefixSnoc(records, i);
    ErrorsStep(records[..i], r);
    var stage := ProcessRecord(c, records[..i], r);
    errorCount' := errorCount;
    if stage != Completed {
      errorCount' := errorCount' + 1;
    }
  }

  /** The record loop: every record is run through the collectors, and the scan always goes on to the next one. */
  method ScanRecords(c: Collectors, records: seq<Record>) returns (errorCount: nat)
    requires Agrees(c, [])
    modifies c.chart, c.traffic, c.graph, c.kml, c.emails, c.images, c.summary
    ensures Agrees(c, records)
    ensures errorCount == Errors(records)
  {
    errorCount := 0;
    var i := 0;
    assert records[..0] == [];
    while i < |records|
      invariant 0 <= i <= |records|
      invariant Agrees(c, records[..i])
      invariant errorCount == Errors(records[..i])
    {
      errorCount := ScanRecord(c, records, i, records[i], errorCount);
      i := i + 1;
    }
    assert records[..i] == records;
  }

  /**
   * The scan of one capture. A file that cannot be opened is reported by the
   * outer handler before any collector exists; otherwise every record is run
   * through the collectors.
   */
  method RunProgram(capture: Capture) returns (run: Option<Run>)
    ensures capture.Unopenable? <==> run.None?
    ensures run.Some? ==> Agrees(run.value.collectors, capture.records)
    ensures run.Some? ==> run.value.errorCount == Errors(capture.records)
    ensures run.Some? ==> run.value.collectors.summary.counter + run.value.errorCount == |capture.records|
  {
    if capture.Unopenable? {
      return None;
    }
    var c := NewCollectors();
    var errorCount := ScanRecords(c, capture.records);
    Accounted(capture.records);
    return Some(Run(c, errorCount));
  }
}
