/**
 * The decoded form of one capture record, as the collectors see it.
 *
 * Frame decoding (Ethernet, IPv4, TCP and the HTTP request parser) is done by
 * a foreign library; its outcome is taken here as an input value.
 */
module Packets {

  datatype Option<T> = None | Some(value: T)

  /** IP protocol numbers the packet summary recognises. */
  const TCP: int := 6
  const UDP: int := 17
  const IGMP: int := 2

  /** An HTTP request as parsed from a TCP payload; `verb` is the request method, `host` the Host header if present. */
  datatype HttpRequest = HttpRequest(verb: string, host: Option<string>, uri: string)

  /**
   * A parsed TCP segment: `text` is the payload decoded as UTF-8 (None when the
   * bytes are not valid UTF-8), `http` the request parsed from it (None when the
   * parser reports missing or malformed data).
   */
  datatype Segment = Segment(text: Option<string>, http: Option<HttpRequest>)

  /**
   * An IPv4 packet: dotted-quad addresses, the protocol number and, for TCP,
   * the segment (None when the transport header itself could not be parsed and
   * the payload is left as raw bytes).
   */
  datatype Packet = Packet(src: string, dst: string, proto: int, segment: Option<Segment>)

  /**
   * Outcome of decoding a frame: the link layer could not be parsed at all,
   * it carries something other than an IPv4 packet (ARP, IPv6, raw bytes), or
   * it carries an IPv4 packet.
   */
  datatype Decoded = Malformed | NotIpv4 | Ipv4(packet: Packet)

  /** One capture record: timestamp, length of the raw frame, decoded frame. */
  datatype Record = Record(ts: real, length: nat, decoded: Decoded)
}
