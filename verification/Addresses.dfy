// Group addresses and the two keys the relay derives from them: the socket-lookup key of
// relay.go and the loop key of loop_guard.go.
module Addresses {
  import opened Basics

  datatype UDPAddr = UDPAddr(ip: Bytes, port: int, zone: string)

  const ZERO16: Bytes := [0, 0, 0, 0, 0, 0, 0, 0, 0, 0, 0, 0, 0, 0, 0, 0]
  const V4_IN_V6: Bytes := [0, 0, 0, 0, 0, 0, 0, 0, 0, 0, 0xff, 0xff]

  // net.IP.To16 and net.IP.To4: None where Go returns nil.
  function To16(ip: Bytes): Option<Bytes> {
    if |ip| == 4 then Some(V4_IN_V6 + ip) else if |ip| == 16 then Some(ip) else None
  }

  function To4(ip: Bytes): (r: Option<Bytes>)
    ensures r.Some? ==> |r.value| == 4 && To16(ip) == Some(V4_IN_V6 + r.value)
  {
    if |ip| == 4 then Some(ip)
    else if |ip| == 16 && ip[..12] == V4_IN_V6 then
      assert ip == ip[..12] + ip[12..];
      Some(ip[12..])
    else None
  }

  function Padded16(ip: Bytes): Bytes {
    if To16(ip).Some? then To16(ip).value else ZERO16
  }

  datatype GroupKey = GroupKey(ip: Bytes, port: int, zone: string, hasAddr: bool)

  function GroupKeyOf(addr: Option<UDPAddr>): GroupKey {
    if addr.None? then GroupKey(ZERO16, 0, "", false)
    else GroupKey(Padded16(addr.value.ip), addr.value.port, addr.value.zone, true)
  }

  datatype LoopKey = LoopKey(payload: Digest, groupIP: Bytes, port: int, zone: string)

  // MD5 of a nil slice is MD5 of the empty slice.
  function LoopKeyOf(hash: Bytes -> Digest, data: Option<Bytes>, group: Option<UDPAddr>): LoopKey {
    var digest := hash(if data.Some? then data.value else []);
    if group.None? then LoopKey(digest, ZERO16, 0, "")
    else
      var port := if 0 <= group.value.port <= 65535 then group.value.port else 0;
      LoopKey(digest, Padded16(group.value.ip), port, group.value.zone)
  }

  // What an IPv4 datagram carries of the group it is sent to.
  datatype WireAddr = WireAddr(ip: Bytes, port: int)

  // The groups the relay accepts: resolved as udp4, so four-byte addresses, real ports, no zone.
  predicate IPv4Group(g: UDPAddr) {
    To4(g.ip).Some? && 0 <= g.port <= 65535 && g.zone == ""
  }

  function WireAddrOf(g: UDPAddr): WireAddr
    requires IPv4Group(g)
  {
    WireAddr(To4(g.ip).value, g.port)
  }

  // One hop keeps the loop key and loses nothing else. For groups the relay can be configured
  // with, three things coincide: a worker's socket lookup matches, a receiver of the other group
  // hears the datagram, and the guard sees the same key for the same payload.
  lemma HopKeepsLoopKey(hash: Bytes -> Digest, data: Option<Bytes>, sent: UDPAddr, heard: UDPAddr)
    requires IPv4Group(sent) && IPv4Group(heard)
    ensures WireAddrOf(sent) == WireAddrOf(heard) <==> GroupKeyOf(Some(sent)) == GroupKeyOf(Some(heard))
    ensures WireAddrOf(sent) == WireAddrOf(heard)
       <==> LoopKeyOf(hash, data, Some(sent)) == LoopKeyOf(hash, data, Some(heard))
  {
    var a, b := To4(sent.ip).value, To4(heard.ip).value;
    assert (V4_IN_V6 + a)[12..] == a && (V4_IN_V6 + b)[12..] == b;
  }

  // What a loop key stands for: the hash of the data and the address on the wire, and nothing else.
  lemma LoopKeyMeans(hash: Bytes -> Digest, a: Bytes, sent: UDPAddr, b: Bytes, heard: UDPAddr)
    requires IPv4Group(sent) && IPv4Group(heard)
    ensures LoopKeyOf(hash, Some(a), Some(sent)) == LoopKeyOf(hash, Some(b), Some(heard))
       <==> hash(a) == hash(b) && WireAddrOf(sent) == WireAddrOf(heard)
  {
    HopKeepsLoopKey(hash, Some(a), sent, heard);
  }
}
