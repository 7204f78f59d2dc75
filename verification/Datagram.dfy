// The UDP datagram that writeRawUDP lays out (internal/socket/multicast.go), the receiver that
// reads it back, and the two round trips between them.
module Datagram {
  import opened Basics
  import opened Addresses
  import opened Checksum

  const MAX_PAYLOAD := 65507
  const UDP_PROTOCOL := 17
  const IP_HEADER_LENGTH := 20

  function U16(v: uint16): Bytes {
    [HighByte(v), LowByte(v)]
  }

  lemma WordBytes(hi: byte, lo: byte)
    ensures U16(Word(hi, lo)) == [hi, lo]
  {
  }

  lemma WordOfBytes(v: uint16)
    ensures Word(HighByte(v), LowByte(v)) == v
  {
  }

  // uint16(port): a port outside 0..65535 is truncated to 16 bits.
  function PortBits(port: int): (bits: uint16)
    ensures 0 <= port <= 65535 ==> bits == port
  {
    port % 0x1_0000
  }

  // The datagram before its checksum is filled in.
  function Blank(sourcePort: uint16, groupPort: uint16, data: Bytes): Bytes
    requires |data| <= MAX_PAYLOAD
  {
    U16(sourcePort) + U16(groupPort) + U16(8 + |data|) + U16(0) + data
  }

  function Encode(source: Bytes, destination: Bytes, sourcePort: uint16, groupPort: uint16, data: Bytes): (d: Bytes)
    requires |source| == |destination| == 4 && |data| <= MAX_PAYLOAD
    ensures |d| == 8 + |data|
  {
    var blank := Blank(sourcePort, groupPort, data);
    WithChecksum(blank, ChecksumOf(source, destination, blank))
  }

  // ---- The code ----

  datatype BuildError = InvalidSourcePort(port: int) | PayloadTooLarge(size: int)

  datatype IPDatagram = IPDatagram(totalLength: int, ttl: int, protocol: int,
                                   source: Bytes, destination: Bytes, payload: Bytes)

  datatype BuildResult = Built(packet: IPDatagram) | Refused(error: BuildError)

  method PutUint16(buffer: array<byte>, i: nat, v: uint16)
    requires i + 2 <= buffer.Length
    modifies buffer
    ensures buffer[..] == old(buffer[..])[i := HighByte(v)][i + 1 := LowByte(v)]
  {
    buffer[i], buffer[i + 1] := HighByte(v), LowByte(v);
  }

  // copy(payload[8:], data)
  method CopyInto(buffer: array<byte>, data: Bytes)
    requires buffer.Length == 8 + |data|
    modifies buffer
    ensures buffer[..] == old(buffer[..8]) + data
  {
    var i := 0;
    while i < |data|
      invariant 0 <= i <= |data|
      invariant buffer[..8] == old(buffer[..8])
      invariant buffer[8..8 + i] == data[..i]
    {
      buffer[8 + i] := data[i];
      i := i + 1;
    }
    assert buffer[..] == buffer[..8] + buffer[8..8 + i];
  }

  // The first half of writeRawUDP.
  method BuildRawUDP(data: Bytes, source: UDPAddr, group: UDPAddr, ttl: int) returns (r: BuildResult)
    requires To4(source.ip).Some? && To4(group.ip).Some?
    ensures r.Refused? <==> source.port < 0 || source.port > 65535 || |data| > MAX_PAYLOAD
    ensures r.Refused? ==> r.error == if 0 <= source.port <= 65535 then PayloadTooLarge(|data|)
                                      else InvalidSourcePort(source.port)
    ensures r.Built? ==>
      && r.packet.payload == Encode(To4(source.ip).value, To4(group.ip).value, source.port, PortBits(group.port), data)
      && r.packet.totalLength == IP_HEADER_LENGTH + |r.packet.payload| <= 65535
      && r.packet.ttl == (if ttl <= 0 then 1 else ttl) && r.packet.protocol == UDP_PROTOCOL
      && r.packet.source == source.ip && r.packet.destination == group.ip
  {
    hide ChecksumOf;
    hide To4;
    if source.port < 0 || source.port > 65535 {
      return Refused(InvalidSourcePort(source.port));
    }
    if |data| > MAX_PAYLOAD {
      return Refused(PayloadTooLarge(|data|));
    }
    var udpLength := 8 + |data|;
    var payload := new byte[udpLength](_ => 0);
    PutUint16(payload, 0, source.port);
    PutUint16(payload, 2, PortBits(group.port));
    PutUint16(payload, 4, udpLength);
    CopyInto(payload, data);
    assert payload[..] == Blank(source.port, PortBits(group.port), data);
    var checksum := UdpChecksum(source.ip, group.ip, payload[..]);
    PutUint16(payload, 6, checksum);
    r := Built(IPDatagram(IP_HEADER_LENGTH + udpLength, if ttl <= 0 then 1 else ttl, UDP_PROTOCOL,
                          source.ip, group.ip, payload[..]));
  }

  lemma WordsOfNine(b: Bytes)
    requires |b| == 9
    ensures WordsOf(b) == [Word(b[0], b[1]), Word(b[2], b[3]), Word(b[4], b[5]), Word(b[6], b[7]), Word(b[8], 0)]
  {
    hide Word;
  }

  lemma TotalOfOne(a: uint16)
    ensures Total([a]) == a
  {
    assert [a][..0] == [];
  }

  lemma TotalOfFive(a: uint16, b: uint16, c: uint16, d: uint16, e: uint16)
    ensures Total([a, b, c, d, e]) == a + b + c + d + e
  {
    TotalConcat([a, b], [c, d, e]);
    TotalConcat([c, d], [e]);
    TotalConcat([a], [b]);
    TotalConcat([c], [d]);
    TotalOfOne(a);
    TotalOfOne(b);
    TotalOfOne(c);
    TotalOfOne(d);
    TotalOfOne(e);
    hide Total;
    assert [a, b] + [c, d, e] == [a, b, c, d, e] && [c, d] + [e] == [c, d, e];
    assert [a] + [b] == [a, b] && [c] + [d] == [c, d];
  }

  lemma ExampleBytes()
    ensures Blank(5353, 5353, [7]) == [20, 233, 20, 233, 0, 9, 0, 0, 7]
  {
  }

  lemma ExampleTotal()
    ensures Total(WordsOf([20, 233, 20, 233, 0, 9, 0, 0, 7])) == 12507
  {
    WordsOfNine([20, 233, 20, 233, 0, 9, 0, 0, 7]);
    hide WordsOf;
    hide Total;
    TotalOfFive(5353, 5353, 9, 0, 1792);
  }

  lemma ExampleAddresses()
    ensures Total(WordsOf([10, 0, 0, 5])) == 2565 && Total(WordsOf([224, 0, 0, 251])) == 57595
  {
    AddressTotal([10, 0, 0, 5]);
    AddressTotal([224, 0, 0, 251]);
    hide WordsOf;
    hide Total;
  }

  // A datagram of one byte: 10.0.0.5:5353 to 224.0.0.251:5353.
  lemma ChecksumExample()
    ensures ChecksumOf([10, 0, 0, 5], [224, 0, 0, 251], Blank(5353, 5353, [7])) == 0xe409
  {
    hide Covered;
    hide Total;
    hide OnesSum;
    hide WordsOf;
    hide Blank;
    ExampleBytes();
    ExampleTotal();
    ExampleAddresses();
    CoveredTotal([10, 0, 0, 5], [224, 0, 0, 251], [20, 233, 20, 233, 0, 9, 0, 0, 7]);
    OnesSumIsResidue(Covered([10, 0, 0, 5], [224, 0, 0, 251], [20, 233, 20, 233, 0, 9, 0, 0, 7]));
  }

  // ---- The receiver ----

  datatype Decoded = Delivered(sourcePort: uint16, destinationPort: uint16, data: Bytes) | Discarded

  // A UDP receiver: the length field must match and the checksum must verify unless it is zero,
  // which RFC 768 reserves for "none computed".
  function Decode(source: Bytes, destination: Bytes, d: Bytes): Decoded
    requires |source| == |destination| == 4 && |d| <= MAX_UDP_LENGTH
  {
    if |d| < 8 || Word(d[4], d[5]) != |d| then Discarded
    else if Word(d[6], d[7]) != 0 && !Verifies(source, destination, d) then Discarded
    else Delivered(Word(d[0], d[1]), Word(d[2], d[3]), d[8..])
  }

  lemma FilledIn(sourcePort: uint16, groupPort: uint16, data: Bytes, c: uint16)
    requires |data| <= MAX_PAYLOAD
    ensures WithChecksum(Blank(sourcePort, groupPort, data), c)
         == U16(sourcePort) + U16(groupPort) + U16(8 + |data|) + U16(c) + data
  {
    hide HighByte;
    hide LowByte;
  }

  // The layout in numbers: four big-endian fields, high octet first, then the data.
  lemma EncodeInNumbers(source: Bytes, destination: Bytes, sourcePort: uint16, groupPort: uint16, data: Bytes)
    requires |source| == |destination| == 4 && |data| <= MAX_PAYLOAD
    ensures var d := Encode(source, destination, sourcePort, groupPort, data);
            var c := ChecksumOf(source, destination, Blank(sourcePort, groupPort, data));
            && |d| == 8 + |data|
            && d[..2] == [sourcePort / 256, sourcePort % 256] && d[2..4] == [groupPort / 256, groupPort % 256]
            && d[4..6] == [(8 + |data|) / 256, (8 + |data|) % 256] && d[6..8] == [c / 256, c % 256]
            && d[8..] == data
  {
    FilledIn(sourcePort, groupPort, data, ChecksumOf(source, destination, Blank(sourcePort, groupPort, data)));
    hide ChecksumOf;
    hide WithChecksum;
    hide Blank;
  }

  lemma EncodeVerifies(source: Bytes, destination: Bytes, sourcePort: uint16, groupPort: uint16, data: Bytes)
    requires |source| == |destination| == 4 && |data| <= MAX_PAYLOAD
    ensures Verifies(source, destination, Encode(source, destination, sourcePort, groupPort, data))
  {
    var blank := Blank(sourcePort, groupPort, data);
    ChecksumIsUnique(source, destination, blank, ChecksumOf(source, destination, blank));
  }

  // What is built is delivered: both ports and the exact payload, for every port and every payload
  // the builder accepts. The checksum field is never the reserved zero.
  lemma EncodeThenDecode(source: Bytes, destination: Bytes, sourcePort: uint16, groupPort: uint16, data: Bytes)
    requires |source| == |destination| == 4 && |data| <= MAX_PAYLOAD
    ensures Decode(source, destination, Encode(source, destination, sourcePort, groupPort, data))
         == Delivered(sourcePort, groupPort, data)
  {
    var blank := Blank(sourcePort, groupPort, data);
    var c := ChecksumOf(source, destination, blank);
    FilledIn(sourcePort, groupPort, data, c);
    ChecksumIsUnique(source, destination, blank, c);
    WordOfBytes(sourcePort);
    WordOfBytes(groupPort);
    WordOfBytes(8 + |data|);
    WordOfBytes(c);
    hide Word;
    hide HighByte;
    hide LowByte;
    hide Blank;
    hide ChecksumOf;
    hide Verifies;
    hide WithChecksum;
  }

  lemma FieldBytes(d: Bytes)
    requires |d| >= 8
    ensures d == U16(Word(d[0], d[1])) + U16(Word(d[2], d[3])) + U16(Word(d[4], d[5])) + U16(Word(d[6], d[7])) + d[8..]
  {
    WordBytes(d[0], d[1]);
    WordBytes(d[2], d[3]);
    WordBytes(d[4], d[5]);
    WordBytes(d[6], d[7]);
    hide U16;
    assert d == [d[0], d[1]] + [d[2], d[3]] + [d[4], d[5]] + [d[6], d[7]] + d[8..];
  }

  // And nothing else is: any datagram that carries a checksum and is delivered is, byte for byte,
  // the one the builder makes from what was delivered.
  lemma DecodeThenEncode(source: Bytes, destination: Bytes, d: Bytes)
    requires |source| == |destination| == 4 && |d| <= MAX_UDP_LENGTH
    requires Decode(source, destination, d).Delivered?
    requires Word(d[6], d[7]) != 0
    ensures var r := Decode(source, destination, d);
            d == Encode(source, destination, r.sourcePort, r.destinationPort, r.data)
  {
    var r := Decode(source, destination, d);
    var blank, c := Blank(r.sourcePort, r.destinationPort, r.data), Word(d[6], d[7]);
    FieldBytes(d);
    FilledIn(r.sourcePort, r.destinationPort, r.data, c);
    hide ChecksumOf;
    hide Verifies;
    hide Blank;
    hide U16;
    hide Word;
    hide WithChecksum;
    assert d == WithChecksum(blank, c);
    ChecksumIsUnique(source, destination, blank, c);
  }
}
