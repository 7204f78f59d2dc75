// MulticastSocket of internal/socket/multicast.go: the writes it makes and the echoes it drops.
module Socket {
  import opened Basics
  import opened ExpiryCache
  import opened Addresses
  import Checksum
  import opened Datagram

  const SELF_ECHO_WINDOW: int := 500 * MILLISECOND

  // ---- The echo map as a function of the code's fields ----

  // recentTx is nil until the first mark.
  function Live(recent: Option<map<Digest, Time>>): map<Digest, Time> {
    if recent.None? then map[] else recent.value
  }

  function Marked(recent: Option<map<Digest, Time>>, h: Digest, now: Time): map<Digest, Time> {
    Purged(Live(recent), now)[h := now + SELF_ECHO_WINDOW]
  }

  // A mark leaves nothing expired behind, and what it keeps is unchanged.
  lemma MarkedIsAhead(recent: Option<map<Digest, Time>>, h: Digest, now: Time)
    ensures forall k | k in Marked(recent, h, now) :: now < Marked(recent, h, now)[k]
    ensures forall k | k != h ::
              k in Marked(recent, h, now) <==> k in Live(recent) && now < Live(recent)[k]
    ensures forall k | k != h && k in Marked(recent, h, now) :: Marked(recent, h, now)[k] == Live(recent)[k]
  {
  }

  predicate IsEcho(recent: Option<map<Digest, Time>>, h: Digest, now: Time) {
    Holds(Live(recent), h, now)
  }

  // ---- The wire ----

  datatype Body = RawIP(packet: IPDatagram) | Local(data: Bytes, ttl: int)

  // What a socket does, in the order it does it: publish a mark, or put one copy on the wire.
  datatype Action = Marking(digest: Digest, at: Time) | Transmission(iface: int, body: Body)

  // One copy for each interface whose write succeeds, in interface order.
  function Copies(egress: seq<int>, ok: set<int>, body: Body): seq<Action> {
    if egress == [] then []
    else
      var n := |egress| - 1;
      Copies(egress[..n], ok, body) + (if egress[n] in ok then [Transmission(egress[n], body)] else [])
  }

  // Every copy of one write carries the same body, one interface each.
  lemma {:induction false} CopiesSound(egress: seq<int>, ok: set<int>, body: Body)
    ensures forall i | 0 <= i < |Copies(egress, ok, body)| ::
              var copy := Copies(egress, ok, body)[i];
              copy.Transmission? && copy.body == body && copy.iface in egress
    ensures Copies(egress, ok, body) != [] <==> exists k :: 0 <= k < |egress| && egress[k] in ok
  {
    if egress == [] {
    } else {
      var n := |egress| - 1;
      CopiesSound(egress[..n], ok, body);
      if k :| 0 <= k < n && egress[..n][k] in ok {
        assert egress[k] in ok;
      }
      assert forall k | 0 <= k < n :: egress[..n][k] == egress[k];
    }
  }

  function Interfaces(copies: seq<Action>): seq<int> {
    if copies == [] then []
    else
      var last := copies[|copies| - 1];
      Interfaces(copies[..|copies| - 1]) + (if last.Transmission? then [last.iface] else [])
  }

  lemma InterfacesGrow(copies: seq<Action>, x: int, body: Body)
    ensures Interfaces(copies + [Transmission(x, body)]) == Interfaces(copies) + [x]
  {
    assert (copies + [Transmission(x, body)])[..|copies|] == copies;
  }

  ghost predicate EachAsOften(carried: seq<int>, egress: seq<int>, ok: set<int>) {
    forall x :: multiset(carried)[x] == if x in ok then multiset(egress)[x] else 0
  }

  lemma OneMoreInterface(carried: seq<int>, egress: seq<int>, ok: set<int>, x: int)
    requires EachAsOften(carried, egress, ok)
    ensures EachAsOften(if x in ok then carried + [x] else carried, egress + [x], ok)
  {
  }

  // The interfaces that carry a copy are the accepting ones, in interface order, each as often as it
  // is listed; so once, if the interfaces are distinct.
  lemma {:induction false} OneCopyEach(egress: seq<int>, ok: set<int>, body: Body)
    ensures var carried := Interfaces(Copies(egress, ok, body));
            && Subsequence(carried, egress)
            && EachAsOften(carried, egress, ok)
            && |carried| == |Copies(egress, ok, body)|
  {
    if egress == [] {
    } else {
      var n := |egress| - 1;
      var before := Copies(egress[..n], ok, body);
      OneCopyEach(egress[..n], ok, body);
      InterfacesGrow(before, egress[n], body);
      OneMoreInterface(Interfaces(before), egress[..n], ok, egress[n]);
      SubsequenceGrows(Interfaces(before), egress[..n], egress[n]);
      assert egress == egress[..n] + [egress[n]];
      assert Copies(egress, ok, body) == if egress[n] in ok then before + [Transmission(egress[n], body)] else before;
      hide Copies;
      hide Interfaces;
      hide Subsequence;
      hide EachAsOften;
    }
  }

  lemma DistinctOnce(egress: seq<int>, x: int)
    requires forall i, j | 0 <= i < j < |egress| :: egress[i] != egress[j]
    ensures multiset(egress)[x] == if x in egress then 1 else 0
  {
    if k :| 0 <= k < |egress| && egress[k] == x {
      assert egress == egress[..k] + [x] + egress[k + 1..];
    }
  }

  // The outcomes of the system calls that one WriteToGroup makes.
  datatype WriteScript = WriteScript(deadlineOk: bool, ttlOk: bool, rawDeadlineOk: bool,
                                     rawOk: set<int>, localOk: set<int>)

  // One return of the packet connection's ReadFrom; `from` is None for a non-UDP source address.
  datatype Arrival = Got(data: Bytes, from: Option<UDPAddr>, ttl: Option<int>, at: Time) | Failed

  datatype ReadOutcome = Received(data: Bytes, from: UDPAddr, ttl: int) | BadSource | ReadError

  // net.IP.IsUnspecified: 0.0.0.0, in four bytes or mapped into sixteen, or ::.
  predicate Unspecified(ip: Bytes) {
    To4(ip) == Some([0, 0, 0, 0]) || ip == ZERO16
  }

  class MulticastSocket {
    const hash: Bytes -> Digest
    const group: UDPAddr
    const interfaceIndex: int
    const interfaceIndices: seq<int>
    const hasRaw: bool
    var recentTx: Option<map<Digest, Time>>
    var multicastTTL: int
    ghost var trace: seq<Action>

    constructor (hash: Bytes -> Digest, group: UDPAddr, interfaceIndex: int, interfaceIndices: seq<int>, hasRaw: bool)
      ensures this.hash == hash && this.group == group && this.hasRaw == hasRaw
      ensures this.interfaceIndex == interfaceIndex && this.interfaceIndices == interfaceIndices
      ensures recentTx == None && trace == [] && multicastTTL == 1
    {
      this.hash, this.group, this.hasRaw := hash, group, hasRaw;
      this.interfaceIndex, this.interfaceIndices := interfaceIndex, interfaceIndices;
      recentTx, trace, multicastTTL := None, [], 1;
    }

    function Egress(): (r: seq<int>)
      ensures r != []
    {
      if |interfaceIndices| > 0 then interfaceIndices else [interfaceIndex]
    }

    method MarkSent(data: Bytes, now: Time)
      modifies this`recentTx, this`trace
      ensures recentTx == Some(Marked(old(recentTx), hash(data), now))
      ensures trace == old(trace) + [Marking(hash(data), now)]
    {
      var live: map<Digest, Time> := map[];
      if recentTx.Some? {
        var prev := recentTx.value;
        var todo := prev.Keys;
        while todo != {}
          invariant todo <= prev.Keys
          invariant live == map k | k in prev && k !in todo && now < prev[k] :: prev[k]
        {
          var h :| h in todo;
          if now < prev[h] {
            live := live[h := prev[h]];
          }
          todo := todo - {h};
        }
        assert live == Purged(prev, now);
      }
      recentTx := Some(live[hash(data) := now + SELF_ECHO_WINDOW]);
      trace := trace + [Marking(hash(data), now)];
    }

    method IsSelfEcho(data: Bytes, now: Time) returns (echo: bool)
      ensures echo <==> IsEcho(recentTx, hash(data), now)
    {
      if recentTx.None? {
        return false;
      }
      var h := hash(data);
      if h in recentTx.value {
        return now < recentTx.value[h];
      }
      return false;
    }

    predicate IsEchoArrival(a: Arrival)
      reads this
    {
      a.Got? && a.from.Some? && IsEcho(recentTx, hash(a.data), a.at)
    }

    // The loop of ReadFrom over what the packet connection returns: the first arrival that is not
    // an echo decides. When `arrivals` is exhausted the read deadline, armed once per call, expires.
    method ReadFrom(arrivals: seq<Arrival>, deadlineOk: bool) returns (r: ReadOutcome, consumed: nat)
      ensures consumed <= |arrivals| && (!deadlineOk ==> r.ReadError? && consumed == 0)
      ensures forall i | 0 <= i < consumed - 1 :: IsEchoArrival(arrivals[i])
      ensures deadlineOk && consumed == 0 ==> arrivals == [] && r.ReadError?
      ensures consumed > 0 ==>
        match arrivals[consumed - 1]
        case Failed => r == ReadError
        case Got(data, None, _, _) => r == BadSource
        case Got(data, Some(from), ttl, at) =>
          if IsEcho(recentTx, hash(data), at) then consumed == |arrivals| && r == ReadError
          else r == Received(data, from, if ttl.Some? then ttl.value else 0)
    {
      consumed := 0;
      if !deadlineOk {
        return ReadError, 0;
      }
      while consumed < |arrivals|
        invariant consumed <= |arrivals|
        invariant forall i | 0 <= i < consumed :: IsEchoArrival(arrivals[i])
      {
        var a := arrivals[consumed];
        consumed := consumed + 1;
        if a.Failed? {
          return ReadError, consumed;
        }
        if a.from.None? {
          return BadSource, consumed;
        }
        var echo := IsSelfEcho(a.data, a.at);
        if echo {
          continue;
        }
        return Received(a.data, a.from.value, if a.ttl.Some? then a.ttl.value else 0), consumed;
      }
      return ReadError, consumed;
    }

    predicate TriesRaw(source: Option<UDPAddr>) {
      source.Some? && To4(source.value.ip).Some? && !Unspecified(source.value.ip) && hasRaw
    }

    predicate RawAccepts(data: Bytes, source: UDPAddr) {
      0 <= source.port <= 65535 && |data| <= MAX_PAYLOAD
    }

    // The source-preserved packet: the sender's address and port, the group's, the payload.
    function RawPacket(data: Bytes, source: UDPAddr, ttl: int): IPDatagram
      requires To4(source.ip).Some? && To4(group.ip).Some? && RawAccepts(data, source)
    {
      var udp := Encode(To4(source.ip).value, To4(group.ip).value, source.port, PortBits(group.port), data);
      IPDatagram(IP_HEADER_LENGTH + |udp|, if ttl <= 0 then 1 else ttl, UDP_PROTOCOL, source.ip, group.ip, udp)
    }

    function RawCopies(data: Bytes, source: UDPAddr, ttl: int, io: WriteScript): seq<Action>
      requires To4(source.ip).Some? && To4(group.ip).Some?
    {
      if RawAccepts(data, source) && io.rawDeadlineOk then
        Copies(Egress(), io.rawOk, RawIP(RawPacket(data, source, ttl)))
      else []
    }

    predicate AnyLocalFails(io: WriteScript) {
      exists k :: 0 <= k < |Egress()| && (Egress()[k] !in io.localOk)
    }

    function PreservedCopies(data: Bytes, source: Option<UDPAddr>, ttl: int, io: WriteScript): seq<Action>
      requires To4(group.ip).Some?
    {
      if TriesRaw(source) then RawCopies(data, source.value, ttl, io) else []
    }

    function LocalCopies(data: Bytes, ttl: int, io: WriteScript): seq<Action> {
      Copies(Egress(), io.localOk, Local(data, ttl))
    }

    lemma LocalCopiesSound(data: Bytes, ttl: int, io: WriteScript)
      ensures forall t | t in LocalCopies(data, ttl, io) :: t.Transmission? && t.body == Local(data, ttl)
      ensures LocalCopies(data, ttl, io) == [] <==> forall k | 0 <= k < |Egress()| :: Egress()[k] !in io.localOk
    {
      CopiesSound(Egress(), io.localOk, Local(data, ttl));
    }

    // Whether a write gets as far as its copies.
    predicate Starts(ttl: int, io: WriteScript) {
      io.deadlineOk && (ttl > 0 ==> io.ttlOk)
    }

    // Everything one WriteToGroup puts on the wire; `stored` is the socket's multicast TTL before it.
    function AllCopies(data: Bytes, source: Option<UDPAddr>, ttl: int, stored: int, io: WriteScript): seq<Action>
      requires To4(group.ip).Some?
    {
      if Starts(ttl, io) then
        PreservedCopies(data, source, ttl, io) + LocalCopies(data, if ttl > 0 then ttl else stored, io)
      else []
    }

    // Whether WriteToGroup returns an error.
    predicate Fails(data: Bytes, source: Option<UDPAddr>, ttl: int, io: WriteScript)
      requires To4(group.ip).Some?
    {
      if !Starts(ttl, io) then true
      else if |data| > 0 then AllCopies(data, source, ttl, 1, io) == []
      else PreservedCopies(data, source, ttl, io) == [] && (TriesRaw(source) || AnyLocalFails(io))
    }

    // In the code's terms: nothing was sent, nothing preserved, and one of the writes failed.
    lemma FailsWhenUnsent(data: Bytes, source: Option<UDPAddr>, ttl: int, io: WriteScript, local: seq<Action>)
      requires To4(group.ip).Some? && Starts(ttl, io)
      requires exists t :: local == LocalCopies(data, t, io)
      ensures Fails(data, source, ttl, io)
         <==> PreservedCopies(data, source, ttl, io) == [] && (local == [] || data == [])
              && (TriesRaw(source) || AnyLocalFails(io))
    {
      var t :| local == LocalCopies(data, t, io);
      LocalCopiesSound(data, t, io);
      LocalCopiesSound(data, if ttl > 0 then ttl else 1, io);
      assert Egress()[0] !in io.localOk ==> AnyLocalFails(io);
    }

    // The loop of writeRawUDP over the egress interfaces.
    method WriteEach(body: Body, accepts: set<int>) returns (sent: bool)
      modifies this`trace
      ensures trace == old(trace) + Copies(Egress(), accepts, body)
      ensures sent <==> Copies(Egress(), accepts, body) != []
    {
      var egress := Egress();
      sent := false;
      var i := 0;
      while i < |egress|
        invariant 0 <= i <= |egress|
        invariant trace == old(trace) + Copies(egress[..i], accepts, body)
        invariant sent <==> Copies(egress[..i], accepts, body) != []
      {
        assert egress[..i + 1][..i] == egress[..i];
        if egress[i] in accepts {
          trace := trace + [Transmission(egress[i], body)];
          sent := true;
        }
        i := i + 1;
      }
      assert egress[..i] == egress;
    }

    // writeRawUDP: the datagram is built once and written to every egress interface.
    method WriteRawUDP(data: Bytes, source: UDPAddr, ttl: int, io: WriteScript) returns (ok: bool)
      requires To4(source.ip).Some? && To4(group.ip).Some?
      modifies this`trace
      ensures trace == old(trace) + RawCopies(data, source, ttl, io)
      ensures ok <==> RawCopies(data, source, ttl, io) != []
    {
      var built := BuildRawUDP(data, source, group, ttl);
      if built.Refused? || !io.rawDeadlineOk {
        return false;
      }
      assert RawCopies(data, source, ttl, io) == Copies(Egress(), io.rawOk, RawIP(built.packet));
      ok := WriteEach(RawIP(built.packet), io.rawOk);
    }

    // The source-preserving attempt of WriteToGroup.
    method WritePreserved(data: Bytes, source: Option<UDPAddr>, ttl: int, io: WriteScript)
      returns (preserved: bool, failed: bool)
      requires To4(group.ip).Some?
      modifies this`trace
      ensures trace == old(trace) + PreservedCopies(data, source, ttl, io)
      ensures preserved <==> PreservedCopies(data, source, ttl, io) != []
      ensures failed <==> TriesRaw(source) && !preserved
    {
      preserved, failed := false, false;
      if source.Some? && To4(source.value.ip).Some? && !Unspecified(source.value.ip) {
        if hasRaw {
          preserved := WriteRawUDP(data, source.value, ttl, io);
          failed := !preserved;
        }
      }
    }

    // The loop of WriteToGroup that sends the locally sourced copies.
    method WriteLocal(data: Bytes, io: WriteScript) returns (sent: int, failed: bool)
      modifies this`trace
      ensures trace == old(trace) + LocalCopies(data, multicastTTL, io)
      ensures sent == if LocalCopies(data, multicastTTL, io) == [] then 0 else |data|
      ensures failed <==> AnyLocalFails(io)
      ensures !failed ==> LocalCopies(data, multicastTTL, io) != []
    {
      var egress, body := Egress(), Local(data, multicastTTL);
      sent, failed := 0, false;
      var i := 0;
      while i < |egress|
        invariant 0 <= i <= |egress|
        invariant trace == old(trace) + Copies(egress[..i], io.localOk, body)
        invariant sent == if Copies(egress[..i], io.localOk, body) == [] then 0 else |data|
        invariant failed <==> exists k :: 0 <= k < i && egress[k] !in io.localOk
        invariant i > 0 && !failed ==> Copies(egress[..i], io.localOk, body) != []
      {
        assert egress[..i + 1][..i] == egress[..i];
        if egress[i] in io.localOk {
          sent := |data|;
          trace := trace + [Transmission(egress[i], body)];
        } else {
          failed := true;
        }
        i := i + 1;
      }
      assert egress[..i] == egress;
    }

    // The copies of a write that has started, raw and local.
    method WriteCopies(data: Bytes, source: Option<UDPAddr>, ttl: int, io: WriteScript)
      returns (sent: int, failed: bool)
      requires To4(group.ip).Some? && Starts(ttl, io)
      modifies this`trace
      ensures trace == old(trace) + (PreservedCopies(data, source, ttl, io) + LocalCopies(data, multicastTTL, io))
      ensures failed <==> Fails(data, source, ttl, io)
      ensures sent == if failed then 0 else |data|
    {
      FailsWhenUnsent(data, source, ttl, io, LocalCopies(data, multicastTTL, io));
      hide Fails;
      hide PreservedCopies;
      hide LocalCopies;
      hide AnyLocalFails;
      hide TriesRaw;
      var preserved, rawFailed := WritePreserved(data, source, ttl, io);
      var localFailed;
      sent, localFailed := WriteLocal(data, io);
      Associative(old(trace), PreservedCopies(data, source, ttl, io), LocalCopies(data, multicastTTL, io));
      failed := rawFailed || localFailed;
      if sent == 0 && !preserved {
        return 0, failed;
      }
      failed := false;
      if sent == 0 {
        sent := |data|;
      }
    }

    // WriteToGroup. `sent` and `failed` are Go's results: `failed` is a non-nil error.
    method WriteToGroup(data: Bytes, source: Option<UDPAddr>, ttl: int, now: Time, io: WriteScript)
      returns (sent: int, failed: bool)
      requires To4(group.ip).Some?
      modifies this
      ensures recentTx == Some(Marked(old(recentTx), hash(data), now))
      // The mark comes before every copy, and is made whatever happens next.
      ensures trace == old(trace) + [Marking(hash(data), now)] + AllCopies(data, source, ttl, old(multicastTTL), io)
      ensures multicastTTL == if ttl > 0 && Starts(ttl, io) then ttl else old(multicastTTL)
      ensures old(multicastTTL) > 0 ==> multicastTTL > 0
      ensures failed <==> Fails(data, source, ttl, io)
      ensures sent == if failed then 0 else |data|
    {
      hide Marked;
      MarkSent(data, now);
      if !io.deadlineOk {
        return 0, true;
      }
      if ttl > 0 {
        if !io.ttlOk {
          return 0, true;
        }
        multicastTTL := ttl;
      }
      hide PreservedCopies;
      hide LocalCopies;
      sent, failed := WriteCopies(data, source, ttl, io);
    }
  }

  // Success is reported exactly when some copy went out, except in one family of cases: an empty
  // payload, no raw copy, a local copy, and some failed write that hides it.
  lemma SuccessIsACopyIff(s: MulticastSocket, data: Bytes, source: Option<UDPAddr>, ttl: int, stored: int,
                          io: WriteScript)
    requires To4(s.group.ip).Some?
    ensures (s.Fails(data, source, ttl, io) <==> s.AllCopies(data, source, ttl, stored, io) == [])
       <==> !s.Starts(ttl, io) || |data| > 0
            || !(s.PreservedCopies(data, source, ttl, io) == [] && s.LocalCopies(data, ttl, io) != []
                 && (s.TriesRaw(source) || s.AnyLocalFails(io)))
  {
    s.LocalCopiesSound(data, if ttl > 0 then ttl else stored, io);
    s.LocalCopiesSound(data, if ttl > 0 then ttl else 1, io);
    s.LocalCopiesSound(data, ttl, io);
    assert s.Egress()[0] !in io.localOk ==> s.AnyLocalFails(io);
  }

  // An empty datagram leaves through one of two interfaces, and the write still reports an error.
  lemma HiddenCopyExample(s: MulticastSocket)
    requires To4(s.group.ip).Some? && s.interfaceIndices == [3, 4]
    ensures var io := WriteScript(true, true, true, {}, {3});
            s.Fails([], None, 1, io) && s.AllCopies([], None, 1, 1, io) == [Transmission(3, Local([], 1))]
  {
    var io, body := WriteScript(true, true, true, {}, {3}), Local([], 1);
    assert s.Egress()[1] !in io.localOk;
    assert Copies([3, 4][..1][..0], io.localOk, body) == [];
    assert Copies([3, 4][..1], io.localOk, body) == [Transmission(3, body)];
    assert s.LocalCopies([], 1, io) == [Transmission(3, body)];
  }

  function TTLOf(body: Body): int {
    match body
    case RawIP(packet) => packet.ttl
    case Local(_, ttl) => ttl
  }

  // A copy delivers the original payload, and a raw one goes from the original address and port to
  // the group's.
  ghost predicate Delivers(s: MulticastSocket, body: Body, data: Bytes, source: Option<UDPAddr>)
    requires IPv4Group(s.group)
  {
    match body
    case Local(d, _) => d == data
    case RawIP(p) =>
      && source.Some? && To4(source.value.ip).Some? && s.RawAccepts(data, source.value)
      && p.source == source.value.ip && p.destination == s.group.ip
      && p.protocol == 17 && p.totalLength == 28 + |data| && |p.payload| == 8 + |data|
      && Decode(To4(source.value.ip).value, To4(s.group.ip).value, p.payload)
         == Delivered(source.value.port, s.group.port, data)
  }

  lemma RawCopiesSound(s: MulticastSocket, data: Bytes, source: Option<UDPAddr>, ttl: int, io: WriteScript)
    requires IPv4Group(s.group)
    ensures forall t | t in s.PreservedCopies(data, source, ttl, io) ::
              && t.Transmission? && t.body.RawIP? && TTLOf(t.body) == (if ttl > 0 then ttl else 1)
              && Delivers(s, t.body, data, source)
  {
    if s.TriesRaw(source) && s.RawAccepts(data, source.value) {
      EncodeThenDecode(To4(source.value.ip).value, To4(s.group.ip).value, source.value.port, PortBits(s.group.port), data);
      CopiesSound(s.Egress(), io.rawOk, RawIP(s.RawPacket(data, source.value, ttl)));
      hide Encode;
      hide Decode;
    }
  }

  // `copies` go out once on each interface listed in `listed` that is in `ok`, in that order, and
  // nowhere else.
  ghost predicate OnceEach(copies: seq<Action>, listed: seq<int>, ok: set<int>) {
    var carried := Interfaces(copies);
    && |carried| == |copies| && Subsequence(carried, listed)
    && forall x :: multiset(carried)[x] == if x in listed && x in ok then 1 else 0
  }

  lemma CopiesOnceEach(listed: seq<int>, ok: set<int>, body: Body)
    requires forall i, j | 0 <= i < j < |listed| :: listed[i] != listed[j]
    ensures OnceEach(Copies(listed, ok, body), listed, ok)
  {
    OneCopyEach(listed, ok, body);
    hide Copies;
    hide Interfaces;
    hide Subsequence;
    forall x
      ensures multiset(listed)[x] == if x in listed then 1 else 0
    {
      DistinctOnce(listed, x);
    }
  }

  lemma NoCopies(listed: seq<int>)
    ensures OnceEach([], listed, {})
  {
  }

  lemma SpecifiedIff(ip: Bytes)
    ensures To4(ip).Some? ==> (Unspecified(ip) <==> To4(ip).value == [0, 0, 0, 0])
  {
    assert ZERO16[..12][10] != V4_IN_V6[10];
  }

  // What a socket puts on which of its interfaces, if these are distinct: the local copy goes out on
  // each interface that accepts it; the raw copy likewise, if the sender has an IPv4 address other
  // than 0.0.0.0 and a real port, the payload fits, and raw access works.
  lemma CopiesGoEverywhere(s: MulticastSocket, data: Bytes, source: Option<UDPAddr>, ttl: int, io: WriteScript,
                           listed: seq<int>)
    requires To4(s.group.ip).Some?
    requires listed == if s.interfaceIndices == [] then [s.interfaceIndex] else s.interfaceIndices
    requires forall i, j | 0 <= i < j < |listed| :: listed[i] != listed[j]
    ensures OnceEach(s.LocalCopies(data, ttl, io), listed, io.localOk)
    ensures var tried := s.hasRaw && io.rawDeadlineOk && |data| <= 65507
                         && source.Some? && 0 <= source.value.port <= 65535
                         && To4(source.value.ip).Some? && To4(source.value.ip).value != [0, 0, 0, 0];
            OnceEach(s.PreservedCopies(data, source, ttl, io), listed, if tried then io.rawOk else {})
  {
    hide OnceEach;
    hide Copies;
    hide To4;
    hide Unspecified;
    CopiesOnceEach(listed, io.localOk, Local(data, ttl));
    NoCopies(listed);
    if source.Some? {
      SpecifiedIff(source.value.ip);
    }
    if s.TriesRaw(source) && s.RawAccepts(data, source.value) {
      CopiesOnceEach(listed, io.rawOk, RawIP(s.RawPacket(data, source.value, ttl)));
    }
  }

  // Both kinds of copy retain the incoming TTL exactly when it is above zero, unless no copy is
  // made at all; and every copy delivers what was sent, whatever the TTL.
  lemma CopiesKeepTTLAndPayload(s: MulticastSocket, data: Bytes, source: Option<UDPAddr>, ttl: int, io: WriteScript)
    requires IPv4Group(s.group) && s.multicastTTL > 0
    ensures var copies := s.AllCopies(data, source, ttl, s.multicastTTL, io);
            && (forall t | t in copies :: t.Transmission? && Delivers(s, t.body, data, source))
            && ((forall t | t in copies :: TTLOf(t.body) == ttl) <==> ttl > 0 || copies == [])
  {
    hide Encode;
    hide Decode;
    RawCopiesSound(s, data, source, ttl, io);
    s.LocalCopiesSound(data, if ttl > 0 then ttl else s.multicastTTL, io);
    var copies := s.AllCopies(data, source, ttl, s.multicastTTL, io);
    if ttl <= 0 && copies != [] {
      assert copies[0] in copies && TTLOf(copies[0].body) > 0;
    }
  }

  // A packet read without a TTL leaves with the TTL the socket was created with.
  lemma ZeroTTLExample(s: MulticastSocket)
    requires To4(s.group.ip).Some? && s.interfaceIndices == [3]
    ensures s.AllCopies([7], None, 0, 1, WriteScript(true, true, true, {}, {3})) == [Transmission(3, Local([7], 1))]
  {
    var io, body := WriteScript(true, true, true, {}, {3}), Local([7], 1);
    assert Copies([3][..0], io.localOk, body) == [];
    assert s.LocalCopies([7], 1, io) == [Transmission(3, body)];
  }
}
