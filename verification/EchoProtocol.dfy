// Self-echo suppression as a two-party protocol: the send worker marks and writes while the
// receiver, without a lock, reads packets, loads the published map and judges them. Marks may land
// between any two steps of the receiver.
module EchoProtocol {
  import opened Basics
  import opened ExpiryCache
  import opened Socket

  // A packet in the receive buffer: a loopback copy of the i-th marked write, or anything else.
  datatype Incoming = Loopback(data: Bytes, write: nat) | Outside(data: Bytes)

  // ReadFrom holds a packet and the map pointer it loaded; `loaded` counts the marks made by then.
  datatype Reader = Idle | Judging(packet: Incoming, snapshot: Option<map<Digest, Time>>, loaded: nat)

  datatype Verdict = Verdict(packet: Incoming, at: Time, loaded: nat, dropped: bool)

  // `marks` and `sent` are the unpruned log of writes; `recent` is what the code keeps of it.
  datatype State = State(now: Time, recent: Option<map<Digest, Time>>, inbox: seq<Incoming>, reader: Reader,
                         marks: seq<Entry<Digest>>, sent: seq<Bytes>,
                         arrived: seq<Incoming>, verdicts: seq<Verdict>, returned: seq<Incoming>)

  // Mark reads the clock (`read`) before it publishes (`at`). Only a write that was marked can
  // come back, any number of times, in any order, at any later moment.
  datatype Event =
    | Mark(data: Bytes, read: Time, at: Time)
    | Deliver(write: nat)
    | DeliverOutside(data: Bytes)
    | Load
    | Judge(at: Time)

  function Initial(now: Time): State {
    State(now, None, [], Idle, [], [], [], [], [])
  }

  predicate Enabled(s: State, e: Event) {
    match e
    case Mark(_, read, at) => (s.marks != [] ==> s.marks[|s.marks| - 1].at <= read) && read <= at && s.now <= at
    case Deliver(i) => i < |s.sent|
    case DeliverOutside(_) => true
    case Load => s.reader.Idle? && s.inbox != []
    case Judge(at) => s.reader.Judging? && s.now <= at
  }

  // An event that is not enabled does not happen.
  function Step(hash: Bytes -> Digest, s: State, e: Event): State {
    if !Enabled(s, e) then s
    else match e
    case Mark(data, read, at) =>
      s.(now := at, recent := Some(Marked(s.recent, hash(data), read)),
         marks := s.marks + [Entry(hash(data), read)], sent := s.sent + [data])
    case Deliver(i) =>
      s.(inbox := s.inbox + [Loopback(s.sent[i], i)], arrived := s.arrived + [Loopback(s.sent[i], i)])
    case DeliverOutside(data) =>
      s.(inbox := s.inbox + [Outside(data)], arrived := s.arrived + [Outside(data)])
    case Load =>
      s.(inbox := s.inbox[1..], reader := Judging(s.inbox[0], s.recent, |s.marks|))
    case Judge(at) =>
      var p := s.reader.packet;
      var echo := IsEcho(s.reader.snapshot, hash(p.data), at);
      s.(now := at, reader := Idle, verdicts := s.verdicts + [Verdict(p, at, s.reader.loaded, echo)],
         returned := if echo then s.returned else s.returned + [p])
  }

  function Run(hash: Bytes -> Digest, start: Time, events: seq<Event>): State {
    if events == [] then Initial(start)
    else Step(hash, Run(hash, start, events[..|events| - 1]), events[|events| - 1])
  }

  // ---- The invariant ----

  function Packets(verdicts: seq<Verdict>): seq<Incoming> {
    if verdicts == [] then []
    else Packets(verdicts[..|verdicts| - 1]) + [verdicts[|verdicts| - 1].packet]
  }

  function Passed(verdicts: seq<Verdict>): seq<Incoming> {
    if verdicts == [] then []
    else
      var v := verdicts[|verdicts| - 1];
      Passed(verdicts[..|verdicts| - 1]) + (if v.dropped then [] else [v.packet])
  }

  function Held(reader: Reader): seq<Incoming> {
    if reader.Judging? then [reader.packet] else []
  }

  // A loopback copy in hand was marked among the first n writes.
  predicate Genuine(sent: seq<Bytes>, p: Incoming, n: nat) {
    p.Loopback? ==> p.write < n && p.write < |sent| && p.data == sent[p.write]
  }

  ghost predicate MarksAgree(hash: Bytes -> Digest, s: State) {
    && |s.marks| == |s.sent|
    && (forall i | 0 <= i < |s.marks| :: s.marks[i].key == hash(s.sent[i]))
    && Tracks(Live(s.recent), s.marks, SELF_ECHO_WINDOW, s.now)
    && (s.marks != [] ==> Tracks(Live(s.recent), s.marks, SELF_ECHO_WINDOW, s.marks[|s.marks| - 1].at))
    && (s.marks == [] ==> s.recent == None)
    && (forall h | s.marks != [] && h in Live(s.recent) :: s.marks[|s.marks| - 1].at < Live(s.recent)[h])
  }

  ghost predicate ReaderAgrees(s: State) {
    s.reader.Judging? ==>
      && s.reader.loaded <= |s.marks|
      && Genuine(s.sent, s.reader.packet, s.reader.loaded)
      && Tracks(Live(s.reader.snapshot), s.marks[..s.reader.loaded], SELF_ECHO_WINDOW, s.now)
  }

  // Each verdict is the one the unpruned log would have given.
  ghost predicate VerdictAgrees(hash: Bytes -> Digest, marks: seq<Entry<Digest>>, sent: seq<Bytes>, v: Verdict) {
    && v.loaded <= |marks|
    && Genuine(sent, v.packet, v.loaded)
    && (v.dropped <==> Recent(marks[..v.loaded], SELF_ECHO_WINDOW, hash(v.packet.data), v.at))
  }

  ghost predicate InOrder(s: State) {
    && s.arrived == Packets(s.verdicts) + Held(s.reader) + s.inbox
    && s.returned == Passed(s.verdicts)
    && (forall p | p in s.inbox :: Genuine(s.sent, p, |s.marks|))
  }

  ghost predicate Inv(hash: Bytes -> Digest, s: State) {
    && MarksAgree(hash, s) && ReaderAgrees(s) && InOrder(s)
    && (forall v | v in s.verdicts :: VerdictAgrees(hash, s.marks, s.sent, v))
  }

  lemma MarkKeepsMarks(hash: Bytes -> Digest, s: State, data: Bytes, read: Time, at: Time)
    requires MarksAgree(hash, s) && Enabled(s, Mark(data, read, at))
    ensures MarksAgree(hash, Step(hash, s, Mark(data, read, at)))
  {
    var s' := Step(hash, s, Mark(data, read, at));
    if s.marks != [] {
      PurgeTracks(Live(s.recent), s.marks, SELF_ECHO_WINDOW, s.marks[|s.marks| - 1].at, read);
    }
    MarkedIsAhead(s.recent, hash(data), read);
    InsertTracks(Purged(Live(s.recent), read), s.marks, SELF_ECHO_WINDOW, hash(data), read);
    PurgeTracks(Live(s'.recent), s'.marks, SELF_ECHO_WINDOW, read, at);
  }

  lemma MarkKeepsReader(s: State, s': State, entry: Entry<Digest>, data: Bytes)
    requires ReaderAgrees(s) && s.now <= s'.now && |s.marks| == |s.sent|
    requires s'.reader == s.reader && s'.marks == s.marks + [entry] && s'.sent == s.sent + [data]
    ensures ReaderAgrees(s')
  {
    if s.reader.Judging? {
      assert s'.marks[..s.reader.loaded] == s.marks[..s.reader.loaded];
      PurgeTracks(Live(s.reader.snapshot), s.marks[..s.reader.loaded], SELF_ECHO_WINDOW, s.now, s'.now);
    }
  }

  lemma MarkKeepsVerdict(hash: Bytes -> Digest, marks: seq<Entry<Digest>>, sent: seq<Bytes>, v: Verdict,
                         entry: Entry<Digest>, data: Bytes)
    requires VerdictAgrees(hash, marks, sent, v)
    ensures VerdictAgrees(hash, marks + [entry], sent + [data], v)
  {
    assert (marks + [entry])[..v.loaded] == marks[..v.loaded];
  }

  lemma MarkKeepsInv(hash: Bytes -> Digest, s: State, e: Event)
    requires Inv(hash, s) && Enabled(s, e) && e.Mark?
    ensures Inv(hash, Step(hash, s, e))
  {
    var s' := Step(hash, s, e);
    var entry := Entry(hash(e.data), e.read);
    MarkKeepsMarks(hash, s, e.data, e.read, e.at);
    MarkKeepsReader(s, s', entry, e.data);
    assert InOrder(s');
    forall v | v in s'.verdicts
      ensures VerdictAgrees(hash, s'.marks, s'.sent, v)
    {
      MarkKeepsVerdict(hash, s.marks, s.sent, v, entry, e.data);
    }
  }

  lemma LoadKeepsOrder(s: State, s': State)
    requires InOrder(s) && s.reader.Idle? && s.inbox != []
    requires s' == s.(inbox := s.inbox[1..], reader := Judging(s.inbox[0], s.recent, |s.marks|))
    ensures InOrder(s') && Genuine(s.sent, s.inbox[0], |s.marks|)
  {
    assert s.inbox == [s.inbox[0]] + s.inbox[1..];
    assert s.inbox[0] in s.inbox;
  }

  lemma LoadKeepsInv(hash: Bytes -> Digest, s: State)
    requires Inv(hash, s) && Enabled(s, Load)
    ensures Inv(hash, Step(hash, s, Load))
  {
    var s' := Step(hash, s, Load);
    assert s.marks[..|s.marks|] == s.marks;
    LoadKeepsOrder(s, s');
    assert MarksAgree(hash, s') && ReaderAgrees(s');
  }

  lemma JudgeKeepsOrder(s: State, s': State, at: Time, echo: bool)
    requires InOrder(s) && s.reader.Judging?
    requires var p := s.reader.packet;
             s' == s.(now := at, reader := Idle, verdicts := s.verdicts + [Verdict(p, at, s.reader.loaded, echo)],
                      returned := if echo then s.returned else s.returned + [p])
    ensures InOrder(s')
  {
    assert s'.verdicts[..|s.verdicts|] == s.verdicts;
    assert Packets(s'.verdicts) == Packets(s.verdicts) + Held(s.reader);
  }

  lemma JudgeIsRight(hash: Bytes -> Digest, s: State, at: Time)
    requires ReaderAgrees(s) && s.reader.Judging? && s.now <= at
    ensures var r := s.reader;
            VerdictAgrees(hash, s.marks, s.sent,
                          Verdict(r.packet, at, r.loaded, IsEcho(r.snapshot, hash(r.packet.data), at)))
  {
    var r := s.reader;
    LookupAgrees(Live(r.snapshot), s.marks[..r.loaded], SELF_ECHO_WINDOW, s.now, hash(r.packet.data), at);
  }

  lemma JudgeKeepsInv(hash: Bytes -> Digest, s: State, e: Event)
    requires Inv(hash, s) && Enabled(s, e) && e.Judge?
    ensures Inv(hash, Step(hash, s, e))
  {
    var s' := Step(hash, s, e);
    JudgeIsRight(hash, s, e.at);
    JudgeKeepsOrder(s, s', e.at, IsEcho(s.reader.snapshot, hash(s.reader.packet.data), e.at));
    PurgeTracks(Live(s.recent), s.marks, SELF_ECHO_WINDOW, s.now, e.at);
    assert MarksAgree(hash, s') && ReaderAgrees(s');
  }

  lemma DeliverKeepsOrder(s: State, s': State, p: Incoming)
    requires InOrder(s) && Genuine(s.sent, p, |s.marks|)
    requires s' == s.(inbox := s.inbox + [p], arrived := s.arrived + [p])
    ensures InOrder(s')
  {
    assert s'.arrived == Packets(s.verdicts) + Held(s.reader) + (s.inbox + [p]);
  }

  lemma DeliverKeepsInv(hash: Bytes -> Digest, s: State, e: Event)
    requires Inv(hash, s) && Enabled(s, e) && (e.Deliver? || e.DeliverOutside?)
    ensures Inv(hash, Step(hash, s, e))
  {
    DeliverKeepsOrder(s, Step(hash, s, e), if e.Deliver? then Loopback(s.sent[e.write], e.write) else Outside(e.data));
    hide InOrder;
    hide VerdictAgrees;
    hide Tracks;
  }

  lemma {:induction false} RunKeepsInv(hash: Bytes -> Digest, start: Time, events: seq<Event>)
    ensures Inv(hash, Run(hash, start, events))
  {
    if events == [] {
    } else {
      var n := |events| - 1;
      RunKeepsInv(hash, start, events[..n]);
      var s, e := Run(hash, start, events[..n]), events[n];
      if Enabled(s, e) {
        match e
        case Mark(_, _, _) => MarkKeepsInv(hash, s, e);
        case Load => LoadKeepsInv(hash, s);
        case Judge(_) => JudgeKeepsInv(hash, s, e);
        case _ => DeliverKeepsInv(hash, s, e);
      }
    }
  }

  // ---- Main results ----

  // Over every interleaving: a loopback copy judged less than the window after its mark is
  // dropped, however many marks replaced the map in between; every other verdict is exactly the
  // one the full log of writes published before the load would give.
  lemma EchoNeverReturned(hash: Bytes -> Digest, start: Time, events: seq<Event>, v: Verdict)
    requires v in Run(hash, start, events).verdicts
    ensures var s := Run(hash, start, events);
            && v.loaded <= |s.marks| == |s.sent|
            && (v.dropped <==> exists j :: 0 <= j < v.loaded && s.marks[j].key == hash(v.packet.data)
                                           && v.at < s.marks[j].at + SELF_ECHO_WINDOW)
            && (v.packet.Loopback? ==>
                  && v.packet.write < v.loaded && v.packet.data == s.sent[v.packet.write]
                  && (v.at < s.marks[v.packet.write].at + SELF_ECHO_WINDOW ==> v.dropped))
  {
    RunKeepsInv(hash, start, events);
    var s := Run(hash, start, events);
    assert VerdictAgrees(hash, s.marks, s.sent, v);
    var log := s.marks[..v.loaded];
    if v.dropped {
      var j :| 0 <= j < |log| && log[j].key == hash(v.packet.data) && v.at < log[j].at + SELF_ECHO_WINDOW;
      assert s.marks[j] == log[j];
    }
    if j :| 0 <= j < v.loaded && s.marks[j].key == hash(v.packet.data) && v.at < s.marks[j].at + SELF_ECHO_WINDOW {
      assert log[j] == s.marks[j];
    }
  }

  lemma {:induction false} PassedInOrder(verdicts: seq<Verdict>)
    ensures Subsequence(Passed(verdicts), Packets(verdicts))
  {
    if verdicts == [] {
    } else {
      var n := |verdicts| - 1;
      PassedInOrder(verdicts[..n]);
      SubsequenceGrows(Passed(verdicts[..n]), Packets(verdicts[..n]), verdicts[n].packet);
      assert Passed(verdicts[..n]) + [] == Passed(verdicts[..n]);
    }
  }

  // Nothing else is lost, duplicated or reordered: what arrived is what was judged, then what is
  // in hand, then what waits; what ReadFrom returned is exactly the judged packets not dropped.
  lemma ArrivalOrderKept(hash: Bytes -> Digest, start: Time, events: seq<Event>)
    ensures var s := Run(hash, start, events);
            && s.arrived == Packets(s.verdicts) + Held(s.reader) + s.inbox
            && s.returned == Passed(s.verdicts)
            && Subsequence(s.returned, Packets(s.verdicts))
  {
    RunKeepsInv(hash, start, events);
    PassedInOrder(Run(hash, start, events).verdicts);
  }

  lemma AgreeingIsSmall(hash: Bytes -> Digest, s: State)
    requires MarksAgree(hash, s) && s.marks != []
    ensures var last := s.marks[|s.marks| - 1].at;
            && (forall h | h in Live(s.recent) :: last < Live(s.recent)[h])
            && |Live(s.recent)| <= |Since(s.marks, last - SELF_ECHO_WINDOW)|
  {
    var last := s.marks[|s.marks| - 1].at;
    hide Since;
    RetainedFit(Live(s.recent), s.marks, SELF_ECHO_WINDOW, last, last);
  }

  // The published map stays small: after every mark it holds no more entries than there were marks in
  // the 500 ms up to it.
  lemma SpaceBound(hash: Bytes -> Digest, start: Time, events: seq<Event>)
    requires Run(hash, start, events).marks != []
    ensures var s := Run(hash, start, events);
            var last := s.marks[|s.marks| - 1].at;
            && (forall h | h in Live(s.recent) :: last < Live(s.recent)[h])
            && |Live(s.recent)| <= |Since(s.marks, last - 500 * MILLISECOND)|
  {
    hide Run;
    hide MarksAgree;
    hide ReaderAgrees;
    hide InOrder;
    hide VerdictAgrees;
    hide Since;
    hide Live;
    RunKeepsInv(hash, start, events);
    AgreeingIsSmall(hash, Run(hash, start, events));
  }

  lemma RunSnoc(hash: Bytes -> Digest, start: Time, events: seq<Event>, e: Event)
    ensures Run(hash, start, events + [e]) == Step(hash, Run(hash, start, events), e)
  {
    assert (events + [e])[..|events|] == events;
  }

  // Somebody else's packet with the payload of a recent write never reaches the relay.
  lemma ForeignEchoExample(hash: Bytes -> Digest)
    ensures var s := Run(hash, 0, [Mark([7], 0, 0), DeliverOutside([7]), Load, Judge(1)]);
            s.arrived == [Outside([7])] && s.inbox == [] && s.reader.Idle? && s.returned == []
  {
    var mark, deliver: Event := Mark([7], 0, 0), DeliverOutside([7]);
    assert Run(hash, 0, []) == Initial(0);
    hide Run;
    RunSnoc(hash, 0, [], mark);
    assert [] + [mark] == [mark];
    var s1 := Run(hash, 0, [mark]);
    assert s1 == Step(hash, Initial(0), mark) && IsEcho(s1.recent, hash([7]), 1);
    RunSnoc(hash, 0, [mark], deliver);
    assert [mark] + [deliver] == [mark, deliver];
    RunSnoc(hash, 0, [mark, deliver], Load);
    assert [mark, deliver] + [Load] == [mark, deliver, Load];
    var s3 := Run(hash, 0, [mark, deliver, Load]);
    assert s3.reader == Judging(Outside([7]), s1.recent, |s1.marks|) && s3.inbox == [];
    RunSnoc(hash, 0, [mark, deliver, Load], Judge(1));
    assert [mark, deliver, Load] + [Judge(1)] == [mark, deliver, Load, Judge(1)];
  }
}
