/**
 * The live event stream of a session: every client gets the events recorded before it joined
 * from a snapshot and the later ones from broadcasts, through one bounded queue.
 */
module LiveStream {

  /** `encodable` tells whether the event can be written as JSON; one that cannot is never sent. */
  datatype Event = Event(id: string, kind: string, title: string, encodable: bool)

  datatype Message = Info | Of(event: Event)

  const QUEUE_CAPACITY := 256

  /** A client's send queue; sending on a closed one panics. */
  datatype Channel = Channel(buffer: seq<Message>, closed: bool)

  datatype Attempt = Sent(channel: Channel) | Full | Panicked

  function TrySend(c: Channel, m: Message): Attempt {
    if c.closed then Panicked
    else if |c.buffer| < QUEUE_CAPACITY then Sent(c.(buffer := c.buffer + [m]))
    else Full
  }

  function Encoded(events: seq<Event>): seq<Message> {
    if events == [] then []
    else
      var n := |events| - 1;
      if events[n].encodable then Encoded(events[..n]) + [Of(events[n])] else Encoded(events[..n])
  }

  /** What a client is sent about the past: the session, then its events. */
  function HistoryOf(events: seq<Event>): seq<Message> {
    [Info] + Encoded(events)
  }

  /** The messages tell of the events of the log that can be encoded, of all of them, the i-th at position `at[i]`. */
  ghost predicate ListsAt(messages: seq<Message>, log: seq<Event>, at: seq<nat>) {
    && |at| == |messages| && (forall i, j :: 0 <= i < j < |at| ==> at[i] < at[j])
    && (forall i :: 0 <= i < |at| ==> at[i] < |log| && log[at[i]].encodable && messages[i] == Of(log[at[i]]))
    && (forall n :: 0 <= n < |log| && log[n].encodable ==> n in at)
  }

  /** First the session, then the events that can be encoded, at growing positions of the log. */
  ghost predicate InLogOrder(messages: seq<Message>, log: seq<Event>) {
    messages != [] && messages[0] == Info && exists at :: ListsAt(messages[1..], log, at)
  }

  lemma {:induction false} EncodedAt(events: seq<Event>) returns (at: seq<nat>)
    ensures ListsAt(Encoded(events), events, at)
  {
    at := [];
    if events != [] {
      var n := |events| - 1;
      at := EncodedAt(events[..n]);
      var messages := Encoded(events[..n]);
      hide Encoded;
      OneMoreListed(messages, events, at);
      if events[n].encodable {
        at := at + [n];
      }
    }
  }

  lemma OneMoreListed(messages: seq<Message>, log: seq<Event>, at: seq<nat>)
    requires log != [] && ListsAt(messages, log[..|log| - 1], at)
    ensures var n := |log| - 1;
            if log[n].encodable then ListsAt(messages + [Of(log[n])], log, at + [n]) else ListsAt(messages, log, at)
  {
    var n := |log| - 1;
    var front, more := log[..n], at + [n];
    assert forall i :: 0 <= i < |at| ==> more[i] == at[i] && at[i] < n;
    assert more[|at|] == n;
    forall k | 0 <= k < n && log[k].encodable ensures k in at && k in more {
      assert front[k] == log[k];
    }
  }

  lemma HistoryInOrder(events: seq<Event>)
    ensures InLogOrder(HistoryOf(events), events)
  {
    var at := EncodedAt(events);
    assert HistoryOf(events)[1..] == Encoded(events);
  }

  // ------------------------------------------------------------------ the locked operations

  class Client {
    var send: Channel

    constructor ()
      ensures send == Channel([], false)
    {
      send := Channel([], false);
    }
  }

  class Session {
    var events: seq<Event>
    var clients: set<Client>

    ghost predicate Valid()
      reads this, clients
    {
      forall c :: c in clients ==> !c.send.closed
    }

    constructor ()
      ensures Valid() && events == [] && clients == {}
    {
      events := [];
      clients := {};
    }

    method RegisterClient(c: Client)
      requires Valid() && !c.send.closed
      modifies this
      ensures Valid() && clients == old(clients) + {c} && events == old(events)
    {
      clients := clients + {c};
    }

    method UnregisterClient(c: Client)
      requires Valid()
      modifies this, c
      ensures Valid() && clients == old(clients) - {c} && events == old(events)
      ensures c.send == if c in old(clients) then old(c.send).(closed := true) else old(c.send)
    {
      if c in clients {
        clients := clients - {c};
        c.send := c.send.(closed := true);
      }
    }

    method Append(e: Event)
      modifies this
      ensures events == old(events) + [e] && clients == old(clients)
    {
      events := events + [e];
    }

    /** Every client is tried once; one whose queue is full misses the event. No send panics. */
    method Broadcast(e: Event)
      requires Valid()
      modifies clients
      ensures Valid()
      ensures forall c :: c in clients ==>
                c.send == if e.encodable && TrySend(old(c.send), Of(e)).Sent? then TrySend(old(c.send), Of(e)).channel else old(c.send)
      ensures forall c :: c in clients && e.encodable ==> TrySend(old(c.send), Of(e)) != Panicked
    {
      if !e.encodable {
        return;
      }
      var rest := clients;
      while rest != {}
        invariant rest <= clients
        invariant forall c :: c in rest ==> c.send == old(c.send)
        invariant forall c :: c in clients - rest ==>
                    c.send == if TrySend(old(c.send), Of(e)).Sent? then TrySend(old(c.send), Of(e)).channel else old(c.send)
        decreases |rest|
      {
        var c :| c in rest;
        rest := rest - {c};
        if |c.send.buffer| < QUEUE_CAPACITY {
          c.send := c.send.(buffer := c.send.buffer + [Of(e)]);
        }
      }
    }

    /** The snapshot a new client's history is sent from, one blocking send after the other. */
    method TakeHistory() returns (messages: seq<Message>)
      ensures messages == HistoryOf(events) && InLogOrder(messages, events)
    {
      hide InLogOrder;
      messages := [Info];
      for i := 0 to |events|
        invariant messages == [Info] + Encoded(events[..i])
      {
        assert events[..i + 1][..i] == events[..i];
        if events[i].encodable {
          messages := messages + [Of(events[i])];
        }
      }
      assert events[..|events|] == events;
      HistoryInOrder(events);
    }
  }

  // ------------------------------------------------------------------ interleavings

  /**
   * `toSend` is what is left of the history, `upTo` how many events the snapshot held,
   * `delivered` what the write pump has taken, `dropped` the events whose broadcast found the
   * queue full.
   */
  datatype Member = Member(
    registered: bool, send: Channel, started: bool, upTo: nat, toSend: seq<Message>, delivered: seq<Message>,
    dropped: set<Event>, broadcastPanic: bool, historyPanic: bool)

  /** `unsent` are the events appended whose broadcast is still to come. */
  datatype Stream = Stream(log: seq<Event>, unsent: set<Event>, members: map<nat, Member>)

  const EMPTY := Stream([], {}, map[])

  datatype Step =
    | Register(key: nat)
    | Snapshot(key: nat)
    | HistorySend(key: nat)
    | Append(event: Event)
    | Broadcast(event: Event)
    | Unregister(key: nat)
    | Drain(key: nat)

  /** A member when an event is broadcast. */
  function Hear(m: Member, e: Event): Member {
    if !m.registered || !e.encodable then m
    else
      match TrySend(m.send, Of(e))
      case Sent(channel) => m.(send := channel)
      case Full => m.(dropped := m.dropped + {e})
      case Panicked => m.(broadcastPanic := true)
  }

  /** The next history message; the goroutine waits while the queue is full. */
  function SendNext(m: Member): Member {
    if m.toSend == [] then m
    else
      match TrySend(m.send, m.toSend[0])
      case Sent(channel) => m.(send := channel, toSend := m.toSend[1..])
      case Full => m
      case Panicked => m.(historyPanic := true, toSend := [])
  }

  function TakeSnapshot(m: Member, log: seq<Event>): Member {
    if m.started then m else m.(started := true, upTo := |log|, toSend := HistoryOf(log))
  }

  function Leave(m: Member): Member {
    if m.registered then m.(registered := false, send := m.send.(closed := true)) else m
  }

  function Take(m: Member): Member {
    if m.send.buffer == [] then m
    else m.(send := m.send.(buffer := m.send.buffer[1..]), delivered := m.delivered + [m.send.buffer[0]])
  }

  const JOINED := Member(true, Channel([], false), false, 0, [], [], {}, false, false)

  predicate Fresh(log: seq<Event>, e: Event) {
    forall i :: 0 <= i < |log| ==> log[i].id != e.id
  }

  function Next(s: Stream, step: Step): Stream {
    match step
    case Register(key) => if key in s.members then s else s.(members := s.members[key := JOINED])
    case Append(e) => if !Fresh(s.log, e) then s else s.(log := s.log + [e], unsent := s.unsent + {e})
    case Broadcast(e) =>
      if e !in s.unsent then s
      else s.(unsent := s.unsent - {e}, members := map key | key in s.members :: Hear(s.members[key], e))
    case _ => if step.key !in s.members then s else s.(members := s.members[step.key := Alone(s.members[step.key], step, s.log)])
  }

  /** A step that concerns one member only. */
  function Alone(m: Member, step: Step, log: seq<Event>): Member {
    match step
    case Snapshot(_) => TakeSnapshot(m, log)
    case HistorySend(_) => SendNext(m)
    case Unregister(_) => Leave(m)
    case Drain(_) => Take(m)
    case _ => m
  }

  function Run(steps: seq<Step>): Stream {
    if steps == [] then EMPTY else Next(Run(steps[..|steps| - 1]), steps[|steps| - 1])
  }

  // ------------------------------------------------------------------ the invariant

  /** Everything the client was or will be sent. */
  function Everything(m: Member): multiset<Message> {
    multiset(m.delivered) + multiset(m.send.buffer) + multiset(m.toSend)
  }

  ghost predicate Distinct(log: seq<Event>) {
    forall i, j :: 0 <= i < j < |log| ==> log[i] != log[j]
  }

  predicate InSnapshot(m: Member, log: seq<Event>, e: Event)
    requires m.upTo <= |log|
  {
    m.started && e in log[..m.upTo]
  }

  /** An event is covered by the history or by its broadcast, or its broadcast found the queue full. */
  predicate Covered(m: Member, log: seq<Event>, unsent: set<Event>, e: Event)
    requires m.upTo <= |log|
  {
    if InSnapshot(m, log, e) then Of(e) in Everything(m)
    else !m.started || e in unsent || Of(e) in Everything(m) || e in m.dropped
  }

  /** Once from the history and once from the broadcast, at most. */
  predicate Rationed(m: Member, log: seq<Event>, unsent: set<Event>, e: Event)
    requires m.upTo <= |log|
  {
    Everything(m)[Of(e)] <= (if InSnapshot(m, log, e) then 1 else 0) + (if e in log && e !in unsent then 1 else 0)
  }

  ghost predicate MemberInv(m: Member, log: seq<Event>, unsent: set<Event>) {
    && m.upTo <= |log|
    && (m.registered <==> !m.send.closed)
    && !m.broadcastPanic
    && (m.historyPanic ==> !m.registered)
    && |m.send.buffer| <= QUEUE_CAPACITY
    && (!m.started ==> m.toSend == [])
    && (m.registered ==> forall e :: e in log && e.encodable ==> Covered(m, log, unsent, e))
    && (forall e :: Rationed(m, log, unsent, e))
  }

  ghost predicate Inv(s: Stream) {
    && Distinct(s.log)
    && (forall e :: e in s.unsent ==> e in s.log)
    && (forall key :: key in s.members ==> MemberInv(s.members[key], s.log, s.unsent))
  }

  lemma {:induction false} EncodedHasEach(log: seq<Event>, e: Event)
    requires Distinct(log)
    ensures multiset(HistoryOf(log))[Of(e)] == if e in log && e.encodable then 1 else 0
  {
    if log != [] {
      var n := |log| - 1;
      EncodedHasEach(log[..n], e);
      assert log == log[..n] + [log[n]];
      assert log[..n] + [log[n]] == log && forall i :: 0 <= i < n ==> log[..n][i] == log[i];
      assert HistoryOf(log) == if log[n].encodable then HistoryOf(log[..n]) + [Of(log[n])] else HistoryOf(log[..n]);
    }
  }

  lemma SnapshotMember(m: Member, log: seq<Event>, unsent: set<Event>)
    requires MemberInv(m, log, unsent) && Distinct(log)
    ensures MemberInv(TakeSnapshot(m, log), log, unsent)
  {
    if !m.started {
      var n := TakeSnapshot(m, log);
      assert log[..n.upTo] == log;
      forall e ensures Rationed(n, log, unsent, e) && (e in log && e.encodable ==> Covered(n, log, unsent, e)) {
        EncodedHasEach(log, e);
        assert Rationed(m, log, unsent, e);
      }
    }
  }

  lemma SendMember(m: Member, log: seq<Event>, unsent: set<Event>)
    requires MemberInv(m, log, unsent)
    ensures MemberInv(SendNext(m), log, unsent)
    ensures SendNext(m).historyPanic && !m.historyPanic <==> !m.registered && m.toSend != [] && !m.historyPanic
  {
    if m.toSend != [] {
      var n := SendNext(m);
      assert m.toSend == [m.toSend[0]] + m.toSend[1..];
      assert forall e :: Everything(n)[Of(e)] <= Everything(m)[Of(e)];
      assert m.registered ==> Everything(n) == Everything(m);
      forall e ensures Rationed(n, log, unsent, e) {
        assert Rationed(m, log, unsent, e);
      }
      if m.registered {
        forall e | e in log && e.encodable ensures Covered(n, log, unsent, e) {
          assert Covered(m, log, unsent, e);
        }
      }
    }
  }

  lemma TakeMember(m: Member, log: seq<Event>, unsent: set<Event>)
    requires MemberInv(m, log, unsent)
    ensures MemberInv(Take(m), log, unsent)
  {
    if m.send.buffer != [] {
      var n := Take(m);
      assert m.send.buffer == [m.send.buffer[0]] + m.send.buffer[1..];
      assert Everything(n) == Everything(m);
      forall e ensures Rationed(n, log, unsent, e) {
        assert Rationed(m, log, unsent, e);
      }
      forall e | m.registered && e in log && e.encodable ensures Covered(n, log, unsent, e) {
        assert Covered(m, log, unsent, e);
      }
    }
  }

  lemma LeaveMember(m: Member, log: seq<Event>, unsent: set<Event>)
    requires MemberInv(m, log, unsent)
    ensures MemberInv(Leave(m), log, unsent)
  {
    forall e ensures Rationed(Leave(m), log, unsent, e) {
      assert Rationed(m, log, unsent, e);
    }
  }

  lemma HearMember(m: Member, log: seq<Event>, unsent: set<Event>, e: Event)
    requires MemberInv(m, log, unsent) && e in unsent && e in log
    ensures MemberInv(Hear(m, e), log, unsent - {e})
  {
    var n := Hear(m, e);
    forall x ensures Rationed(n, log, unsent - {e}, x) {
      assert Rationed(m, log, unsent, x);
    }
    forall x | m.registered && x in log && x.encodable ensures Covered(n, log, unsent - {e}, x) {
      assert Covered(m, log, unsent, x);
    }
  }

  lemma AppendMember(m: Member, log: seq<Event>, unsent: set<Event>, e: Event)
    requires MemberInv(m, log, unsent) && e !in log
    ensures MemberInv(m, log + [e], unsent + {e})
  {
    assert (log + [e])[..m.upTo] == log[..m.upTo];
    forall x ensures Rationed(m, log + [e], unsent + {e}, x) {
      assert Rationed(m, log, unsent, x);
    }
    forall x | m.registered && x in log + [e] && x.encodable ensures Covered(m, log + [e], unsent + {e}, x) {
      assert x in log ==> Covered(m, log, unsent, x);
    }
  }

  lemma JoinedMember(log: seq<Event>, unsent: set<Event>)
    ensures MemberInv(JOINED, log, unsent)
  {
  }

  lemma InvStep(s: Stream, step: Step)
    requires Inv(s)
    ensures Inv(Next(s, step))
  {
    hide MemberInv;
    hide TrySend;
    match step
    case Register(_) => JoinedMember(s.log, s.unsent);
    case Append(e) =>
      if Fresh(s.log, e) {
        forall key | key in s.members ensures MemberInv(s.members[key], s.log + [e], s.unsent + {e}) {
          AppendMember(s.members[key], s.log, s.unsent, e);
        }
      }
    case Broadcast(e) =>
      if e in s.unsent {
        forall key | key in s.members ensures MemberInv(Hear(s.members[key], e), s.log, s.unsent - {e}) {
          HearMember(s.members[key], s.log, s.unsent, e);
        }
      }
    case Snapshot(key) => if key in s.members { SnapshotMember(s.members[key], s.log, s.unsent); }
    case HistorySend(key) => if key in s.members { SendMember(s.members[key], s.log, s.unsent); }
    case Unregister(key) => if key in s.members { LeaveMember(s.members[key], s.log, s.unsent); }
    case Drain(key) => if key in s.members { TakeMember(s.members[key], s.log, s.unsent); }
  }

  lemma {:induction false} RunInv(steps: seq<Step>)
    ensures Inv(Run(steps))
  {
    if steps != [] {
      RunInv(steps[..|steps| - 1]);
      InvStep(Run(steps[..|steps| - 1]), steps[|steps| - 1]);
    }
  }

  // ------------------------------------------------------------------ what holds over every run

  /** What has reached the client's queue so far. */
  predicate Reached(m: Member, e: Event) {
    Of(e) in m.delivered || Of(e) in m.send.buffer
  }

  /**
   * No gap: in every interleaving, once a client that stays registered has been sent its
   * history, every event whose broadcast is over has reached its queue, unless it came after the
   * snapshot and the queue was full at its broadcast. An event of the snapshot is never missed.
   */
  lemma NoGap(steps: seq<Step>, key: nat, e: Event)
    requires key in Run(steps).members
    requires var m := Run(steps).members[key]; m.registered && m.started && m.toSend == []
    requires e in Run(steps).log && e.encodable && e !in Run(steps).unsent
    ensures var s := Run(steps);
            var m := s.members[key];
            && m.upTo <= |s.log|
            && (Reached(m, e) || (e in m.dropped && e !in s.log[..m.upTo]))
  {
    RunInv(steps);
    var s := Run(steps);
    var m := s.members[key];
    hide Run;
    assert MemberInv(m, s.log, s.unsent);
    assert Covered(m, s.log, s.unsent, e);
  }

  /** A broadcast passes a registered client by exactly when its queue holds 256 messages. */
  lemma DroppedExactly(steps: seq<Step>, key: nat, e: Event)
    requires key in Run(steps).members && e in Run(steps).unsent && e !in Run(steps).members[key].dropped
    ensures var m := Run(steps).members[key];
            e in Next(Run(steps), Broadcast(e)).members[key].dropped
            <==> m.registered && e.encodable && |m.send.buffer| == 256
  {
    RunInv(steps);
    hide Run;
    assert MemberInv(Run(steps).members[key], Run(steps).log, Run(steps).unsent);
  }

  /** No event reaches a client more than twice, and one recorded after its snapshot at most once. */
  lemma AtMostTwice(steps: seq<Step>, key: nat, e: Event)
    requires key in Run(steps).members
    ensures var s := Run(steps);
            var m := s.members[key];
            && m.upTo <= |s.log|
            && multiset(m.delivered + m.send.buffer)[Of(e)] <= if m.started && e in s.log[..m.upTo] then 2 else 1
  {
    RunInv(steps);
    var s := Run(steps);
    var m := s.members[key];
    hide Run;
    assert MemberInv(m, s.log, s.unsent);
    assert Rationed(m, s.log, s.unsent, e);
    assert multiset(m.delivered + m.send.buffer) == multiset(m.delivered) + multiset(m.send.buffer);
  }

  /**
   * No broadcast ever sends on a closed queue. A history send does exactly when the client was
   * unregistered before its history was finished.
   */
  lemma ClosedQueueExactly(steps: seq<Step>, key: nat)
    requires key in Run(steps).members
    ensures var m := Run(steps).members[key];
            && !m.broadcastPanic
            && (m.registered ==> !m.send.closed && !m.historyPanic)
            && (!m.historyPanic ==>
                  (Next(Run(steps), HistorySend(key)).members[key].historyPanic <==> !m.registered && m.toSend != []))
  {
    RunInv(steps);
    var s := Run(steps);
    hide Run;
    assert MemberInv(s.members[key], s.log, s.unsent);
    SendMember(s.members[key], s.log, s.unsent);
  }

  /** Such a run: the client leaves after the snapshot and before the first history message. */
  lemma HistoryCanPanic()
    ensures Run([Register(0)] + [Snapshot(0)] + [Unregister(0)] + [HistorySend(0)]).members.Keys == {0}
    ensures Run([Register(0)] + [Snapshot(0)] + [Unregister(0)] + [HistorySend(0)]).members[0].historyPanic
  {
    OneStep([], Register(0));
    assert [] + [Register(0)] == [Register(0)];
    OneStep([Register(0)], Snapshot(0));
    OneStep([Register(0)] + [Snapshot(0)], Unregister(0));
    OneStep([Register(0)] + [Snapshot(0)] + [Unregister(0)], HistorySend(0));
    hide Run;
  }

  lemma OneStep(steps: seq<Step>, step: Step)
    ensures Run(steps + [step]) == Next(Run(steps), step)
  {
    assert (steps + [step])[..|steps|] == steps;
  }
}
