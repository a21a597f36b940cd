/** The order in which the messages of a live stream reach a client. */
module LiveStreamOrder {
  import opened LiveStream

  /** All that was put into the client's queue so far, taken out or not. */
  function Received(m: Member): seq<Message> {
    m.delivered + m.send.buffer
  }

  /** `s` is made up of `h` and `b`, each in its own order. */
  predicate Shuffles(s: seq<Message>, h: seq<Message>, b: seq<Message>)
    decreases |s|
  {
    if s == [] then h == [] && b == []
    else
      var n := |s| - 1;
      || (h != [] && h[|h| - 1] == s[n] && Shuffles(s[..n], h[..|h| - 1], b))
      || (b != [] && b[|b| - 1] == s[n] && Shuffles(s[..n], h, b[..|b| - 1]))
  }

  /** The n-th step broadcasts an event for the first time, to a client that is registered and has room for it. */
  predicate Hears(steps: seq<Step>, n: nat, key: nat)
    requires n < |steps|
  {
    steps[n].Broadcast? &&
    var s, e := Run(steps[..n]), steps[n].event;
    e in s.unsent && e.encodable && key in s.members && s.members[key].registered && |s.members[key].send.buffer| < 256
  }

  /** The messages are those broadcasts, all of them, in the order of the steps. */
  ghost predicate HeardAt(b: seq<Message>, steps: seq<Step>, key: nat, at: seq<nat>) {
    && |at| == |b| && (forall i, j :: 0 <= i < j < |at| ==> at[i] < at[j])
    && (forall i :: 0 <= i < |at| ==> at[i] < |steps| && Hears(steps, at[i], key) && b[i] == Of(steps[at[i]].event))
    && (forall n :: 0 <= n < |steps| && Hears(steps, n, key) ==> n in at)
  }

  /** `h` and what is to be sent of the history are the session and the events recorded before the snapshot, in order. */
  ghost predicate IsHistory(m: Member, log: seq<Event>, h: seq<Message>, rest: seq<Message>) {
    && m.upTo <= |log|
    && (if m.started then InLogOrder(h + rest, log[..m.upTo]) else h == [])
    && (!m.historyPanic ==> rest == m.toSend)
  }

  ghost predicate IsOrdered(m: Member, log: seq<Event>, steps: seq<Step>, key: nat,
                            h: seq<Message>, rest: seq<Message>, b: seq<Message>, at: seq<nat>) {
    Shuffles(Received(m), h, b) && IsHistory(m, log, h, rest) && HeardAt(b, steps, key, at)
  }

  // ------------------------------------------------------------------ one step

  lemma ShuffleEither(s: seq<Message>, h: seq<Message>, b: seq<Message>, x: Message)
    requires Shuffles(s, h, b)
    ensures Shuffles(s + [x], h + [x], b) && Shuffles(s + [x], h, b + [x])
  {
    assert (s + [x])[..|s|] == s && (h + [x])[..|h|] == h && (b + [x])[..|b|] == b;
  }

  /** A step that is not heard. */
  lemma NotHeard(b: seq<Message>, steps: seq<Step>, key: nat, at: seq<nat>)
    requires steps != [] && HeardAt(b, steps[..|steps| - 1], key, at) && !Hears(steps, |steps| - 1, key)
    ensures HeardAt(b, steps, key, at)
  {
    SameHears(steps, key);
    hide Hears;
  }

  lemma AlsoHeard(b: seq<Message>, steps: seq<Step>, key: nat, at: seq<nat>)
    requires steps != [] && HeardAt(b, steps[..|steps| - 1], key, at) && Hears(steps, |steps| - 1, key)
    ensures HeardAt(b + [Of(steps[|steps| - 1].event)], steps, key, at + [|steps| - 1])
  {
    SameHears(steps, key);
    var n := |steps| - 1;
    var more := at + [n];
    hide Hears;
    assert more[|at|] == n;
    assert forall i :: 0 <= i < |at| ==> more[i] == at[i];
  }

  lemma SameHears(steps: seq<Step>, key: nat)
    requires steps != []
    ensures forall n :: 0 <= n < |steps| - 1 ==> (Hears(steps[..|steps| - 1], n, key) <==> Hears(steps, n, key))
  {
    hide Run;
    forall n | 0 <= n < |steps| - 1 ensures Hears(steps[..|steps| - 1], n, key) <==> Hears(steps, n, key) {
      assert steps[..|steps| - 1][..n] == steps[..n];
    }
  }

  lemma JoinedInOrder(log: seq<Event>)
    ensures Shuffles(Received(JOINED), [], []) && IsHistory(JOINED, log, [], [])
  {
  }

  /** A step that concerns one member only. */
  lemma AloneInOrder(m: Member, step: Step, log: seq<Event>, h: seq<Message>, rest: seq<Message>, b: seq<Message>)
    returns (h': seq<Message>, rest': seq<Message>)
    requires Shuffles(Received(m), h, b) && IsHistory(m, log, h, rest)
    requires m.historyPanic || !m.started ==> m.toSend == []
    ensures var n := Alone(m, step, log); Shuffles(Received(n), h', b) && IsHistory(n, log, h', rest')
  {
    hide Shuffles;
    hide InLogOrder;
    hide HistoryOf;
    h', rest' := h, rest;
    match step
    case Snapshot(_) =>
      if !m.started {
        rest' := HistoryOf(log);
        HistoryInOrder(log);
        assert log[..|log|] == log && h + rest' == rest';
      }
    case HistorySend(_) => h', rest' := SendInOrder(m, log, h, rest, b);
    case Unregister(_) =>
    case Drain(_) => TakeReceives(m);
    case _ =>
  }

  lemma TakeReceives(m: Member)
    ensures Received(Take(m)) == Received(m)
  {
    if m.send.buffer != [] {
      assert m.send.buffer == [m.send.buffer[0]] + m.send.buffer[1..];
    }
  }

  lemma SendInOrder(m: Member, log: seq<Event>, h: seq<Message>, rest: seq<Message>, b: seq<Message>)
    returns (h': seq<Message>, rest': seq<Message>)
    requires Shuffles(Received(m), h, b) && IsHistory(m, log, h, rest)
    requires m.historyPanic || !m.started ==> m.toSend == []
    ensures var n := SendNext(m); Shuffles(Received(n), h', b) && IsHistory(n, log, h', rest')
  {
    hide Shuffles;
    hide InLogOrder;
    h', rest' := h, rest;
    if m.toSend != [] && TrySend(m.send, m.toSend[0]).Sent? {
      var x := m.toSend[0];
      h', rest' := h + [x], m.toSend[1..];
      ShuffleEither(Received(m), h, b, x);
      assert Received(SendNext(m)) == Received(m) + [x];
      assert h + [x] + m.toSend[1..] == h + m.toSend;
    }
  }

  // ------------------------------------------------------------------ every run

  /** A client that has panicked while sending its history has nothing more to send. */
  lemma {:induction false} PanickedIsDone(steps: seq<Step>, key: nat)
    ensures var s := Run(steps); key in s.members && s.members[key].historyPanic ==> s.members[key].toSend == [] && s.members[key].started
  {
    if steps != [] {
      var front, last := steps[..|steps| - 1], steps[|steps| - 1];
      PanickedIsDone(front, key);
      RunInv(front);
      var s := Run(front);
      assert Run(steps) == Next(s, last);
      hide Run;
      if key in s.members {
        StillDone(s, last, key);
      }
    }
  }

  lemma StillDone(s: Stream, step: Step, key: nat)
    requires Inv(s) && key in s.members
    requires s.members[key].historyPanic ==> s.members[key].toSend == [] && s.members[key].started
    ensures var m := Next(s, step).members[key]; m.historyPanic ==> m.toSend == [] && m.started
  {
    var m := s.members[key];
    assert MemberInv(m, s.log, s.unsent);
    hide Inv;
    hide HistoryOf;
    hide Covered;
    hide Rationed;
  }

  lemma {:induction false} OrderSoFar(steps: seq<Step>, key: nat) returns (h: seq<Message>, rest: seq<Message>, b: seq<Message>, at: seq<nat>)
    ensures HeardAt(b, steps, key, at)
    ensures var s := Run(steps);
            if key in s.members then IsOrdered(s.members[key], s.log, steps, key, h, rest, b, at) else b == []
  {
    h, rest, b, at := [], [], [], [];
    if steps != [] {
      var front, last := steps[..|steps| - 1], steps[|steps| - 1];
      h, rest, b, at := OrderSoFar(front, key);
      var s := Run(front);
      RunInv(front);
      PanickedIsDone(front, key);
      hide Run;
      h, rest, b, at := OneMoreStep(s, steps, key, h, rest, b, at);
      assert Run(steps) == Next(s, last) by {
        OneStep(front, last);
        assert steps == front + [last];
      }
    }
  }

  lemma OneMoreStep(s: Stream, steps: seq<Step>, key: nat, h: seq<Message>, rest: seq<Message>, b: seq<Message>, at: seq<nat>)
    returns (h': seq<Message>, rest': seq<Message>, b': seq<Message>, at': seq<nat>)
    requires steps != [] && s == Run(steps[..|steps| - 1]) && Inv(s)
    requires HeardAt(b, steps[..|steps| - 1], key, at)
    requires if key in s.members then IsOrdered(s.members[key], s.log, steps[..|steps| - 1], key, h, rest, b, at) else b == []
    requires key in s.members && s.members[key].historyPanic ==> s.members[key].toSend == []
    ensures HeardAt(b', steps, key, at')
    ensures var after := Next(s, steps[|steps| - 1]);
            if key in after.members then IsOrdered(after.members[key], after.log, steps, key, h', rest', b', at') else b' == []
  {
    hide Run;
    hide Shuffles;
    hide IsHistory;
    hide Inv;
    h', rest', b', at' := h, rest, b, at;
    var last := steps[|steps| - 1];
    if Hears(steps, |steps| - 1, key) {
      AlsoHeard(b, steps, key, at);
      b', at' := b + [Of(last.event)], at + [|steps| - 1];
      HeardStep(s, last, key, h, rest, b);
      hide HeardAt;
    } else {
      NotHeard(b, steps, key, at);
      hide HeardAt;
      if key in s.members {
        var m := s.members[key];
        h', rest' := QuietStep(s, last, key, h, rest, b);
      } else if last == Register(key) {
        h', rest' := [], [];
        JoinedInOrder(s.log);
      }
    }
  }

  /** A step in which the client hears a broadcast. */
  lemma HeardStep(s: Stream, last: Step, key: nat, h: seq<Message>, rest: seq<Message>, b: seq<Message>)
    requires key in s.members && Inv(s)
    requires Shuffles(Received(s.members[key]), h, b) && IsHistory(s.members[key], s.log, h, rest)
    requires last.Broadcast? && last.event in s.unsent && last.event.encodable && s.members[key].registered && |s.members[key].send.buffer| < 256
    ensures var after := Next(s, last);
            && key in after.members && Shuffles(Received(after.members[key]), h, b + [Of(last.event)])
            && IsHistory(after.members[key], after.log, h, rest)
  {
    var m := s.members[key];
    assert MemberInv(m, s.log, s.unsent);
    hide Inv;
    hide MemberInv;
    hide InLogOrder;
    ShuffleEither(Received(m), h, b, Of(last.event));
    hide Shuffles;
    assert Received(Hear(m, last.event)) == Received(m) + [Of(last.event)];
  }

  /** A step in which the client hears no broadcast. */
  lemma QuietStep(s: Stream, last: Step, key: nat, h: seq<Message>, rest: seq<Message>, b: seq<Message>)
    returns (h': seq<Message>, rest': seq<Message>)
    requires key in s.members && Inv(s)
    requires Shuffles(Received(s.members[key]), h, b) && IsHistory(s.members[key], s.log, h, rest)
    requires s.members[key].historyPanic ==> s.members[key].toSend == []
    requires last.Broadcast? && last.event in s.unsent && last.event.encodable && s.members[key].registered ==> |s.members[key].send.buffer| >= 256
    ensures var after := Next(s, last);
            && key in after.members && Shuffles(Received(after.members[key]), h', b)
            && IsHistory(after.members[key], after.log, h', rest')
  {
    h', rest' := h, rest;
    var m := s.members[key];
    assert MemberInv(m, s.log, s.unsent);
    hide Shuffles;
    hide InLogOrder;
    match last
    case Register(_) =>
    case Append(e) => assert (s.log + [e])[..m.upTo] == s.log[..m.upTo];
    case Broadcast(e) => assert e in s.unsent ==> Hear(m, e) == m || Hear(m, e) == m.(dropped := m.dropped + {e});
    case _ =>
      if last.key == key {
        h', rest' := AloneInOrder(m, last, s.log, h, rest, b);
      }
  }

  /**
   * In every run what a client has received is made up of two parts, each in order: the session
   * and the events of its snapshot as they stand in the log, the rest of them still to be sent,
   * and the broadcasts it was registered and had room for, all of them, as they were made.
   */
  lemma ReceivedInOrder(steps: seq<Step>, key: nat)
    requires key in Run(steps).members
    ensures var s := Run(steps); exists h, rest, b, at :: IsOrdered(s.members[key], s.log, steps, key, h, rest, b, at)
  {
    var h, rest, b, at := OrderSoFar(steps, key);
    hide Run;
  }

  /** The queue is first in, first out: what was received stays in place, and is delivered in that order. */
  lemma {:induction false} FirstInFirstOut(steps: seq<Step>, more: seq<Step>, key: nat)
    requires key in Run(steps).members
    ensures key in Run(steps + more).members
    ensures var m, n := Run(steps).members[key], Run(steps + more).members[key];
            Received(m) <= Received(n) && m.delivered <= n.delivered <= Received(n)
    decreases |more|
  {
    if more == [] {
      assert steps + more == steps;
    } else {
      var front, last := more[..|more| - 1], more[|more| - 1];
      FirstInFirstOut(steps, front, key);
      assert steps + more == (steps + front) + [last];
      OneStep(steps + front, last);
      hide Run;
      QueueGrows(Run(steps + front), last, key);
    }
  }

  lemma QueueGrows(s: Stream, step: Step, key: nat)
    requires key in s.members
    ensures key in Next(s, step).members
    ensures var m, n := s.members[key], Next(s, step).members[key]; Received(m) <= Received(n) && m.delivered <= n.delivered
  {
    TakeReceives(s.members[key]);
  }
}
