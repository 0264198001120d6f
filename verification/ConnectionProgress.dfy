/** Where the machine of module `ConnectionMachine` gets to: from every reachable state it can be connected
    again, and how each of its loops ends. */
module ConnectionProgress {
  import opened ConnectionMachine

  // ------------------------------------------------------ what a turn brings

  /** The broker refuses, or the connection closes. */
  predicate Bad(e: Event)
  {
    e == Disconnect || (e.Connack? && e.result != 0)
  }

  predicate AnyBad(events: seq<Event>)
  {
    exists k :: 0 <= k < |events| && Bad(events[k])
  }

  /** What one library call comes to, for the state of the application. */
  lemma CallVerdict(s: State, events: seq<Event>)
    requires OneCall(events)
    ensures HandleAll(s, events).loop == s.loop && HandleAll(s, events).retry == s.retry
    ensures HandleAll(s, events).app ==
            if AnyBad(events) then Error else if Accepts(events) then Connected else s.app
  {
    if events != [] {
      var e := events[0];
      var t := Handle(s, e);
      assert HandleAll(s, events) == HandleAll(t, events[1..]);
      assert e in events;
      if |events| == 2 {
        assert events[1..] == [Disconnect] && Bad(events[1]);
        assert HandleAll(t, [Disconnect]) == HandleAll(Handle(t, Disconnect), [][..]);
      } else {
        assert events == [e] && events[1..] == [];
        assert Bad(e) ==> Bad(events[0]);
      }
    }
  }

  // ------------------------------------------------------ the loop that waits for CONNACK

  /** Nothing happens. */
  predicate Idle(i: Input)
  {
    && (i.pollRc == 0 || (i.pollRc > 0 && i.inRc >= 0 && !AnyBad(i.inEvents) && !Accepts(i.inEvents)))
    && i.liveEvents == []
  }

  /** The broker accepts, and the connection stays open. */
  predicate Accepting(i: Input)
  {
    i.pollRc > 0 && i.inRc >= 0 && Accepts(i.inEvents) && !AnyBad(i.inEvents) && i.liveEvents == []
  }

  /** A turn of the wait loop: CONNECTED exactly if the broker accepts and the connection stays open, still
      waiting, a second less, exactly if nothing happens, and ERROR otherwise. */
  lemma WaitVerdict(s: State, i: Input)
    requires Possible(i) && s.loop.Connecting? && s.app == MqttConnect && s.loop.waitMs > 0
    ensures var t := Turn(s, i);
            && (t.app == Connected <==> Accepting(i))
            && (t.app == MqttConnect <==> Idle(i))
            && (Idle(i) ==> t.loop == Connecting(s.loop.waitMs - 1000))
            && (t.app == Connected || t.app == MqttConnect || t.app == Error)
  {
    hide HandleAll, AnyBad, Accepts;
    CallVerdict(s, i.inEvents);
    var t := HandleAll(s, i.inEvents);
    ClosingKeeps(s, i.closeEvents);
    ClosingKeeps(s, i.liveEvents);
    ClosingKeeps(t, i.closeEvents);
    ClosingKeeps(t, i.liveEvents);
  }

  /** A turn in MQTT_CONNECT makes one attempt, on a new socket; it waits for the answer exactly if TLS comes up,
      and is in ERROR otherwise. */
  lemma AttemptVerdict(s: State, i: Input)
    requires s.loop == Outer && s.app == MqttConnect
    ensures var t := Turn(s, i);
            && |t.history.attempts| == |s.history.attempts| + 1 && t.session == s.session + 1
            && (if i.tlsOk then t.app == MqttConnect && t.loop == Connecting(15000) && t.pollSession == t.session
                else t.app == Error && t.loop == Outer)
  {
  }

  /** An accepted connection is served: from CONNECTED the loop of the connected state is entered at once or, if
      the wait loop has to be left first, after one more turn, whatever the turns bring. */
  lemma AcceptedIsServed(s: State, i: Input, j: Input)
    requires s.app == Connected && s.loop != Serving
    ensures Turn(s, i).app == Connected
    ensures if s.loop == Outer then Turn(s, i).loop == Serving else Turn(Turn(s, i), j) == Turn(s, i).(loop := Serving)
  {
  }

  function After(s: State, inputs: seq<Input>): State
    decreases |inputs|
  {
    if inputs == [] then s else Turn(After(s, inputs[..|inputs| - 1]), inputs[|inputs| - 1])
  }

  ghost predicate AllIdle(inputs: seq<Input>)
  {
    forall k :: 0 <= k < |inputs| ==> Possible(inputs[k]) && Idle(inputs[k])
  }

  lemma {:induction false} Waits(s: State, idle: seq<Input>)
    requires s.loop == Connecting(15000) && s.app == MqttConnect && AllIdle(idle) && |idle| <= 15
    ensures var t := After(s, idle); t.app == MqttConnect && t.loop == Connecting(15000 - 1000 * |idle|)
    decreases |idle|
  {
    hide Turn, Possible, Idle;
    if idle != [] {
      var n := |idle| - 1;
      Waits(s, idle[..n]);
      WaitVerdict(After(s, idle[..n]), idle[n]);
    }
  }

  /** Without an answer the wait loop takes fifteen turns, and then it gives up. */
  lemma GivesUpAfterFifteen(s: State, i: Input, idle: seq<Input>, last: Input)
    requires s.loop == Outer && s.app == MqttConnect && i.tlsOk && AllIdle(idle) && |idle| == 15
    requires Possible(last)
    ensures forall k :: 0 <= k <= 15 ==>
              var t := After(Turn(s, i), idle[..k]); t.app == MqttConnect && t.loop.Connecting?
    ensures var t := Turn(After(Turn(s, i), idle), last); t.app == Error && t.loop == Outer
  {
    hide After, HandleAll, AllIdle;
    var u := Turn(s, i);
    assert idle[..15] == idle;
    forall k | 0 <= k <= 15
      ensures var t := After(u, idle[..k]); t.app == MqttConnect && t.loop == Connecting(15000 - 1000 * k)
    {
      SomeAreIdle(idle, k);
      Waits(u, idle[..k]);
    }
    ClosingKeeps(After(u, idle), last.closeEvents);
  }

  lemma SomeAreIdle(inputs: seq<Input>, k: nat)
    requires AllIdle(inputs) && k <= |inputs|
    ensures AllIdle(inputs[..k])
  {
  }

  // ------------------------------------------------------ the loop of the connected state

  /** The loop finds the connection broken itself. */
  predicate Fails(i: Input)
  {
    i.pollRc < 0 || (i.pollRc > 0 && i.inRc < 0) || i.liveBad || i.tooManyPings
  }

  /** The library says that it is closed. */
  predicate Closes(i: Input)
  {
    (i.pollRc > 0 && AnyBad(i.inEvents)) || i.liveEvents != [] || i.pingEvents != [] || i.sendEvents != []
  }

  /** A turn of the connected loop: back to MQTT_CONNECT exactly if the loop finds the connection broken, to
      ERROR exactly if it does not and the library reports an end, and on in CONNECTED exactly otherwise. */
  lemma ServeVerdict(s: State, i: Input)
    requires Possible(i) && s.loop == Serving && s.app == Connected
    ensures var t := Turn(s, i);
            && (t.app == MqttConnect <==> Fails(i)) && (t.loop == Outer <==> Fails(i))
            && (t.app == Error <==> !Fails(i) && Closes(i))
            && (t.app == Connected <==> !Fails(i) && !Closes(i))
            && t.resolved == s.resolved
  {
    hide HandleAll, AnyBad, Accepts;
    CallVerdict(s, i.inEvents);
    var t := HandleAll(s, i.inEvents);
    OnlyEvents(s, i.inEvents);
    AfterInput(s, i);
    AfterInput(t, i);
  }

  /** The part of the turn behind `mqtt_input`. */
  lemma AfterInput(s: State, i: Input)
    requires Possible(i)
    ensures Reconnect(s, i).app == MqttConnect && Reconnect(s, i).loop == Outer
    ensures Reconnect(s, i).resolved == ServeRest(s, i).resolved == s.resolved
    ensures var t := ServeRest(s, i);
            if i.liveBad || i.tooManyPings then t.app == MqttConnect && t.loop == Outer
            else t.loop == s.loop &&
                 t.app == if i.liveEvents != [] || i.pingEvents != [] || i.sendEvents != [] then Error else s.app
  {
    hide HandleAll;
    ClosingKeeps(s, i.closeEvents);
    ClosingKeeps(s, i.liveEvents);
    var t := HandleAll(s, i.liveEvents);
    ClosingKeeps(t, i.closeEvents);
    ClosingKeeps(t, i.pingEvents);
    var u := HandleAll(t, i.pingEvents);
    ClosingKeeps(u, i.closeEvents);
    ClosingKeeps(u, i.sendEvents);
  }

  lemma {:induction false} OnlyEvents(s: State, events: seq<Event>)
    ensures HandleAll(s, events).resolved == s.resolved && HandleAll(s, events).loop == s.loop
    decreases |events|
  {
    if events != [] {
      OnlyEvents(Handle(s, events[0]), events[1..]);
    }
  }

  // ------------------------------------------------------ progress

  /** A turn in which the network is there and, in the wait loop, the broker accepts. */
  predicate Smooth(s: State, i: Input)
  {
    && Possible(i) && i.attached && i.dnsOk && i.tlsOk
    && (s.loop.Connecting? ==> Accepting(i))
  }

  /** How many such turns the machine is away from CONNECTED. */
  function Distance(s: State): (n: nat)
    ensures n <= 5 && (n == 0 <==> s.app == Connected)
  {
    match s.app
    case Connected => 0
    case MqttConnect =>
      if s.loop == Outer then 2 else if s.loop.Connecting? && s.loop.waitMs > 0 then 1 else 5
    case DnsResolve => 3
    case WaitThread => 4
    case Error => if s.loop == Outer then 4 else 5
  }

  lemma OneTurnNearer(s: State, i: Input)
    requires Consistent(s) && Smooth(s, i) && s.app != Connected
    ensures Distance(Turn(s, i)) == Distance(s) - 1
  {
    hide HandleAll;
    if s.loop.Connecting? && s.app == MqttConnect {
      if s.loop.waitMs > 0 {
        WaitVerdict(s, i);
      } else {
        ClosingKeeps(s, i.closeEvents);
      }
    }
  }

  ghost predicate AllSmooth(inputs: seq<Input>, more: seq<Input>)
  {
    forall k :: 0 <= k < |more| ==> Smooth(Run(inputs + more[..k]), more[k])
  }

  lemma {:induction false} Nearer(inputs: seq<Input>, more: seq<Input>, k: nat)
    requires AllPossible(inputs) && AllSmooth(inputs, more) && k <= |more| && k <= Distance(Run(inputs))
    ensures AllPossible(inputs + more[..k])
    ensures Distance(Run(inputs + more[..k])) == Distance(Run(inputs)) - k
    decreases k
  {
    hide Distance, Turn, Consistent, Possible, AllPossible, Run;
    if k == 0 {
      assert inputs + more[..0] == inputs;
    } else {
      Nearer(inputs, more, k - 1);
      var before, i := inputs + more[..k - 1], more[k - 1];
      assert Smooth(Run(before), i);
      TakeOneMore(inputs, more, k);
      OneMoreIsPossible(before, i, Run(before));
      RunSnoc(before, i);
      RunIsConsistent(before);
      DistanceMeans(Run(before));
      OneTurnNearer(Run(before), i);
    }
  }

  lemma TakeOneMore(inputs: seq<Input>, more: seq<Input>, k: nat)
    requires 0 < k <= |more|
    ensures inputs + more[..k] == (inputs + more[..k - 1]) + [more[k - 1]]
  {
  }

  lemma OneMoreIsPossible(inputs: seq<Input>, i: Input, s: State)
    requires AllPossible(inputs) && Smooth(s, i)
    ensures AllPossible(inputs + [i])
  {
  }

  lemma DistanceMeans(s: State)
    ensures Distance(s) <= 5 && (Distance(s) == 0 <==> s.app == Connected)
  {
  }

  /** From every state a run can reach, CONNECTED is reached after as many turns as the distance says, at most
      five, in which the network is there and the broker accepts; and not before. */
  lemma RecoversFromAnywhere(inputs: seq<Input>, more: seq<Input>)
    requires AllPossible(inputs) && AllSmooth(inputs, more) && |more| >= Distance(Run(inputs))
    ensures forall k :: 0 <= k <= Distance(Run(inputs)) ==>
              (Run(inputs + more[..k]).app == Connected <==> k == Distance(Run(inputs)))
  {
    hide Run, Distance, AllSmooth, AllPossible;
    forall k | 0 <= k <= Distance(Run(inputs))
      ensures Run(inputs + more[..k]).app == Connected <==> k == Distance(Run(inputs))
    {
      Nearer(inputs, more, k);
      DistanceMeans(Run(inputs + more[..k]));
    }
  }

  /** Such turns there always are. */
  lemma SmoothTurnExists(s: State) returns (i: Input)
    ensures Smooth(s, i)
  {
    i := Quiet([Connack(0, false)]);
    assert Connack(0, false) in i.inEvents;
    assert i.inEvents[0] == Connack(0, false) && |i.inEvents| == 1;
  }

  /** A connection found broken in the connected loop is made again in two turns, without another DNS query. */
  lemma BrokenConnectionIsRemade(inputs: seq<Input>, i: Input)
    requires AllPossible(inputs) && Possible(i) && Fails(i)
    requires Run(inputs).loop == Serving && Run(inputs).app == Connected
    ensures Distance(Run(inputs + [i])) == 2 && Run(inputs + [i]).resolved
  {
    hide Run, Turn;
    RunIsConsistent(inputs);
    RunSnoc(inputs, i);
    ServeVerdict(Run(inputs), i);
  }

  // ------------------------------------------------------ DNS

  ghost predicate AllUnresolved(inputs: seq<Input>)
  {
    forall k :: 0 <= k < |inputs| ==> !inputs[k].dnsOk
  }

  /** Every visit to DNS_RESOLVE stands ten failures; the eleventh ends it. */
  lemma {:induction false} DnsStandsTenFailures(s: State, i: Input, failing: seq<Input>)
    requires s.loop == Outer && s.app != DnsResolve && Turn(s, i).app == DnsResolve
    requires AllUnresolved(failing) && |failing| <= 11
    ensures var t := After(Turn(s, i), failing);
            t.loop == Outer && t.app == (if |failing| == 11 then Error else DnsResolve) && t.retry == |failing|
    decreases |failing|
  {
    if failing != [] {
      var n := |failing| - 1;
      DnsStandsTenFailures(s, i, failing[..n]);
    }
  }

  // ------------------------------------------------------ without Thread

  ghost predicate AllDetached(inputs: seq<Input>)
  {
    forall k :: 0 <= k < |inputs| ==> !inputs[k].attached
  }

  /** While Thread is not attached the machine waits for it: no query, no attempt. */
  lemma {:induction false} WaitsForThread(s: State, detached: seq<Input>)
    requires s.loop == Outer && (s.app == WaitThread || s.app == Error) && AllDetached(detached)
    ensures var t := After(s, detached);
            && t.history == s.history && t.session == s.session && t.loop == Outer
            && (detached != [] ==> t.app == WaitThread)
            && (detached != [] ==> t.retry == if s.app == Error then |detached| - 1 else s.retry + |detached|)
    decreases |detached|
  {
    if detached != [] {
      var n := |detached| - 1;
      WaitsForThread(s, detached[..n]);
    }
  }
}
