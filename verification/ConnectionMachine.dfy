/** The five-state connection machine of src/main.cpp: the loop in `main`, `mqtt_evt_handler`,
    `mqtt_tls_connect` and `resolve_broker` as the machine sees them.

    One step is one turn of the outer loop or of one of its two inner loops.  What the world does in
    that turn (Thread attached or not, DNS, TLS, the poll result, the MQTT events and return codes)
    is the step's input; a run is any sequence of inputs between two reboots. */
module ConnectionMachine {

  datatype App = WaitThread | DnsResolve | MqttConnect | Connected | Error

  /** Which loop is running. */
  datatype Loop = Outer | Connecting(waitMs: int) | Serving

  datatype State = State(
    app: App,              // app_state
    loop: Loop,
    retry: int,            // retry_count
    firstConnect: bool,    // mqtt_first_connect
    resolved: bool,        // broker_addr has been stamped
    session: nat,          // the socket opened last
    pollSession: nat,      // the socket in mqtt_poll_fd
    fdCount: nat,          // mqtt_poll_fd_count
    history: History)

  /** What has happened since boot. */
  datatype History = History(
    accepted: bool,            // a CONNACK with result 0 has arrived
    failures: nat,             // DNS failures since DNS_RESOLVE was entered
    attempts: seq<Attempt>,    // calls of mqtt_tls_connect
    entries: seq<Entry>)       // transitions into CONNECTED

  datatype Attempt = Attempt(clean: bool, acceptedBefore: bool)
  datatype Entry = Entry(arrived: App, from: App, loop: Loop, resolved: bool, fdIsCurrent: bool, sendFailed: bool)

  const START := State(WaitThread, Outer, 0, true, false, 0, 0, 0, History(false, 0, [], []))

  /** What the MQTT library reports.  The handler of an accepting CONNACK subscribes and publishes before
      it changes state; `sendFailed` says that one of those sends closed the connection, so that the
      handler ran for a DISCONNECT inside itself. */
  datatype Event = Connack(result: int, sendFailed: bool) | Disconnect | OtherEvent

  /** One call into the MQTT library handles at most one packet, and closes the connection (with a
      DISCONNECT event) at most once, afterwards. */
  predicate OneCall(events: seq<Event>)
  {
    |events| <= 2 && (|events| == 2 ==> events[1] == Disconnect)
  }

  /** Calls that do not read a packet can only close the connection. */
  predicate OnlyCloses(events: seq<Event>)
  {
    forall e :: e in events ==> e == Disconnect
  }

  /** `mqtt_evt_handler`, as far as it touches the machine. */
  function Handle(s: State, e: Event): State
  {
    match e
    case Connack(r, sendFailed) =>
      if r == 0 then
        var from := if sendFailed then Error else s.app;
        var h := s.history;
        var h' := h.(accepted := true,
                     entries := if from == Connected then h.entries
                                else h.entries + [Entry(s.app, from, s.loop, s.resolved,
                                                        s.fdCount == 1 && s.pollSession == s.session,
                                                        sendFailed)]);
        s.(firstConnect := false, app := Connected, history := h')
      else s.(app := Error)
    case Disconnect => s.(app := Error)
    case OtherEvent => s
  }

  function HandleAll(s: State, events: seq<Event>): State
    decreases |events|
  {
    if events == [] then s else HandleAll(Handle(s, events[0]), events[1..])
  }

  /** The inputs of one turn. */
  datatype Input = Input(
    attached: bool,                // thread_attached
    dnsOk: bool,                   // resolve_broker() == 0
    tlsOk: bool,                   // mqtt_tls_connect() == 0
    pollRc: int,                   // zsock_poll
    inEvents: seq<Event>, inRc: int,       // mqtt_input
    liveEvents: seq<Event>, liveBad: bool, // mqtt_live, and whether its result is an error
    pingEvents: seq<Event>,        // mqtt_ping
    tooManyPings: bool,            // unacked_ping >= TINYGS_MQTT_UNACKED_PING_MAX
    sendEvents: seq<Event>,        // publishing
    closeEvents: seq<Event>)       // mqtt_disconnect

  predicate Possible(i: Input)
  {
    OneCall(i.inEvents) && OnlyCloses(i.liveEvents) && OnlyCloses(i.pingEvents)
    && OnlyCloses(i.sendEvents) && OnlyCloses(i.closeEvents)
  }

  /** One turn of the outer loop. */
  function OuterTurn(s: State, i: Input): State
  {
    match s.app
    case WaitThread =>
      if i.attached then EnterDns(s) else s.(retry := s.retry + 1)
    case DnsResolve =>
      if i.dnsOk then s.(resolved := true, app := MqttConnect)
      else
        var t := s.(retry := s.retry + 1, history := s.history.(failures := s.history.failures + 1));
        if t.retry > 10 then t.(app := Error) else t
    case MqttConnect =>
      var h := s.history;
      var t := s.(session := s.session + 1,
                  history := h.(attempts := h.attempts + [Attempt(s.firstConnect, h.accepted)]));
      if i.tlsOk then t.(pollSession := t.session, fdCount := 1, loop := Connecting(15000))
      else t.(app := Error)
    case Connected => s.(loop := Serving)
    case Error => if i.attached then EnterDns(s) else s.(app := WaitThread, retry := 0)
  }

  function EnterDns(s: State): State
  {
    s.(app := DnsResolve, retry := 0, history := s.history.(failures := 0))
  }

  /** One turn of the loop that waits for CONNACK, or what follows it. */
  function ConnectTurn(s: State, i: Input): State
    requires s.loop.Connecting?
  {
    if s.app == MqttConnect && s.loop.waitMs > 0 then
      if i.pollRc > 0 then
        var t := HandleAll(s, i.inEvents);
        if i.inRc < 0 then HandleAll(t, i.closeEvents).(app := Error, loop := Outer)
        else HandleAll(t, i.liveEvents).(loop := Connecting(s.loop.waitMs - 1000))
      else if i.pollRc < 0 then HandleAll(s, i.closeEvents).(app := Error, loop := Outer)
      else HandleAll(s, i.liveEvents).(loop := Connecting(s.loop.waitMs - 1000))
    else if s.app == MqttConnect then HandleAll(s, i.closeEvents).(app := Error, loop := Outer)
    else s.(loop := Outer)
  }

  /** One turn of the loop of the connected state. */
  function ServeTurn(s: State, i: Input): State
  {
    if s.app != Connected then s.(loop := Outer)
    else if i.pollRc > 0 then
      var t := HandleAll(s, i.inEvents);
      if i.inRc < 0 then Reconnect(t, i) else ServeRest(t, i)
    else if i.pollRc < 0 then Reconnect(s, i)
    else ServeRest(s, i)
  }

  function ServeRest(s: State, i: Input): State
  {
    var t := HandleAll(s, i.liveEvents);
    if i.liveBad then Reconnect(t, i)
    else
      var u := HandleAll(t, i.pingEvents);
      if i.tooManyPings then Reconnect(u, i) else HandleAll(u, i.sendEvents)
  }

  /** `mqtt_disconnect`, then straight back to MQTT_CONNECT. */
  function Reconnect(s: State, i: Input): State
  {
    HandleAll(s, i.closeEvents).(app := MqttConnect, loop := Outer)
  }

  function Turn(s: State, i: Input): State
  {
    match s.loop
    case Outer => OuterTurn(s, i)
    case Connecting(_) => ConnectTurn(s, i)
    case Serving => ServeTurn(s, i)
  }

  function Run(inputs: seq<Input>): State
  {
    if inputs == [] then START else Turn(Run(inputs[..|inputs| - 1]), inputs[|inputs| - 1])
  }

  ghost predicate AllPossible(inputs: seq<Input>)
  {
    forall k :: 0 <= k < |inputs| ==> Possible(inputs[k])
  }

  // ------------------------------------------------------ the invariant

  predicate GoodEntry(e: Entry)
  {
    && e.resolved && e.fdIsCurrent
    && ((e.arrived == MqttConnect && e.loop.Connecting?) || (e.arrived == Connected && e.sendFailed))
    && e.from == (if e.sendFailed then Error else MqttConnect)
  }

  predicate GoodAttempt(a: Attempt)
  {
    a.clean == !a.acceptedBefore
  }

  /** The part about histories: every entry, every attempt. */
  ghost predicate GoodHistory(s: State)
  {
    && s.firstConnect == !s.history.accepted
    && (forall k :: 0 <= k < |s.history.entries| ==> GoodEntry(s.history.entries[k]))
    && (forall k :: 0 <= k < |s.history.attempts| ==> GoodAttempt(s.history.attempts[k]))
    && s.history.failures <= 11
  }

  /** The part about the moment. */
  ghost predicate Consistent(s: State)
  {
    && GoodHistory(s)
    && (s.app == MqttConnect || s.app == Connected || s.loop != Outer ==> s.resolved)
    && (s.app == Connected || s.loop != Outer ==> s.fdCount == 1 && s.pollSession == s.session)
    && (s.loop != Outer ==> s.app != WaitThread && s.app != DnsResolve)
    && (s.loop.Serving? ==> s.app == Connected || s.app == Error)
    && (s.app == DnsResolve ==> s.retry == s.history.failures <= 10)
  }

  lemma {:induction false} ClosingKeeps(s: State, events: seq<Event>)
    requires OnlyCloses(events)
    ensures HandleAll(s, events) == if events == [] then s else s.(app := Error)
    decreases |events|
  {
    if events != [] {
      assert events[0] in events;
      assert events[0] == Disconnect;
      assert forall e :: e in events[1..] ==> e in events;
      ClosingKeeps(s.(app := Error), events[1..]);
    }
  }

  /** One library call while the machine waits for CONNACK or is connected. */
  lemma InputKeeps(s: State, events: seq<Event>)
    requires GoodHistory(s) && OneCall(events) && s.resolved && s.fdCount == 1 && s.pollSession == s.session
    requires (s.app == MqttConnect && s.loop.Connecting?) || s.app == Connected
    ensures var t := HandleAll(s, events);
            && GoodHistory(t)
            && t == s.(app := t.app, firstConnect := t.firstConnect, history := t.history)
            && (t.app == Connected || t.app == Error || (t.app == s.app == MqttConnect))
  {
    if events != [] {
      var t := Handle(s, events[0]);
      assert HandleAll(s, events) == HandleAll(t, events[1..]);
      if |events| == 2 {
        assert events[1..] == [Disconnect];
        assert HandleAll(t, [Disconnect]) == HandleAll(Handle(t, Disconnect), [][..]);
      }
    }
  }

  lemma OuterTurnKeeps(s: State, i: Input)
    requires Consistent(s) && s.loop == Outer
    ensures Consistent(OuterTurn(s, i))
  {
  }

  lemma ConnectTurnKeeps(s: State, i: Input)
    requires Consistent(s) && s.loop.Connecting? && Possible(i)
    ensures Consistent(ConnectTurn(s, i))
  {
    hide HandleAll;
    if s.app == MqttConnect && s.loop.waitMs > 0 && i.pollRc > 0 {
      InputKeeps(s, i.inEvents);
      ClosingKeeps(HandleAll(s, i.inEvents), i.closeEvents);
      ClosingKeeps(HandleAll(s, i.inEvents), i.liveEvents);
    }
    ClosingKeeps(s, i.closeEvents);
    ClosingKeeps(s, i.liveEvents);
  }

  lemma ServeRestKeeps(s: State, i: Input)
    requires GoodHistory(s) && Possible(i) && s.loop.Serving? && (s.app == Connected || s.app == Error)
    requires s.resolved && s.fdCount == 1 && s.pollSession == s.session
    ensures Consistent(ServeRest(s, i)) && Consistent(Reconnect(s, i))
  {
    hide HandleAll;
    ClosingKeeps(s, i.closeEvents);
    ClosingKeeps(s, i.liveEvents);
    var t := HandleAll(s, i.liveEvents);
    var u := HandleAll(t, i.pingEvents);
    ClosingKeeps(t, i.closeEvents);
    ClosingKeeps(t, i.pingEvents);
    ClosingKeeps(u, i.closeEvents);
    ClosingKeeps(u, i.sendEvents);
  }

  lemma ServeTurnKeeps(s: State, i: Input)
    requires Consistent(s) && s.loop.Serving? && Possible(i)
    ensures Consistent(ServeTurn(s, i))
  {
    hide HandleAll, ServeRest, Reconnect;
    if s.app == Connected {
      InputKeeps(s, i.inEvents);
      ServeRestKeeps(HandleAll(s, i.inEvents), i);
      ServeRestKeeps(s, i);
    }
  }

  lemma {:induction false} RunIsConsistent(inputs: seq<Input>)
    requires AllPossible(inputs)
    ensures Consistent(Run(inputs))
  {
    hide OuterTurn, ConnectTurn, ServeTurn;
    if inputs != [] {
      var s, i := Run(inputs[..|inputs| - 1]), inputs[|inputs| - 1];
      RunIsConsistent(inputs[..|inputs| - 1]);
      match s.loop
      case Outer => OuterTurnKeeps(s, i);
      case Connecting(_) => ConnectTurnKeeps(s, i);
      case Serving => ServeTurnKeeps(s, i);
    }
  }

  // ------------------------------------------------------ the promises

  /** In every run, CONNECTED is entered only with a broker address resolved and the poll descriptor set
      for the current session.  It is entered from MQTT_CONNECT, inside the wait loop, exactly if none
      of the sends made by the CONNACK handler closed the connection; otherwise the handler, having just
      set ERROR, overwrites it. */
  lemma ConnectedIsEarned(inputs: seq<Input>, k: nat)
    requires AllPossible(inputs) && k < |Run(inputs).history.entries|
    ensures var e := Run(inputs).history.entries[k];
            && e.resolved && e.fdIsCurrent
            && (e.from == MqttConnect <==> !e.sendFailed)
            && (e.from == MqttConnect ==> e.loop.Connecting?)
            && (e.from != MqttConnect ==> e.from == Error)
  {
    RunIsConsistent(inputs);
    assert GoodEntry(Run(inputs).history.entries[k]);
  }

  /** A CONNACK with result 0 is among the events. */
  predicate Accepts(events: seq<Event>)
  {
    exists e :: e in events && e.Connack? && e.result == 0
  }

  /** CONNECTED is never reached in any other way: a turn that ends there and did not start there has
      logged an entry, which only a CONNACK with result 0 does. */
  lemma ConnectedOnlyByConnack(inputs: seq<Input>, i: Input)
    requires AllPossible(inputs) && Possible(i)
    ensures var s := Run(inputs);
            var t := Turn(s, i);
            t.app == Connected && s.app != Connected ==>
            |t.history.entries| > |s.history.entries| && Accepts(i.inEvents)
  {
    RunIsConsistent(inputs);
    var s := Run(inputs);
    hide HandleAll, OuterTurn, ServeTurn, Handle;
    if s.app != Connected {
      match s.loop
      case Outer => OuterNeverConnects(s, i);
      case Connecting(_) =>
        InputLogsEntry(s, i.inEvents);
        ClosingKeeps(HandleAll(s, i.inEvents), i.liveEvents);
        ClosingKeeps(s, i.liveEvents);
      case Serving => ServeOutsideConnected(s, i);
    }
  }

  lemma OuterNeverConnects(s: State, i: Input)
    requires s.app != Connected
    ensures OuterTurn(s, i).app != Connected
  {
  }

  lemma ServeOutsideConnected(s: State, i: Input)
    requires s.app != Connected
    ensures ServeTurn(s, i).app == s.app
  {
  }

  lemma InputLogsEntry(s: State, events: seq<Event>)
    requires OneCall(events)
    ensures HandleAll(s, events).app == Connected && s.app != Connected ==>
            |HandleAll(s, events).history.entries| > |s.history.entries| && Accepts(events)
  {
    if events != [] {
      var t := Handle(s, events[0]);
      assert HandleAll(s, events) == HandleAll(t, events[1..]);
      if |events| == 2 {
        assert events[1..] == [Disconnect];
        assert HandleAll(t, [Disconnect]) == HandleAll(Handle(t, Disconnect), [][..]);
      } else {
        assert events[1..] == [] && events == [events[0]];
        assert HandleAll(t, []) == t;
      }
    }
  }

  /** In every run, a connection attempt asks for a clean session exactly if no CONNACK with result 0
      has arrived before it. */
  lemma CleanSessionUntilAccepted(inputs: seq<Input>, k: nat)
    requires AllPossible(inputs) && k < |Run(inputs).history.attempts|
    ensures var a := Run(inputs).history.attempts[k]; a.clean <==> !a.acceptedBefore
  {
    RunIsConsistent(inputs);
    assert GoodAttempt(Run(inputs).history.attempts[k]);
  }

  /** In every run, DNS_RESOLVE is left for ERROR at the eleventh failure in a row, no earlier and no
      later. */
  lemma ElevenFailures(inputs: seq<Input>, i: Input)
    requires AllPossible(inputs)
    requires Run(inputs).app == DnsResolve && Run(inputs).loop == Outer && !i.dnsOk
    ensures var t := Turn(Run(inputs), i);
            && t.history.failures <= 11
            && (t.app == Error <==> t.history.failures == 11)
            && (t.app == Error || t.app == DnsResolve)
  {
    RunIsConsistent(inputs);
  }

  /** A serving loop is always on the socket opened last. */
  lemma ServesCurrentSession(inputs: seq<Input>)
    requires AllPossible(inputs)
    ensures var s := Run(inputs);
            s.loop != Outer || s.app == Connected ==> s.fdCount == 1 && s.pollSession == s.session && s.resolved
  {
    RunIsConsistent(inputs);
  }

  /** The promise about CONNECTED rests on one packet per call: were a CONNACK to follow a DISCONNECT
      inside one `mqtt_input`, CONNECTED would be entered from ERROR. */
  lemma TwoPacketsWouldBreakIt(s: State)
    requires s.app == Connected && s.loop.Serving?
    ensures !OneCall([Disconnect, Connack(0, false)])
    ensures var t := HandleAll(s, [Disconnect, Connack(0, false)]);
            t.app == Connected && |t.history.entries| == |s.history.entries| + 1
            && t.history.entries[|s.history.entries|].from == Error
  {
    var u := Handle(s, Disconnect);
    var accept := Connack(0, false);
    assert [Disconnect, accept][1..] == [accept];
    assert HandleAll(s, [Disconnect, accept]) == HandleAll(u, [accept]);
    assert [accept][1..] == [];
    assert HandleAll(u, [accept]) == Handle(u, accept);
  }

  /** An input in which nothing goes wrong, and one library call in the wait loop delivers `events`. */
  function Quiet(events: seq<Event>): Input
  {
    Input(true, true, true, 1, events, 0, [], false, [], false, [], [])
  }

  /** And a failed send does happen in a run: four turns after boot the machine is in CONNECTED, from ERROR,
      on a connection that is closed. */
  lemma FailedSendIsForgotten()
    ensures var q, accept := Quiet([]), Quiet([Connack(0, true)]);
            var s := Run([q, q, q, accept]);
            && AllPossible([q, q, q, accept])
            && s.app == Connected && |s.history.entries| == 1 && s.history.entries[0].from == Error
  {
    hide Run, Turn;
    var q, accept := Quiet([]), Quiet([Connack(0, true)]);
    FourTurns(q, q, q, accept);
    ThreeQuietTurns(q);
    LastTurn(Turn(Turn(Turn(START, q), q), q), accept);
  }

  lemma ThreeQuietTurns(q: Input)
    requires q == Quiet([])
    ensures var s := Turn(Turn(Turn(START, q), q), q);
            s.app == MqttConnect && s.loop == Connecting(15000) && s.history.entries == []
  {
  }

  lemma LastTurn(s: State, accept: Input)
    requires s.app == MqttConnect && s.loop == Connecting(15000) && s.history.entries == []
    requires accept == Quiet([Connack(0, true)])
    ensures var t := Turn(s, accept);
            t.app == Connected && |t.history.entries| == 1 && t.history.entries[0].from == Error
  {
    var e := Connack(0, true);
    assert [e][1..] == [];
    assert HandleAll(s, [e]) == HandleAll(Handle(s, e), []);
    assert ConnectTurn(s, accept) == HandleAll(HandleAll(s, [e]), []).(loop := Connecting(14000));
  }

  lemma FourTurns(a: Input, b: Input, c: Input, d: Input)
    ensures Run([a, b, c, d]) == Turn(Turn(Turn(Turn(START, a), b), c), d)
  {
    hide Turn;
    RunSnoc([], a);
    RunSnoc([a], b);
    RunSnoc([a, b], c);
    RunSnoc([a, b, c], d);
    assert [] + [a] == [a] && [a] + [b] == [a, b] && [a, b] + [c] == [a, b, c];
    assert [a, b, c] + [d] == [a, b, c, d];
  }

  lemma RunSnoc(inputs: seq<Input>, i: Input)
    ensures Run(inputs + [i]) == Turn(Run(inputs), i)
  {
    assert (inputs + [i])[..|inputs|] == inputs;
  }

  // ------------------------------------------------------ the machine as the firmware holds it

  /** The globals and the loop locals of `main`; the methods are the source's statements. */
  class Firmware {
    var s: State

    constructor ()
      ensures s == START
    {
      s := START;
    }

    /** `mqtt_evt_handler`. */
    method MqttEvtHandler(e: Event)
      modifies this
      ensures s == Handle(old(s), e)
      decreases e.Connack?
    {
      match e {
        case Connack(result, sendFailed) =>
          if result == 0 {
            var arrived := s.app;
            if sendFailed {
              MqttEvtHandler(Disconnect);
            }
            if s.app != Connected {
              s := s.(history := s.history.(entries := s.history.entries +
                     [Entry(arrived, s.app, s.loop, s.resolved, s.fdCount == 1 && s.pollSession == s.session,
                            sendFailed)]));
            }
            s := s.(history := s.history.(accepted := true));
            s := s.(firstConnect := false);
            s := s.(app := Connected);
          } else {
            s := s.(app := Error);
          }
        case Disconnect => s := s.(app := Error);
        case OtherEvent =>
      }
    }

    /** The library calling back for each event of one call. */
    method Deliver(events: seq<Event>)
      modifies this
      ensures s == HandleAll(old(s), events)
    {
      var k := 0;
      assert events[0..] == events;
      while k < |events|
        invariant 0 <= k <= |events|
        invariant HandleAll(s, events[k..]) == HandleAll(old(s), events)
      {
        assert events[k..][1..] == events[k + 1..];
        MqttEvtHandler(events[k]);
        k := k + 1;
      }
      assert events[k..] == [];
    }

    /** One turn of the `switch` of the outer loop. */
    method OuterIteration(i: Input)
      requires s.loop == Outer
      modifies this
      ensures s == OuterTurn(old(s), i)
    {
      match s.app {
        case WaitThread =>
          if i.attached {
            s := s.(app := DnsResolve);
            s := s.(retry := 0, history := s.history.(failures := 0));
          } else {
            s := s.(retry := s.retry + 1);
          }
        case DnsResolve =>
          if i.dnsOk {
            s := s.(resolved := true);
            s := s.(app := MqttConnect);
          } else {
            s := s.(retry := s.retry + 1, history := s.history.(failures := s.history.failures + 1));
            if s.retry > 10 {
              s := s.(app := Error);
            }
          }
        case MqttConnect =>
          var attempt := Attempt(s.firstConnect, s.history.accepted);
          s := s.(session := s.session + 1,
                  history := s.history.(attempts := s.history.attempts + [attempt]));
          if i.tlsOk {
            s := s.(pollSession := s.session);
            s := s.(fdCount := 1);
            s := s.(loop := Connecting(15000));
          } else {
            s := s.(app := Error);
          }
        case Connected => s := s.(loop := Serving);
        case Error =>
          s := s.(app := if i.attached then DnsResolve else WaitThread);
          s := s.(retry := 0);
          if i.attached {
            s := s.(history := s.history.(failures := 0));
          }
      }
    }

    /** One turn of the loop in STATE_MQTT_CONNECT. */
    method ConnectIteration(i: Input)
      requires s.loop.Connecting?
      modifies this
      ensures s == ConnectTurn(old(s), i)
    {
      hide HandleAll;
      var waitMs := s.loop.waitMs;
      if s.app == MqttConnect && waitMs > 0 {
        if i.pollRc > 0 {
          Deliver(i.inEvents);
          if i.inRc < 0 {
            Deliver(i.closeEvents);
            s := s.(app := Error, loop := Outer);
            return;
          }
        } else if i.pollRc < 0 {
          Deliver(i.closeEvents);
          s := s.(app := Error, loop := Outer);
          return;
        }
        Deliver(i.liveEvents);
        s := s.(loop := Connecting(waitMs - 1000));
      } else {
        if s.app == MqttConnect {
          Deliver(i.closeEvents);
          s := s.(app := Error);
        }
        s := s.(loop := Outer);
      }
    }

    /** One turn of the loop in STATE_MQTT_CONNECTED. */
    method ServeIteration(i: Input)
      modifies this
      ensures s == ServeTurn(old(s), i)
    {
      hide HandleAll;
      if s.app != Connected {
        s := s.(loop := Outer);
        return;
      }
      if i.pollRc > 0 {
        Deliver(i.inEvents);
        if i.inRc < 0 {
          Deliver(i.closeEvents);
          s := s.(app := MqttConnect, loop := Outer);
          return;
        }
      } else if i.pollRc < 0 {
        Deliver(i.closeEvents);
        s := s.(app := MqttConnect, loop := Outer);
        return;
      }
      Deliver(i.liveEvents);
      if i.liveBad {
        Deliver(i.closeEvents);
        s := s.(app := MqttConnect, loop := Outer);
        return;
      }
      Deliver(i.pingEvents);
      if i.tooManyPings {
        Deliver(i.closeEvents);
        s := s.(app := MqttConnect, loop := Outer);
        return;
      }
      Deliver(i.sendEvents);
    }
  }
}
