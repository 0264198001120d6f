/** What the resolver of module `DnsResolver` returns: exactly when a call succeeds, and that it can. */
module DnsAnswers {
  import opened Wrappers
  import opened DnsResolver

  // ------------------------------------------------------ before the result is read

  /** The return value is -1 and no query is known until there is one. */
  predicate Fresh(c: Caller)
  {
    && (c.pc == AtLock || c.pc == AtReset || PastReset(c.pc) ==> c.query == 0 && c.ret == -1)
    && (c.pc == AtWait || c.pc == AtRead ==> c.ret == -1)
    && (c.pc == AtLock ==> c.out == Unwritten)
  }

  /** The context points to the variable of a call only while the call is inside, or if it issued no query. */
  predicate InContext(s: State, t: Thread)
  {
    var c := At(s, t);
    t in s.ctx ==> c.query == 0 || QueryOpen(c.pc) || c.pc == AtForget
  }

  ghost predicate Tidy(s: State)
  {
    forall t :: Fresh(At(s, t)) && InContext(s, t)
  }

  lemma TidyStep(s: State, e: Event)
    requires Safe(s) && Tidy(s)
    ensures Tidy(Step(s, e))
  {
    hide Safe, Fresh, InContext, Step;
    forall u
      ensures Fresh(At(Step(s, e), u)) && InContext(Step(s, e), u)
    {
      assert Fresh(At(s, u)) && InContext(s, u);
      match e
      case Enter(t) => EnterIsTidy(s, t, u);
      case Run(t, good) => StatementIsTidy(s, t, good, u);
      case Callback(q, o) => CallbackIsTidy(s, q, o, u);
    }
  }

  lemma EnterIsTidy(s: State, t: Thread, u: Thread)
    requires Fresh(At(s, u)) && InContext(s, u)
    ensures Fresh(At(Step(s, Enter(t)), u)) && InContext(Step(s, Enter(t)), u)
  {
  }

  lemma StatementIsTidy(s: State, t: Thread, good: bool, u: Thread)
    requires Safe(s) && Fresh(At(s, u)) && InContext(s, u)
    ensures Fresh(At(Step(s, Run(t, good)), u)) && InContext(Step(s, Run(t, good)), u)
  {
    hide OwnerOk, CallerOk, SharedOk;
    if u != t {
      OthersStay(s, t, good, u);
    }
  }

  lemma OthersStay(s: State, t: Thread, good: bool, u: Thread)
    requires u != t
    ensures At(Advance(s, t, good), u) == At(s, u)
  {
  }

  lemma CallbackIsTidy(s: State, q: nat, o: Outcome, u: Thread)
    requires Safe(s) && Fresh(At(s, u)) && InContext(s, u)
    ensures Fresh(At(Step(s, Callback(q, o)), u)) && InContext(Step(s, Callback(q, o)), u)
  {
    CallbackMovesNobody(s, u, q, o);
    ContextStays(s, q, o);
    if q in s.issued && q == s.id {
      OpenQuery(s, u);
      assert CallerOk(s, u);
    }
  }

  lemma ContextStays(s: State, q: nat, o: Outcome)
    ensures DnsCallback(s, q, o).ctx == s.ctx
  {
  }

  lemma {:induction false} RunIsTidy(events: seq<Event>)
    ensures Tidy(RunAll(events))
  {
    hide Step, Safe, Tidy;
    if events == [] {
      TidyStart();
    } else {
      RunIsTidy(events[..|events| - 1]);
      RunIsSafe(events[..|events| - 1]);
      TidyStep(RunAll(events[..|events| - 1]), events[|events| - 1]);
    }
  }

  lemma TidyStart()
    ensures Tidy(START)
  {
  }

  /** In every run: when a call has returned, the context no longer points to its variable, except if there was
      no route, and so no query whose callback could use it. */
  lemma ContextIsForgotten(events: seq<Event>, t: Thread)
    ensures var s := RunAll(events);
            At(s, t).pc == Outside && t in s.ctx ==> At(s, t).query == 0
  {
    hide RunAll;
    RunIsTidy(events);
    assert InContext(RunAll(events), t);
  }

  /** Only reading the result makes a return value 0. */
  lemma OnlyReadingReturnsZero(events: seq<Event>, e: Event, t: Thread)
    ensures var s := RunAll(events);
            At(Step(s, e), t).ret == 0 && At(s, t).ret != 0 ==> At(s, t).pc == AtRead && e.Run? && e.t == t
  {
    hide RunAll;
  }

  // ------------------------------------------------------ what is read

  /** The last thing the DNS client called back for query `q`, by the events of a run alone.  Before a query
      has been handed over the client cannot call back for it. */
  function LastAnswer(events: seq<Event>, q: nat): Option<Outcome>
  {
    if events == [] then None
    else
      var before, e := events[..|events| - 1], events[|events| - 1];
      if e.Callback? && e.query == q && q in RunAll(before).issued then Some(e.outcome) else LastAnswer(before, q)
  }

  /** The shared result and the caller's variable say what the last callback said. */
  predicate Says(s: State, t: Thread, last: Option<Outcome>)
  {
    match last
    case None => s.result == -1
    case Some(o) =>
      match o {
        case Failed => s.result == -1
        case Resolved(a) => s.result == 0 && At(s, t).out == Written(a, At(s, t).query)
      }
  }

  lemma {:induction false} NotIssuedNotAnswered(events: seq<Event>, q: nat)
    requires q !in RunAll(events).issued
    ensures LastAnswer(events, q) == None
  {
    if events != [] {
      var s := RunAll(events[..|events| - 1]);
      IssuedStays(s, events[|events| - 1], q);
      NotIssuedNotAnswered(events[..|events| - 1], q);
    }
  }

  lemma IssuedStays(s: State, e: Event, q: nat)
    ensures q in s.issued ==> q in Step(s, e).issued
  {
  }

  lemma RunSaysLast(s: State, t: Thread, u: Thread, good: bool, last: Option<Outcome>)
    requires Safe(s) && t in Advance(s, u, good).owner && QueryOpen(At(Advance(s, u, good), t).pc)
    requires t in s.owner && QueryOpen(At(s, t).pc) ==> Says(s, t, last)
    requires At(Advance(s, u, good), t).query !in s.issued ==> last == None
    ensures Says(Advance(s, u, good), t, last)
  {
    WhereOwnersAre(s, u, good);
    assert t in s.owner ==> OwnerOk(s, t);
    assert CallerOk(s, t) && CallerOk(s, u);
  }

  lemma CallbackSaysLast(s: State, t: Thread, q: nat, o: Outcome, last: Option<Outcome>)
    requires Safe(s) && t in s.owner && QueryOpen(At(s, t).pc) && Says(s, t, last)
    ensures Says(DnsCallback(s, q, o), t, if q == At(s, t).query then Some(o) else last)
  {
    assert OwnerOk(s, t);
    assert t in s.callers;
  }

  lemma CallbackMovesNobody(s: State, t: Thread, q: nat, o: Outcome)
    ensures var n := DnsCallback(s, q, o);
            n.owner == s.owner && At(n, t).pc == At(s, t).pc && At(n, t).query == At(s, t).query
  {
  }

  lemma EnterMovesNobodyInside(s: State, t: Thread, u: Thread)
    requires Safe(s) && t in Step(s, Enter(u)).owner
    ensures var n := Step(s, Enter(u)); t in s.owner && At(n, t) == At(s, t) && n.result == s.result
  {
    assert CallerOk(s, t);
  }

  /** While a query is open, the result says what its last callback said, and -1 if there was none. */
  lemma {:induction false} ResultSaysLast(events: seq<Event>, t: Thread)
    requires t in RunAll(events).owner && QueryOpen(At(RunAll(events), t).pc)
    ensures Says(RunAll(events), t, LastAnswer(events, At(RunAll(events), t).query))
  {
    hide Advance, DnsCallback, Safe, Says;
    if events != [] {
      var before, e := events[..|events| - 1], events[|events| - 1];
      var s, n := RunAll(before), RunAll(events);
      var q := At(n, t).query;
      RunIsSafe(before);
      if t in s.owner && QueryOpen(At(s, t).pc) {
        ResultSaysLast(before, t);
      }
      match e
      case Enter(u) =>
        EnterMovesNobodyInside(s, t, u);
        SaysAlike(s, n, t, LastAnswer(before, q));
      case Run(u, good) =>
        QueryStays(s, t, u, good);
        if q !in s.issued { NotIssuedNotAnswered(before, q); }
        RunSaysLast(s, t, u, good, LastAnswer(before, q));
      case Callback(p, o) =>
        CallbackMovesNobody(s, t, p, o);
        OpenIsIssued(s, t);
        CallbackSaysLast(s, t, p, o, LastAnswer(before, q));
    }
  }

  lemma OpenIsIssued(s: State, t: Thread)
    requires Safe(s) && t in s.owner && QueryOpen(At(s, t).pc)
    ensures At(s, t).query in s.issued
  {
    assert OwnerOk(s, t);
  }

  lemma SaysAlike(s: State, n: State, t: Thread, last: Option<Outcome>)
    requires Says(s, t, last) && n.result == s.result && At(n, t) == At(s, t)
    ensures Says(n, t, last)
  {
  }

  lemma QueryStays(s: State, t: Thread, u: Thread, good: bool)
    ensures t in s.owner && QueryOpen(At(s, t).pc) ==> At(Advance(s, u, good), t).query == At(s, t).query
  {
  }

  /** What a return value says of the last callback. */
  function ReturnFor(o: Outcome): int
  {
    if o.Resolved? then 0 else -1
  }

  lemma OwnQueryWasHeard(events: seq<Event>, t: Thread)
    requires At(RunAll(events), t).pc == AtRead
    ensures t in RunAll(events).owner && LastAnswer(events, At(RunAll(events), t).query).Some?
  {
    hide RunAll, LastAnswer;
    RunIsSafe(events);
    assert CallerOk(RunAll(events), t) && OwnerOk(RunAll(events), t);
    HeardIsAnswered(events, At(RunAll(events), t).query);
  }

  lemma {:induction false} HeardIsAnswered(events: seq<Event>, q: nat)
    requires q in RunAll(events).heard
    ensures LastAnswer(events, q).Some?
  {
    if events != [] {
      var s, e := RunAll(events[..|events| - 1]), events[|events| - 1];
      if q in s.heard {
        HeardIsAnswered(events[..|events| - 1], q);
      } else {
        HeardByCallback(s, e, q);
      }
    }
  }

  lemma HeardByCallback(s: State, e: Event, q: nat)
    requires q !in s.heard && q in Step(s, e).heard
    ensures e.Callback? && e.query == q && q in s.issued
  {
  }

  /** A call that has read the result has its return value; nothing changes it before the next call. */
  predicate HasReturn(s: State, t: Thread, q: nat, ret: int)
  {
    var c := At(s, t);
    Decided(c.pc) && c.query == q && c.ret == ret
  }

  lemma ReturnStays(s: State, e: Event, t: Thread, q: nat, ret: int)
    requires HasReturn(s, t, q, ret) && e != Enter(t)
    ensures HasReturn(Step(s, e), t, q, ret)
  {
  }

  /** In every run: a caller whose wait did not time out returns 0 if and only if the last callback for its own
      query, before it read the result, was a success, and -1 otherwise; nothing that happens later changes
      that before its next call.  The address it got is that of the callback, as long as no other callback
      for the same query follows. */
  lemma {:induction false} ReturnsZeroIff(before: seq<Event>, t: Thread, good: bool, after: seq<Event>)
    requires At(RunAll(before), t).pc == AtRead && Enter(t) !in after
    ensures var q := At(RunAll(before), t).query;
            var c := At(RunAll(before + [Run(t, good)] + after), t);
            && LastAnswer(before, q).Some?
            && var last := LastAnswer(before, q).value;
            && HasReturn(RunAll(before + [Run(t, good)] + after), t, q, ReturnFor(last))
            && (last.Resolved? && (forall o :: Callback(q, o) !in after) ==> c.out == Written(last.addr, q))
    decreases |after|
  {
    hide Safe, Says, RunAll, Step, LastAnswer, HasReturn;
    OwnQueryWasHeard(before, t);
    var q := At(RunAll(before), t).query;
    var read := before + [Run(t, good)];
    var last := LastAnswer(before, q).value;
    if after == [] {
      assert read + after == read;
      RunNext(before, Run(t, good));
      ResultSaysLast(before, t);
      ReadsResult(RunAll(before), t, good, last);
    } else {
      var n := |after| - 1;
      var e := after[n];
      assert read + after == (read + after[..n]) + [e];
      assert e in after;
      RunNext(read + after[..n], e);
      ReturnsZeroIff(before, t, good, after[..n]);
      ReturnStays(RunAll(read + after[..n]), e, t, q, ReturnFor(last));
      if e.Callback? && e.query == q {
        assert e == Callback(q, e.outcome);
      } else {
        ReturnMeans(RunAll(read + after[..n]), t, q, ReturnFor(last));
        OutStays(read + after[..n], e, t);
      }
    }
  }

  lemma RunNext(events: seq<Event>, e: Event)
    ensures RunAll(events + [e]) == Step(RunAll(events), e)
  {
    assert (events + [e])[..|events|] == events;
  }

  lemma ReturnMeans(s: State, t: Thread, q: nat, ret: int)
    requires HasReturn(s, t, q, ret)
    ensures At(s, t).query == q
  {
  }

  lemma ReadsResult(s: State, t: Thread, good: bool, last: Outcome)
    requires At(s, t).pc == AtRead && Says(s, t, Some(last))
    ensures var n := Step(s, Run(t, good));
            && HasReturn(n, t, At(s, t).query, ReturnFor(last))
            && (last.Resolved? ==> At(n, t).out == Written(last.addr, At(s, t).query))
  {
  }

  /** Another query's callback does not write the variable of this call. */
  lemma OutStays(events: seq<Event>, e: Event, t: Thread)
    requires e != Enter(t) && (e.Callback? ==> e.query != At(RunAll(events), t).query)
    ensures At(Step(RunAll(events), e), t).out == At(RunAll(events), t).out
  {
    hide RunAll;
    if e.Callback? {
      CallbackWritesOnlyItsCaller(events, e.query, e.outcome, t);
    } else {
      OnlyCallbacksWrite(RunAll(events), e, t);
    }
  }

  // ------------------------------------------------------ calls that nobody disturbs

  /** What the world does to a call. */
  datatype World = NoRoute | Refused | Silence | Answer(outcome: Outcome)

  function Play(s: State, events: seq<Event>): State
    decreases |events|
  {
    if events == [] then s else Play(Step(s, events[0]), events[1..])
  }

  lemma {:induction false} RunThenPlay(before: seq<Event>, events: seq<Event>)
    ensures RunAll(before + events) == Play(RunAll(before), events)
    decreases |events|
  {
    hide Step;
    if events == [] {
      assert before + events == before;
    } else {
      assert before + events == (before + [events[0]]) + events[1..];
      assert (before + [events[0]])[..|before|] == before;
      RunThenPlay(before + [events[0]], events[1..]);
    }
  }

  lemma PlayOne(s: State, e: Event, events: seq<Event>)
    ensures Play(s, [e] + events) == Play(Step(s, e), events)
  {
    assert ([e] + events)[1..] == events;
  }

  /** The call of thread `t` up to its query, from the mutex on. */
  function Opening(t: Thread): seq<Event>
  {
    [Enter(t)] + ([Run(t, true)] + ([Run(t, true)] + ([Run(t, true)] + ([Run(t, true)] + [Run(t, true)]))))
  }

  function Closing(t: Thread): seq<Event>
  {
    [Run(t, true)] + ([Run(t, true)] + [Run(t, true)])
  }

  /** The whole call when its query gets the number `q`. */
  function Script(t: Thread, q: nat, w: World): seq<Event>
  {
    Opening(t) +
    match w
    case NoRoute => [Run(t, false)] + [Run(t, true)]
    case Refused => [Run(t, true)] + ([Run(t, false)] + Closing(t))
    case Silence => [Run(t, true)] + ([Run(t, true)] + ([Run(t, false)] + Closing(t)))
    case Answer(o) =>
      [Run(t, true)] + ([Run(t, true)] + ([Callback(q, o)] + ([Run(t, true)] + ([Run(t, true)] + Closing(t)))))
  }

  /** What such a call leaves: the mutex free, no context after a query, and what it returns. */
  function Returned(s: State, t: Thread, w: World): State
  {
    var q := s.id + 1;
    match w
    case NoRoute =>
      State(s.callers[t := Caller(Outside, 0, -1, Unwritten)], {}, false, -1, q, {t}, s.issued, s.heard, s.answers)
    case Refused =>
      State(s.callers[t := Caller(Outside, q, -1, Unwritten)], {}, false, -1, q + 1, {}, s.issued + {q}, s.heard, s.answers)
    case Silence =>
      State(s.callers[t := Caller(Outside, q, -1, Unwritten)], {}, false, -1, q + 1, {}, s.issued + {q}, s.heard, s.answers)
    case Answer(o) =>
      match o {
        case Failed =>
          State(s.callers[t := Caller(Outside, q, -1, Unwritten)], {}, false, -1, q + 1, {}, s.issued + {q},
                s.heard + {q}, s.answers)
        case Resolved(a) =>
          State(s.callers[t := Caller(Outside, q, 0, Written(a, q))], {}, false, 0, q + 1, {}, s.issued + {q},
                s.heard + {q}, s.answers + {(q, a)})
      }
  }

  /** The call has the mutex, everything is reset, and the route comes next. */
  function AtTheRoute(s: State, t: Thread): State
  {
    State(s.callers[t := Caller(AtRoute, 0, -1, Unwritten)], {t}, false, -1, s.id + 1, {t},
          s.issued, s.heard, s.answers)
  }

  lemma OpeningPlays(s: State, t: Thread, rest: seq<Event>)
    requires s.owner == {} && (At(s, t).pc == Outside || At(s, t) == Caller(AtLock, 0, -1, Unwritten))
    ensures Play(s, Opening(t) + rest) == Play(AtTheRoute(s, t), rest)
  {
    hide Play, Step;
    var r := Run(t, true);
    assert Opening(t) + rest == [Enter(t)] + ([r] + ([r] + ([r] + ([r] + ([r] + rest)))));
    var s1 := Step(s, Enter(t));
    PlayOne(s, Enter(t), [r] + ([r] + ([r] + ([r] + ([r] + rest)))));
    assert s1.callers == s.callers[t := Caller(AtLock, 0, -1, Unwritten)] && s1 == s.(callers := s1.callers) by { Enters(s, t); }
    PlayOne(s1, r, [r] + ([r] + ([r] + ([r] + rest))));
    var s2 := Moved(s.callers, s1, t, true);
    PlayOne(s2, r, [r] + ([r] + ([r] + rest)));
    var s3 := Moved(s.callers, s2, t, true);
    PlayOne(s3, r, [r] + ([r] + rest));
    var s4 := Moved(s.callers, s3, t, true);
    PlayOne(s4, r, [r] + rest);
    var s5 := Moved(s.callers, s4, t, true);
    PlayOne(s5, r, rest);
    var s6 := Moved(s.callers, s5, t, true);
  }

  lemma Enters(s: State, t: Thread)
    requires At(s, t).pc == Outside || At(s, t) == Caller(AtLock, 0, -1, Unwritten)
    ensures Step(s, Enter(t)) == s.(callers := s.callers[t := Caller(AtLock, 0, -1, Unwritten)])
  {
  }

  /** One statement of `t`, by the map of callers it began with. */
  lemma Moved(base: map<Thread, Caller>, s: State, t: Thread, good: bool) returns (n: State)
    requires s.callers == base[t := At(s, t)] && At(s, t).pc != Outside
    ensures n == Step(s, Run(t, good)) == Advance(s, t, good)
    ensures n.callers == base[t := At(n, t)]
  {
    n := Step(s, Run(t, good));
  }

  lemma Answers(base: map<Thread, Caller>, s: State, t: Thread, o: Outcome) returns (n: State)
    requires s.callers == base[t := At(s, t)] && s.ctx == {t} && s.id in s.issued
    ensures n == Step(s, Callback(s.id, o))
    ensures n.callers == base[t := At(n, t)]
    ensures match o
            case Failed => n == s.(heard := s.heard + {s.id}, result := -1, sem := true)
            case Resolved(a) => n == s.(heard := s.heard + {s.id}, result := 0, sem := true,
                                        answers := s.answers + {(s.id, a)},
                                        callers := base[t := At(s, t).(out := Written(a, s.id))])
  {
    n := Step(s, Callback(s.id, o));
    match o {
      case Failed =>
      case Resolved(a) =>
        assert WriteOut(s, s.id, a) == base[t := At(s, t).(out := Written(a, s.id))];
    }
  }

  lemma ClosingPlays(base: map<Thread, Caller>, s: State, t: Thread)
    requires s.callers == base[t := At(s, t)] && At(s, t).pc == AtInvalidate && s.owner == {t}
    ensures Play(s, Closing(t)) ==
            s.(callers := base[t := At(s, t).(pc := Outside)], owner := {}, id := s.id + 1, ctx := {})
  {
    hide Play, Step;
    var r := Run(t, true);
    PlayOne(s, r, [r] + [r]);
    var s1 := Moved(base, s, t, true);
    PlayOne(s1, r, [r]);
    var s2 := Moved(base, s1, t, true);
    PlayLast(s2, r);
    var s3 := Moved(base, s2, t, true);
  }

  lemma PlayLast(s: State, e: Event)
    ensures Play(s, [e]) == Step(s, e)
  {
    assert [e][1..] == [];
  }

  /** From every state with the mutex free, a call that nobody disturbs ends, and returns what the world says:
      0 exactly if its query is answered. */
  lemma UndisturbedCall(s: State, t: Thread, w: World)
    requires s.owner == {} && (At(s, t).pc == Outside || At(s, t) == Caller(AtLock, 0, -1, Unwritten))
    ensures Play(s, Script(t, s.id + 1, w)) == Returned(s, t, w)
  {
    match w
    case NoRoute => NoRouteCall(s, t, AtTheRoute(s, t));
    case Refused => RefusedCall(s, t, AtTheRoute(s, t));
    case Silence => SilentCall(s, t);
    case Answer(o) => AnsweredCall(s, t, o);
  }

  lemma NoRouteCall(s: State, t: Thread, u: State)
    requires s.owner == {} && (At(s, t).pc == Outside || At(s, t) == Caller(AtLock, 0, -1, Unwritten))
    requires u == AtTheRoute(s, t)
    ensures Play(s, Script(t, s.id + 1, NoRoute)) == Returned(s, t, NoRoute)
  {
    hide Play, Step;
    var good, bad := Run(t, true), Run(t, false);
    OpeningPlays(s, t, [bad] + [good]);
    PlayOne(u, bad, [good]);
    var u1 := Moved(s.callers, u, t, false);
    PlayLast(u1, good);
    var u2 := Moved(s.callers, u1, t, true);
  }

  lemma RefusedCall(s: State, t: Thread, u: State)
    requires s.owner == {} && (At(s, t).pc == Outside || At(s, t) == Caller(AtLock, 0, -1, Unwritten))
    requires u == AtTheRoute(s, t)
    ensures Play(s, Script(t, s.id + 1, Refused)) == Returned(s, t, Refused)
  {
    hide Play, Step;
    var good, bad := Run(t, true), Run(t, false);
    OpeningPlays(s, t, [good] + ([bad] + Closing(t)));
    PlayOne(u, good, [bad] + Closing(t));
    var u1 := Moved(s.callers, u, t, true);
    PlayOne(u1, bad, Closing(t));
    var u2 := Moved(s.callers, u1, t, false);
    ClosingPlays(s.callers, u2, t);
  }

  /** The query is out, and the answer comes next. */
  function AtTheWait(s: State, t: Thread): State
  {
    State(s.callers[t := Caller(AtWait, s.id + 1, -1, Unwritten)], {t}, false, -1, s.id + 1, {t},
          s.issued + {s.id + 1}, s.heard, s.answers)
  }

  lemma QueryPlays(s: State, t: Thread, rest: seq<Event>)
    requires s.owner == {} && (At(s, t).pc == Outside || At(s, t) == Caller(AtLock, 0, -1, Unwritten))
    ensures Play(s, Opening(t) + ([Run(t, true)] + ([Run(t, true)] + rest))) == Play(AtTheWait(s, t), rest)
  {
    hide Play, Step, Opening;
    var good, u := Run(t, true), AtTheRoute(s, t);
    OpeningPlays(s, t, [good] + ([good] + rest));
    PlayOne(u, good, [good] + rest);
    var u1 := Moved(s.callers, u, t, true);
    PlayOne(u1, good, rest);
    var u2 := Moved(s.callers, u1, t, true);
  }

  lemma SilentCall(s: State, t: Thread)
    requires s.owner == {} && (At(s, t).pc == Outside || At(s, t) == Caller(AtLock, 0, -1, Unwritten))
    ensures Play(s, Script(t, s.id + 1, Silence)) == Returned(s, t, Silence)
  {
    hide Play, Step, Opening, Closing;
    var bad, w := Run(t, false), AtTheWait(s, t);
    QueryPlays(s, t, [bad] + Closing(t));
    PlayOne(w, bad, Closing(t));
    var w1 := Moved(s.callers, w, t, false);
    hide Advance;
    ClosingPlays(s.callers, w1, t);
  }

  lemma ReadPlays(base: map<Thread, Caller>, s: State, t: Thread, rest: seq<Event>) returns (n: State)
    requires s.callers == base[t := At(s, t)] && At(s, t).pc == AtWait && s.sem
    ensures n == s.(callers := n.callers, sem := false) && n.callers == base[t := At(n, t)]
    ensures At(n, t) == At(s, t).(pc := AtInvalidate, ret := s.result)
    ensures Play(s, [Run(t, true)] + ([Run(t, true)] + rest)) == Play(n, rest)
  {
    hide Play, Step;
    var good := Run(t, true);
    PlayOne(s, good, [good] + rest);
    var s1 := Moved(base, s, t, true);
    PlayOne(s1, good, rest);
    n := Moved(base, s1, t, true);
  }

  /** From the callback on. */
  lemma AnswerPlays(base: map<Thread, Caller>, w: State, t: Thread, o: Outcome) returns (n: State)
    requires w.callers == base[t := At(w, t)] && w.ctx == w.owner == {t} && w.id in w.issued && At(w, t).pc == AtWait
    ensures n == w.(callers := base[t := At(n, t)], result := ReturnFor(o), sem := false, owner := {}, ctx := {},
                    id := w.id + 1, heard := w.heard + {w.id}, answers := n.answers)
    ensures n.answers == if o.Resolved? then w.answers + {(w.id, o.addr)} else w.answers
    ensures At(n, t) == At(w, t).(pc := Outside, ret := ReturnFor(o),
                                  out := if o.Resolved? then Written(o.addr, w.id) else At(w, t).out)
    ensures Play(w, [Callback(w.id, o)] + ([Run(t, true)] + ([Run(t, true)] + Closing(t)))) == n
  {
    hide Play, Step, Closing, Advance;
    PlayOne(w, Callback(w.id, o), [Run(t, true)] + ([Run(t, true)] + Closing(t)));
    var w1 := Answers(base, w, t, o);
    n := ReadPlays(base, w1, t, Closing(t));
    ClosingPlays(base, n, t);
    n := n.(callers := base[t := At(n, t).(pc := Outside)], owner := {}, id := n.id + 1, ctx := {});
  }

  lemma AnsweredCall(s: State, t: Thread, o: Outcome)
    requires s.owner == {} && (At(s, t).pc == Outside || At(s, t) == Caller(AtLock, 0, -1, Unwritten))
    ensures Play(s, Script(t, s.id + 1, Answer(o))) == Returned(s, t, Answer(o))
  {
    hide Play, Opening, Closing, Script, Returned;
    var w := AtTheWait(s, t);
    var rest := [Callback(s.id + 1, o)] + ([Run(t, true)] + ([Run(t, true)] + Closing(t)));
    QueryPlays(s, t, rest);
    assert Script(t, s.id + 1, Answer(o)) == Opening(t) + ([Run(t, true)] + ([Run(t, true)] + rest)) by {
      AnswerScript(t, s.id + 1, o);
    }
    var n := AnswerPlays(s.callers, w, t, o);
    assert n == Returned(s, t, Answer(o)) by { AnswerReturned(s, t, o, n); }
  }

  lemma AnswerScript(t: Thread, q: nat, o: Outcome)
    ensures Script(t, q, Answer(o)) ==
            Opening(t) + ([Run(t, true)] + ([Run(t, true)] +
            ([Callback(q, o)] + ([Run(t, true)] + ([Run(t, true)] + Closing(t))))))
  {
  }

  lemma AnswerReturned(s: State, t: Thread, o: Outcome, n: State)
    requires n == State(s.callers[t := At(n, t)], {}, false, ReturnFor(o), s.id + 2, {}, s.issued + {s.id + 1},
                        s.heard + {s.id + 1}, n.answers)
    requires n.answers == if o.Resolved? then s.answers + {(s.id + 1, o.addr)} else s.answers
    requires At(n, t) == Caller(Outside, s.id + 1, ReturnFor(o), if o.Resolved? then Written(o.addr, s.id + 1) else Unwritten)
    ensures n == Returned(s, t, Answer(o))
  {
  }

  /** After every run that leaves the mutex free, every thread can make a call, and it returns 0 with the
      address exactly if its query is answered in time. */
  lemma EveryThreadCanCall(events: seq<Event>, t: Thread, w: World)
    requires RunAll(events).owner == {}
    ensures var q := RunAll(events).id + 1;
            var s := RunAll(events + Script(t, q, w));
            && At(s, t).pc == Outside && s.owner == {}
            && At(s, t).ret == (if w.Answer? && w.outcome.Resolved? then 0 else -1)
            && (w.Answer? && w.outcome.Resolved? ==> At(s, t).out == Written(w.outcome.addr, q))
  {
    hide RunAll, Script, Play;
    var s := RunAll(events);
    RunIsSafe(events);
    RunIsTidy(events);
    assert CallerOk(s, t) && Fresh(At(s, t));
    RunThenPlay(events, Script(t, s.id + 1, w));
    UndisturbedCall(s, t, w);
  }

  // ------------------------------------------------------ every call ends

  /** The statements still to come, at most. */
  function StepsLeft(pc: Pc): nat
  {
    match pc
    case Outside => 0
    case AtUnlock => 1
    case AtForget => 2
    case AtInvalidate => 3
    case AtRead => 4
    case AtWait => 5
    case AtIssue => 6
    case AtRoute => 7
    case AtContext => 8
    case AtNumber => 9
    case AtClear => 10
    case AtReset => 11
    case AtLock => 12
  }

  /** The thread would only go on waiting. */
  predicate Blocked(s: State, t: Thread, good: bool)
  {
    At(s, t).pc == AtWait && good && !s.sem
  }

  /** The thread that has the mutex comes nearer to its end with every statement that is not a wait, whatever
      the world does; no other step takes it back; and at its end the mutex is free. */
  lemma OwnerReturns(events: seq<Event>, t: Thread, e: Event)
    requires t in RunAll(events).owner
    ensures var s := RunAll(events);
            var n := Step(s, e);
            && (e.Run? && e.t == t && !Blocked(s, t, e.good) ==> StepsLeft(At(n, t).pc) < StepsLeft(At(s, t).pc))
            && (!(e.Run? && e.t == t) ==> At(n, t).pc == At(s, t).pc)
            && (StepsLeft(At(n, t).pc) == 0 ==> n.owner == {})
  {
    hide RunAll;
    RunIsSafe(events);
    var s := RunAll(events);
    assert CallerOk(s, t);
    assert s.owner == {t};
  }
}
