/** The hostname resolver of src/main.cpp: `resolve_ipv4_hostname` and `dns_callback`.

    Any number of threads may be inside `resolve_ipv4_hostname` at once, and the DNS client may
    call back for any query it was ever given: late, more than once, or in the middle of another
    caller's preparations.  Each statement of the resolver that touches shared state is one step,
    a callback is one step, and a run is any sequence of steps. */
module DnsResolver {

  type Thread = nat
  type Address = nat

  /** A caller's `out` variable, with the query whose callback wrote it last. */
  datatype Cell = Unwritten | Written(addr: Address, query: nat)

  /** The next statement of a caller. */
  datatype Pc =
    | Outside                // not in the resolver
    | AtLock                 // k_mutex_lock
    | AtReset                // k_sem_reset
    | AtClear                // dns_result = -1
    | AtNumber               // current_dns_id++
    | AtContext              // current_dctx.out = out
    | AtRoute                // nat64_synth
    | AtIssue                // otDnsClientResolveIp4Address
    | AtWait                 // k_sem_take
    | AtRead                 // ret = dns_result
    | AtInvalidate           // current_dns_id++
    | AtForget               // current_dctx.out = NULL
    | AtUnlock               // k_mutex_unlock, return

  /** `query` is the id the call gave its query, `ret` the value it will return. */
  datatype Caller = Caller(pc: Pc, query: nat, ret: int, out: Cell)

  datatype State = State(
    callers: map<Thread, Caller>,
    owner: set<Thread>,            // holders of dns_mutex: empty or one
    sem: bool,                     // dns_sem, limit 1
    result: int,                   // dns_result
    id: nat,                       // current_dns_id
    ctx: set<Thread>,              // whose `out` current_dctx.out points to: none or one
    issued: set<nat>,              // ids the DNS client has been given
    heard: set<nat>,               // ids it has called back for
    answers: set<(nat, Address)>)  // successful callbacks

  datatype Outcome = Failed | Resolved(addr: Address)

  /** A step: a thread enters, a thread runs its next statement (with what the outside world does
      to it: is there a route, is the query accepted, does the wait time out), or a callback. */
  datatype Event =
    | Enter(t: Thread)
    | Run(t: Thread, good: bool)
    | Callback(query: nat, outcome: Outcome)

  const START := State(map[], {}, false, -1, 0, {}, {}, {}, {})

  function At(s: State, t: Thread): Caller
  {
    if t in s.callers then s.callers[t] else Caller(Outside, 0, -1, Unwritten)
  }

  function Put(s: State, t: Thread, c: Caller): State
  {
    s.(callers := s.callers[t := c])
  }

  /** One statement of `resolve_ipv4_hostname`. */
  function Advance(s: State, t: Thread, good: bool): State
  {
    var c := At(s, t);
    match c.pc
    case Outside => s
    case AtLock => if s.owner == {} then Put(s, t, c.(pc := AtReset)).(owner := {t}) else s
    case AtReset => Put(s, t, c.(pc := AtClear)).(sem := false)
    case AtClear => Put(s, t, c.(pc := AtNumber)).(result := -1)
    case AtNumber => Put(s, t, c.(pc := AtContext)).(id := s.id + 1)
    case AtContext => Put(s, t, c.(pc := AtRoute)).(ctx := {t})
    case AtRoute =>
      // without a NAT64 route the call returns at once, and current_dctx.out stays set
      if good then Put(s, t, c.(pc := AtIssue)) else Put(s, t, c.(pc := AtUnlock, ret := -1))
    case AtIssue =>
      Put(s, t, if good then c.(pc := AtWait, query := s.id) else c.(pc := AtInvalidate, query := s.id, ret := -1))
      .(issued := s.issued + {s.id})
    case AtWait =>
      if s.sem && good then Put(s, t, c.(pc := AtRead)).(sem := false)
      else if good then s
      else Put(s, t, c.(pc := AtInvalidate, ret := -1))
    case AtRead => Put(s, t, c.(pc := AtInvalidate, ret := s.result))
    case AtInvalidate => Put(s, t, c.(pc := AtForget)).(id := s.id + 1)
    case AtForget => Put(s, t, c.(pc := AtUnlock)).(ctx := {})
    case AtUnlock => Put(s, t, c.(pc := Outside)).(owner := s.owner - {t})
  }

  /** Where a callback for query `q` writes the address: through current_dctx.out, into whatever
      variable that points to. */
  function WriteOut(s: State, q: nat, a: Address): map<Thread, Caller>
  {
    map t | t in s.callers :: if t in s.ctx then s.callers[t].(out := Written(a, q)) else s.callers[t]
  }

  /** `dns_callback`.  It can only be called for a query the client was given. */
  function DnsCallback(s: State, q: nat, o: Outcome): State
  {
    if q !in s.issued then s
    else
      var h := s.(heard := s.heard + {q});
      if q != s.id then h
      else match o
        case Failed => h.(result := -1, sem := true)
        case Resolved(a) =>
          h.(callers := WriteOut(s, q, a), result := 0, sem := true, answers := s.answers + {(q, a)})
  }

  function Step(s: State, e: Event): State
  {
    match e
    case Enter(t) => if At(s, t).pc == Outside then Put(s, t, Caller(AtLock, 0, -1, Unwritten)) else s
    case Run(t, good) => Advance(s, t, good)
    case Callback(q, o) => DnsCallback(s, q, o)
  }

  function RunAll(events: seq<Event>): State
  {
    if events == [] then START
    else Step(RunAll(events[..|events| - 1]), events[|events| - 1])
  }

  // ------------------------------------------------------ what every run keeps

  predicate Critical(pc: Pc)
  {
    pc != Outside && pc != AtLock
  }

  /** From the moment the query is handed over until its id is retired. */
  predicate QueryOpen(pc: Pc)
  {
    pc == AtWait || pc == AtRead || pc == AtInvalidate
  }

  /** Between the reset of the semaphore and the query. */
  predicate PastReset(pc: Pc)
  {
    pc == AtClear || pc == AtNumber || pc == AtContext || pc == AtRoute || pc == AtIssue
  }

  /** The return value is fixed. */
  predicate Decided(pc: Pc)
  {
    pc == Outside || pc == AtInvalidate || pc == AtForget || pc == AtUnlock
  }

  /** A caller whose variable holds an answer to its own query. */
  predicate Answered(s: State, c: Caller)
  {
    c.out.Written? && c.out.query == c.query && (c.query, c.out.addr) in s.answers
  }

  /** What holds of a thread that has the mutex. */
  predicate OwnerOk(s: State, t: Thread)
  {
    var c := At(s, t);
    // the current id is out exactly while the query is open
    && (s.id in s.issued <==> QueryOpen(c.pc))
    && (QueryOpen(c.pc) ==> c.query == s.id && s.ctx == {t} && (s.result == 0 ==> Answered(s, c)))
    // the semaphore and the result are clean before the query goes out
    && (PastReset(c.pc) ==> !s.sem)
    && (PastReset(c.pc) && c.pc != AtClear ==> s.result == -1)
    && (c.pc == AtRoute || c.pc == AtIssue ==> s.ctx == {t})
    // a wake-up comes from a callback for the query being waited for
    && (c.pc == AtWait && s.sem ==> s.id in s.heard)
    && (c.pc == AtRead ==> s.id in s.heard)
  }

  /** What holds of every thread: it has the mutex where it should, and a call that will return, or has
      returned, 0 has its answer. */
  predicate CallerOk(s: State, t: Thread)
  {
    && (Critical(At(s, t).pc) <==> t in s.owner)
    && (Decided(At(s, t).pc) && At(s, t).ret == 0 ==> Answered(s, At(s, t)))
  }

  /** What holds of the shared variables. */
  ghost predicate SharedOk(s: State)
  {
    && (forall q :: q in s.issued ==> q <= s.id)
    && (forall t, u :: t in s.owner && u in s.owner ==> t == u)
    && (forall t, u :: t in s.ctx && u in s.ctx ==> t == u)
    && s.owner <= s.callers.Keys && s.ctx <= s.callers.Keys
    && (s.owner == {} ==> s.id !in s.issued)
  }

  ghost predicate Safe(s: State)
  {
    && SharedOk(s)
    && (forall t :: t in s.owner ==> OwnerOk(s, t))
    && (forall t :: CallerOk(s, t))
  }

  /** A thread that does not have the mutex changes nothing but itself. */
  lemma EnterIsSafe(s: State, t: Thread)
    requires Safe(s)
    ensures Safe(Step(s, Enter(t)))
  {
    var n := Step(s, Enter(t));
    assert CallerOk(s, t);
    forall u
      ensures CallerOk(n, u)
      ensures u in n.owner ==> OwnerOk(n, u)
    {
      assert CallerOk(s, u);
      assert u != t ==> At(n, u) == At(s, u);
    }
  }

  lemma LockIsSafe(s: State, t: Thread, good: bool)
    requires Safe(s) && At(s, t).pc == AtLock
    ensures Safe(Advance(s, t, good))
  {
    var n := Advance(s, t, good);
    assert CallerOk(s, t);
    forall u
      ensures CallerOk(n, u)
      ensures u in n.owner ==> OwnerOk(n, u)
    {
      assert CallerOk(s, u);
      assert u != t ==> At(n, u) == At(s, u);
    }
  }

  /** The thread that has the mutex keeps what is shared in order ... */
  lemma OwnerKeepsShared(s: State, t: Thread, good: bool)
    requires Safe(s) && t in s.owner
    ensures SharedOk(Advance(s, t, good))
  {
    assert OwnerOk(s, t) && CallerOk(s, t);
  }

  /** ... and what holds of itself ... */
  lemma OwnerKeepsItself(s: State, t: Thread, good: bool)
    requires Safe(s) && t in s.owner
    ensures var n := Advance(s, t, good); CallerOk(n, t) && (t in n.owner ==> OwnerOk(n, t))
  {
    assert OwnerOk(s, t) && CallerOk(s, t);
  }

  /** ... and does not touch the others. */
  lemma OwnerKeepsOthers(s: State, t: Thread, u: Thread, good: bool)
    requires Safe(s) && t in s.owner && u != t
    ensures var n := Advance(s, t, good); CallerOk(n, u) && u !in n.owner
  {
    hide OwnerOk;
    assert CallerOk(s, t) && CallerOk(s, u);
    assert At(Advance(s, t, good), u) == At(s, u);
  }

  lemma AdvanceIsSafe(s: State, t: Thread, good: bool)
    requires Safe(s)
    ensures Safe(Advance(s, t, good))
  {
    hide Advance, OwnerOk, CallerOk, SharedOk;
    var n := Advance(s, t, good);
    WhereOwnersAre(s, t, good);
    if t in s.owner {
      OwnerKeepsShared(s, t, good);
      forall u
        ensures CallerOk(n, u)
        ensures u in n.owner ==> OwnerOk(n, u)
      {
        if u == t {
          OwnerKeepsItself(s, t, good);
        } else {
          OwnerKeepsOthers(s, t, u, good);
        }
      }
    } else if At(s, t).pc == AtLock {
      LockIsSafe(s, t, good);
    }
  }

  lemma WhereOwnersAre(s: State, t: Thread, good: bool)
    requires Safe(s)
    ensures t in s.owner || At(s, t).pc == AtLock || Advance(s, t, good) == s
  {
    assert CallerOk(s, t);
  }

  lemma FailureIsSafe(s: State, q: nat)
    requires Safe(s)
    ensures Safe(DnsCallback(s, q, Failed))
  {
    var n := DnsCallback(s, q, Failed);
    forall u
      ensures CallerOk(n, u)
      ensures u in n.owner ==> OwnerOk(n, u)
    {
      assert At(n, u) == At(s, u);
      assert CallerOk(s, u);
    }
  }

  lemma AnswerIsSafe(s: State, q: nat, a: Address)
    requires Safe(s)
    ensures Safe(DnsCallback(s, q, Resolved(a)))
  {
    var n := DnsCallback(s, q, Resolved(a));
    forall u
      ensures CallerOk(n, u)
      ensures u in n.owner ==> OwnerOk(n, u)
    {
      assert CallerOk(s, u);
      if q in s.issued && q == s.id {
        OpenQuery(s, u);
      }
    }
  }

  /** While the current id is out, one thread has the mutex with its query open, and the context points to
      that thread's variable only. */
  lemma OpenQuery(s: State, u: Thread)
    requires Safe(s) && s.id in s.issued
    ensures s.owner == s.ctx && (u in s.owner ==> QueryOpen(At(s, u).pc) && At(s, u).query == s.id)
  {
    var w :| w in s.owner;
    assert OwnerOk(s, w);
    assert s.owner == {w};
  }

  lemma {:induction false} RunIsSafe(events: seq<Event>)
    ensures Safe(RunAll(events))
  {
    hide Advance, DnsCallback;
    if events != [] {
      var s := RunAll(events[..|events| - 1]);
      RunIsSafe(events[..|events| - 1]);
      match events[|events| - 1]
      case Enter(t) => EnterIsSafe(s, t);
      case Run(t, good) => AdvanceIsSafe(s, t, good);
      case Callback(q, o) =>
        match o {
          case Failed => FailureIsSafe(s, q);
          case Resolved(a) => AnswerIsSafe(s, q, a);
        }
    }
  }

  // ------------------------------------------------------ the promises

  /** In every run, a callback writes a caller's variable only while that caller is still inside the
      resolver, waiting for or about to retire the very query the callback answers. */
  lemma CallbackWritesOnlyItsCaller(events: seq<Event>, q: nat, o: Outcome, t: Thread)
    ensures var s := RunAll(events);
            At(Step(s, Callback(q, o)), t).out != At(s, t).out ==>
            t in s.owner && QueryOpen(At(s, t).pc) && At(s, t).query == q && o.Resolved?
  {
    hide RunAll, Safe, CallerOk, OwnerOk;
    RunIsSafe(events);
    var s := RunAll(events);
    if q in s.issued && q == s.id {
      OpenQuery(s, t);
    }
  }

  /** Nothing else writes it, except that a fresh call starts with a fresh variable. */
  lemma OnlyCallbacksWrite(s: State, e: Event, t: Thread)
    ensures !e.Callback? && e != Enter(t) ==> At(Step(s, e), t).out == At(s, t).out
  {
  }

  /** In every run, a call that returns 0 leaves in its variable an address that a successful
      callback delivered for its own query. */
  lemma ZeroMeansResolved(events: seq<Event>, t: Thread)
    ensures var c := At(RunAll(events), t);
            (c.pc == AtUnlock || c.pc == Outside) && c.ret == 0 ==>
            c.out.Written? && c.out.query == c.query && (c.query, c.out.addr) in RunAll(events).answers
  {
    hide RunAll;
    RunIsSafe(events);
    assert CallerOk(RunAll(events), t);
  }

  /** In every run, a thread that got past its wait without a timeout was woken by a callback for
      its own query, never by a leftover of another. */
  lemma WokenByOwnCallback(events: seq<Event>, t: Thread)
    ensures var s := RunAll(events);
            At(s, t).pc == AtRead ==> At(s, t).query in s.heard
  {
    hide RunAll;
    RunIsSafe(events);
    assert CallerOk(RunAll(events), t) && (t in RunAll(events).owner ==> OwnerOk(RunAll(events), t));
  }

  /** Mutual exclusion: at most one thread is past the lock. */
  lemma OneInside(events: seq<Event>, t: Thread, u: Thread)
    ensures var s := RunAll(events);
            Critical(At(s, t).pc) && Critical(At(s, u).pc) ==> t == u
  {
    hide RunAll, OwnerOk;
    RunIsSafe(events);
    assert CallerOk(RunAll(events), t) && CallerOk(RunAll(events), u);
  }

  /** After the exit without a route the context still points at the finished call's variable, but
      no callback can reach it: the id that guards it was never handed out. */
  lemma StaleContextIsUnreachable(events: seq<Event>, t: Thread, q: nat, o: Outcome)
    requires At(RunAll(events), t).pc == Outside && t in RunAll(events).ctx
    ensures At(Step(RunAll(events), Callback(q, o)), t).out == At(RunAll(events), t).out
  {
    hide RunAll;
    RunIsSafe(events);
    assert CallerOk(RunAll(events), t);
    CallbackWritesOnlyItsCaller(events, q, o, t);
  }
}
