/** The queue of update batches and the protocol as one state machine, whatever is computed for an update and however it
    is committed.  Commands of a batch that has ended may still be outstanding when the next one is dispatched: each
    carries the continuations of its own batch, but its response is handled with the lists of the current one. */
module Queue {
  import opened Routes
  import opened Updates
  import opened Protocol
  import opened Delivery
  import opened Failures

  /** What the updater computes for an update. */
  datatype Plan<E> = Plan(lists: Lists, records: E)

  /** How an update is computed (or crashes the daemon), what committing it with given records makes of the RIB (or fails
      an assertion), which faces it declares gone, and which updates count as safe. */
  datatype Rules<!R, !U, !E> = Rules(
    plan: (R, U) -> Option<Plan<E>>, commit: (R, U, E) -> Option<R>, gone: (set<nat>, U) -> set<nat>,
    safe: (R, U, set<nat>) -> bool)

  /** An outstanding command of an earlier batch, the `owner`-th dispatched. */
  datatype Stray = Stray(command: Command, owner: nat)

  /** A call of the success or failure continuation of the `owner`-th batch. */
  datatype Call = Call(owner: nat, ok: bool)

  /** The whole system.  `busy` is m_isUpdateInProgress, `trace` the updater's state with the FIB and the outstanding
      commands of the last dispatched batch, `records` is m_inheritedRoutes.  For the record: everything enqueued and
      dispatched, how each dispatched batch ended first, all calls of continuations, whether the daemon crashed, and whether
      all dispatched updates were safe, no removal timed out and no response made the updater throw. */
  datatype Sys<R, U, E> = Sys(
    rib: R, queue: seq<U>, busy: bool, trace: Trace, records: E, strays: seq<Stray>,
    enqueued: seq<U>, dispatched: seq<U>, outcomes: seq<bool>, calls: seq<Call>, crashed: bool, clean: bool)

  ghost predicate RulesOk<R(!new), U(!new), E>(rules: Rules<R, U, E>)
  {
    forall r, u :: rules.plan(r, u).Some? ==>
      ListsOk(rules.plan(r, u).value.lists) && rules.commit(r, u, rules.plan(r, u).value.records).Some?
  }

  function Tagged(cs: seq<Command>, owner: nat): (ss: seq<Stray>)
    ensures |ss| == |cs| && forall i :: 0 <= i < |cs| ==> ss[i] == Stray(cs[i], owner)
  {
    seq(|cs|, i requires 0 <= i < |cs| => Stray(cs[i], owner))
  }

  /** The number of the last dispatched batch. */
  function Current<R, U, E>(s: Sys<R, U, E>): nat
  {
    if s.dispatched == [] then 0 else |s.dispatched| - 1
  }

  /** The dispatch of the front of the queue, up to the first sending of commands.  The updater's lists are overwritten. */
  function Start<R, U, E>(rules: Rules<R, U, E>, s: Sys<R, U, E>): Sys<R, U, E>
    requires s.queue != []
  {
    var u := s.queue[0];
    var next := s.(queue := s.queue[1..], dispatched := s.dispatched + [u], busy := true,
                   strays := s.strays + Tagged(s.trace.inflight, Current(s)),
                   clean := s.clean && rules.safe(s.rib, u, s.trace.dead));
    match rules.plan(s.rib, u)
    case None => next.(crashed := true)
    case Some(p) => next.(trace := Begin(p.lists, s.trace.fib, rules.gone(s.trace.dead, u)), records := p.records)
  }

  /** A continuation of the `owner`-th batch, up to the point where the queue is looked at again.  Success commits that
      batch with the records the updater holds now. */
  function Continue<R, U, E>(rules: Rules<R, U, E>, s: Sys<R, U, E>, owner: nat, ok: bool): Sys<R, U, E>
    requires owner < |s.dispatched|
  {
    var called := s.(busy := false, calls := s.calls + [Call(owner, ok)],
                     outcomes := if owner == |s.outcomes| then s.outcomes + [ok] else s.outcomes);
    if !ok then called
    else
      match rules.commit(s.rib, s.dispatched[owner], s.records)
      case None => called.(crashed := true)
      case Some(r) => called.(rib := r)
  }

  /** Rib::sendBatchFromQueue.  A batch without FIB updates completes at once and looks at the queue again from within. */
  function Dispatch<R, U, E>(rules: Rules<R, U, E>, s: Sys<R, U, E>): Sys<R, U, E>
    decreases |s.queue|
  {
    if s.busy || s.crashed || s.queue == [] then s
    else
      var s' := Start(rules, s);
      if s'.crashed || s'.trace.successes == 0 then s' else Dispatch(rules, Continue(rules, s', Current(s'), true))
  }

  lemma DispatchUnfolds<R, U, E>(rules: Rules<R, U, E>, s: Sys<R, U, E>)
    ensures Dispatch(rules, s) ==
            if s.busy || s.crashed || s.queue == [] then s
            else
              var s' := Start(rules, s);
              if s'.crashed || s'.trace.successes == 0 then s' else Dispatch(rules, Continue(rules, s', Current(s'), true))
  {
  }

  /** beginApplyUpdate with one update, or beginRemoveFace with one for each route on the face. */
  function Enqueue<R, U, E>(rules: Rules<R, U, E>, s: Sys<R, U, E>, us: seq<U>): Sys<R, U, E>
  {
    Dispatch(rules, s.(queue := s.queue + us, enqueued := s.enqueued + us))
  }

  /** The state right after a response, before a continuation is called. */
  function Heard<R, U, E>(s: Sys<R, U, E>, e: Event): Sys<R, U, E>
    requires e.i < |s.trace.inflight|
  {
    var t := Deliver(s.trace, e);
    s.(trace := t,
       clean := s.clean && !t.thrown && !(e.response == TimedOut && s.trace.inflight[e.i].u.action == RemoveNextHop))
  }

  /** The response to a command of the last dispatched batch. */
  function Respond<R, U, E>(rules: Rules<R, U, E>, s: Sys<R, U, E>, e: Event): Sys<R, U, E>
    requires e.i < |s.trace.inflight| && s.dispatched != []
  {
    var s' := Heard(s, e);
    if s'.trace.successes > s.trace.successes then Dispatch(rules, Continue(rules, s', Current(s), true))
    else if s'.trace.failures > s.trace.failures then Dispatch(rules, Continue(rules, s', Current(s), false))
    else if s'.trace.thrown then s'.(crashed := true)
    else s'
  }

  /** The response to a stray command: it is handled with the current lists, and whatever it makes the updater send carries
      the continuations of the stray's own batch. */
  function RespondStray<R, U, E>(rules: Rules<R, U, E>, s: Sys<R, U, E>, i: nat, response: Response, done: bool): Sys<R, U, E>
    requires i < |s.strays| && s.strays[i].owner < |s.dispatched|
  {
    var c, owner := s.strays[i].command, s.strays[i].owner;
    var x := OnResponse(s.trace.lists, c, response);
    var s' := s.(trace := s.trace.(lists := x.lists, fib := FibAfter(s.trace.fib, c, Event(0, response, done)),
                                   dead := if response == FaceNotFound then s.trace.dead + {c.u.face} else s.trace.dead),
                 strays := s.strays[..i] + s.strays[i + 1..] + Tagged(x.send, owner),
                 clean := false);
    match x.outcome
    case Success => Dispatch(rules, Continue(rules, s', owner, true))
    case Failure => Dispatch(rules, Continue(rules, s', owner, false))
    case Thrown => s'.(crashed := true)
    case Waiting => s'
  }

  // ----- runs -----

  datatype Happening<U> = Request(us: seq<U>) | Answer(e: Event) | StrayAnswer(i: nat, response: Response, done: bool)

  predicate Possible<R, U, E>(s: Sys<R, U, E>, h: Happening<U>)
  {
    match h
    case Request(_) => true
    case Answer(e) => s.dispatched != [] && e.i < |s.trace.inflight|
    case StrayAnswer(i, _, _) => i < |s.strays| && s.strays[i].owner < |s.dispatched|
  }

  function Happen<R, U, E>(rules: Rules<R, U, E>, s: Sys<R, U, E>, h: Happening<U>): Sys<R, U, E>
    requires Possible(s, h)
  {
    match h
    case Request(us) => Enqueue(rules, s, us)
    case Answer(e) => Respond(rules, s, e)
    case StrayAnswer(i, response, done) => RespondStray(rules, s, i, response, done)
  }

  predicate PossibleRun<R, U, E>(rules: Rules<R, U, E>, s: Sys<R, U, E>, hs: seq<Happening<U>>)
    decreases |hs|
  {
    hs == [] || (!s.crashed && Possible(s, hs[0]) && PossibleRun(rules, Happen(rules, s, hs[0]), hs[1..]))
  }

  function EndOf<R, U, E>(rules: Rules<R, U, E>, s: Sys<R, U, E>, hs: seq<Happening<U>>): Sys<R, U, E>
    requires PossibleRun(rules, s, hs)
    decreases |hs|
  {
    if hs == [] then s else EndOf(rules, Happen(rules, s, hs[0]), hs[1..])
  }

  /** The next batch would be dispatched while commands of a denied one are outstanding: its own face is denied while
      other commands of it are out and the queue is not empty, or something is requested before they have been answered. */
  predicate Untimely<R, U, E>(s: Sys<R, U, E>, h: Happening<U>)
    requires Possible(s, h)
  {
    match h
    case Request(us) => us != [] && !s.busy && s.trace.inflight != []
    case Answer(e) => s.busy && Denies(s.trace, e) && |s.trace.inflight| > 1 && s.queue != []
    case StrayAnswer(_, _, _) => false
  }

  predicate TimelyRun<R, U, E>(rules: Rules<R, U, E>, s: Sys<R, U, E>, hs: seq<Happening<U>>)
    decreases |hs|
  {
    hs == [] ||
    (!s.crashed && Possible(s, hs[0]) && !Untimely(s, hs[0]) && TimelyRun(rules, Happen(rules, s, hs[0]), hs[1..]))
  }

  lemma {:induction false} TimelyIsPossible<R, U, E>(rules: Rules<R, U, E>, s: Sys<R, U, E>, hs: seq<Happening<U>>)
    requires TimelyRun(rules, s, hs)
    ensures PossibleRun(rules, s, hs)
    decreases |hs|
  {
    if hs == [] {
    } else {
      TimelyIsPossible(rules, Happen(rules, s, hs[0]), hs[1..]);
    }
  }

  // ----- what a response comes to -----

  lemma DenialFails(t: Trace, e: Event)
    requires e.i < |t.inflight|
    ensures Deliver(t, e).failures == t.failures + if Denies(t, e) then 1 else 0
    ensures Denies(t, e) ==> Deliver(t, e).successes == t.successes
  {
  }

  lemma RespondDenied<R, U, E>(rules: Rules<R, U, E>, s: Sys<R, U, E>, e: Event)
    requires Possible(s, Answer(e)) && Denies(s.trace, e)
    ensures Respond(rules, s, e) == Dispatch(rules, Continue(rules, Heard(s, e), Current(s), false))
  {
    DenialFails(s.trace, e);
  }

  lemma RespondIs<R, U, E>(rules: Rules<R, U, E>, s: Sys<R, U, E>, e: Event)
    requires Possible(s, Answer(e)) && s.trace.successes == 0
    requires var t := Deliver(s.trace, e); t.successes <= 1 && t.failures <= s.trace.failures && !t.thrown
    ensures Respond(rules, s, e) == var s' := Heard(s, e);
                                    if s'.trace.successes == 1 then Dispatch(rules, Continue(rules, s', Current(s), true)) else s'
  {
  }

  lemma RespondThrown<R, U, E>(rules: Rules<R, U, E>, s: Sys<R, U, E>, e: Event)
    requires Possible(s, Answer(e)) && !Quiet(s.trace, e)
    ensures Respond(rules, s, e) == Heard(s, e).(crashed := true) && !Heard(s, e).clean
  {
  }

  // ----- what every run keeps -----

  /** What committing an update with the records computed for it makes of the RIB. */
  function Advance<R, U, E>(rules: Rules<R, U, E>, r: R, u: U): R
  {
    match rules.plan(r, u)
    case None => r
    case Some(p) =>
      match rules.commit(r, u, p.records)
      case None => r
      case Some(r') => r'
  }

  /** Sequential application of updates. */
  function Replay<R, U, E>(rules: Rules<R, U, E>, r: R, us: seq<U>): R
  {
    if us == [] then r else Advance(rules, Replay(rules, r, us[..|us| - 1]), us[|us| - 1])
  }

  /** The updates whose outcome is success. */
  function Chosen<U>(us: seq<U>, outcomes: seq<bool>): seq<U>
    requires |outcomes| <= |us|
  {
    if outcomes == [] then []
    else
      var n := |outcomes| - 1;
      Chosen(us, outcomes[..n]) + if outcomes[n] then [us[n]] else []
  }

  lemma {:induction false} ChosenPrefix<U>(us: seq<U>, more: seq<U>, outcomes: seq<bool>)
    requires |outcomes| <= |us|
    ensures Chosen(us + more, outcomes) == Chosen(us, outcomes)
  {
    if outcomes == [] {
    } else {
      ChosenPrefix(us, more, outcomes[..|outcomes| - 1]);
    }
  }

  lemma ReplayOneMore<R, U, E>(rules: Rules<R, U, E>, r: R, us: seq<U>, u: U)
    ensures Replay(rules, r, us + [u]) == Advance(rules, Replay(rules, r, us), u)
  {
    assert (us + [u])[..|us + [u]| - 1] == us;
  }

  /** How often a continuation of the `owner`-th batch was called. */
  function CallsOf(calls: seq<Call>, owner: nat, ok: bool): nat
  {
    if calls == [] then 0
    else CallsOf(calls[..|calls| - 1], owner, ok) + if calls[|calls| - 1] == Call(owner, ok) then 1 else 0
  }

  lemma CallsOfSnoc(calls: seq<Call>, c: Call, owner: nat, ok: bool)
    ensures CallsOf(calls + [c], owner, ok) == CallsOf(calls, owner, ok) + if c == Call(owner, ok) then 1 else 0
  {
    assert (calls + [c])[..|calls|] == calls;
  }

  /** Batches are dispatched in the order they were enqueued, each dispatched one but the one under way has ended, and the
      RIB is the sequential application of exactly those that succeeded. */
  ghost predicate Ordered<R, U, E>(rules: Rules<R, U, E>, r: R, s: Sys<R, U, E>)
  {
    && s.enqueued == s.dispatched + s.queue
    && |s.outcomes| == |s.dispatched| - (if s.busy then 1 else 0)
    && s.rib == Replay(rules, r, Chosen(s.dispatched, s.outcomes))
  }

  /** A batch that ended in success had its success continuation called once and nothing else; one that ended in failure
      only its failure continuation, at least once; others none. */
  ghost predicate CallsRightOf(outcomes: seq<bool>, calls: seq<Call>, k: nat)
  {
    if k >= |outcomes| then CallsOf(calls, k, true) == 0 && CallsOf(calls, k, false) == 0
    else if outcomes[k] then CallsOf(calls, k, true) == 1 && CallsOf(calls, k, false) == 0
    else CallsOf(calls, k, true) == 0 && CallsOf(calls, k, false) >= 1
  }

  ghost predicate CallsRight(outcomes: seq<bool>, calls: seq<Call>)
  {
    forall k :: CallsRightOf(outcomes, calls, k)
  }

  /** The commands of a batch whose face was denied: they are all for that face, and never end the batch. */
  ghost predicate Denied(t: Trace)
  {
    Stuck(t) && t.lists.face in t.dead && !t.thrown
  }

  /** The batch under way is computed from the RIB as it is. */
  ghost predicate UnderWay<R, U, E>(rules: Rules<R, U, E>, s: Sys<R, U, E>)
  {
    && Ok(s.trace) && s.trace.successes == 0 && s.dispatched != []
    && rules.plan(s.rib, s.dispatched[|s.dispatched| - 1]).Some?
    && s.records == rules.plan(s.rib, s.dispatched[|s.dispatched| - 1]).value.records
  }

  /** One batch at a time: the outstanding commands are those of the one under way, if any, or the rest of the last one,
      which was denied. */
  ghost predicate Serial<R, U, E>(rules: Rules<R, U, E>, r: R, s: Sys<R, U, E>)
  {
    && Ordered(rules, r, s) && CallsRight(s.outcomes, s.calls) && s.strays == []
    && (if s.busy then UnderWay(rules, s)
        else s.trace.inflight == [] || (Denied(s.trace) && s.outcomes != [] && !s.outcomes[|s.outcomes| - 1]))
  }

  /** And nothing waits in the queue while nothing is under way. */
  ghost predicate Steady<R, U, E>(rules: Rules<R, U, E>, r: R, s: Sys<R, U, E>)
  {
    s.strays == [] && (s.crashed || (Serial(rules, r, s) && (!s.busy ==> s.queue == [])))
  }

  lemma StartOrdered<R, U, E>(rules: Rules<R, U, E>, r: R, s: Sys<R, U, E>)
    requires Ordered(rules, r, s) && !s.busy && s.queue != []
    ensures Ordered(rules, r, Start(rules, s))
  {
    ChosenPrefix(s.dispatched, [s.queue[0]], s.outcomes);
    assert s.dispatched + s.queue == s.dispatched + [s.queue[0]] + s.queue[1..];
  }

  lemma FirstCall(outcomes: seq<bool>, calls: seq<Call>, ok: bool)
    requires CallsRight(outcomes, calls)
    ensures CallsRight(outcomes + [ok], calls + [Call(|outcomes|, ok)])
  {
    forall k: nat
      ensures CallsRightOf(outcomes + [ok], calls + [Call(|outcomes|, ok)], k)
    {
      assert CallsRightOf(outcomes, calls, k);
      CallsOfSnoc(calls, Call(|outcomes|, ok), k, true);
      CallsOfSnoc(calls, Call(|outcomes|, ok), k, false);
    }
  }

  lemma AnotherFailure(outcomes: seq<bool>, calls: seq<Call>)
    requires CallsRight(outcomes, calls) && outcomes != [] && !outcomes[|outcomes| - 1]
    ensures CallsRight(outcomes, calls + [Call(|outcomes| - 1, false)])
  {
    var c := Call(|outcomes| - 1, false);
    forall k: nat
      ensures CallsRightOf(outcomes, calls + [c], k)
    {
      assert CallsRightOf(outcomes, calls, k);
      CallsOfSnoc(calls, c, k, true);
      CallsOfSnoc(calls, c, k, false);
    }
  }

  lemma CommitOrdered<R(!new), U(!new), E>(rules: Rules<R, U, E>, r: R, s: Sys<R, U, E>)
    requires RulesOk(rules) && Ordered(rules, r, s) && CallsRight(s.outcomes, s.calls) && s.busy && s.dispatched != []
    requires var p := rules.plan(s.rib, s.dispatched[|s.dispatched| - 1]); p.Some? && s.records == p.value.records
    ensures var s' := Continue(rules, s, Current(s), true);
            Ordered(rules, r, s') && CallsRight(s'.outcomes, s'.calls) && s'.crashed == s.crashed
  {
    var us, u := Chosen(s.dispatched, s.outcomes), s.dispatched[|s.dispatched| - 1];
    FirstCall(s.outcomes, s.calls, true);
    assert (s.outcomes + [true])[..|s.outcomes|] == s.outcomes;
    assert Chosen(s.dispatched, s.outcomes + [true]) == us + [u];
    ReplayOneMore(rules, r, us, u);
  }

  lemma FailOrdered<R, U, E>(rules: Rules<R, U, E>, r: R, s: Sys<R, U, E>)
    requires Ordered(rules, r, s) && CallsRight(s.outcomes, s.calls) && s.busy && s.dispatched != []
    ensures Ordered(rules, r, Continue(rules, s, Current(s), false)) && CallsRight(s.outcomes + [false], s.calls + [Call(Current(s), false)])
  {
    FirstCall(s.outcomes, s.calls, false);
    assert (s.outcomes + [false])[..|s.outcomes|] == s.outcomes;
    assert Chosen(s.dispatched, s.outcomes + [false]) == Chosen(s.dispatched, s.outcomes);
  }

  /** Further denials of a batch that has failed only call its failure continuation again. */
  lemma FailAgain<R, U, E>(rules: Rules<R, U, E>, r: R, s: Sys<R, U, E>)
    requires Ordered(rules, r, s) && CallsRight(s.outcomes, s.calls) && !s.busy && s.outcomes != [] && !s.outcomes[|s.outcomes| - 1]
    ensures var s' := Continue(rules, s, Current(s), false);
            Ordered(rules, r, s') && CallsRight(s'.outcomes, s'.calls) && s'.outcomes == s.outcomes && s'.crashed == s.crashed
  {
    AnotherFailure(s.outcomes, s.calls);
  }

  lemma StartTrace<R(!new), U(!new), E>(rules: Rules<R, U, E>, s: Sys<R, U, E>)
    requires RulesOk(rules) && s.queue != [] && !Start(rules, s).crashed
    ensures Ok(Start(rules, s).trace)
    ensures Start(rules, s).trace.inflight != [] || Start(rules, s).trace.successes == 1
  {
    var u := s.queue[0];
    var t := Start(rules, s).trace;
    BeginOk(rules.plan(s.rib, u).value.lists, s.trace.fib, rules.gone(s.trace.dead, u));
    BeginInflight(rules.plan(s.rib, u).value.lists, s.trace.fib, rules.gone(s.trace.dead, u));
  }

  /** The batch that has just been dispatched with no command outstanding before. */
  lemma StartSerial<R(!new), U(!new), E>(rules: Rules<R, U, E>, r: R, s: Sys<R, U, E>)
    requires RulesOk(rules) && Serial(rules, r, s) && !s.busy && s.queue != [] && s.trace.inflight == []
    requires !Start(rules, s).crashed
    ensures var s' := Start(rules, s);
            && Ordered(rules, r, s') && CallsRight(s'.outcomes, s'.calls) && s'.strays == [] && s'.busy
            && s'.dispatched != [] && Ok(s'.trace) && s'.trace.successes <= 1 && |s'.queue| < |s.queue|
            && var p := rules.plan(s'.rib, s'.dispatched[|s'.dispatched| - 1]); p.Some? && s'.records == p.value.records
  {
    StartOrdered(rules, r, s);
    StartTrace(rules, s);
    assert Tagged([], Current(s)) == [] && s.strays + [] == [];
  }

  lemma EmptySerial<R(!new), U(!new), E>(rules: Rules<R, U, E>, r: R, s: Sys<R, U, E>)
    requires RulesOk(rules) && Serial(rules, r, s) && !s.busy && s.queue != [] && s.trace.inflight == []
    requires !Start(rules, s).crashed && Start(rules, s).trace.successes != 0
    ensures var s' := Start(rules, s);
            var s'' := Continue(rules, s', Current(s'), true);
            Serial(rules, r, s'') && !s''.busy && s''.trace.inflight == [] && |s''.queue| < |s.queue|
  {
    StartSerial(rules, r, s);
    DoneIsQuiet(Start(rules, s).trace);
    CommitOrdered(rules, r, Start(rules, s));
  }

  /** From a state in which no command is outstanding and nothing is under way. */
  lemma {:induction false} DispatchSteady<R(!new), U(!new), E>(rules: Rules<R, U, E>, r: R, s: Sys<R, U, E>)
    requires RulesOk(rules) && Serial(rules, r, s) && (!s.busy && s.queue != [] ==> s.trace.inflight == [])
    ensures Steady(rules, r, Dispatch(rules, s))
    decreases |s.queue|
  {
    DispatchUnfolds(rules, s);
    if s.busy || s.crashed || s.queue == [] {
    } else {
      var s' := Start(rules, s);
      if s'.crashed {
        assert Tagged([], Current(s)) == [] && s.strays + [] == [];
      } else if s'.trace.successes == 0 {
        StartSerial(rules, r, s);
      } else {
        EmptySerial(rules, r, s);
        DispatchSteady(rules, r, Continue(rules, s', Current(s'), true));
      }
    }
  }

  lemma DoneIsQuiet(t: Trace)
    requires Ok(t) && t.successes != 0
    ensures t.inflight == [] && t.successes == 1 && t.lists.batch == [] && t.lists.other == []
  {
  }

  lemma NotDone(t: Trace, t': Trace)
    requires Ok(t) && Ok(t') && t'.successes <= t.successes
    ensures t'.failures == t.failures && !t'.thrown
  {
  }

  /** A response while the batch is under way that does not deny its face. */
  lemma BenignSteady<R(!new), U(!new), E>(rules: Rules<R, U, E>, r: R, s: Sys<R, U, E>, e: Event)
    requires RulesOk(rules) && Serial(rules, r, s) && s.busy && !s.crashed && e.i < |s.trace.inflight| && Benign(s.trace, e)
    ensures Steady(rules, r, Respond(rules, s, e))
  {
    var s' := Heard(s, e);
    DeliverOk(s.trace, e);
    if s'.trace.successes > s.trace.successes {
      DoneIsQuiet(s'.trace);
      CommitOrdered(rules, r, s');
      DispatchSteady(rules, r, Continue(rules, s', Current(s), true));
    } else {
      NotDone(s.trace, s'.trace);
    }
  }

  /** The first denial: the batch fails, and its other commands stay out. */
  lemma DenialSteady<R(!new), U(!new), E>(rules: Rules<R, U, E>, r: R, s: Sys<R, U, E>, e: Event)
    requires RulesOk(rules) && Serial(rules, r, s) && s.busy && !s.crashed && e.i < |s.trace.inflight| && Denies(s.trace, e)
    requires !Untimely(s, Answer(e))
    ensures Steady(rules, r, Respond(rules, s, e))
  {
    var s' := Heard(s, e);
    DenialSticks(s.trace, e);
    FailOrdered(rules, r, s');
    DispatchSteady(rules, r, Continue(rules, s', Current(s), false));
  }

  lemma StaysDenied(t: Trace, e: Event)
    requires Denied(t) && e.i < |t.inflight| && Quiet(t, e)
    ensures var t' := Deliver(t, e);
            Denied(t') && t'.successes == t.successes && t'.failures == t.failures + if Denies(t, e) then 1 else 0
  {
    StaysStuck(t, e);
  }

  /** A response to the rest of a denied batch. */
  lemma RestSteady<R(!new), U(!new), E>(rules: Rules<R, U, E>, r: R, s: Sys<R, U, E>, e: Event)
    requires Serial(rules, r, s) && !s.busy && s.queue == [] && !s.crashed && e.i < |s.trace.inflight| && Quiet(s.trace, e)
    ensures Steady(rules, r, Respond(rules, s, e))
  {
    var s' := Heard(s, e);
    StaysDenied(s.trace, e);
    assert Ordered(rules, r, s') && CallsRight(s'.outcomes, s'.calls);
    if Denies(s.trace, e) {
      FailAgain(rules, r, s');
    }
  }

  lemma RespondSteady<R(!new), U(!new), E>(rules: Rules<R, U, E>, r: R, s: Sys<R, U, E>, e: Event)
    requires RulesOk(rules) && Steady(rules, r, s) && !s.crashed && Possible(s, Answer(e)) && !Untimely(s, Answer(e))
    ensures Steady(rules, r, Respond(rules, s, e))
  {
    if !Quiet(s.trace, e) {
      RespondThrown(rules, s, e);
    } else if !s.busy {
      RestSteady(rules, r, s, e);
    } else if Denies(s.trace, e) {
      DenialSteady(rules, r, s, e);
    } else {
      BenignSteady(rules, r, s, e);
    }
  }

  lemma EnqueueOrdered<R, U, E>(rules: Rules<R, U, E>, r: R, s: Sys<R, U, E>, us: seq<U>)
    requires Ordered(rules, r, s)
    ensures Ordered(rules, r, s.(queue := s.queue + us, enqueued := s.enqueued + us))
  {
    assert s.dispatched + s.queue + us == s.dispatched + (s.queue + us);
  }

  lemma HappenSteady<R(!new), U(!new), E>(rules: Rules<R, U, E>, r: R, s: Sys<R, U, E>, h: Happening<U>)
    requires RulesOk(rules) && Steady(rules, r, s) && !s.crashed && Possible(s, h) && !Untimely(s, h)
    ensures Steady(rules, r, Happen(rules, s, h))
  {
    match h
    case Request(us) =>
      EnqueueOrdered(rules, r, s, us);
      DispatchSteady(rules, r, s.(queue := s.queue + us, enqueued := s.enqueued + us));
    case Answer(e) =>
      RespondSteady(rules, r, s, e);
    case StrayAnswer(_, _, _) =>
  }

  /** The serial queue, over every run in which no batch is dispatched while commands of a denied one are outstanding: at
      most one batch is in flight, batches go out in the order they were enqueued, each ends in one call of its success
      continuation or in calls of its failure continuation only, and the RIB is always the sequential application of
      exactly the batches that reported success, also when an empty list makes a batch complete from within the dispatch. */
  lemma {:induction false} RunSteady<R(!new), U(!new), E>(rules: Rules<R, U, E>, r: R, s: Sys<R, U, E>, hs: seq<Happening<U>>)
    requires RulesOk(rules) && Steady(rules, r, s) && TimelyRun(rules, s, hs)
    ensures PossibleRun(rules, s, hs) && Steady(rules, r, EndOf(rules, s, hs))
    decreases |hs|
  {
    if hs == [] {
    } else {
      HappenSteady(rules, r, s, hs[0]);
      RunSteady(rules, r, Happen(rules, s, hs[0]), hs[1..]);
    }
  }
}
