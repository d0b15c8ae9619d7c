/** Denials over whole runs of the queue: how often each batch's continuations are called, and what a batch dispatched while
    commands of a denied one are outstanding leads to. */
module Strays {
  import opened Routes
  import opened Updates
  import opened Protocol
  import opened Delivery
  import opened Failures
  import opened Queue

  // ----- runs in which no batch is dispatched too early -----

  /** How often the face of the `k`-th batch is denied in a run. */
  function DenialsOf<R, U, E>(rules: Rules<R, U, E>, s: Sys<R, U, E>, hs: seq<Happening<U>>, k: nat): nat
    requires PossibleRun(rules, s, hs)
    decreases |hs|
  {
    if hs == [] then 0
    else
      (if hs[0].Answer? && Current(s) == k && Denies(s.trace, hs[0].e) then 1 else 0) +
      DenialsOf(rules, Happen(rules, s, hs[0]), hs[1..], k)
  }

  lemma {:induction false} DispatchFails<R, U, E>(rules: Rules<R, U, E>, s: Sys<R, U, E>, k: nat)
    ensures CallsOf(Dispatch(rules, s).calls, k, false) == CallsOf(s.calls, k, false)
    decreases |s.queue|
  {
    if s.busy || s.crashed || s.queue == [] {
    } else {
      var s' := Start(rules, s);
      if !s'.crashed && s'.trace.successes != 0 {
        CallsOfSnoc(s'.calls, Call(Current(s'), true), k, false);
        DispatchFails(rules, Continue(rules, s', Current(s'), true), k);
      }
    }
  }

  lemma ContinueFails<R, U, E>(rules: Rules<R, U, E>, s: Sys<R, U, E>, owner: nat, ok: bool, k: nat)
    requires owner < |s.dispatched|
    ensures CallsOf(Dispatch(rules, Continue(rules, s, owner, ok)).calls, k, false) ==
            CallsOf(s.calls, k, false) + if owner == k && !ok then 1 else 0
  {
    CallsOfSnoc(s.calls, Call(owner, ok), k, false);
    DispatchFails(rules, Continue(rules, s, owner, ok), k);
  }

  lemma RespondFails<R, U, E>(rules: Rules<R, U, E>, s: Sys<R, U, E>, e: Event, k: nat)
    requires Possible(s, Answer(e))
    ensures CallsOf(Respond(rules, s, e).calls, k, false) ==
            CallsOf(s.calls, k, false) + if Current(s) == k && Denies(s.trace, e) then 1 else 0
  {
    if Denies(s.trace, e) {
      RespondDenied(rules, s, e);
      ContinueFails(rules, Heard(s, e), Current(s), false, k);
    } else {
      DenialFails(s.trace, e);
      NoFailure(rules, s, e);
      ContinueFails(rules, Heard(s, e), Current(s), true, k);
    }
  }

  lemma NoFailure<R, U, E>(rules: Rules<R, U, E>, s: Sys<R, U, E>, e: Event)
    requires Possible(s, Answer(e)) && Deliver(s.trace, e).failures <= s.trace.failures
    ensures Respond(rules, s, e).calls == s.calls ||
            Respond(rules, s, e) == Dispatch(rules, Continue(rules, Heard(s, e), Current(s), true))
  {
  }

  /** The failure continuation is called once for each denial. */
  lemma {:induction false} FailsPerDenial<R(!new), U(!new), E>(rules: Rules<R, U, E>, r: R, s: Sys<R, U, E>, hs: seq<Happening<U>>, k: nat)
    requires RulesOk(rules) && Steady(rules, r, s) && TimelyRun(rules, s, hs)
    ensures PossibleRun(rules, s, hs)
    ensures CallsOf(EndOf(rules, s, hs).calls, k, false) == CallsOf(s.calls, k, false) + DenialsOf(rules, s, hs, k)
    decreases |hs|
  {
    if hs == [] {
    } else {
      HappenSteady(rules, r, s, hs[0]);
      FailsPerDenial(rules, r, Happen(rules, s, hs[0]), hs[1..], k);
      match hs[0] {
        case Request(us) => DispatchFails(rules, s.(queue := s.queue + us, enqueued := s.enqueued + us), k);
        case Answer(e) => RespondFails(rules, s, e, k);
        case StrayAnswer(_, _, _) =>
      }
    }
  }

  /** Over every such run: each batch that has ended was committed exactly if its face was never denied, and its
      continuations were called exactly once in total exactly if its face was denied at most once. */
  lemma BatchesCompleteOnce<R(!new), U(!new), E>(rules: Rules<R, U, E>, s: Sys<R, U, E>, hs: seq<Happening<U>>, k: nat)
    requires RulesOk(rules) && Steady(rules, s.rib, s) && s.calls == [] && TimelyRun(rules, s, hs)
    ensures PossibleRun(rules, s, hs)
    ensures var s', n := EndOf(rules, s, hs), DenialsOf(rules, s, hs, k);
            !s'.crashed && k < |s'.outcomes| ==>
              && (s'.outcomes[k] <==> n == 0)
              && (CallsOf(s'.calls, k, true) + CallsOf(s'.calls, k, false) == 1 <==> n <= 1)
  {
    RunSteady(rules, s.rib, s, hs);
    FailsPerDenial(rules, s.rib, s, hs, k);
    var s' := EndOf(rules, s, hs);
    assert !s'.crashed ==> CallsRightOf(s'.outcomes, s'.calls, k);
  }

  // ----- a batch dispatched too early -----

  lemma {:induction false} DispatchGrows<R, U, E>(rules: Rules<R, U, E>, s: Sys<R, U, E>)
    ensures s.strays <= Dispatch(rules, s).strays
    ensures s.calls <= Dispatch(rules, s).calls && s.dispatched <= Dispatch(rules, s).dispatched
    ensures !s.busy && !s.crashed && s.queue != [] ==>
              s.strays + Tagged(s.trace.inflight, Current(s)) <= Dispatch(rules, s).strays
    decreases |s.queue|
  {
    if s.busy || s.crashed || s.queue == [] {
    } else {
      var s' := Start(rules, s);
      if !s'.crashed && s'.trace.successes != 0 {
        DispatchGrows(rules, Continue(rules, s', Current(s'), true));
      }
    }
  }

  /** The guard says exactly which steps leave commands of an earlier batch outstanding. */
  lemma UntimelyExact<R(!new), U(!new), E>(rules: Rules<R, U, E>, r: R, s: Sys<R, U, E>, h: Happening<U>)
    requires RulesOk(rules) && Steady(rules, r, s) && !s.crashed && Possible(s, h)
    ensures Untimely(s, h) <==> Happen(rules, s, h).strays != []
    ensures !Untimely(s, h) ==> Steady(rules, r, Happen(rules, s, h))
  {
    if !Untimely(s, h) {
      HappenSteady(rules, r, s, h);
    } else {
      match h
      case Request(us) =>
        DispatchGrows(rules, s.(queue := s.queue + us, enqueued := s.enqueued + us));
      case Answer(e) =>
        RespondDenied(rules, s, e);
        DispatchGrows(rules, Continue(rules, Heard(s, e), Current(s), false));
    }
  }

  /** The last dispatched batch is under way and undisturbed, or done with both lists empty. */
  ghost predicate Calm<R, U, E>(s: Sys<R, U, E>)
  {
    && Ok(s.trace) && s.dispatched != [] && (s.busy ==> s.trace.successes == 0)
    && (!s.busy ==> s.queue == [] && s.trace.successes == 1)
  }

  lemma {:induction false} DispatchCalm<R(!new), U(!new), E>(rules: Rules<R, U, E>, s: Sys<R, U, E>)
    requires RulesOk(rules) && !s.busy && (s.queue != [] || Calm(s))
    ensures Dispatch(rules, s).crashed || Calm(Dispatch(rules, s))
    ensures var s' := Dispatch(rules, s); |s'.queue| + (if s'.busy then 1 else 0) <= |s.queue|
    decreases |s.queue|
  {
    if s.crashed || s.queue == [] {
    } else {
      var s' := Start(rules, s);
      if !s'.crashed {
        StartTrace(rules, s);
        if s'.trace.successes != 0 {
          DoneIsQuiet(s'.trace);
          DispatchCalm(rules, Continue(rules, s', Current(s'), true));
        }
      }
    }
  }

  const TAKEN := Event(0, Accepted, true)

  /** Nothing recorded is taken back. */
  ghost predicate Grown<R, U, E>(s: Sys<R, U, E>, s': Sys<R, U, E>)
  {
    s.strays <= s'.strays && s.calls <= s'.calls && s.dispatched <= s'.dispatched
  }

  function Batches<R, U, E>(s: Sys<R, U, E>): nat
  {
    |s.queue| + if s.busy then 1 else 0
  }

  lemma SomethingOut(t: Trace)
    requires Ok(t) && t.successes == 0
    ensures t.inflight != []
  {
    if t.inflight == [] {
      NoneOutstanding(Active(t.lists));
    }
  }

  lemma AcceptedStep(t: Trace)
    requires Ok(t) && t.successes == 0 && t.inflight != []
    ensures var t' := Deliver(t, TAKEN);
            && Ok(t') && t'.successes <= 1 && t'.failures == t.failures == 0 && !t'.thrown
            && 0 <= Remaining(t') < Remaining(t)
  {
    DeliverOk(t, TAKEN);
    BatchCompletes(t, TAKEN);
  }

  ghost predicate Progress<R, U, E>(s: Sys<R, U, E>, s': Sys<R, U, E>)
  {
    && Grown(s, s') && (s'.crashed || Calm(s'))
    && (Batches(s') < Batches(s) || (s'.busy && Batches(s') == Batches(s) && 0 <= Remaining(s'.trace) < Remaining(s.trace)))
  }

  lemma DoneProgress<R(!new), U(!new), E>(rules: Rules<R, U, E>, s: Sys<R, U, E>, s': Sys<R, U, E>)
    requires RulesOk(rules) && s'.busy && s'.dispatched != [] && Ok(s'.trace) && s'.trace.successes == 1
    requires s'.strays == s.strays && s'.calls == s.calls && s'.dispatched == s.dispatched && Batches(s') == Batches(s)
    ensures Progress(s, Dispatch(rules, Continue(rules, s', Current(s), true)))
  {
    var done := Continue(rules, s', Current(s), true);
    DispatchCalm(rules, done);
    DispatchGrows(rules, done);
  }

  lemma HeardProgress<R, U, E>(s: Sys<R, U, E>, t: Trace, clean: bool)
    requires Calm(s) && s.busy && Ok(t) && t.successes == 0 && 0 <= Remaining(t) < Remaining(s.trace)
    ensures Progress(s, s.(trace := t, clean := clean))
  {
  }

  /** The first outstanding command of the batch under way is accepted. */
  lemma AcceptCalm<R(!new), U(!new), E>(rules: Rules<R, U, E>, s: Sys<R, U, E>)
    requires RulesOk(rules) && Calm(s) && s.busy && s.trace.inflight != []
    ensures Progress(s, Respond(rules, s, TAKEN))
  {
    AcceptedStep(s.trace);
    RespondIs(rules, s, TAKEN);
    if Heard(s, TAKEN).trace.successes == 1 {
      DoneProgress(rules, s, Heard(s, TAKEN));
    } else {
      HeardProgress(s, Heard(s, TAKEN).trace, Heard(s, TAKEN).clean);
    }
  }

  /** Whatever is queued can be brought to its end. */
  lemma {:induction false} Settle<R(!new), U(!new), E>(rules: Rules<R, U, E>, s: Sys<R, U, E>) returns (hs: seq<Happening<U>>)
    requires RulesOk(rules) && (s.crashed || Calm(s))
    ensures PossibleRun(rules, s, hs)
    ensures var s' := EndOf(rules, s, hs); Grown(s, s') && (s'.crashed || (Calm(s') && !s'.busy))
    decreases Batches(s), if s.busy then Remaining(s.trace) else 0
  {
    if s.crashed || !s.busy {
      hs := [];
    } else {
      SomethingOut(s.trace);
      AcceptCalm(rules, s);
      var rest := Settle(rules, Respond(rules, s, TAKEN));
      hs := [Answer(TAKEN)] + rest;
      assert hs[1..] == rest;
    }
  }

  /** What the response to a stray command calls, when no update of the current batch equals its own: its batch's failure
      if its face is the current batch's and is denied; otherwise its batch's success, exactly if nothing waits in the list
      of the other faces and, if its face is the current batch's, nothing in that list either.  So a denied batch can be
      reported as a success by a denial, and while the current batch's own commands are still out. */
  lemma StrayCalls<R, U, E>(rules: Rules<R, U, E>, s: Sys<R, U, E>, i: nat, response: Response, done: bool)
    requires i < |s.strays| && s.strays[i].owner < |s.dispatched| && !Pending(s.trace.lists, s.strays[i].command.u)
    requires response == Accepted || response == FaceNotFound
    ensures var l, g, owner := s.trace.lists, s.strays[i].command.u.face, s.strays[i].owner;
            var calls := RespondStray(rules, s, i, response, done).calls;
            var denied := g == l.face && response == FaceNotFound;
            && (s.calls + [Call(owner, false)] <= calls <==> denied)
            && (s.calls + [Call(owner, true)] <= calls <==> !denied && l.other == [] && (g == l.face ==> l.batch == []))
  {
    var l, c, owner := s.trace.lists, s.strays[i].command, s.strays[i].owner;
    var x := OnResponse(l, c, response);
    NotDropped(l.batch, c.u);
    NotDropped(l.other, c.u);
    var s' := s.(trace := s.trace.(lists := x.lists, fib := FibAfter(s.trace.fib, c, Event(0, response, done)),
                                   dead := if response == FaceNotFound then s.trace.dead + {c.u.face} else s.trace.dead),
                 strays := s.strays[..i] + s.strays[i + 1..] + Tagged(x.send, owner),
                 clean := false);
    DispatchGrows(rules, Continue(rules, s', owner, true));
    DispatchGrows(rules, Continue(rules, s', owner, false));
    assert !(s.calls + [Call(owner, true)] <= s.calls) && !(s.calls + [Call(owner, false)] <= s.calls);
    assert (s.calls + [Call(owner, true)])[|s.calls|] != (s.calls + [Call(owner, false)])[|s.calls|];
  }

  lemma NotDropped(us: seq<FibUpdate>, u: FibUpdate)
    requires u !in us
    ensures Dropped(us, u) == [] <==> us == []
  {
    assert us != [] ==> us[0] in Dropped(us, u);
  }

  lemma {:induction false} CallsOfPrefix(a: seq<Call>, b: seq<Call>, owner: nat, ok: bool)
    requires a <= b
    ensures CallsOf(a, owner, ok) <= CallsOf(b, owner, ok)
    decreases |b|
  {
    if a == b {
    } else {
      CallsOfPrefix(a, b[..|b| - 1], owner, ok);
    }
  }

  /** What a batch dispatched too early can lead to: the denied batch, whose failure has been reported, is reported again
      as a success and committed, with the records of another batch, once the rest of what is out is accepted; unless
      computing or committing an update crashes the daemon first. */
  lemma StaleDispatchBreaks<R(!new), U(!new), E>(rules: Rules<R, U, E>, r: R, s: Sys<R, U, E>, h: Happening<U>)
    returns (hs: seq<Happening<U>>)
    requires RulesOk(rules) && Steady(rules, r, s) && !s.crashed && Possible(s, h) && Untimely(s, h)
    ensures PossibleRun(rules, s, [h] + hs)
    ensures var s' := EndOf(rules, s, [h] + hs);
            s'.crashed || (CallsOf(s'.calls, Current(s), false) >= 1 && CallsOf(s'.calls, Current(s), true) >= 1)
  {
    var s1 := Happen(rules, s, h);
    UntimelyStep(rules, r, s, h);
    var settle := Settle(rules, s1);
    hs := if EndOf(rules, s1, settle).crashed then settle else settle + [StrayAnswer(0, Accepted, true)];
    assert ([h] + hs)[1..] == hs;
    if !EndOf(rules, s1, settle).crashed {
      StrayEnd(rules, s1, settle, Current(s));
    }
  }

  /** The batch dispatched from `s` leaves commands of the denied one outstanding. */
  lemma DispatchLeaves<R(!new), U(!new), E>(rules: Rules<R, U, E>, s: Sys<R, U, E>)
    requires RulesOk(rules) && !s.busy && !s.crashed && s.queue != [] && s.dispatched != []
    requires s.strays == [] && s.trace.inflight != [] && CallsOf(s.calls, Current(s), false) >= 1
    ensures var s' := Dispatch(rules, s);
            && (s'.crashed || Calm(s')) && Current(s) < |s'.dispatched| && CallsOf(s'.calls, Current(s), false) >= 1
            && s'.strays != [] && s'.strays[0].owner == Current(s)
  {
    DispatchGrows(rules, s);
    DispatchCalm(rules, s);
    CallsOfPrefix(s.calls, Dispatch(rules, s).calls, Current(s), false);
  }

  /** The rest of a batch is outstanding after its end only if it was denied. */
  lemma RestWasDenied<R, U, E>(rules: Rules<R, U, E>, r: R, s: Sys<R, U, E>)
    requires Serial(rules, r, s) && !s.busy && s.trace.inflight != []
    ensures s.dispatched != [] && CallsOf(s.calls, Current(s), false) >= 1
  {
    assert CallsRightOf(s.outcomes, s.calls, Current(s));
  }

  lemma UntimelyRequest<R(!new), U(!new), E>(rules: Rules<R, U, E>, r: R, s: Sys<R, U, E>, us: seq<U>)
    requires RulesOk(rules) && Steady(rules, r, s) && !s.crashed && Untimely(s, Request(us))
    ensures var s' := Happen(rules, s, Request(us));
            && (s'.crashed || Calm(s')) && Current(s) < |s'.dispatched| && CallsOf(s'.calls, Current(s), false) >= 1
            && s'.strays != [] && s'.strays[0].owner == Current(s)
  {
    RestWasDenied(rules, r, s);
    DispatchLeaves(rules, s.(queue := s.queue + us, enqueued := s.enqueued + us));
  }

  lemma UntimelyAnswer<R(!new), U(!new), E>(rules: Rules<R, U, E>, r: R, s: Sys<R, U, E>, e: Event)
    requires RulesOk(rules) && Steady(rules, r, s) && !s.crashed && Possible(s, Answer(e)) && Untimely(s, Answer(e))
    ensures var s' := Happen(rules, s, Answer(e));
            && (s'.crashed || Calm(s')) && Current(s) < |s'.dispatched| && CallsOf(s'.calls, Current(s), false) >= 1
            && s'.strays != [] && s'.strays[0].owner == Current(s)
  {
    RespondDenied(rules, s, e);
    CallsOfSnoc(s.calls, Call(Current(s), false), Current(s), false);
    DispatchLeaves(rules, Continue(rules, Heard(s, e), Current(s), false));
  }

  lemma UntimelyStep<R(!new), U(!new), E>(rules: Rules<R, U, E>, r: R, s: Sys<R, U, E>, h: Happening<U>)
    requires RulesOk(rules) && Steady(rules, r, s) && !s.crashed && Possible(s, h) && Untimely(s, h)
    ensures var s' := Happen(rules, s, h);
            && (s'.crashed || Calm(s')) && Current(s) < |s'.dispatched| && CallsOf(s'.calls, Current(s), false) >= 1
            && s'.strays != [] && s'.strays[0].owner == Current(s)
  {
    match h
    case Request(us) => UntimelyRequest(rules, r, s, us);
    case Answer(e) => UntimelyAnswer(rules, r, s, e);
  }

  lemma {:induction false} RunConcat<R, U, E>(rules: Rules<R, U, E>, s: Sys<R, U, E>, a: seq<Happening<U>>, h: Happening<U>)
    requires PossibleRun(rules, s, a) && !EndOf(rules, s, a).crashed && Possible(EndOf(rules, s, a), h)
    ensures PossibleRun(rules, s, a + [h]) && EndOf(rules, s, a + [h]) == Happen(rules, EndOf(rules, s, a), h)
    decreases |a|
  {
    if a == [] {
      assert a + [h] == [h] && [h][1..] == [];
    } else {
      RunConcat(rules, Happen(rules, s, a[0]), a[1..], h);
      assert (a + [h])[1..] == a[1..] + [h];
    }
  }

  lemma StrayEnd<R(!new), U(!new), E>(rules: Rules<R, U, E>, s: Sys<R, U, E>, settle: seq<Happening<U>>, k: nat)
    requires PossibleRun(rules, s, settle) && Grown(s, EndOf(rules, s, settle))
    requires Calm(EndOf(rules, s, settle)) && !EndOf(rules, s, settle).busy && !EndOf(rules, s, settle).crashed
    requires k < |s.dispatched| && CallsOf(s.calls, k, false) >= 1 && s.strays != [] && s.strays[0].owner == k
    ensures PossibleRun(rules, s, settle + [StrayAnswer(0, Accepted, true)])
    ensures var s' := EndOf(rules, s, settle + [StrayAnswer(0, Accepted, true)]);
            CallsOf(s'.calls, k, false) >= 1 && CallsOf(s'.calls, k, true) >= 1
  {
    var s1 := EndOf(rules, s, settle);
    assert s1.strays[0] == s.strays[0];
    RunConcat(rules, s, settle, StrayAnswer(0, Accepted, true));
    DoneIsQuiet(s1.trace);
    StrayCalls(rules, s1, 0, Accepted, true);
    var calls := RespondStray(rules, s1, 0, Accepted, true).calls;
    CallsOfPrefix(s.calls, calls, k, false);
    CallsOfSnoc(s1.calls, Call(k, true), k, true);
    CallsOfPrefix(s1.calls + [Call(k, true)], calls, k, true);
  }

  // ----- two denials -----

  /** A batch with commands for its own face goes out. */
  lemma DispatchSends<R, U, E>(rules: Rules<R, U, E>, s: Sys<R, U, E>, p: Plan<E>)
    requires !s.busy && !s.crashed && s.queue != [] && rules.plan(s.rib, s.queue[0]) == Some(p) && p.lists.batch != []
    ensures var u := s.queue[0];
            Dispatch(rules, s) ==
            s.(queue := s.queue[1..], dispatched := s.dispatched + [u], busy := true,
               strays := s.strays + Tagged(s.trace.inflight, Current(s)),
               clean := s.clean && rules.safe(s.rib, u, s.trace.dead),
               trace := Begin(p.lists, s.trace.fib, rules.gone(s.trace.dead, u)), records := p.records)
  {
  }

  /** Requested together while nothing is under way: the first goes out with both its commands, the second waits. */
  lemma FirstGoesOut<R, U, E>(rules: Rules<R, U, E>, s: Sys<R, U, E>, u: U, v: U, p: Plan<E>, a: FibUpdate, b: FibUpdate)
    requires !s.busy && !s.crashed && s.queue == [] && s.strays == [] && s.trace.inflight == []
    requires rules.plan(s.rib, u) == Some(p) && p.lists.batch == [a, b]
    ensures var s' := Happen(rules, s, Request([u, v]));
            && s'.rib == s.rib && s'.queue == [v] && s'.dispatched == s.dispatched + [u] && s'.busy && !s'.crashed
            && s'.strays == [] && s'.calls == s.calls && s'.trace.lists == p.lists
            && s'.trace.inflight == Commands([a, b]) && s'.trace.successes == s'.trace.failures == 0
  {
    var s0 := s.(queue := [] + [u, v], enqueued := s.enqueued + [u, v]);
    assert s0.queue[0] == u && s0.queue[1..] == [v];
    DispatchSends(rules, s0, p);
    assert Tagged([], Current(s)) == [];
    BeginInflight(p.lists, s.trace.fib, rules.gone(s.trace.dead, u));
  }

  lemma DeniedFirst(t: Trace, a: FibUpdate, b: FibUpdate)
    requires t.inflight == Commands([a, b])
    ensures a.face == t.lists.face ==> Deliver(t, Event(0, FaceNotFound, false)).inflight == [Command(b, b.action, 0)]
  {
    assert Without(Commands([a, b]), 0) + [] == [Command(b, b.action, 0)];
  }

  /** The next one goes out while a command of the last one is outstanding. */
  lemma NextGoesOut<R, U, E>(rules: Rules<R, U, E>, s: Sys<R, U, E>, v: U, p: Plan<E>, c: Command)
    requires !s.busy && !s.crashed && s.queue == [v] && s.strays == [] && s.trace.inflight == [c]
    requires rules.plan(s.rib, v) == Some(p) && p.lists.batch != []
    ensures var s' := Dispatch(rules, s);
            && s'.rib == s.rib && s'.queue == [] && s'.dispatched == s.dispatched + [v] && s'.busy && !s'.crashed
            && s'.strays == [Stray(c, Current(s))] && s'.calls == s.calls
            && s'.trace.lists == p.lists && s'.trace.inflight == Commands(p.lists.batch) && s'.records == p.records
  {
    DispatchSends(rules, s, p);
    BeginInflight(p.lists, s.trace.fib, rules.gone(s.trace.dead, v));
    assert [] + Tagged([c], Current(s)) == [Stray(c, Current(s))];
  }

  /** The first command is denied: the batch fails, and the next one goes out while the second command is outstanding. */
  lemma SecondGoesOut<R, U, E>(rules: Rules<R, U, E>, s: Sys<R, U, E>, v: U, p: Plan<E>, a: FibUpdate, b: FibUpdate)
    requires s.busy && !s.crashed && s.queue == [v] && s.dispatched != [] && s.strays == []
    requires s.trace.inflight == Commands([a, b]) && a.face == s.trace.lists.face
    requires rules.plan(s.rib, v) == Some(p) && p.lists.batch != []
    ensures var s' := Happen(rules, s, Answer(Event(0, FaceNotFound, false)));
            && s'.rib == s.rib && s'.queue == [] && s'.dispatched == s.dispatched + [v] && s'.busy && !s'.crashed
            && s'.strays == [Stray(Command(b, b.action, 0), Current(s))] && s'.calls == s.calls + [Call(Current(s), false)]
            && s'.trace.lists == p.lists && s'.trace.inflight == Commands(p.lists.batch) && s'.records == p.records
  {
    var e := Event(0, FaceNotFound, false);
    RespondDenied(rules, s, e);
    DeniedFirst(s.trace, a, b);
    NextGoesOut(rules, Continue(rules, Heard(s, e), Current(s), false), v, p, Command(b, b.action, 0));
  }

  /** The second command is denied too: with nothing for other faces in the current lists, that reports the batch as a
      success, and commits it with the current records, while the current batch's command is outstanding. */
  lemma DeniedIsCommitted<R, U, E>(rules: Rules<R, U, E>, s: Sys<R, U, E>, r: R)
    requires !s.crashed && s.queue == [] && |s.strays| == 1 && s.strays[0].owner < |s.dispatched|
    requires s.trace.lists.other == [] && s.strays[0].command.u.face != s.trace.lists.face
    requires rules.commit(s.rib, s.dispatched[s.strays[0].owner], s.records) == Some(r)
    ensures var s' := Happen(rules, s, StrayAnswer(0, FaceNotFound, false));
            && s'.rib == r && !s'.busy && !s'.crashed && s'.calls == s.calls + [Call(s.strays[0].owner, true)]
            && s'.trace.inflight == s.trace.inflight
  {
  }

  lemma ThreeSteps<R, U, E>(rules: Rules<R, U, E>, s: Sys<R, U, E>, h0: Happening<U>, h1: Happening<U>, h2: Happening<U>)
    requires !s.crashed && Possible(s, h0)
    requires !Happen(rules, s, h0).crashed && Possible(Happen(rules, s, h0), h1)
    requires !Happen(rules, Happen(rules, s, h0), h1).crashed && Possible(Happen(rules, Happen(rules, s, h0), h1), h2)
    ensures PossibleRun(rules, s, [h0, h1, h2])
    ensures EndOf(rules, s, [h0, h1, h2]) == Happen(rules, Happen(rules, Happen(rules, s, h0), h1), h2)
  {
    RunConcat(rules, s, [], h0);
    assert [] + [h0] == [h0];
    RunConcat(rules, s, [h0], h1);
    assert [h0] + [h1] == [h0, h1];
    RunConcat(rules, s, [h0, h1], h2);
    assert [h0, h1] + [h2] == [h0, h1, h2];
  }

  /** All three: one failure and one success reported for the same batch. */
  lemma FailsAndSucceeds<R, U, E>(rules: Rules<R, U, E>, s: Sys<R, U, E>, u: U, v: U, p: Plan<E>, q: Plan<E>, a: FibUpdate, b: FibUpdate, r: R)
    requires !s.busy && !s.crashed && s.queue == [] && s.strays == [] && s.trace.inflight == [] && s.dispatched == [] && s.calls == []
    requires rules.plan(s.rib, u) == Some(p) && p.lists.batch == [a, b] && a.face == b.face == p.lists.face
    requires rules.plan(s.rib, v) == Some(q) && q.lists.batch != [] && q.lists.other == [] && q.lists.face != p.lists.face
    requires rules.commit(s.rib, u, q.records) == Some(r)
    ensures var hs := [Request([u, v]), Answer(Event(0, FaceNotFound, false)), StrayAnswer(0, FaceNotFound, false)];
            && PossibleRun(rules, s, hs)
            && var s' := EndOf(rules, s, hs);
               && s'.rib == r && !s'.crashed && s'.calls == [Call(0, false), Call(0, true)]
               && !s'.busy && s'.trace.inflight == Commands(q.lists.batch)
  {
    var h0, h1, h2 := Request([u, v]), Answer(Event(0, FaceNotFound, false)), StrayAnswer(0, FaceNotFound, false);
    FirstGoesOut(rules, s, u, v, p, a, b);
    var s1 := Happen(rules, s, h0);
    SecondGoesOut(rules, s1, v, q, a, b);
    var s2 := Happen(rules, s1, h1);
    DeniedIsCommitted(rules, s2, r);
    ThreeSteps(rules, s, h0, h1, h2);
  }
}
