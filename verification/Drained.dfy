/** Updates that cannot be denied, enqueued while nothing is under way. */
module Drained {
  import opened Protocol
  import opened Delivery
  import opened Failures
  import opened Queue

  /** No command is ever sent for the update's own face, whatever the RIB. */
  ghost predicate NeverDenied<R(!new), U, E>(rules: Rules<R, U, E>, u: U)
  {
    forall r :: rules.plan(r, u).Some? ==> rules.plan(r, u).value.lists.batch == []
  }

  /** Only such updates wait or are under way, and all outcomes from the `k`-th on are successes. */
  ghost predicate Draining<R(!new), U, E>(rules: Rules<R, U, E>, s: Sys<R, U, E>, k: nat)
  {
    && k <= |s.outcomes| && (forall i :: k <= i < |s.outcomes| ==> s.outcomes[i])
    && (forall i :: 0 <= i < |s.queue| ==> NeverDenied(rules, s.queue[i]))
    && (!s.crashed ==> if s.busy then s.trace.lists.batch == [] else s.trace.inflight == [])
  }

  ghost predicate SamePast<R, U, E>(s: Sys<R, U, E>, s': Sys<R, U, E>, k: nat)
    requires k <= |s.outcomes|
  {
    k <= |s'.outcomes| && s'.outcomes[..k] == s.outcomes[..k] && s'.enqueued == s.enqueued
  }

  lemma ContinueDraining<R(!new), U, E>(rules: Rules<R, U, E>, s: Sys<R, U, E>, k: nat)
    requires Draining(rules, s, k) && s.dispatched != [] && s.trace.inflight == []
    ensures var s' := Continue(rules, s, Current(s), true); Draining(rules, s', k) && SamePast(s, s', k)
  {
  }

  lemma {:induction false} DispatchDraining<R(!new), U(!new), E>(rules: Rules<R, U, E>, s: Sys<R, U, E>, k: nat)
    requires RulesOk(rules) && Draining(rules, s, k)
    ensures Draining(rules, Dispatch(rules, s), k) && SamePast(s, Dispatch(rules, s), k)
    decreases |s.queue|
  {
    if s.busy || s.crashed || s.queue == [] {
    } else {
      var s' := Start(rules, s);
      assert NeverDenied(rules, s.queue[0]);
      assert Draining(rules, s', k);
      if !s'.crashed && s'.trace.successes != 0 {
        StartTrace(rules, s);
        DoneIsQuiet(s'.trace);
        ContinueDraining(rules, s', k);
        DispatchDraining(rules, Continue(rules, s', Current(s'), true), k);
      }
    }
  }

  lemma BenignDraining<R(!new), U(!new), E>(rules: Rules<R, U, E>, s: Sys<R, U, E>, t: Trace, clean: bool, k: nat)
    requires RulesOk(rules) && Draining(rules, s, k) && !s.crashed && s.busy && s.dispatched != []
    requires Ok(t) && t.successes <= 1 && t.lists.batch == []
    ensures var heard := s.(trace := t, clean := clean);
            var s' := if t.successes == 1 then Dispatch(rules, Continue(rules, heard, Current(s), true)) else heard;
            Draining(rules, s', k) && SamePast(s, s', k)
  {
    var heard := s.(trace := t, clean := clean);
    if t.successes == 1 {
      DoneIsQuiet(t);
      ContinueDraining(rules, heard, k);
      DispatchDraining(rules, Continue(rules, heard, Current(s), true), k);
    }
  }

  lemma StaysOther(t: Trace, e: Event)
    requires Ok(t) && t.lists.batch == [] && t.successes == 0 && e.i < |t.inflight|
    ensures !Denies(t, e) && Deliver(t, e).lists.batch == []
    ensures Quiet(t, e) ==> var t' := Deliver(t, e); Ok(t') && t'.successes <= 1 && t'.failures <= t.failures && !t'.thrown
  {
    ActiveCommand(t, e.i);
    if Quiet(t, e) {
      DeliverOk(t, e);
    }
  }

  lemma RespondDraining<R(!new), U(!new), E>(rules: Rules<R, U, E>, s: Sys<R, U, E>, k: nat, e: Event)
    requires RulesOk(rules) && Draining(rules, s, k) && !s.crashed && s.busy && s.dispatched != []
    requires Ok(s.trace) && s.trace.successes == 0 && e.i < |s.trace.inflight|
    ensures !Denies(s.trace, e)
    ensures Draining(rules, Respond(rules, s, e), k) && SamePast(s, Respond(rules, s, e), k)
  {
    StaysOther(s.trace, e);
    if Quiet(s.trace, e) {
      RespondIs(rules, s, e);
      BenignDraining(rules, s, Heard(s, e).trace, Heard(s, e).clean, k);
    } else {
      RespondThrown(rules, s, e);
    }
  }

  ghost predicate AllAnswers<U>(hs: seq<Happening<U>>)
  {
    forall i :: 0 <= i < |hs| ==> hs[i].Answer?
  }

  lemma {:induction false} AnswersDraining<R(!new), U(!new), E>(rules: Rules<R, U, E>, r: R, s: Sys<R, U, E>, k: nat, hs: seq<Happening<U>>)
    requires RulesOk(rules) && Steady(rules, r, s) && Draining(rules, s, k) && AllAnswers(hs) && PossibleRun(rules, s, hs)
    ensures TimelyRun(rules, s, hs)
    ensures Draining(rules, EndOf(rules, s, hs), k) && SamePast(s, EndOf(rules, s, hs), k)
    decreases |hs|
  {
    if hs == [] {
    } else {
      RespondDraining(rules, s, k, hs[0].e);
      HappenSteady(rules, r, s, hs[0]);
      AnswersDraining(rules, r, Happen(rules, s, hs[0]), k, hs[1..]);
    }
  }

  lemma {:induction false} ChosenTail<U>(us: seq<U>, outcomes: seq<bool>, k: nat)
    requires k <= |outcomes| == |us| && forall i :: k <= i < |outcomes| ==> outcomes[i]
    ensures Chosen(us, outcomes) == Chosen(us, outcomes[..k]) + us[k..]
  {
    var n := |outcomes|;
    if k == n {
      assert outcomes[..k] == outcomes;
    } else {
      assert outcomes[..n - 1][..k] == outcomes[..k];
      ChosenTail(us[..n - 1], outcomes[..n - 1], k);
      assert us == us[..n - 1] + [us[n - 1]];
      ChosenPrefix(us[..n - 1], [us[n - 1]], outcomes[..n - 1]);
      ChosenPrefix(us[..n - 1], [us[n - 1]], outcomes[..k]);
      assert us[..n - 1][k..] + [us[n - 1]] == us[k..];
    }
  }

  lemma {:induction false} ReplayConcat<R, U, E>(rules: Rules<R, U, E>, r: R, a: seq<U>, b: seq<U>)
    ensures Replay(rules, r, a + b) == Replay(rules, Replay(rules, r, a), b)
  {
    if b == [] {
      assert a + b == a;
    } else {
      assert (a + b)[..|a + b| - 1] == a + b[..|b| - 1];
      ReplayConcat(rules, r, a, b[..|b| - 1]);
    }
  }

  /** From an idle queue, once updates that cannot be denied have drained, the RIB is what applying all of them in order
      makes of it. */
  lemma DrainedInOrder<R(!new), U(!new), E>(rules: Rules<R, U, E>, r: R, s: Sys<R, U, E>, us: seq<U>, hs: seq<Happening<U>>)
    requires RulesOk(rules) && Steady(rules, r, s) && !s.crashed && !s.busy && s.trace.inflight == []
    requires forall i :: 0 <= i < |us| ==> NeverDenied(rules, us[i])
    requires AllAnswers(hs) && PossibleRun(rules, Enqueue(rules, s, us), hs)
    requires !EndOf(rules, Enqueue(rules, s, us), hs).busy && !EndOf(rules, Enqueue(rules, s, us), hs).crashed
    ensures EndOf(rules, Enqueue(rules, s, us), hs).rib == Replay(rules, s.rib, us)
  {
    var s0 := s.(queue := s.queue + us, enqueued := s.enqueued + us);
    var k := |s.outcomes|;
    EnqueueOrdered(rules, r, s, us);
    assert s0.queue == us && s.dispatched == s.enqueued;
    DispatchDraining(rules, s0, k);
    DispatchSteady(rules, r, s0);
    var s1 := Enqueue(rules, s, us);
    AnswersDraining(rules, r, s1, k, hs);
    RunSteady(rules, r, s1, hs);
    EndInOrder(rules, r, s, us, EndOf(rules, s1, hs));
  }

  lemma EndInOrder<R(!new), U(!new), E>(rules: Rules<R, U, E>, r: R, s: Sys<R, U, E>, us: seq<U>, s2: Sys<R, U, E>)
    requires Ordered(rules, r, s) && !s.busy && s.queue == [] && Ordered(rules, r, s2) && !s2.busy && s2.queue == []
    requires s2.enqueued == s.enqueued + us && |s.outcomes| <= |s2.outcomes| && s2.outcomes[..|s.outcomes|] == s.outcomes
    requires forall i :: |s.outcomes| <= i < |s2.outcomes| ==> s2.outcomes[i]
    ensures s2.rib == Replay(rules, s.rib, us)
  {
    var k := |s.outcomes|;
    assert s2.dispatched + [] == s2.dispatched && s.dispatched + [] == s.dispatched;
    assert s2.dispatched == s.dispatched + us;
    ChosenTail(s2.dispatched, s2.outcomes, k);
    ChosenPrefix(s.dispatched, us, s.outcomes);
    assert (s.dispatched + us)[k..] == us;
    ReplayConcat(rules, r, Chosen(s.dispatched, s.outcomes), us);
  }
}
