/** How often an update is sent and when the updater gives up, in numbers. */
module Retries {
  import opened Routes
  import opened Updates
  import opened Protocol
  import opened Delivery

  /** How often commands for the update time out in a run. */
  function TimeoutsOf(t: Trace, es: seq<Event>, u: FibUpdate): nat
    requires BenignRun(t, es)
    decreases |es|
  {
    if es == [] then 0
    else
      (if es[0].response == TimedOut && t.inflight[es[0].i].u == u then 1 else 0) + TimeoutsOf(Deliver(t, es[0]), es[1..], u)
  }

  lemma RetriedCounts(t: Trace, e: Event, u: FibUpdate)
    requires e.i < |t.inflight| && Delivery.Retries(t, e)
    ensures SendsOf(Deliver(t, e).sent, u) == SendsOf(t.sent, u) + if t.inflight[e.i].u == u then 1 else 0
  {
    var c := t.inflight[e.i];
    var again := Command(c.u, AddNextHop, c.nTimeouts + 1);
    assert Deliver(t, e).sent == t.sent + [again];
    assert (t.sent + [again])[..|t.sent|] == t.sent;
  }

  /** A timeout of the update's command makes it be sent once more; nothing else does, once it has been sent. */
  lemma SendsStep(t: Trace, e: Event, u: FibUpdate)
    requires Ok(t) && SendsOk(t) && e.i < |t.inflight| && Benign(t, e)
    ensures var s, s' := SendsOf(t.sent, u), SendsOf(Deliver(t, e).sent, u);
            if e.response == TimedOut && t.inflight[e.i].u == u then s >= 1 && s' == s + 1
            else s' == s || (s == 0 && s' == 1)
  {
    if e.response == TimedOut {
      RetriedCounts(t, e, u);
    } else {
      ActiveCommand(t, e.i);
      SettleShape(t, e);
      SettledCounts(t, Deliver(t, e), e.i, u);
      SettledPending(t.lists, t.inflight[e.i].u, u);
    }
  }

  lemma {:induction false} SendsInRun(t: Trace, es: seq<Event>, u: FibUpdate)
    requires Ok(t) && SendsOk(t) && BenignRun(t, es)
    ensures var s, s' := SendsOf(t.sent, u), SendsOf(RunOf(t, es).sent, u);
            s' == TimeoutsOf(t, es, u) + if s > 0 then s else if s' > 0 then 1 else 0
    decreases |es|
  {
    if es == [] {
    } else {
      DeliverOk(t, es[0]);
      SendsStep(t, es[0], u);
      if es[0].response == TimedOut {
        RetrySends(t, es[0]);
      } else {
        SettleSends(t, es[0]);
      }
      SendsInRun(Deliver(t, es[0]), es[1..], u);
    }
  }

  lemma {:induction false} RunKeepsSends(t: Trace, es: seq<Event>)
    requires Ok(t) && SendsOk(t) && BenignRun(t, es)
    ensures Ok(RunOf(t, es)) && SendsOk(RunOf(t, es))
  {
    RunOk(t, es);
    RunSends(t, es);
  }

  /** In every run, an update that has been sent has been sent once and once more for each timeout; and the next timeout
      makes the updater throw exactly if it is the eleventh. */
  lemma EleventhTimeoutThrows(l: Lists, fib: Fib, dead: set<nat>, es: seq<Event>, e: Event)
    requires ListsOk(l) && BenignRun(Begin(l, fib, dead), es)
    requires e.i < |RunOf(Begin(l, fib, dead), es).inflight| && e.response == TimedOut
    ensures var t0, t := Begin(l, fib, dead), RunOf(Begin(l, fib, dead), es);
            var u := t.inflight[e.i].u;
            && SendsOf(t.sent, u) == 1 + TimeoutsOf(t0, es, u)
            && TimeoutsOf(t0, es, u) <= 10
            && (Deliver(t, e).thrown <==> TimeoutsOf(t0, es, u) == 10)
            && (!Deliver(t, e).thrown ==> SendsOf(Deliver(t, e).sent, u) == 2 + TimeoutsOf(t0, es, u))
  {
    var t0, t := Begin(l, fib, dead), RunOf(Begin(l, fib, dead), es);
    SentOncePerTimeout(l, fib, dead, es, t.inflight[e.i].u);
    BeginOk(l, fib, dead);
    BeginSends(l, fib, dead);
    RunKeepsSends(t0, es);
    TimeoutReaction(t, e);
  }

  lemma SentOncePerTimeout(l: Lists, fib: Fib, dead: set<nat>, es: seq<Event>, u: FibUpdate)
    requires ListsOk(l) && BenignRun(Begin(l, fib, dead), es)
    ensures var t0, t := Begin(l, fib, dead), RunOf(Begin(l, fib, dead), es);
            SendsOf(t.sent, u) > 0 ==> SendsOf(t.sent, u) == 1 + TimeoutsOf(t0, es, u)
  {
    var t0 := Begin(l, fib, dead);
    BeginOk(l, fib, dead);
    BeginSends(l, fib, dead);
    assert SendsOf(t0.sent, u) <= 1 by {
      BeginInflight(l, fib, dead);
      SendsOfCommands(Active(l), u);
    }
    SendsInRun(t0, es, u);
  }

  lemma TimeoutReaction(t: Trace, e: Event)
    requires Ok(t) && SendsOk(t) && e.i < |t.inflight| && e.response == TimedOut
    ensures var u, n := t.inflight[e.i].u, t.inflight[e.i].nTimeouts;
            && SendsOf(t.sent, u) == n + 1 && n <= 10 && (Deliver(t, e).thrown <==> n == 10)
            && (n < 10 ==> SendsOf(Deliver(t, e).sent, u) == n + 2)
  {
    if t.inflight[e.i].nTimeouts < 10 {
      RetriedCounts(t, e, t.inflight[e.i].u);
    }
  }

  // ----- timeouts in a row -----

  /** The command at position `i` is for `u`, asks for `verb` and has timed out `n` times; the lists are `l`. */
  ghost predicate Standing(t: Trace, l: Lists, i: int, u: FibUpdate, verb: Action, n: nat)
  {
    t.lists == l && !t.thrown && 0 <= i < |t.inflight| && t.inflight[i] == Command(u, verb, n)
  }

  lemma RetryStands(t: Trace, l: Lists, i: nat, u: FibUpdate, verb: Action, n: nat, done: bool)
    requires Standing(t, l, i, u, verb, n) && n < 10
    ensures var t' := Deliver(t, Event(i, TimedOut, done));
            && |t'.inflight| == |t.inflight|
            && Standing(t', l, |t.inflight| - 1, u, AddNextHop, n + 1) && SendsOf(t'.sent, u) == SendsOf(t.sent, u) + 1
  {
    var e := Event(i, TimedOut, done);
    RetriedCounts(t, e, u);
    RetryShape(t, e);
    WithoutIndex(t.inflight, i);
  }

  lemma NoneOfOther(l: Lists, sent: seq<Command>, u: FibUpdate)
    requires ListsOk(l) && u.face == l.face
    ensures SendsOf(sent + Commands(l.other), u) == SendsOf(sent, u)
  {
    SendsConcat(sent, Commands(l.other), u);
    SendsOfCommands(l.other, u);
  }

  lemma AcceptSettles(t: Trace, l: Lists, i: nat, u: FibUpdate, verb: Action, n: nat, done: bool)
    requires Standing(t, l, i, u, verb, n) && ListsOk(l)
    ensures var t' := Deliver(t, Event(i, Accepted, done));
            && !Pending(t'.lists, u) && !t'.thrown && SendsOf(t'.sent, u) == SendsOf(t.sent, u)
            && (verb == AddNextHop ==> Get(t'.fib, u.name, u.face) == Some(u.cost))
  {
    ApplyUpdateGet(t.fib, u.(action := verb), u.name, u.face);
    assert t.sent + [] == t.sent;
    if u.face == l.face {
      NoneOfOther(l, t.sent, u);
    }
  }

  /** Where the command is after `k` timeouts in a row: sent again, it goes to the end of those outstanding. */
  function Position(t: Trace, i: nat, k: nat): int
  {
    if k == 0 then i else |t.inflight| - 1
  }

  /** The state after `k` timeouts in a row of the command at position `i`, each perhaps carried out all the same. */
  function TimedOutTimes(t: Trace, i: nat, k: nat, done: bool): Trace
  {
    if k == 0 then t else TimedOutOnce(TimedOutTimes(t, i, k - 1, done), Position(t, i, k - 1), done)
  }

  function TimedOutOnce(t: Trace, i: int, done: bool): Trace
  {
    if 0 <= i < |t.inflight| then Deliver(t, Event(i, TimedOut, done)) else t
  }

  ghost predicate StandsAt(t: Trace, t': Trace, l: Lists, i: int, u: FibUpdate, verb: Action, n: nat, k: nat)
  {
    Standing(t', l, i, u, verb, n + k) && |t'.inflight| == |t.inflight| && SendsOf(t'.sent, u) == SendsOf(t.sent, u) + k
  }

  lemma StandsOnce(t: Trace, t': Trace, l: Lists, i: int, u: FibUpdate, verb: Action, n: nat, k: nat, done: bool)
    requires StandsAt(t, t', l, i, u, verb, n, k) && n + k < 10
    ensures StandsAt(t, TimedOutOnce(t', i, done), l, |t.inflight| - 1, u, AddNextHop, n, k + 1)
  {
    RetryStands(t', l, i, u, verb, n + k, done);
  }

  function VerbAfter(verb: Action, k: nat): Action
  {
    if k == 0 then verb else AddNextHop
  }

  lemma {:induction false} StandsAfter(t: Trace, l: Lists, i: nat, u: FibUpdate, verb: Action, n: nat, k: nat, done: bool)
    requires Standing(t, l, i, u, verb, n) && n + k <= 10
    ensures StandsAt(t, TimedOutTimes(t, i, k, done), l, Position(t, i, k), u, VerbAfter(verb, k), n, k)
  {
    if k == 0 {
    } else {
      StandsAfter(t, l, i, u, verb, n, k - 1, done);
      StandsOnce(t, TimedOutTimes(t, i, k - 1, done), l, Position(t, i, k - 1), u, VerbAfter(verb, k - 1), n, k - 1, done);
    }
  }

  /** Up to ten timeouts in a row are survived: the update is sent once more for each, then an acceptance settles it, nothing is
      thrown, and unless it is a removal accepted at once its next hop is in the FIB. */
  lemma SettledAfterTimeouts(t: Trace, i: nat, k: nat, done: bool)
    requires ListsOk(t.lists) && !t.thrown && i < |t.inflight| && t.inflight[i].nTimeouts + k <= 10
    ensures var t', at, c := TimedOutTimes(t, i, k, done), Position(t, i, k), t.inflight[i];
            && 0 <= at < |t'.inflight| && !t'.thrown && t'.inflight[at].u == c.u && t'.inflight[at].nTimeouts == c.nTimeouts + k
            && SendsOf(t'.sent, c.u) == SendsOf(t.sent, c.u) + k
            && var end := Deliver(t', Event(at, Accepted, done));
               && !end.thrown && !Pending(end.lists, c.u) && SendsOf(end.sent, c.u) == SendsOf(t.sent, c.u) + k
               && (k > 0 || c.verb == AddNextHop ==> Get(end.fib, c.u.name, c.u.face) == Some(c.u.cost))
  {
    var c := t.inflight[i];
    StandsAfter(t, t.lists, i, c.u, c.verb, c.nTimeouts, k, done);
    AcceptSettles(TimedOutTimes(t, i, k, done), t.lists, Position(t, i, k), c.u, VerbAfter(c.verb, k), c.nTimeouts + k, done);
  }

  /** From the start of a batch: the first ten timeouts in a row of any of the first commands are survived, the next one throws. */
  lemma ElevenInARow(l: Lists, fib: Fib, dead: set<nat>, i: nat, k: nat, done: bool)
    requires ListsOk(l) && i < |Active(l)| && k <= 10
    ensures var t := Begin(l, fib, dead);
            && !TimedOutTimes(t, i, k, done).thrown && SendsOf(TimedOutTimes(t, i, k, done).sent, Active(l)[i]) == 1 + k
            && (TimedOutTimes(t, i, k + 1, done).thrown <==> k == 10)
  {
    var t, u := Begin(l, fib, dead), Active(l)[i];
    BeginInflight(l, fib, dead);
    SendsOfCommands(Active(l), u);
    StandsAfter(t, l, i, u, u.action, 0, k, done);
    ThrowsAtTen(TimedOutTimes(t, i, k, done), l, Position(t, i, k), u, VerbAfter(u.action, k), k, done);
  }

  lemma ThrowsAtTen(t: Trace, l: Lists, i: int, u: FibUpdate, verb: Action, n: nat, done: bool)
    requires Standing(t, l, i, u, verb, n) && n <= 10
    ensures TimedOutOnce(t, i, done).thrown <==> n == 10
  {
  }
}
