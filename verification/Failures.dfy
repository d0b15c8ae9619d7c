/** Denials of the batch's own face: how often the continuations are called, as long as no other batch is dispatched. */
module Failures {
  import opened Updates
  import opened Protocol
  import opened Delivery

  /** The response does not make the updater throw. */
  predicate Quiet(t: Trace, e: Event)
    requires e.i < |t.inflight|
  {
    match e.response
    case Accepted => true
    case TimedOut => t.inflight[e.i].nTimeouts < MAX_NUM_TIMEOUTS
    case FaceNotFound => true
    case OtherError => false
  }

  /** The batch's own face is found gone. */
  predicate Denies(t: Trace, e: Event)
    requires e.i < |t.inflight|
  {
    e.response == FaceNotFound && t.inflight[e.i].u.face == t.lists.face
  }

  ghost predicate QuietRun(t: Trace, es: seq<Event>)
    decreases |es|
  {
    es == [] || (es[0].i < |t.inflight| && Quiet(t, es[0]) && QuietRun(Deliver(t, es[0]), es[1..]))
  }

  ghost function QuietEnd(t: Trace, es: seq<Event>): Trace
    requires QuietRun(t, es)
    decreases |es|
  {
    if es == [] then t else QuietEnd(Deliver(t, es[0]), es[1..])
  }

  ghost function Denials(t: Trace, es: seq<Event>): nat
    requires QuietRun(t, es)
    decreases |es|
  {
    if es == [] then 0 else (if Denies(t, es[0]) then 1 else 0) + Denials(Deliver(t, es[0]), es[1..])
  }

  /** A denied update stays in the list although no command for it is outstanding, so the first phase never ends. */
  ghost predicate Stuck(t: Trace)
  {
    && (forall i, j :: 0 <= i < j < |t.inflight| ==> t.inflight[i].u != t.inflight[j].u)
    && (forall i :: 0 <= i < |t.inflight| ==> t.inflight[i].u.face == t.lists.face)
    && (exists u :: StuckOn(t, u))
  }

  ghost predicate StuckOn(t: Trace, u: FibUpdate)
  {
    u in t.lists.batch && forall i :: 0 <= i < |t.inflight| ==> t.inflight[i].u != u
  }

  lemma DenialSticks(t: Trace, e: Event)
    requires Ok(t) && e.i < |t.inflight| && Denies(t, e)
    ensures Stuck(Deliver(t, e))
  {
    var t' := Deliver(t, e);
    WithoutIndex(t.inflight, e.i);
    assert t'.inflight == Without(t.inflight, e.i);
    forall i | 0 <= i < |t'.inflight|
      ensures t'.inflight[i].u.face == t'.lists.face
    {
      ActiveCommand(t, if i < e.i then i else i + 1);
    }
    ActiveCommand(t, e.i);
    assert StuckOn(t', t.inflight[e.i].u);
  }

  lemma StaysStuck(t: Trace, e: Event)
    requires Stuck(t) && e.i < |t.inflight| && Quiet(t, e)
    ensures Stuck(Deliver(t, e))
    ensures Deliver(t, e).successes == t.successes
    ensures Deliver(t, e).failures == t.failures + if Denies(t, e) then 1 else 0
  {
    var c := t.inflight[e.i];
    var u :| StuckOn(t, u);
    assert c.u != u;
    assert u in Dropped(t.lists.batch, c.u);
    StuckShape(t, e);
    StuckOnFewer(t, Deliver(t, e), e.i, u);
  }

  /** A response for a command on the batch's own face: the update leaves the list or stays, and the command is sent again
      or not. */
  ghost predicate Shrunk(t: Trace, t': Trace, i: nat)
    requires i < |t.inflight|
  {
    var c := t.inflight[i];
    && t'.lists.face == t.lists.face
    && (t'.lists.batch == t.lists.batch || t'.lists.batch == Dropped(t.lists.batch, c.u))
    && (t'.inflight == Without(t.inflight, i) || t'.inflight == Without(t.inflight, i) + [Command(c.u, AddNextHop, c.nTimeouts + 1)])
  }

  lemma StuckShape(t: Trace, e: Event)
    requires e.i < |t.inflight| && Quiet(t, e) && t.inflight[e.i].u.face == t.lists.face
    requires Dropped(t.lists.batch, t.inflight[e.i].u) != []
    ensures var t' := Deliver(t, e);
            Shrunk(t, t', e.i) && t'.successes == t.successes && t'.failures == t.failures + if Denies(t, e) then 1 else 0
  {
    assert Without(t.inflight, e.i) + [] == Without(t.inflight, e.i);
  }

  lemma StuckOnFewer(t: Trace, t': Trace, i: nat, u: FibUpdate)
    requires Stuck(t) && StuckOn(t, u) && i < |t.inflight| && Shrunk(t, t', i)
    ensures Stuck(t')
  {
    WithoutIndex(t.inflight, i);
    assert StuckOn(t', u);
  }

  lemma {:induction false} StuckRun(t: Trace, es: seq<Event>)
    requires Stuck(t) && QuietRun(t, es)
    ensures var t' := QuietEnd(t, es); t'.successes == t.successes && t'.failures == t.failures + Denials(t, es)
    decreases |es|
  {
    if es == [] {
    } else {
      StaysStuck(t, es[0]);
      StuckRun(Deliver(t, es[0]), es[1..]);
    }
  }

  lemma {:induction false} QuietCalls(t: Trace, es: seq<Event>)
    requires Ok(t) && QuietRun(t, es)
    ensures var t' := QuietEnd(t, es);
            && t'.failures == Denials(t, es)
            && (Denials(t, es) > 0 ==> t'.successes == 0)
            && (Denials(t, es) == 0 ==> Ok(t'))
    decreases |es|
  {
    if es == [] {
    } else {
      var t1 := Deliver(t, es[0]);
      if Denies(t, es[0]) {
        ActiveCommand(t, es[0].i);
        DenialSticks(t, es[0]);
        StuckRun(t1, es[1..]);
      } else {
        DeliverOk(t, es[0]);
        QuietCalls(t1, es[1..]);
      }
    }
  }

  /** When all responses are in and no other batch was dispatched before, the continuations have been called exactly once
      in total exactly when the batch's own face was denied at most once: each denial calls the failure continuation again. */
  lemma CompletesOnce(l: Lists, fib: Fib, dead: set<nat>, es: seq<Event>)
    requires ListsOk(l) && QuietRun(Begin(l, fib, dead), es) && QuietEnd(Begin(l, fib, dead), es).inflight == []
    ensures var t, t' := Begin(l, fib, dead), QuietEnd(Begin(l, fib, dead), es);
            t'.successes + t'.failures == 1 <==> Denials(t, es) <= 1
  {
    var t, t' := Begin(l, fib, dead), QuietEnd(Begin(l, fib, dead), es);
    BeginOk(l, fib, dead);
    QuietCalls(t, es);
    if Denials(t, es) == 0 {
      DoneWhenQuiet(t');
    }
  }

  lemma DoneWhenQuiet(t: Trace)
    requires Ok(t) && t.inflight == []
    ensures t.successes == 1
  {
    if t.lists.batch != [] || t.lists.other != [] {
      NoneOutstanding(Active(t.lists));
    }
  }
}
