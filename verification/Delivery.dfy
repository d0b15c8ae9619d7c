/** What every run of the protocol keeps, when it ends, and what the FIB then is. */
module Delivery {
  import opened Names
  import opened Routes
  import opened Updates
  import opened Protocol

  // ----- the beginning -----

  lemma BeginInflight(l: Lists, fib: Fib, dead: set<nat>)
    ensures Begin(l, fib, dead).inflight == Begin(l, fib, dead).sent == Commands(Active(l))
  {
    assert [] + Commands(l.batch) == Commands(l.batch);
    assert [] + Commands(l.other) == Commands(l.other);
  }

  lemma BeginPhased(l: Lists, fib: Fib, dead: set<nat>)
    requires ListsOk(l)
    ensures Phased(Begin(l, fib, dead))
  {
    BeginInflight(l, fib, dead);
    CommandsOutstanding(Active(l));
  }

  lemma BeginVerbs(l: Lists, fib: Fib, dead: set<nat>)
    ensures VerbsOk(Begin(l, fib, dead))
  {
    BeginInflight(l, fib, dead);
  }

  lemma BeginOnTrack(l: Lists, fib: Fib, dead: set<nat>, n: Name, g: nat)
    ensures var t := Begin(l, fib, dead); After(Get(t.fib, n, g), PendingEffect(t.lists, n, g)) == Get(t.goal, n, g)
  {
    ApplyListGet(fib, l.batch, n, g);
    ApplyListGet(ApplyList(fib, l.batch), l.other, n, g);
  }

  lemma BeginOk(l: Lists, fib: Fib, dead: set<nat>)
    requires ListsOk(l)
    ensures Ok(Begin(l, fib, dead))
  {
    var t := Begin(l, fib, dead);
    BeginPhased(l, fib, dead);
    BeginVerbs(l, fib, dead);
    forall n, g
      ensures After(Get(t.fib, n, g), PendingEffect(t.lists, n, g)) == Get(t.goal, n, g)
    {
      BeginOnTrack(l, fib, dead, n, g);
    }
    forall u | Pending(l, u)
      ensures Get(t.goal, u.name, u.face) == After(None, EffectOf(u))
    {
      PendingEffectOf(l, u);
      BeginOnTrack(l, fib, dead, u.name, u.face);
    }
  }

  /** The combined effect of the lists on the target of a pending update is that update's. */
  lemma PendingEffectOf(l: Lists, u: FibUpdate)
    requires ListsOk(l) && Pending(l, u)
    ensures PendingEffect(l, u.name, u.face) == EffectOf(u)
  {
    if u in l.batch {
      var i :| 0 <= i < |l.batch| && l.batch[i] == u;
      UniqueEffect(l.batch, i);
      OtherFaceNoEffect(l.other, l.face, false, u.name, u.face);
    } else {
      var i :| 0 <= i < |l.other| && l.other[i] == u;
      UniqueEffect(l.other, i);
    }
  }

  // ----- one response -----

  /** The list whose commands are out. */
  function Active(l: Lists): seq<FibUpdate>
  {
    if l.batch != [] then l.batch else l.other
  }

  lemma ActiveCommand(t: Trace, i: nat)
    requires ListsOk(t.lists) && Phased(t) && i < |t.inflight|
    ensures Outstanding(t.inflight, Active(t.lists)) && t.inflight[i].u in Active(t.lists)
    ensures t.lists.batch != [] <==> t.inflight[i].u.face == t.lists.face
    ensures Pending(t.lists, t.inflight[i].u)
  {
  }

  /** The lists once an update is settled. */
  function Settled(l: Lists, u: FibUpdate): Lists
  {
    if u.face == l.face then l.(batch := Dropped(l.batch, u)) else l.(other := Dropped(l.other, u))
  }

  lemma SettledOk(l: Lists, u: FibUpdate)
    requires ListsOk(l)
    ensures ListsOk(Settled(l, u))
  {
    DroppedUnique(l.batch, u);
    DroppedUnique(l.other, u);
  }

  lemma SettledPending(l: Lists, u: FibUpdate, v: FibUpdate)
    requires ListsOk(l)
    ensures Pending(Settled(l, u), v) <==> Pending(l, v) && v != u
  {
  }

  lemma SettledEffect(l: Lists, u: FibUpdate, n: Name, g: nat)
    requires ListsOk(l) && Pending(l, u)
    ensures Targets(u, n, g) ==> PendingEffect(l, n, g) == EffectOf(u) && PendingEffect(Settled(l, u), n, g) == Keep
    ensures !Targets(u, n, g) ==> PendingEffect(Settled(l, u), n, g) == PendingEffect(l, n, g)
  {
    if u in l.batch {
      DroppedEffect(l.batch, u, n, g);
      if g == l.face {
        OtherFaceNoEffect(l.other, l.face, false, n, g);
      }
    } else {
      DroppedEffect(l.other, u, n, g);
      if g != l.face {
        OtherFaceNoEffect(l.batch, l.face, true, n, g);
      }
    }
  }

  /** The response settles the command's update. */
  predicate Settles(t: Trace, e: Event)
    requires e.i < |t.inflight|
  {
    Benign(t, e) && e.response != TimedOut
  }

  /** A settled update leaves the lists and the outstanding commands; the last one of the first phase starts the second,
      the last one of all ends the batch. */
  ghost predicate SettledOne(t: Trace, t': Trace, i: nat)
    requires i < |t.inflight|
  {
    var l := Settled(t.lists, t.inflight[i].u);
    var send := if t.lists.batch != [] && l.batch == [] then Commands(l.other) else [];
    && t'.lists == l && t'.failures == t.failures && t'.thrown == t.thrown && t'.lost == t.lost
    && t'.inflight == Without(t.inflight, i) + send && t'.sent == t.sent + send
    && t'.successes == t.successes + (if l.batch == [] && l.other == [] then 1 else 0)
  }

  lemma SettleShape(t: Trace, e: Event)
    requires e.i < |t.inflight| && Settles(t, e)
    requires t.lists.batch != [] <==> t.inflight[e.i].u.face == t.lists.face
    ensures SettledOne(t, Deliver(t, e), e.i)
  {
  }

  lemma SettledOnePhased(t: Trace, t': Trace, i: nat)
    requires ListsOk(t.lists) && Phased(t) && i < |t.inflight| && SettledOne(t, t', i)
    ensures Phased(t')
  {
    ActiveCommand(t, i);
    AnswerOutstanding(t.inflight, Active(t.lists), i);
    assert Without(t.inflight, i) + [] == Without(t.inflight, i);
    if Dropped(Active(t.lists), t.inflight[i].u) == [] {
      NothingOutstanding(Without(t.inflight, i));
      assert [] + Commands(t.lists.other) == Commands(t.lists.other);
      CommandsOutstanding(t.lists.other);
    }
  }

  lemma SettlePhased(t: Trace, e: Event)
    requires ListsOk(t.lists) && Phased(t) && e.i < |t.inflight| && Settles(t, e)
    ensures Deliver(t, e).lists == Settled(t.lists, t.inflight[e.i].u)
    ensures Phased(Deliver(t, e))
  {
    ActiveCommand(t, e.i);
    SettleShape(t, e);
    SettledOnePhased(t, Deliver(t, e), e.i);
  }

  /** The commands of the second phase are for updates that were never sent. */
  lemma SettledVerbs(t: Trace, t': Trace, i: nat)
    requires ListsOk(t.lists) && VerbsOk(t) && i < |t.inflight| && SettledOne(t, t', i)
    ensures VerbsOk(t')
  {
    var m, us := |t.inflight| - 1, Settled(t.lists, t.inflight[i].u).other;
    WithoutIndex(t.inflight, i);
    forall j | 0 <= j < |t'.inflight|
      ensures t'.inflight[j].verb == (if t'.inflight[j].u in t.lost then AddNextHop else t'.inflight[j].u.action)
      ensures t'.inflight[j].nTimeouts <= MAX_NUM_TIMEOUTS
    {
      if j < m {
        assert t'.inflight[j] == Without(t.inflight, i)[j];
      } else {
        assert t'.inflight[j] == Commands(us)[j - m];
        assert t'.inflight[j].u == us[j - m] && us[j - m] in us;
      }
    }
  }

  lemma SettleVerbs(t: Trace, e: Event)
    requires ListsOk(t.lists) && Phased(t) && VerbsOk(t) && e.i < |t.inflight| && Settles(t, e)
    ensures VerbsOk(Deliver(t, e))
  {
    ActiveCommand(t, e.i);
    SettleShape(t, e);
    SettledVerbs(t, Deliver(t, e), e.i);
  }

  lemma SettleTrack(t: Trace, e: Event, n: Name, g: nat)
    requires Ok(t) && e.i < |t.inflight| && Settles(t, e)
    requires g !in Deliver(t, e).dead && !LostOn(t, n, g)
    ensures var t' := Deliver(t, e); After(Get(t'.fib, n, g), PendingEffect(t'.lists, n, g)) == Get(t.goal, n, g)
  {
    var c, t' := t.inflight[e.i], Deliver(t, e);
    ActiveCommand(t, e.i);
    SettlePhased(t, e);
    SettledEffect(t.lists, c.u, n, g);
    ApplyUpdateGet(t.fib, c.u.(action := c.verb), n, g);
    assert After(Get(t.fib, n, g), PendingEffect(t.lists, n, g)) == Get(t.goal, n, g);
    if Targets(c.u, n, g) {
      assert c.u !in t.lost;
    }
  }

  lemma SettleLost(t: Trace, e: Event, u: FibUpdate)
    requires Ok(t) && e.i < |t.inflight| && Settles(t, e) && u in t.lost
    ensures var t' := Deliver(t, e);
            && (Pending(t'.lists, u) || u.face in t'.dead || Get(t'.fib, u.name, u.face) == Some(u.cost))
            && forall v :: Pending(t'.lists, v) && Targets(v, u.name, u.face) ==> v == u
  {
    var c, t' := t.inflight[e.i], Deliver(t, e);
    ActiveCommand(t, e.i);
    SettlePhased(t, e);
    forall v
      ensures Pending(t'.lists, v) <==> Pending(t.lists, v) && v != c.u
    {
      SettledPending(t.lists, c.u, v);
    }
    ApplyUpdateGet(t.fib, c.u.(action := c.verb), u.name, u.face);
    assert Targets(c.u, u.name, u.face) ==> c.u == u;
  }

  lemma SettleOwnFace(t: Trace, e: Event)
    requires Ok(t) && e.i < |t.inflight| && Settles(t, e)
    ensures OnlyOwnFace(Deliver(t, e))
  {
    var c, t' := t.inflight[e.i], Deliver(t, e);
    ActiveCommand(t, e.i);
    SettlePhased(t, e);
    if t'.lists.batch != [] {
      forall n, g | g != t.lists.face
        ensures Get(t'.fib, n, g) == Get(t.start, n, g)
      {
        ApplyUpdateGet(t.fib, c.u.(action := c.verb), n, g);
        assert Get(t.fib, n, g) == Get(t.start, n, g);
      }
    }
  }

  lemma SettleOk(t: Trace, e: Event)
    requires Ok(t) && e.i < |t.inflight| && Settles(t, e)
    ensures Ok(Deliver(t, e))
  {
    var c, t' := t.inflight[e.i], Deliver(t, e);
    SettledOk(t.lists, c.u);
    SettlePhased(t, e);
    SettleVerbs(t, e);
    SettleOwnFace(t, e);
    assert t'.lost == t.lost && t'.goal == t.goal;
    forall n, g | g !in t'.dead && !LostOn(t', n, g)
      ensures After(Get(t'.fib, n, g), PendingEffect(t'.lists, n, g)) == Get(t'.goal, n, g)
    {
      assert !LostOn(t, n, g);
      SettleTrack(t, e, n, g);
    }
    forall u | u in t.lost
      ensures Get(t'.goal, u.name, u.face) == None
      ensures Pending(t'.lists, u) || u.face in t'.dead || Get(t'.fib, u.name, u.face) == Some(u.cost)
      ensures forall v :: Pending(t'.lists, v) && Targets(v, u.name, u.face) ==> v == u
    {
      SettleLost(t, e, u);
    }
    forall u | Pending(t'.lists, u)
      ensures Get(t'.goal, u.name, u.face) == After(None, EffectOf(u))
    {
      SettledPending(t.lists, c.u, u);
    }
  }

  predicate Retries(t: Trace, e: Event)
    requires e.i < |t.inflight|
  {
    Benign(t, e) && e.response == TimedOut
  }

  /** A retried command goes to the end of those outstanding, as an addition. */
  ghost predicate Resent(t: Trace, t': Trace, i: nat)
    requires i < |t.inflight|
  {
    var c := t.inflight[i];
    && t'.lists == t.lists && t'.inflight == Without(t.inflight, i) + [Command(c.u, AddNextHop, c.nTimeouts + 1)]
    && t'.successes == t.successes && t'.failures == t.failures && t'.thrown == t.thrown
    && t'.lost == if c.u.action == RemoveNextHop then t.lost + {c.u} else t.lost
  }

  lemma ResentPhased(t: Trace, t': Trace, i: nat)
    requires i < |t.inflight| && Resent(t, t', i) && Outstanding(t.inflight, Active(t.lists))
    requires t.successes == 0 && t.failures == 0 && !t.thrown
    ensures Phased(t')
  {
    var c := t.inflight[i];
    ResendOutstanding(t.inflight, Active(t.lists), i, Command(c.u, AddNextHop, c.nTimeouts + 1));
    StillPhased(t');
  }

  lemma StillPhased(t: Trace)
    requires Outstanding(t.inflight, Active(t.lists)) && Active(t.lists) != []
    requires t.successes == 0 && t.failures == 0 && !t.thrown
    ensures Phased(t)
  {
  }

  lemma RetryShape(t: Trace, e: Event)
    requires e.i < |t.inflight| && Retries(t, e)
    ensures Resent(t, Deliver(t, e), e.i)
  {
  }

  lemma RetryPhased(t: Trace, e: Event)
    requires ListsOk(t.lists) && Phased(t) && e.i < |t.inflight| && Retries(t, e)
    ensures Phased(Deliver(t, e)) && Deliver(t, e).lists == t.lists
  {
    ActiveCommand(t, e.i);
    RetryShape(t, e);
    ResentPhased(t, Deliver(t, e), e.i);
  }

  lemma ResentVerbs(t: Trace, t': Trace, i: nat)
    requires VerbsOk(t) && i < |t.inflight| && Resent(t, t', i) && t.inflight[i].nTimeouts < MAX_NUM_TIMEOUTS
    requires t.lists.batch != [] ==> t.inflight[i].u.face == t.lists.face
    requires forall j :: 0 <= j < |t.inflight| && j != i ==> t.inflight[j].u != t.inflight[i].u
    ensures VerbsOk(t')
  {
    WithoutIndex(t.inflight, i);
  }

  lemma RetryVerbs(t: Trace, e: Event)
    requires ListsOk(t.lists) && Phased(t) && VerbsOk(t) && e.i < |t.inflight| && Retries(t, e)
    ensures VerbsOk(Deliver(t, e))
  {
    ActiveCommand(t, e.i);
    RetryShape(t, e);
    ResentVerbs(t, Deliver(t, e), e.i);
  }

  lemma RetryTrack(t: Trace, e: Event, n: Name, g: nat)
    requires Ok(t) && e.i < |t.inflight| && Retries(t, e)
    requires g !in t.dead && !LostOn(Deliver(t, e), n, g)
    ensures var t' := Deliver(t, e); After(Get(t'.fib, n, g), PendingEffect(t'.lists, n, g)) == Get(t.goal, n, g)
  {
    var c, t' := t.inflight[e.i], Deliver(t, e);
    ActiveCommand(t, e.i);
    RetryPhased(t, e);
    ApplyUpdateGet(t.fib, c.u.(action := c.verb), n, g);
    assert forall u :: u in t.lost ==> u in t'.lost;
    assert !LostOn(t, n, g);
    assert After(Get(t.fib, n, g), PendingEffect(t.lists, n, g)) == Get(t.goal, n, g);
    if Targets(c.u, n, g) {
      assert c.u !in t'.lost;
      PendingEffectOf(t.lists, c.u);
    }
  }

  lemma PendingUnique(l: Lists, u: FibUpdate, v: FibUpdate)
    requires ListsOk(l) && Pending(l, u) && Pending(l, v) && Targets(v, u.name, u.face)
    ensures u == v
  {
    if u in l.batch && v in l.batch {
      UniqueMember(l.batch, u, v);
    } else if u in l.other && v in l.other {
      UniqueMember(l.other, u, v);
    }
  }

  lemma RetryLost(t: Trace, e: Event, u: FibUpdate)
    requires Ok(t) && e.i < |t.inflight| && Retries(t, e) && u in Deliver(t, e).lost
    ensures var t' := Deliver(t, e);
            && Get(t'.goal, u.name, u.face) == None
            && (Pending(t'.lists, u) || u.face in t'.dead || Get(t'.fib, u.name, u.face) == Some(u.cost))
            && forall v :: Pending(t'.lists, v) && Targets(v, u.name, u.face) ==> v == u
  {
    var c, t' := t.inflight[e.i], Deliver(t, e);
    ActiveCommand(t, e.i);
    RetryPhased(t, e);
    ApplyUpdateGet(t.fib, c.u.(action := c.verb), u.name, u.face);
    if u == c.u {
      forall v | Pending(t.lists, v) && Targets(v, u.name, u.face)
        ensures v == u
      {
        PendingUnique(t.lists, u, v);
      }
    } else {
      assert u in t.lost;
      assert Targets(c.u, u.name, u.face) ==> c.u == u;
    }
  }

  lemma RetryOwnFace(t: Trace, e: Event)
    requires Ok(t) && e.i < |t.inflight| && Retries(t, e)
    ensures OnlyOwnFace(Deliver(t, e))
  {
    var c, t' := t.inflight[e.i], Deliver(t, e);
    ActiveCommand(t, e.i);
    RetryPhased(t, e);
    if t.lists.batch != [] {
      forall n, g | g != t.lists.face
        ensures Get(t'.fib, n, g) == Get(t.start, n, g)
      {
        ApplyUpdateGet(t.fib, c.u.(action := c.verb), n, g);
        assert Get(t.fib, n, g) == Get(t.start, n, g);
      }
    }
  }

  lemma RetryOk(t: Trace, e: Event)
    requires Ok(t) && e.i < |t.inflight| && Retries(t, e)
    ensures Ok(Deliver(t, e))
  {
    var t' := Deliver(t, e);
    RetryPhased(t, e);
    RetryVerbs(t, e);
    RetryOwnFace(t, e);
    forall n, g | g !in t'.dead && !LostOn(t', n, g)
      ensures After(Get(t'.fib, n, g), PendingEffect(t'.lists, n, g)) == Get(t'.goal, n, g)
    {
      RetryTrack(t, e, n, g);
    }
    forall u | u in t'.lost
      ensures Get(t'.goal, u.name, u.face) == None
      ensures Pending(t'.lists, u) || u.face in t'.dead || Get(t'.fib, u.name, u.face) == Some(u.cost)
      ensures forall v :: Pending(t'.lists, v) && Targets(v, u.name, u.face) ==> v == u
    {
      RetryLost(t, e, u);
    }
  }

  /** Every response that is not a failure or an exception keeps the invariant. */
  lemma DeliverOk(t: Trace, e: Event)
    requires Ok(t) && e.i < |t.inflight| && Benign(t, e)
    ensures Ok(Deliver(t, e))
  {
    if e.response == TimedOut {
      RetryOk(t, e);
    } else {
      SettleOk(t, e);
    }
  }

  // ----- whole runs -----

  ghost predicate BenignRun(t: Trace, es: seq<Event>)
    decreases |es|
  {
    es == [] || (es[0].i < |t.inflight| && Benign(t, es[0]) && BenignRun(Deliver(t, es[0]), es[1..]))
  }

  ghost function RunOf(t: Trace, es: seq<Event>): Trace
    requires BenignRun(t, es)
    decreases |es|
  {
    if es == [] then t else RunOf(Deliver(t, es[0]), es[1..])
  }

  lemma {:induction false} RunOk(t: Trace, es: seq<Event>)
    requires Ok(t) && BenignRun(t, es)
    ensures Ok(RunOf(t, es))
    decreases |es|
  {
    if es == [] {
    } else {
      DeliverOk(t, es[0]);
      RunOk(Deliver(t, es[0]), es[1..]);
    }
  }

  /** Two-phase delivery.  However the responses are interleaved, a command for another face is outstanding only when
      every command for the batch's own face has been accepted; and the success continuation has been called exactly
      once if both lists are empty, which is when nothing is outstanding, and otherwise not at all. */
  lemma TwoPhases(l: Lists, fib: Fib, dead: set<nat>, es: seq<Event>)
    requires ListsOk(l) && BenignRun(Begin(l, fib, dead), es)
    ensures var t := RunOf(Begin(l, fib, dead), es);
            && (forall i :: 0 <= i < |t.inflight| && t.inflight[i].u.face != l.face ==> t.lists.batch == [])
            && t.successes == (if t.lists.batch == [] && t.lists.other == [] then 1 else 0)
            && (t.inflight == [] <==> t.lists.batch == [] && t.lists.other == [])
            && t.failures == 0
  {
    var t := RunOf(Begin(l, fib, dead), es);
    BeginOk(l, fib, dead);
    RunOk(Begin(l, fib, dead), es);
    RunKeepsFace(Begin(l, fib, dead), es);
    if t.inflight != [] {
      ActiveCommand(t, 0);
    }
    forall i | 0 <= i < |t.inflight| && t.inflight[i].u.face != l.face
      ensures t.lists.batch == []
    {
      ActiveCommand(t, i);
    }
    if t.inflight == [] {
      NoneOutstanding(Active(t.lists));
    }
  }

  lemma OutstandingIndex(cs: seq<Command>, us: seq<FibUpdate>, k: nat) returns (i: nat)
    requires Outstanding(cs, us) && k < |us|
    ensures i < |cs|
  {
    assert us[k] in us;
    i :| 0 <= i < |cs| && cs[i].u == us[k];
  }

  lemma NoneOutstanding(us: seq<FibUpdate>)
    requires Outstanding([], us)
    ensures us == []
  {
    if |us| > 0 {
      var i := OutstandingIndex([], us, 0);
    }
  }

  lemma {:induction false} RunKeepsFace(t: Trace, es: seq<Event>)
    requires BenignRun(t, es)
    ensures RunOf(t, es).lists.face == t.lists.face && RunOf(t, es).goal == t.goal
    decreases |es|
  {
    if es == [] {
    } else {
      RunKeepsFace(Deliver(t, es[0]), es[1..]);
    }
  }

  /** Once a batch has succeeded, the FIB is the intended one on every live face exactly when no removal timed out on a
      live face: such a removal was sent again as an addition. */
  lemma FibWhenDone(t: Trace)
    requires Ok(t) && t.successes == 1
    ensures (forall n, g :: g !in t.dead ==> Get(t.fib, n, g) == Get(t.goal, n, g)) <==>
            (forall u :: u in t.lost ==> u.face in t.dead)
  {
    assert t.lists.batch == [] && t.lists.other == [];
    if u :| u in t.lost && u.face !in t.dead {
      assert Get(t.fib, u.name, u.face) == Some(u.cost) && Get(t.goal, u.name, u.face) == None;
    } else {
      forall n, g | g !in t.dead
        ensures Get(t.fib, n, g) == Get(t.goal, n, g)
      {
        assert !LostOn(t, n, g);
        assert After(Get(t.fib, n, g), PendingEffect(t.lists, n, g)) == Get(t.goal, n, g);
      }
    }
  }

  /** A run in which one does, on a live face, and the batch succeeds all the same: the removal is lost, sent again as an
      addition and accepted, and the next hop that was to go is there. */
  lemma LostRemovalStays()
    ensures var u := RemoveUpdate([0], 1);
            var t, es := Begin(Lists(2, [], [u]), map[([0], 1) := 5], {}), [Event(0, TimedOut, false), Event(0, Accepted, true)];
            && BenignRun(t, es)
            && var t' := RunOf(t, es);
               t'.successes == 1 && t'.dead == {} && Get(t'.fib, [0], 1) == Some(0) && Get(t'.goal, [0], 1) == None
  {
    var u := RemoveUpdate([0], 1);
    var l := Lists(2, [], [u]);
    var t, es := Begin(l, map[([0], 1) := 5], {}), [Event(0, TimedOut, false), Event(0, Accepted, true)];
    BeginInflight(l, map[([0], 1) := 5], {});
    assert t.inflight == [Command(u, RemoveNextHop, 0)];
    assert [u][..0] == [] && Get(t.goal, [0], 1) == None;
    var t1 := Deliver(t, es[0]);
    assert t1.inflight == [Command(u, AddNextHop, 1)];
    assert Dropped([u], u) == [];
    assert es[1..] == [es[1]] && es[1..][1..] == [];
    assert RunOf(t1, es[1..]) == Deliver(t1, es[1]);
  }

  // ----- how often, how long -----

  function SendsOf(cs: seq<Command>, u: FibUpdate): nat
  {
    if cs == [] then 0 else SendsOf(cs[..|cs| - 1], u) + (if cs[|cs| - 1].u == u then 1 else 0)
  }

  lemma {:induction false} SendsConcat(a: seq<Command>, b: seq<Command>, u: FibUpdate)
    ensures SendsOf(a + b, u) == SendsOf(a, u) + SendsOf(b, u)
  {
    if b == [] {
      assert a + b == a;
    } else {
      assert (a + b)[..|a + b| - 1] == a + b[..|b| - 1];
      SendsConcat(a, b[..|b| - 1], u);
    }
  }

  lemma {:induction false} SendsOfCommands(us: seq<FibUpdate>, u: FibUpdate)
    requires UniqueTargets(us)
    ensures SendsOf(Commands(us), u) == if u in us then 1 else 0
  {
    if us == [] {
    } else {
      var k := |us| - 1;
      SendsOfCommands(us[..k], u);
      assert us == us[..k] + [us[k]];
      assert Commands(us)[..k] == Commands(us[..k]);
      assert forall j :: 0 <= j < k ==> us[j] != us[k];
    }
  }

  /** Nothing was sent more than eleven times: once, and once for each of ten timeouts. */
  ghost predicate SendsOk(t: Trace)
  {
    && (forall u :: SendsOf(t.sent, u) <= MAX_NUM_TIMEOUTS + 1)
    && (forall i :: 0 <= i < |t.inflight| ==> SendsOf(t.sent, t.inflight[i].u) == t.inflight[i].nTimeouts + 1)
    && (t.lists.batch != [] ==> forall u :: u in t.lists.other ==> SendsOf(t.sent, u) == 0)
  }

  /** Right after one command for each of the updates `us`. */
  lemma SentOnceEach(t: Trace, us: seq<FibUpdate>)
    requires t.inflight == t.sent == Commands(us) && UniqueTargets(us)
    requires t.lists.batch != [] ==> forall u :: u in t.lists.other ==> u !in us
    ensures SendsOk(t)
  {
    forall u
      ensures SendsOf(t.sent, u) == if u in us then 1 else 0
    {
      SendsOfCommands(us, u);
    }
    forall i | 0 <= i < |t.inflight|
      ensures t.inflight[i].u in us
    {
      assert t.inflight[i].u == us[i];
    }
  }

  lemma BeginSends(l: Lists, fib: Fib, dead: set<nat>)
    requires ListsOk(l)
    ensures SendsOk(Begin(l, fib, dead))
  {
    BeginInflight(l, fib, dead);
    SentOnceEach(Begin(l, fib, dead), Active(l));
  }

  lemma ResentSends(t: Trace, t': Trace, i: nat)
    requires SendsOk(t) && i < |t.inflight| && Resent(t, t', i) && t.inflight[i].nTimeouts < MAX_NUM_TIMEOUTS
    requires t'.sent == t.sent + [Command(t.inflight[i].u, AddNextHop, t.inflight[i].nTimeouts + 1)]
    requires t.lists.batch != [] ==> t.inflight[i].u !in t.lists.other
    requires forall j :: 0 <= j < |t.inflight| && j != i ==> t.inflight[j].u != t.inflight[i].u
    ensures SendsOk(t')
  {
    var c := t.inflight[i];
    var again := Command(c.u, AddNextHop, c.nTimeouts + 1);
    WithoutIndex(t.inflight, i);
    forall u
      ensures SendsOf(t'.sent, u) == SendsOf(t.sent, u) + (if u == c.u then 1 else 0)
    {
      assert t'.sent[..|t'.sent| - 1] == t.sent;
    }
    assert SendsOf(t.sent, c.u) == c.nTimeouts + 1;
    forall j | 0 <= j < |t'.inflight|
      ensures SendsOf(t'.sent, t'.inflight[j].u) == t'.inflight[j].nTimeouts + 1
    {
      if j < |t.inflight| - 1 {
        assert t'.inflight[j] == Without(t.inflight, i)[j] == t.inflight[if j < i then j else j + 1];
      } else {
        assert t'.inflight[j] == again;
      }
    }
  }

  lemma RetrySends(t: Trace, e: Event)
    requires ListsOk(t.lists) && Phased(t) && SendsOk(t) && e.i < |t.inflight| && Retries(t, e)
    ensures SendsOk(Deliver(t, e))
  {
    ActiveCommand(t, e.i);
    OwnNotOther(t, e.i);
    RetryShape(t, e);
    ResentSends(t, Deliver(t, e), e.i);
  }

  /** How often each update was sent after the second phase has begun, if it does. */
  lemma SettledCounts(t: Trace, t': Trace, i: nat, u: FibUpdate)
    requires ListsOk(t.lists) && i < |t.inflight| && SettledOne(t, t', i)
    ensures var l := Settled(t.lists, t.inflight[i].u);
            SendsOf(t'.sent, u) == SendsOf(t.sent, u) + if t.lists.batch != [] && l.batch == [] && u in l.other then 1 else 0
  {
    var l := Settled(t.lists, t.inflight[i].u);
    SettledOk(t.lists, t.inflight[i].u);
    if t.lists.batch != [] && l.batch == [] {
      SendsConcat(t.sent, Commands(l.other), u);
      SendsOfCommands(l.other, u);
    } else {
      assert t.sent + [] == t.sent;
    }
  }

  lemma SettledSends(t: Trace, t': Trace, i: nat)
    requires ListsOk(t.lists) && SendsOk(t) && i < |t.inflight| && SettledOne(t, t', i)
    requires t.lists.batch != [] ==> forall j :: 0 <= j < |t.inflight| ==> t.inflight[j].u !in t.lists.other
    ensures SendsOk(t')
  {
    var m, us := |t.inflight| - 1, Settled(t.lists, t.inflight[i].u).other;
    WithoutIndex(t.inflight, i);
    forall u
      ensures SendsOf(t'.sent, u) == SendsOf(t.sent, u) + if t.lists.batch != [] && t'.lists.batch == [] && u in us then 1 else 0
    {
      SettledCounts(t, t', i, u);
    }
    forall j | 0 <= j < |t'.inflight|
      ensures SendsOf(t'.sent, t'.inflight[j].u) == t'.inflight[j].nTimeouts + 1
    {
      if j < m {
        assert t'.inflight[j] == Without(t.inflight, i)[j] == t.inflight[if j < i then j else j + 1];
      } else {
        assert t'.inflight[j] == Commands(us)[j - m];
        assert t'.inflight[j].u == us[j - m] && us[j - m] in us;
      }
    }
  }

  lemma SettleSends(t: Trace, e: Event)
    requires ListsOk(t.lists) && Phased(t) && SendsOk(t) && e.i < |t.inflight| && Settles(t, e)
    ensures SendsOk(Deliver(t, e))
  {
    ActiveCommand(t, e.i);
    SettleShape(t, e);
    forall j | 0 <= j < |t.inflight|
      ensures t.lists.batch != [] ==> t.inflight[j].u !in t.lists.other
    {
      OwnNotOther(t, j);
    }
    SettledSends(t, Deliver(t, e), e.i);
  }

  lemma OwnNotOther(t: Trace, i: nat)
    requires ListsOk(t.lists) && Phased(t) && i < |t.inflight|
    ensures t.lists.batch != [] ==> t.inflight[i].u !in t.lists.other
  {
    ActiveCommand(t, i);
  }

  lemma {:induction false} RunSends(t: Trace, es: seq<Event>)
    requires Ok(t) && SendsOk(t) && BenignRun(t, es)
    ensures SendsOk(RunOf(t, es))
    decreases |es|
  {
    if es == [] {
    } else {
      DeliverOk(t, es[0]);
      if es[0].response == TimedOut {
        RetrySends(t, es[0]);
      } else {
        SettleSends(t, es[0]);
      }
      RunSends(Deliver(t, es[0]), es[1..]);
    }
  }

  /** In every run each update is sent at most eleven times. */
  lemma SentAtMostElevenTimes(l: Lists, fib: Fib, dead: set<nat>, es: seq<Event>, u: FibUpdate)
    requires ListsOk(l) && BenignRun(Begin(l, fib, dead), es)
    ensures SendsOf(RunOf(Begin(l, fib, dead), es).sent, u) <= 11
  {
    BeginOk(l, fib, dead);
    BeginSends(l, fib, dead);
    RunSends(Begin(l, fib, dead), es);
  }

  function Budget(cs: seq<Command>): int
  {
    if cs == [] then 0 else Budget(cs[..|cs| - 1]) + (MAX_NUM_TIMEOUTS + 1 - cs[|cs| - 1].nTimeouts)
  }

  lemma {:induction false} BudgetConcat(a: seq<Command>, b: seq<Command>)
    ensures Budget(a + b) == Budget(a) + Budget(b)
  {
    if b == [] {
      assert a + b == a;
    } else {
      assert (a + b)[..|a + b| - 1] == a + b[..|b| - 1];
      BudgetConcat(a, b[..|b| - 1]);
    }
  }

  lemma BudgetOfOne(c: Command)
    ensures Budget([c]) == MAX_NUM_TIMEOUTS + 1 - c.nTimeouts
  {
    assert [c][..0] == [];
  }

  lemma {:induction false} BudgetWithout(cs: seq<Command>, i: nat)
    requires i < |cs|
    ensures Budget(Without(cs, i)) == Budget(cs) - (MAX_NUM_TIMEOUTS + 1 - cs[i].nTimeouts)
  {
    var k := |cs| - 1;
    if i == k {
      assert Without(cs, i) == cs[..k];
    } else {
      BudgetWithout(cs[..k], i);
      assert Without(cs, i)[..k - 1] == Without(cs[..k], i);
    }
  }

  lemma {:induction false} BudgetOfCommands(us: seq<FibUpdate>)
    ensures Budget(Commands(us)) == (MAX_NUM_TIMEOUTS + 1) * |us|
  {
    if us == [] {
    } else {
      BudgetOfCommands(us[..|us| - 1]);
      assert Commands(us)[..|us| - 1] == Commands(us[..|us| - 1]);
    }
  }

  lemma {:induction false} BudgetNotNegative(cs: seq<Command>)
    requires forall i :: 0 <= i < |cs| ==> cs[i].nTimeouts <= MAX_NUM_TIMEOUTS
    ensures Budget(cs) >= 0
  {
    if cs == [] {
    } else {
      BudgetNotNegative(cs[..|cs| - 1]);
    }
  }

  /** How many responses can still come: what is left of each outstanding command's attempts, and all attempts of the
      commands not sent yet. */
  function Remaining(t: Trace): int
  {
    Budget(t.inflight) + if t.lists.batch != [] then (MAX_NUM_TIMEOUTS + 1) * |t.lists.other| else 0
  }

  /** Every response uses some of it up, so every run ends; and while nothing is outstanding the batch is complete. */
  lemma BatchCompletes(t: Trace, e: Event)
    requires Ok(t) && e.i < |t.inflight| && Benign(t, e)
    ensures 0 <= Remaining(Deliver(t, e)) < Remaining(t)
  {
    var c, t' := t.inflight[e.i], Deliver(t, e);
    var r := OnResponse(t.lists, c, e.response);
    ActiveCommand(t, e.i);
    DeliverOk(t, e);
    BudgetNotNegative(t'.inflight);
    BudgetWithout(t.inflight, e.i);
    BudgetConcat(Without(t.inflight, e.i), r.send);
    if e.response == TimedOut {
      BudgetOfOne(r.send[0]);
    } else {
      SettlePhased(t, e);
      BudgetOfCommands(t.lists.other);
    }
  }
}
