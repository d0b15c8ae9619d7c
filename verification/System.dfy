/** The queue machine with the RIB in it: over every run, what the FIB holds whenever nothing is under way. */
module System {
  import opened Names
  import opened Routes
  import opened RibModel
  import opened RibOps
  import opened Updates
  import opened Compute
  import opened CommitSafety
  import opened Incremental
  import opened ExactStep
  import opened Protocol
  import opened Delivery
  import opened Failures
  import opened Queue

  // ----- the route std::nth_element puts second -----

  lemma {:induction false} CheapestBut(rs: seq<Route>, g: nat, skip: int, n: nat) returns (i: int)
    requires n <= |rs|
    ensures i == -1 ==> forall k :: 0 <= k < n && k != skip ==> rs[k].face != g
    ensures i != -1 ==> 0 <= i < n && i != skip && rs[i].face == g
    ensures i != -1 ==> forall k :: 0 <= k < n && k != skip && rs[k].face == g ==> rs[i].cost <= rs[k].cost
  {
    i := -1;
    if n == 0 {
    } else {
      i := CheapestBut(rs, g, skip, n - 1);
      if n - 1 != skip && rs[n - 1].face == g && (i == -1 || rs[n - 1].cost < rs[i].cost) {
        i := n - 1;
      }
    }
  }

  lemma NextExists(T: Table, u: RibUpdate)
    ensures exists next :: NextOk(T, u, next)
  {
    if u.kind != Register && Holds(T, u.name, u.route) {
      var rs, g := T[u.name].routes, u.route.face;
      var j := CheapestBut(rs, g, -1, |rs|);
      var i := CheapestBut(rs, g, j, |rs|);
      if i == -1 {
        assert NextOk(T, u, None);
      } else {
        assert SecondAt(rs, g, i, j);
        assert NextOk(T, u, Some(rs[i]));
      }
    } else {
      assert NextOk(T, u, None);
    }
  }

  /** Some route the query may return; which of several equally cheap ones is left open. */
  ghost function PickNext(T: Table, u: RibUpdate): (next: Option<Route>)
    ensures NextOk(T, u, next)
  {
    NextExists(T, u);
    var next :| NextOk(T, u, next);
    next
  }

  ghost function Emits(T: Table, u: RibUpdate): Option<seq<Emission>>
    requires TreeOk(T)
  {
    Emitted(T, u, PickNext(T, u))
  }

  // ----- committing to the whole RIB state -----

  /** Rib::onFibUpdateSuccess: the update is applied, then the inherited routes. */
  ghost function CommittedState(r: RibState, u: RibUpdate, next: Option<Route>, es: seq<Emission>): RibState
    requires TreeOk(r.table) && NextOk(r.table, u, next) && Emitted(r.table, u, next) == Some(es)
  {
    RecordsAlwaysApplicable(r.table, u, next);
    AppliedIsTable(r, u);
    var r' := AppliedState(r, u);
    r'.(table := ApplyRecords(r'.table, es))
  }

  ghost function CommitState(r: RibState, u: RibUpdate): RibState
    requires TreeOk(r.table) && Emits(r.table, u).Some?
  {
    CommittedState(r, u, PickNext(r.table, u), Emits(r.table, u).value)
  }

  lemma AppliedIsTable(r: RibState, u: RibUpdate)
    ensures AppliedState(r, u).table ==
            if u.kind == Register || Holds(r.table, u.name, u.route) then Applied(r.table, u) else r.table
    ensures u.kind != Register && !Holds(r.table, u.name, u.route) && (u.name in r.table ==> r.table[u.name].routes != []) ==>
              Applied(r.table, u) == r.table
  {
  }

  lemma SameRoutesKeepFaces(r: RibState, U: Table)
    requires FacesOk(r) && U.Keys == r.table.Keys && forall n :: n in U ==> U[n].routes == r.table[n].routes
    ensures FacesOk(r.(table := U))
  {
    forall f: nat, n: Name
      ensures n in Listed(r.faces, f) <==> n in U && HasFace(U[n], f)
    {
      assert n in Listed(r.faces, f) <==> n in r.table && HasFace(r.table[n], f);
    }
  }

  lemma RecordsKeepRoutes(T: Table, es: seq<Emission>)
    requires Applicable(T, es)
    ensures forall n :: n in ApplyRecords(T, es) ==> ApplyRecords(T, es)[n].routes == T[n].routes
  {
    forall n | n in ApplyRecords(T, es)
      ensures ApplyRecords(T, es)[n].routes == T[n].routes
    {
      ApplyRecordsAt(T, es, n);
    }
  }

  lemma RecordsKeepRib(r: RibState, es: seq<Emission>)
    requires RibOk(r) && Applicable(r.table, es)
    ensures RibOk(r.(table := ApplyRecords(r.table, es)))
  {
    var U := ApplyRecords(r.table, es);
    ApplyRecordsKeepsTree(r.table, es);
    RecordsKeepRoutes(r.table, es);
    TotalSame(r.table, U, U.Keys);
    SameRoutesKeepFaces(r, U);
  }

  lemma CommitKeepsRib(r: RibState, u: RibUpdate)
    requires RibOk(r) && Emits(r.table, u).Some?
    ensures RibOk(CommitState(r, u))
    ensures Applicable(Applied(r.table, u), Emits(r.table, u).value)
    ensures CommitState(r, u).table == Committed(r.table, u, Emits(r.table, u).value)
  {
    var es := Emits(r.table, u).value;
    RecordsAlwaysApplicable(r.table, u, PickNext(r.table, u));
    AppliedIsApplied(r, u);
    AppliedKeepsRib(r, u);
    RecordsKeepRib(AppliedState(r, u), es);
  }

  lemma AppliedIsApplied(r: RibState, u: RibUpdate)
    requires RibOk(r)
    ensures AppliedState(r, u).table == Applied(r.table, u)
  {
    AppliedIsTable(r, u);
  }

  lemma AppliedKeepsRib(r: RibState, u: RibUpdate)
    requires RibOk(r)
    ensures RibOk(AppliedState(r, u))
  {
    if u.kind == Register {
      InsertKeepsRib(r, u.name, u.route);
    } else {
      EraseKeepsRib(r, u.name, u.route);
    }
  }

  // ----- the rules of the RIB -----

  ghost function PlanOf(r: RibState, u: RibUpdate): Option<Plan<seq<Emission>>>
  {
    if RibOk(r) && Emits(r.table, u).Some? then
      var es := Emits(r.table, u).value;
      Some(Plan(Lists(u.route.face, BatchList(u, es), OtherList(u, es)), es))
    else None
  }

  /** The update is applied, then whatever records the updater holds; each must find its entry. */
  ghost function CommitOf(r: RibState, u: RibUpdate, es: seq<Emission>): Option<RibState>
  {
    var r' := AppliedState(r, u);
    if Applicable(r'.table, es) then Some(r'.(table := ApplyRecords(r'.table, es))) else None
  }

  /** The update keeps one route per face, is none of the hazards and keeps the capture counters right. */
  ghost predicate SafeUpdate(r: RibState, u: RibUpdate, dead: set<nat>)
  {
    Safe(r.table, u, DeadAfter(dead, u))
  }

  ghost function RibRules(): Rules<RibState, RibUpdate, seq<Emission>>
  {
    Rules(PlanOf, CommitOf, DeadAfter, SafeUpdate)
  }

  lemma PlanOk(r: RibState, u: RibUpdate)
    requires PlanOf(r, u).Some?
    ensures ListsOk(PlanOf(r, u).value.lists)
  {
    var es := Emits(r.table, u).value;
    CoalescedMeaning(es, u.route.face, true);
    CoalescedMeaning(es, u.route.face, false);
  }

  /** With the records computed for the update itself, committing it goes through. */
  lemma CommitIs(r: RibState, u: RibUpdate)
    requires PlanOf(r, u).Some?
    ensures CommitOf(r, u, PlanOf(r, u).value.records) == Some(CommitState(r, u))
  {
    RecordsAlwaysApplicable(r.table, u, PickNext(r.table, u));
    AppliedIsTable(r, u);
  }

  lemma RibRulesOk()
    ensures RulesOk(RibRules())
  {
    forall r, u | RibRules().plan(r, u).Some?
      ensures ListsOk(RibRules().plan(r, u).value.lists)
      ensures RibRules().commit(r, u, RibRules().plan(r, u).value.records).Some?
    {
      PlanOk(r, u);
      CommitIs(r, u);
    }
  }

  lemma AdvanceIs(r: RibState, u: RibUpdate)
    ensures Advance(RibRules(), r, u) == if RibOk(r) && Emits(r.table, u).Some? then CommitState(r, u) else r
  {
    assert RibRules().plan(r, u) == PlanOf(r, u);
    if PlanOf(r, u).Some? {
      CommitIs(r, u);
      assert RibRules().commit(r, u, PlanOf(r, u).value.records) == CommitOf(r, u, PlanOf(r, u).value.records);
    }
  }

  /** Every entry, tree link, face listing and count of the RIB is right after any sequence of committed updates. */
  lemma {:induction false} ReplayKeepsRib(us: seq<RibUpdate>)
    ensures RibOk(Replay(RibRules(), EMPTY, us))
  {
    if us == [] {
    } else {
      var r, u := Replay(RibRules(), EMPTY, us[..|us| - 1]), us[|us| - 1];
      ReplayKeepsRib(us[..|us| - 1]);
      AdvanceIs(r, u);
      if Emits(r.table, u).Some? {
        CommitKeepsRib(r, u);
      }
    }
  }

  // ----- the FIB over whole runs -----

  lemma SafeShrinks(T: Table, u: RibUpdate, dead: set<nat>, dead': set<nat>)
    requires dead <= dead' && Safe(T, u, dead)
    ensures Safe(T, u, dead')
  {
  }

  lemma ConsistentShrinks(T: Table, fib: Fib, dead: set<nat>, dead': set<nat>)
    requires dead <= dead' && Consistent(T, fib, dead)
    ensures Consistent(T, fib, dead')
  {
  }

  lemma DeliverKeeps(t: Trace, e: Event)
    requires e.i < |t.inflight|
    ensures var t' := Deliver(t, e);
            && t'.start == t.start && t'.goal == t.goal && t'.lists.face == t.lists.face && t.dead <= t'.dead
            && (t'.lost == t.lost || (e.response == TimedOut && t.inflight[e.i].u.action == RemoveNextHop))
  {
  }

  /** A batch under way: its update is safe, and the FIB agreed with the RIB when it began. */
  ghost predicate Advancing(T: Table, u: RibUpdate, t: Trace)
  {
    && Consistent(T, t.start, t.dead) && Safe(T, u, t.dead)
    && t.lost == {} && t.lists.face == u.route.face
    && (u.kind == RemoveFace ==> u.route.face in t.dead)
    && Emitted(T, u, None).Some? && t.goal == Delivered(t.start, u, Emitted(T, u, None).value)
  }

  lemma BeginAdvancing(r: RibState, u: RibUpdate, fib: Fib, dead: set<nat>)
    requires RibOk(r) && Consistent(r.table, fib, dead) && SafeUpdate(r, u, dead)
    ensures PlanOf(r, u).Some?
    ensures Advancing(r.table, u, Begin(PlanOf(r, u).value.lists, fib, DeadAfter(dead, u)))
  {
    EmittedDetermined(r.table, u, PickNext(r.table, u));
    StepExact(r.table, u, fib, dead);
  }

  lemma HearAdvancing(T: Table, u: RibUpdate, t: Trace, e: Event)
    requires Advancing(T, u, t) && e.i < |t.inflight|
    requires !(e.response == TimedOut && t.inflight[e.i].u.action == RemoveNextHop)
    ensures Advancing(T, u, Deliver(t, e))
  {
    DeliverKeeps(t, e);
    SafeShrinks(T, u, t.dead, Deliver(t, e).dead);
    ConsistentShrinks(T, t.start, t.dead, Deliver(t, e).dead);
  }

  /** The batch has succeeded: the FIB agrees with the committed RIB. */
  lemma CommitRight(r: RibState, u: RibUpdate, t: Trace)
    requires RibOk(r) && Advancing(r.table, u, t) && Ok(t) && t.successes == 1
    ensures Emits(r.table, u).Some?
    ensures Consistent(CommitState(r, u).table, t.fib, t.dead)
  {
    var T := r.table;
    EmittedDetermined(T, u, PickNext(T, u));
    assert DeadAfter(t.dead, u) == t.dead;
    StepExact(T, u, t.start, t.dead);
    CommitKeepsRib(r, u);
    FibWhenDone(t);
    FibTransfer(CommitState(r, u).table, t.goal, t.fib, t.dead);
  }

  lemma FibTransfer(T: Table, a: Fib, b: Fib, dead: set<nat>)
    requires Consistent(T, a, dead) && forall n, g :: g !in dead ==> Get(b, n, g) == Get(a, n, g)
    ensures Consistent(T, b, dead)
  {
  }

  /** The batch's own face is gone: only that face has been touched, so the FIB still agrees with the unchanged RIB on
      all the faces that are left. */
  lemma FailRight(T: Table, u: RibUpdate, t: Trace, e: Event)
    requires Advancing(T, u, t) && Ok(t) && e.i < |t.inflight|
    requires e.response == FaceNotFound && t.inflight[e.i].u.face == t.lists.face
    ensures Consistent(T, Deliver(t, e).fib, Deliver(t, e).dead)
  {
    var t' := Deliver(t, e);
    ActiveCommand(t, e.i);
    forall n, g | g !in t'.dead
      ensures Get(t'.fib, n, g) == Get(t.start, n, g)
    {
      assert g != t.lists.face;
    }
    FibTransfer(T, t.start, t'.fib, t'.dead);
  }

  /** What is left of a denied batch touches only that batch's face. */
  lemma RestRight(T: Table, t: Trace, e: Event)
    requires Consistent(T, t.fib, t.dead) && Denied(t) && e.i < |t.inflight|
    ensures Consistent(T, Deliver(t, e).fib, Deliver(t, e).dead)
  {
    var t' := Deliver(t, e);
    forall n, g | g !in t'.dead
      ensures Get(t'.fib, n, g) == Get(t.fib, n, g)
    {
      assert g != t.lists.face;
    }
    FibTransfer(T, t.fib, t'.fib, t'.dead);
  }

  /** As long as every dispatched update was safe, no removal timed out and nothing was thrown: nothing crashed, and the
      FIB agrees with the RIB on all live faces whenever nothing is under way. */
  ghost predicate Faithful(s: Sys<RibState, RibUpdate, seq<Emission>>)
  {
    && RibOk(s.rib)
    && (s.clean ==>
          && !s.crashed
          && (if s.busy then s.dispatched != [] && Advancing(s.rib.table, s.dispatched[|s.dispatched| - 1], s.trace)
              else Consistent(s.rib.table, s.trace.fib, s.trace.dead)))
  }

  lemma StartFaithful(s: Sys<RibState, RibUpdate, seq<Emission>>)
    requires Faithful(s) && !s.busy && s.queue != []
    ensures Faithful(Start(RibRules(), s))
  {
    if Start(RibRules(), s).clean {
      BeginAdvancing(s.rib, s.queue[0], s.trace.fib, s.trace.dead);
    }
  }

  lemma CommitFaithful(s: Sys<RibState, RibUpdate, seq<Emission>>)
    requires Faithful(s) && s.busy && s.dispatched != [] && Ok(s.trace) && s.trace.successes == 1
    requires var p := PlanOf(s.rib, s.dispatched[|s.dispatched| - 1]); p.Some? && s.records == p.value.records
    ensures Faithful(Continue(RibRules(), s, Current(s), true))
  {
    var u := s.dispatched[|s.dispatched| - 1];
    CommitIs(s.rib, u);
    assert RibRules().commit(s.rib, u, s.records) == CommitOf(s.rib, u, s.records);
    CommitKeepsRib(s.rib, u);
    if s.clean {
      CommitRight(s.rib, u, s.trace);
    }
  }

  lemma StartDone(s: Sys<RibState, RibUpdate, seq<Emission>>)
    requires s.queue != [] && !Start(RibRules(), s).crashed && Start(RibRules(), s).trace.successes != 0
    ensures var s' := Start(RibRules(), s);
            && Ok(s'.trace) && s'.trace.successes == 1 && s'.busy && s'.rib == s.rib && |s'.queue| == |s.queue| - 1
            && s'.dispatched == s.dispatched + [s.queue[0]]
            && PlanOf(s.rib, s.queue[0]).Some? && s'.records == PlanOf(s.rib, s.queue[0]).value.records
  {
    RibRulesOk();
    StartTrace(RibRules(), s);
    DoneIsQuiet(Start(RibRules(), s).trace);
    assert RibRules().plan(s.rib, s.queue[0]) == PlanOf(s.rib, s.queue[0]);
  }

  /** A batch without FIB updates, dispatched and committed at once. */
  lemma EmptyFaithful(s: Sys<RibState, RibUpdate, seq<Emission>>)
    requires Faithful(s) && !s.busy && s.queue != []
    requires !Start(RibRules(), s).crashed && Start(RibRules(), s).trace.successes != 0
    ensures var s' := Start(RibRules(), s);
            var s'' := Continue(RibRules(), s', Current(s'), true);
            Faithful(s'') && |s''.queue| < |s.queue|
  {
    StartFaithful(s);
    StartDone(s);
    CommitFaithful(Start(RibRules(), s));
  }

  lemma {:induction false} DispatchFaithful(s: Sys<RibState, RibUpdate, seq<Emission>>)
    requires Faithful(s)
    ensures Faithful(Dispatch(RibRules(), s))
    decreases |s.queue|
  {
    DispatchUnfolds(RibRules(), s);
    if s.busy || s.crashed || s.queue == [] {
    } else {
      var s' := Start(RibRules(), s);
      if s'.crashed || s'.trace.successes == 0 {
        StartFaithful(s);
      } else {
        EmptyFaithful(s);
        DispatchFaithful(Continue(RibRules(), s', Current(s'), true));
      }
    }
  }

  lemma HeardFaithful(s: Sys<RibState, RibUpdate, seq<Emission>>, e: Event)
    requires Faithful(s) && s.busy && e.i < |s.trace.inflight|
    ensures Faithful(Heard(s, e))
  {
    if Heard(s, e).clean {
      HearAdvancing(s.rib.table, s.dispatched[|s.dispatched| - 1], s.trace, e);
    }
  }

  lemma BenignFaithful(s: Sys<RibState, RibUpdate, seq<Emission>>, e: Event)
    requires Faithful(s) && s.busy && !s.crashed && UnderWay(RibRules(), s) && e.i < |s.trace.inflight| && Benign(s.trace, e)
    ensures Faithful(Respond(RibRules(), s, e))
  {
    var s' := Heard(s, e);
    var u := s.dispatched[|s.dispatched| - 1];
    HeardFaithful(s, e);
    BenignStep(s.trace, e);
    RespondIs(RibRules(), s, e);
    if s'.trace.successes == 1 {
      assert RibRules().plan(s.rib, u) == PlanOf(s.rib, u);
      CommitFaithful(s');
      DispatchFaithful(Continue(RibRules(), s', Current(s), true));
    }
  }

  lemma BenignStep(t: Trace, e: Event)
    requires Ok(t) && t.successes == 0 && e.i < |t.inflight| && Benign(t, e)
    ensures var t' := Deliver(t, e); Ok(t') && t'.successes <= 1 && t'.failures <= t.failures && !t'.thrown
  {
    DeliverOk(t, e);
  }

  lemma DenialFaithful(s: Sys<RibState, RibUpdate, seq<Emission>>, e: Event)
    requires Faithful(s) && s.busy && !s.crashed && s.dispatched != [] && Ok(s.trace)
    requires e.i < |s.trace.inflight| && Denies(s.trace, e)
    ensures Faithful(Respond(RibRules(), s, e))
  {
    RespondDenied(RibRules(), s, e);
    if Heard(s, e).clean {
      FailRight(s.rib.table, s.dispatched[|s.dispatched| - 1], s.trace, e);
    }
    DispatchFaithful(Continue(RibRules(), Heard(s, e), Current(s), false));
  }

  lemma RestFaithful(s: Sys<RibState, RibUpdate, seq<Emission>>, e: Event)
    requires Faithful(s) && !s.busy && !s.crashed && s.dispatched != [] && s.queue == []
    requires e.i < |s.trace.inflight| && Denied(s.trace) && Quiet(s.trace, e)
    ensures Faithful(Respond(RibRules(), s, e))
  {
    StaysDenied(s.trace, e);
    if Heard(s, e).clean {
      RestRight(s.rib.table, s.trace, e);
    }
  }

  lemma ThrownFaithful(s: Sys<RibState, RibUpdate, seq<Emission>>, e: Event)
    requires Faithful(s) && s.dispatched != [] && e.i < |s.trace.inflight| && !Quiet(s.trace, e)
    ensures Faithful(Respond(RibRules(), s, e))
  {
    RespondThrown(RibRules(), s, e);
  }

  lemma RespondFaithful(s: Sys<RibState, RibUpdate, seq<Emission>>, e: Event)
    requires Faithful(s) && Steady(RibRules(), EMPTY, s) && !s.crashed && Possible(s, Answer(e))
    ensures Faithful(Respond(RibRules(), s, e))
  {
    if !Quiet(s.trace, e) {
      ThrownFaithful(s, e);
    } else if !s.busy {
      RestFaithful(s, e);
    } else if Denies(s.trace, e) {
      DenialFaithful(s, e);
    } else {
      BenignFaithful(s, e);
    }
  }

  const IDLE := Trace(Lists(0, [], []), [], map[], map[], map[], {}, {}, [], 0, 0, false)

  /** The empty RIB, an empty FIB, nothing under way. */
  const INITIAL: Sys<RibState, RibUpdate, seq<Emission>> := Sys(EMPTY, [], false, IDLE, [], [], [], [], [], [], false, true)

  lemma InitialFine()
    ensures Faithful(INITIAL) && Steady(RibRules(), EMPTY, INITIAL)
  {
    EmptyIsRight();
  }

  lemma {:induction false} RunFaithful(s: Sys<RibState, RibUpdate, seq<Emission>>, hs: seq<Happening<RibUpdate>>)
    requires Faithful(s) && Steady(RibRules(), EMPTY, s) && TimelyRun(RibRules(), s, hs)
    ensures PossibleRun(RibRules(), s, hs) && Faithful(EndOf(RibRules(), s, hs))
    decreases |hs|
  {
    if hs == [] {
    } else {
      RibRulesOk();
      HappenSteady(RibRules(), EMPTY, s, hs[0]);
      match hs[0] {
        case Request(us) =>
          DispatchFaithful(s.(queue := s.queue + us, enqueued := s.enqueued + us));
        case Answer(e) =>
          RespondFaithful(s, e);
        case StrayAnswer(_, _, _) =>
      }
      RunFaithful(Happen(RibRules(), s, hs[0]), hs[1..]);
    }
  }

  /** Over every run of requests and responses, in any interleaving, starting from nothing, in which no batch is dispatched
      while commands of a denied one are outstanding: if every dispatched update was safe, no removal timed out and no
      response made the updater throw, then whenever nothing is under way the FIB equals the one recomputed from the RIB on
      every live face, the inheritance records are exact, and the RIB is the sequential application of the batches that
      succeeded. */
  lemma FibFollowsRib(hs: seq<Happening<RibUpdate>>)
    requires TimelyRun(RibRules(), INITIAL, hs)
    ensures PossibleRun(RibRules(), INITIAL, hs)
    ensures var s := EndOf(RibRules(), INITIAL, hs);
            s.clean ==>
              && !s.crashed && RibOk(s.rib) && |s.outcomes| <= |s.dispatched|
              && s.rib == Replay(RibRules(), EMPTY, Chosen(s.dispatched, s.outcomes))
              && (!s.busy ==> s.queue == [] && Consistent(s.rib.table, s.trace.fib, s.trace.dead))
  {
    InitialFine();
    RibRulesOk();
    RunFaithful(INITIAL, hs);
    RunSteady(RibRules(), EMPTY, INITIAL, hs);
  }
}
