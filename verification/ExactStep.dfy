/** Incremental equals recompute: for one update the exact condition, and over whole runs. */
module ExactStep {
  import opened Routes
  import opened RibModel
  import opened RibOps
  import opened Updates
  import opened Compute
  import opened Incremental
  import opened Hazards
  import opened StepInsert
  import opened StepUpdate
  import opened StepSwitch
  import opened StepErase

  /** With one route per face, the updates an update gives rise to are determined. */
  lemma EmittedDetermined(T: Table, u: RibUpdate, next: Option<Route>)
    requires Sound(T) && NextOk(T, u, next)
    ensures Emitted(T, u, next) == Emitted(T, u, None)
  {
    if u.kind != Register && Holds(T, u.name, u.route) {
      NoSecondRoute(T, u.name, u.route, next);
    }
  }

  lemma AppliedCounters(T: Table, u: RibUpdate)
    requires CountersOk(T)
    ensures CountersOk(Applied(T, u)) <==> !Drifts(T, u)
  {
    if u.kind == Register {
      InsertCounters(T, u.name, u.route);
    } else {
      EraseCounters(T, u.name, u.route);
    }
  }

  /** Every update keeps the shape of the RIB, and the counters exactly when it does not change the capture bit of a route
      that is there. */
  lemma CommittedShape(T: Table, u: RibUpdate, es: seq<Emission>)
    requires Shaped(T) && CountersOk(T) && KeepsOnePerFace(T, u) && Applicable(Applied(T, u), es)
    ensures Shaped(Committed(T, u, es)) && (CountersOk(Committed(T, u, es)) <==> !Drifts(T, u))
  {
    AppliedFrame(T, u);
    AppliedShape(T, u);
    AppliedCounters(T, u);
    CommitKeepsShape(Applied(T, u), es);
  }

  /** The steps that leave the counters right: the whole RIB and the FIB are right exactly without a hazard. */
  lemma UndriftedStep(T: Table, u: RibUpdate, fib: Fib, dead: set<nat>)
    requires Consistent(T, fib, dead) && KeepsOnePerFace(T, u) && !Drifts(T, u)
    ensures var es := Emitted(T, u, None);
            es.Some? && Applicable(Applied(T, u), es.value) &&
            (Consistent(Committed(T, u, es.value), Delivered(fib, u, es.value), DeadAfter(dead, u)) <==>
             !Hazard(T, u, DeadAfter(dead, u)))
  {
    if u.kind != Register {
      if Holds(T, u.name, u.route) {
        EraseStep(T, u, fib, dead);
      } else {
        NothingStep(T, u, fib, dead);
      }
    } else if u.name !in T {
      NewEntryStep(T, u, fib, dead);
    } else if !Holds(T, u.name, u.route) {
      NewRouteStep(T, u, fib, dead);
    } else {
      UpdateStep(T, u, fib, dead);
    }
  }

  /** When FIB and inheritance records are what recomputing them from the routes gives, they are so again after an update
      has been computed, delivered and committed exactly when the update is none of the hazards; and the capture counters
      are right again exactly when it does not change the capture bit of a route that is there. */
  lemma StepExact(T: Table, u: RibUpdate, fib: Fib, dead: set<nat>)
    requires Consistent(T, fib, dead) && KeepsOnePerFace(T, u)
    ensures Emitted(T, u, None).Some? && Applicable(Applied(T, u), Emitted(T, u, None).value)
    ensures var es := Emitted(T, u, None).value;
            var T', fib', dead' := Committed(T, u, es), Delivered(fib, u, es), DeadAfter(dead, u);
            && (Agrees(T', fib', dead') <==> !Hazard(T, u, dead'))
            && (CountersOk(T') <==> !Drifts(T, u))
            && (Consistent(T', fib', dead') <==> !Hazard(T, u, dead') && !Drifts(T, u))
  {
    if Drifts(T, u) {
      SwitchStep(T, u, fib, dead);
    } else {
      UndriftedStep(T, u, fib, dead);
    }
    var es := Emitted(T, u, None).value;
    CommittedShape(T, u, es);
    ConsistentParts(Committed(T, u, es), Delivered(fib, u, es), DeadAfter(dead, u));
  }

  // ----- whole runs -----

  /** The RIB, the forwarder's FIB, and the faces known to be gone. */
  datatype World = World(table: Table, fib: Fib, dead: set<nat>)

  ghost predicate Right(w: World)
  {
    Consistent(w.table, w.fib, w.dead)
  }

  /** The update is computed, all its FIB commands are carried out, and the RIB commits it. */
  ghost function Step(w: World, u: RibUpdate): World
    requires Right(w) && KeepsOnePerFace(w.table, u)
  {
    StepExact(w.table, u, w.fib, w.dead);
    var es := Emitted(w.table, u, None).value;
    World(Committed(w.table, u, es), Delivered(w.fib, u, es), DeadAfter(w.dead, u))
  }

  /** The update keeps one route per face and the capture bits, and is no hazard. */
  ghost predicate Safe(T: Table, u: RibUpdate, dead: set<nat>)
  {
    KeepsOnePerFace(T, u) && !Drifts(T, u) && !Hazard(T, u, dead)
  }

  /** Every update of the run is safe in the state it finds. */
  ghost predicate SafeRun(w: World, us: seq<RibUpdate>)
    requires Right(w)
    decreases |us|
  {
    us == [] ||
    (Safe(w.table, us[0], DeadAfter(w.dead, us[0])) &&
     (StepExact(w.table, us[0], w.fib, w.dead); SafeRun(Step(w, us[0]), us[1..])))
  }

  ghost function Finish(w: World, us: seq<RibUpdate>): World
    requires Right(w) && SafeRun(w, us)
    decreases |us|
  {
    if us == [] then w
    else
      StepExact(w.table, us[0], w.fib, w.dead);
      Finish(Step(w, us[0]), us[1..])
  }

  lemma EmptyIsRight()
    ensures Right(World(map[], map[], {}))
  {
  }

  /** In every run without hazards the FIB equals the recomputed one, on every live face, after every update. */
  lemma {:induction false} RunIsRight(w: World, us: seq<RibUpdate>)
    requires Right(w) && SafeRun(w, us)
    ensures Right(Finish(w, us))
    decreases |us|
  {
    if us == [] {
    } else {
      StepExact(w.table, us[0], w.fib, w.dead);
      RunIsRight(Step(w, us[0]), us[1..]);
    }
  }

  /** The restricted runs of the design: new names, and re-registration or removal that has nothing to do with capture,
      each name having one route. */
  predicate Plain(T: Table, u: RibUpdate)
  {
    && (u.name in T ==> |T[u.name].routes| == 1 && !T[u.name].routes[0].flags.capture)
    && (u.kind == Register && u.name in T ==>
          Holds(T, u.name, u.route) && !u.route.flags.capture && u.route.flags.rest == T[u.name].routes[0].flags.rest)
  }

  /** Runs in which each prefix holds at most one route, and capturing routes are neither removed nor registered
      again, contain no hazard. */
  lemma PlainIsSafe(w: World, u: RibUpdate)
    requires Right(w) && Plain(w.table, u)
    ensures Safe(w.table, u, DeadAfter(w.dead, u))
  {
    var T, p := w.table, u.name;
    if p in T {
      CountPositive(T[p].routes);
      assert T[p].captures == CountCaptures(T[p].routes);
      assert !HasCapture(T[p]);
    }
  }

  ghost predicate PlainRun(w: World, us: seq<RibUpdate>)
    requires Right(w)
    decreases |us|
  {
    us == [] ||
    (Plain(w.table, us[0]) &&
     (PlainIsSafe(w, us[0]); StepExact(w.table, us[0], w.fib, w.dead); PlainRun(Step(w, us[0]), us[1..])))
  }

  /** So in all those runs the FIB and the records are the recomputed ones after every update. */
  lemma {:induction false} PlainRunIsRight(w: World, us: seq<RibUpdate>)
    requires Right(w) && PlainRun(w, us)
    ensures SafeRun(w, us) && Right(Finish(w, us))
    decreases |us|
  {
    if us == [] {
    } else {
      PlainIsSafe(w, us[0]);
      StepExact(w.table, us[0], w.fib, w.dead);
      PlainRunIsRight(Step(w, us[0]), us[1..]);
    }
  }
}
