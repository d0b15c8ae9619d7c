/** Registering a route that is new: the first of its name, or one more on an existing entry. */
module StepInsert {
  import opened Names
  import opened Routes
  import opened RibModel
  import opened RibOps
  import opened Inheritance
  import opened Updates
  import opened Propagation
  import opened Compute
  import opened CommitSafety
  import opened Incremental
  import opened Hazards

  // ----- a new entry -----

  /** What a new entry pushes down. */
  function NewEntryPush(T: Table, p: Name, r: Route): (x: (seq<Route>, seq<Route>))
    requires TreeOk(T)
    ensures FaceSorted(x.0) && FaceSorted(x.1)
  {
    var above := AncestorRoutes(T, p);
    if !r.flags.childInherit && !r.flags.capture then ([], [])
    else if r.flags.childInherit && r.flags.capture then ([r], above)
    else if r.flags.childInherit then (InsertFace(EraseFace(above, r.face), r), [])
    else ([], above)
  }

  lemma NewEntryEffect(T: Table, p: Name, r: Route, d: Name, g: nat)
    requires TreeOk(T) && p !in T
    ensures AllBelow(T, p, PredictedChildren(T, p))
    ensures var es, push := ForNewEntry(T, p, r, PredictedChildren(T, p)), NewEntryPush(T, p, r);
            var gained := if !r.flags.capture && g != r.face && FromAbove(T, p, g).Some?
                          then Set(FromAbove(T, p, g).value.cost) else Keep;
            && (d != p ==> HopEffect(es, d, g) == RecordEffect(es, d, g) == DownEffect(T, p, push.0, push.1, d, g))
            && (d == p ==> HopEffect(es, d, g) == if g == r.face then Set(r.cost) else gained)
            && (d == p ==> RecordEffect(es, d, g) == gained)
  {
    var cs, above, push := PredictedChildren(T, p), AncestorRoutes(T, p), NewEntryPush(T, p, r);
    PredictedAreTop(T, p);
    AncestorRoutesFind(T, p, g);
    GainedByNameIsByEntry(p, above, r);
    GainedByEntryEffect(p, NewEntry(r), above, d, g);
    var own, gained := [Hop(AddUpdate(p, r.face, r.cost))], GainedByName(p, above, r);
    EffectOfOne(own[0], d, g);
    PushDownReachAll(T, p, cs, push.0, push.1, d, g);
    var down := PushDown(T, p, cs, push.0, push.1);
    EffectConcat(own, gained, d, g);
    EffectConcat(own, down, d, g);
    EffectConcat(own, gained + down, d, g);
    EffectConcat(gained, down, d, g);
  }

  lemma NewEntryPassed(T: Table, p: Name, r: Route, g: nat)
    requires TreeOk(T) && p !in T
    ensures PassedDown(InsertTable(T, p, r), p, g) ==
            if r.flags.childInherit && g == r.face then Some(r) else if r.flags.capture then None else FromAbove(T, p, g)
    ensures FromAbove(InsertTable(T, p, r), p, g) == FromAbove(T, p, g)
  {
    var U := InsertTable(T, p, r);
    AppliedFrame(T, RibUpdate(Register, p, r));
    FromAboveAtChanged(T, U, p, g);
    InsertElsewhere(T, p, r);
    assert U[p].routes == [r];
  }

  lemma NewEntryPushRight(T: Table, p: Name, r: Route, dead: set<nat>, g: nat)
    requires TreeOk(T) && p !in T
    ensures var push := NewEntryPush(T, p, r);
            PushRightOn(T, InsertTable(T, p, r), p, push.0, push.1, dead, g)
  {
    NewEntryPassed(T, p, r, g);
    AncestorRoutesFind(T, p, g);
    assert FindFace([r], g) == if g == r.face then Some(r) else None;
    assert PassedDown(T, p, g) == FromAbove(T, p, g);
  }

  lemma NewEntryOwn(T: Table, p: Name, r: Route, g: nat)
    requires TreeOk(T) && p !in T
    ensures AllBelow(T, p, PredictedChildren(T, p))
    ensures var es, U := ForNewEntry(T, p, r, PredictedChildren(T, p)), InsertTable(T, p, r);
            && After(Wanted(T, p, g), HopEffect(es, p, g)) == Wanted(U, p, g)
            && Recorded(HasInherited(U[p], g), RecordEffect(es, p, g)) == Inherits(U, p, g)
  {
    var U := InsertTable(T, p, r);
    NewEntryEffect(T, p, r, p, g);
    NewEntryPassed(T, p, r, g);
    InsertElsewhere(T, p, r);
    assert U[p].routes == [r] && U[p].inherited == [];
    QueriesAgree([r], g);
  }

  lemma NewEntryParts(T: Table, p: Name, r: Route, dead: set<nat>)
    requires TreeOk(T) && p !in T
    ensures AllBelow(T, p, PredictedChildren(T, p))
    ensures var es, U, push := ForNewEntry(T, p, r, PredictedChildren(T, p)), InsertTable(T, p, r), NewEntryPush(T, p, r);
            && PushesDown(T, p, es, push.0, push.1) && OwnHopsRight(T, U, p, es) && OwnRecordsRight(U, p, es)
            && PushRight(T, U, p, push.0, push.1, dead)
  {
    PredictedBelow(T, p);
    var es, U, push := ForNewEntry(T, p, r, PredictedChildren(T, p)), InsertTable(T, p, r), NewEntryPush(T, p, r);
    InsertElsewhere(T, p, r);
    forall d, g
      ensures d != p ==> HopEffect(es, d, g) == DownEffect(T, p, push.0, push.1, d, g) &&
                         RecordEffect(es, d, g) == DownEffect(T, p, push.0, push.1, d, g)
    {
      NewEntryEffect(T, p, r, d, g);
    }
    forall g
      ensures After(Wanted(T, p, g), HopEffect(es, p, g)) == Wanted(U, p, g)
      ensures Recorded(HasInherited(U[p], g), RecordEffect(es, p, g)) == Inherits(U, p, g)
    {
      NewEntryOwn(T, p, r, g);
    }
    forall d, g | Affected(T, p, d, g)
      ensures PushRightOn(T, U, p, push.0, push.1, dead, g)
    {
      NewEntryPushRight(T, p, r, dead, g);
    }
  }

  /** Inserting the first route of a name is always right. */
  lemma NewEntryStep(T: Table, u: RibUpdate, fib: Fib, dead: set<nat>)
    requires Consistent(T, fib, dead) && u.kind == Register && u.name !in T
    ensures var es := Emitted(T, u, None);
            es.Some? && Applicable(Applied(T, u), es.value) &&
            Consistent(Committed(T, u, es.value), Delivered(fib, u, es.value), dead)
  {
    var push := NewEntryPush(T, u.name, u.route);
    RecordsAlwaysApplicable(T, u, None);
    AppliedFrame(T, u);
    AppliedShape(T, u);
    InsertCounters(T, u.name, u.route);
    NewEntryParts(T, u.name, u.route, dead);
    StepFromParts(T, Applied(T, u), u, Emitted(T, u, None).value, push.0, push.1, fib, dead);
  }

  // ----- a new route on an existing entry -----

  predicate CaptureTurnsOn(T: Table, p: Name, r: Route)
    requires p in T
  {
    !HasCapture(T[p]) && r.flags.capture
  }

  /** The route is on a face the entry has no route on. */
  ghost predicate NewFace(T: Table, p: Name, r: Route)
  {
    TreeOk(T) && p in T && OnePerFace(T[p].routes) && !HasFace(T[p], r.face)
  }

  function NewRoutePush(T: Table, p: Name, r: Route): (x: (seq<Route>, seq<Route>))
    requires TreeOk(T) && p in T
    ensures FaceSorted(x.0) && FaceSorted(x.1)
  {
    (if r.flags.childInherit then [r] else [], if CaptureTurnsOn(T, p, r) then AncestorRoutes(T, p) else [])
  }

  lemma NewRouteEffect(T: Table, p: Name, r: Route, d: Name, g: nat)
    requires NewFace(T, p, r)
    ensures var es, push := ForNewRoute(T, p, T[p], r, CaptureTurnsOn(T, p, r)), NewRoutePush(T, p, r);
            var lost := if CaptureTurnsOn(T, p, r) && FromAbove(T, p, g).Some? && HasInherited(T[p], g) then Clear else Keep;
            && (d != p ==> HopEffect(es, d, g) == RecordEffect(es, d, g) == DownEffect(T, p, push.0, push.1, d, g))
            && (d == p ==> HopEffect(es, d, g) == if g == r.face then Set(r.cost) else lost)
            && (d == p ==> RecordEffect(es, d, g) == lost)
  {
    var e, push := T[p], NewRoutePush(T, p, r);
    QueriesAgree(e.routes, r.face);
    ChildrenAreTop(T, p);
    WalksAgree(T, p);
    AncestorRoutesFind(T, p, g);
    var lost, down, own := LostByEntry(p, e, push.1), PushDown(T, p, e.children, push.0, push.1), [Hop(AddUpdate(p, r.face, r.cost))];
    LostByEntryEffect(p, e, push.1, d, g);
    PushDownReachAll(T, p, e.children, push.0, push.1, d, g);
    EffectOfOne(own[0], d, g);
    EffectConcat(lost, down, d, g);
    EffectConcat(lost + down, own, d, g);
    assert ForNewRoute(T, p, e, r, CaptureTurnsOn(T, p, r)) == lost + down + own;
  }

  lemma NewRouteTable(T: Table, p: Name, r: Route, g: nat)
    requires NewFace(T, p, r) && !Holds(T, p, r)
    ensures var U := InsertTable(T, p, r);
            && U[p].inherited == T[p].inherited
            && FindFace(U[p].routes, g) == (if g == r.face then Some(r) else FindFace(T[p].routes, g))
            && OnePerFace(U[p].routes)
            && Offer(U, p, g) == (if g != r.face then Offer(T, p, g) else if r.flags.childInherit then Some(r) else None)
            && HasCapture(U[p]) == (HasCapture(T[p]) || r.flags.capture)
            && FromAbove(U, p, g) == FromAbove(T, p, g)
    ensures Offer(T, p, r.face) == None
  {
    var U := InsertTable(T, p, r);
    AppliedFrame(T, RibUpdate(Register, p, r));
    FromAboveAtChanged(T, U, p, g);
    AppendFinds(T[p].routes, r, g);
    QueriesAgree(T[p].routes, r.face);
  }

  /** What changes at `p` on face `g` when `r` is added there, in terms of the tables before and after. */
  ghost predicate RouteAdded(T: Table, U: Table, p: Name, r: Route, g: nat)
  {
    && p in T && p in U
    && U[p].inherited == T[p].inherited
    && FindFace(U[p].routes, g) == (if g == r.face then Some(r) else FindFace(T[p].routes, g))
    && Lowest(T[p].routes, g, false) == FindFace(T[p].routes, g)
    && Lowest(U[p].routes, g, false) == FindFace(U[p].routes, g)
    && Offer(U, p, g) == (if g != r.face then Offer(T, p, g) else if r.flags.childInherit then Some(r) else None)
    && (g == r.face ==> Offer(T, p, g) == None && !HasFace(T[p], g))
    && HasCapture(U[p]) == (HasCapture(T[p]) || r.flags.capture)
    && FromAbove(U, p, g) == FromAbove(T, p, g)
  }

  lemma NewRouteAdded(T: Table, p: Name, r: Route, g: nat)
    requires NewFace(T, p, r) && !Holds(T, p, r)
    ensures RouteAdded(T, InsertTable(T, p, r), p, r, g)
  {
    var U := InsertTable(T, p, r);
    NewRouteTable(T, p, r, g);
    QueriesAgree(T[p].routes, g);
    QueriesAgree(U[p].routes, g);
  }

  lemma NewRouteOwn(T: Table, U: Table, p: Name, r: Route, g: nat, hop: Effect, record: Effect)
    requires RouteAdded(T, U, p, r, g)
    requires HasInherited(T[p], g) <==> Inherits(T, p, g)
    requires record == if CaptureTurnsOn(T, p, r) && FromAbove(T, p, g).Some? && HasInherited(T[p], g) then Clear else Keep
    requires hop == if g == r.face then Set(r.cost) else record
    ensures After(Wanted(T, p, g), hop) == Wanted(U, p, g)
    ensures Recorded(HasInherited(U[p], g), record) == Inherits(U, p, g) <==>
            !(g == r.face && !CaptureTurnsOn(T, p, r) && HasInherited(T[p], g))
  {
  }

  lemma NewRoutePushRight(T: Table, U: Table, p: Name, r: Route, add: seq<Route>, remove: seq<Route>, dead: set<nat>, g: nat)
    requires RouteAdded(T, U, p, r, g)
    requires FindFace(add, g) == if r.flags.childInherit && g == r.face then Some(r) else None
    requires FindFace(remove, g) == if CaptureTurnsOn(T, p, r) then FromAbove(T, p, g) else None
    ensures PushRightOn(T, U, p, add, remove, dead, g) <==>
            !(CaptureTurnsOn(T, p, r) && FromAbove(T, p, g).Some? && Offer(T, p, g).Some?)
  {
  }

  lemma NewRoutePushFinds(T: Table, p: Name, r: Route, g: nat)
    requires TreeOk(T) && p in T
    ensures FindFace(NewRoutePush(T, p, r).0, g) == if r.flags.childInherit && g == r.face then Some(r) else None
    ensures FindFace(NewRoutePush(T, p, r).1, g) == if CaptureTurnsOn(T, p, r) then FromAbove(T, p, g) else None
  {
    AncestorRoutesFind(T, p, g);
  }

  lemma NewRouteParts(T: Table, p: Name, r: Route, dead: set<nat>)
    requires NewFace(T, p, r) && !Holds(T, p, r) && RecordsAgree(T)
    ensures var es, U, push := ForNewRoute(T, p, T[p], r, CaptureTurnsOn(T, p, r)), InsertTable(T, p, r), NewRoutePush(T, p, r);
            && PushesDown(T, p, es, push.0, push.1) && OwnHopsRight(T, U, p, es)
            && (OwnRecordsRight(U, p, es) <==> !StaleRecord(T, p, r))
            && (PushRight(T, U, p, push.0, push.1, dead) <==> !StripsOwnOffer(T, p, r))
  {
    var es, U, push := ForNewRoute(T, p, T[p], r, CaptureTurnsOn(T, p, r)), InsertTable(T, p, r), NewRoutePush(T, p, r);
    InsertElsewhere(T, p, r);
    forall d, g
      ensures d != p ==> HopEffect(es, d, g) == DownEffect(T, p, push.0, push.1, d, g) &&
                         RecordEffect(es, d, g) == DownEffect(T, p, push.0, push.1, d, g)
    {
      NewRouteEffect(T, p, r, d, g);
    }
    forall g
      ensures After(Wanted(T, p, g), HopEffect(es, p, g)) == Wanted(U, p, g)
      ensures Recorded(HasInherited(U[p], g), RecordEffect(es, p, g)) == Inherits(U, p, g) <==>
              !(g == r.face && !CaptureTurnsOn(T, p, r) && HasInherited(T[p], g))
    {
      NewRouteAdded(T, p, r, g);
      NewRouteEffect(T, p, r, p, g);
      NewRouteOwn(T, U, p, r, g, HopEffect(es, p, g), RecordEffect(es, p, g));
    }
    forall g
      ensures PushRightOn(T, U, p, push.0, push.1, dead, g) <==>
              !(CaptureTurnsOn(T, p, r) && FromAbove(T, p, g).Some? && Offer(T, p, g).Some?)
    {
      NewRouteAdded(T, p, r, g);
      NewRoutePushFinds(T, p, r, g);
      NewRoutePushRight(T, U, p, r, push.0, push.1, dead, g);
    }
  }

  /** One more route on an existing entry is right exactly when it leaves no stale record and strips no own offer. */
  lemma NewRouteStep(T: Table, u: RibUpdate, fib: Fib, dead: set<nat>)
    requires Consistent(T, fib, dead) && u.kind == Register && KeepsOnePerFace(T, u)
    requires u.name in T && !Holds(T, u.name, u.route)
    ensures var es := Emitted(T, u, None);
            es.Some? && Applicable(Applied(T, u), es.value) &&
            (Consistent(Committed(T, u, es.value), Delivered(fib, u, es.value), dead) <==>
             !StaleRecord(T, u.name, u.route) && !StripsOwnOffer(T, u.name, u.route))
  {
    var push := NewRoutePush(T, u.name, u.route);
    RecordsAlwaysApplicable(T, u, None);
    AppliedFrame(T, u);
    AppliedShape(T, u);
    InsertCounters(T, u.name, u.route);
    NewRouteParts(T, u.name, u.route, dead);
    StepFromParts(T, Applied(T, u), u, Emitted(T, u, None).value, push.0, push.1, fib, dead);
  }
}
