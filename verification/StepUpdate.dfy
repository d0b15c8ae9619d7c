/** Registering a route that is already there. */
module StepUpdate {
  import opened Names
  import opened Routes
  import opened RibModel
  import opened RibOps
  import opened Inheritance
  import opened Updates
  import opened Propagation
  import opened Compute
  import opened CommitSafety
  import opened Incremental
  import opened Hazards

  /** The copy of the entry with the route overwritten. */
  function Copy(T: Table, p: Name, r: Route): Entry
    requires Holds(T, p, r)
  {
    T[p].(routes := T[p].routes[FindRoute(T[p].routes, r.face, r.origin) := r])
  }

  ghost predicate Replaceable(T: Table, p: Name, r: Route)
  {
    TreeOk(T) && Holds(T, p, r) && OnePerFace(T[p].routes)
  }

  lemma CopyQueries(T: Table, p: Name, r: Route)
    requires Replaceable(T, p, r)
    ensures CopyOf(T, p, Copy(T, p, r)) && r in Copy(T, p, r).routes
    ensures Lowest(Copy(T, p, r).routes, r.face, false) == Some(r)
    ensures Lowest(Copy(T, p, r).routes, r.face, true) == if r.flags.childInherit then Some(r) else None
  {
    var i := FindRoute(T[p].routes, r.face, r.origin);
    ReplaceFinds(T[p].routes, i, r, r.face);
    OneOnFace(Copy(T, p, r).routes, i);
    assert Copy(T, p, r).routes[i] == r;
  }

  /** What the update pushes down when the capture bit stays the same. */
  function UpdatePush(T: Table, p: Name, was: Route, r: Route): (x: (seq<Route>, seq<Route>))
    ensures FaceSorted(x.0) && FaceSorted(x.1)
  {
    if r.flags == was.flags && r.cost == was.cost then ([], [])
    else if r.flags == was.flags && r.flags.childInherit then ([r], [])
    else if !was.flags.childInherit && r.flags.childInherit then ([r], [])
    else if was.flags.childInherit && !r.flags.childInherit then
      (if FromAbove(T, p, r.face).Some? then [FromAbove(T, p, r.face).value] else [], [r])
    else ([], [])
  }

  function OwnHop(p: Name, was: Route, r: Route): seq<Emission>
  {
    if r.cost == was.cost then [] else [Hop(AddUpdate(p, r.face, r.cost))]
  }

  lemma CopyOwnHop(T: Table, p: Name, r: Route)
    requires Replaceable(T, p, r)
    ensures r in Copy(T, p, r).routes
    ensures OwnHopUpdate(p, Copy(T, p, r), r, Existing(T, p, r)) == Some(OwnHop(p, Existing(T, p, r), r))
  {
    CopyQueries(T, p, r);
  }

  lemma CopyInheritChange(T: Table, p: Name, r: Route)
    requires Replaceable(T, p, r)
    ensures CopyOf(T, p, Copy(T, p, r)) && AllBelow(T, p, T[p].children)
    ensures var was, push := Existing(T, p, r), UpdatePush(T, p, Existing(T, p, r), r);
            was.flags.childInherit != r.flags.childInherit ==>
              InheritChange(T, p, Copy(T, p, r), r, was) == PushDown(T, p, T[p].children, push.0, push.1)
    ensures Existing(T, p, r).flags.childInherit == r.flags.childInherit ==>
              InheritChange(T, p, Copy(T, p, r), r, Existing(T, p, r)) == []
  {
    CopyQueries(T, p, r);
    ChildrenBelow(T, p);
    CopyIsLinked(T, p, Copy(T, p, r));
    AncestorRoutesFind(T, p, r.face);
    assert AncestorRoutesOfEntry(T, Copy(T, p, r)) == AncestorRoutes(T, p);
  }

  lemma RegistersCopy(T: Table, p: Name, r: Route)
    requires Replaceable(T, p, r)
    ensures CopyOf(T, p, Copy(T, p, r)) && r in Copy(T, p, r).routes
    ensures ForRegistration(T, p, r) == ForUpdatedRoute(T, p, Copy(T, p, r), r, Existing(T, p, r))
  {
    CopyQueries(T, p, r);
  }

  lemma UpdateEmits(T: Table, p: Name, r: Route)
    requires Replaceable(T, p, r) && Existing(T, p, r).flags.capture == r.flags.capture
    ensures AllBelow(T, p, T[p].children)
    ensures ForRegistration(T, p, r).Some?
    ensures var was := Existing(T, p, r);
            var push := UpdatePush(T, p, was, r);
            var down := PushDown(T, p, T[p].children, push.0, push.1);
            ForRegistration(T, p, r).value == OwnHop(p, was, r) + down ||
            (push == ([], []) && ForRegistration(T, p, r).value == OwnHop(p, was, r))
  {
    var was, copy := Existing(T, p, r), Copy(T, p, r);
    RegistersCopy(T, p, r);
    CopyQueries(T, p, r);
    CopyOwnHop(T, p, r);
    CopyInheritChange(T, p, r);
    var own := OwnHop(p, was, r);
    var inherit := InheritChange(T, p, copy, r, was);
    assert CaptureChange(T, p, copy, r, was) == [];
    assert own + inherit + [] == own + inherit;
    assert own + [] == own;
  }

  lemma UpdateEffect(T: Table, p: Name, r: Route, d: Name, g: nat)
    requires Replaceable(T, p, r) && Existing(T, p, r).flags.capture == r.flags.capture
    ensures ForRegistration(T, p, r).Some?
    ensures var es, was := ForRegistration(T, p, r).value, Existing(T, p, r);
            var push := UpdatePush(T, p, was, r);
            && (d != p ==> HopEffect(es, d, g) == RecordEffect(es, d, g) == DownEffect(T, p, push.0, push.1, d, g))
            && (d == p ==> HopEffect(es, d, g) == if r.cost != was.cost && g == r.face then Set(r.cost) else Keep)
            && (d == p ==> RecordEffect(es, d, g) == Keep)
  {
    UpdateEmits(T, p, r);
    var es, was := ForRegistration(T, p, r).value, Existing(T, p, r);
    var push := UpdatePush(T, p, was, r);
    ChildrenAreTop(T, p);
    PushDownReachAll(T, p, T[p].children, push.0, push.1, d, g);
    var own, down := OwnHop(p, was, r), PushDown(T, p, T[p].children, push.0, push.1);
    EffectConcat(own, down, d, g);
    EffectOfOne(Hop(AddUpdate(p, r.face, r.cost)), d, g);
  }

  /** What changes at `p` on face `g` when `was` is overwritten by `r`, in terms of the tables before and after. */
  ghost predicate RouteReplaced(T: Table, U: Table, p: Name, was: Route, r: Route, g: nat)
  {
    && p in T && p in U && was.face == r.face
    && U[p].inherited == T[p].inherited && U[p].captures == T[p].captures
    && Lowest(T[p].routes, g, false) == FindFace(T[p].routes, g)
    && Lowest(U[p].routes, g, false) == FindFace(U[p].routes, g)
    && FromAbove(U, p, g) == FromAbove(T, p, g)
    && (g != r.face ==> FindFace(U[p].routes, g) == FindFace(T[p].routes, g) && Offer(U, p, g) == Offer(T, p, g))
    && (g == r.face ==> FindFace(T[p].routes, g) == Some(was) && FindFace(U[p].routes, g) == Some(r))
    && (g == r.face ==> Offer(T, p, g) == (if was.flags.childInherit then Some(was) else None))
    && (g == r.face ==> Offer(U, p, g) == (if r.flags.childInherit then Some(r) else None))
  }

  lemma UpdateReplaced(T: Table, p: Name, r: Route, g: nat)
    requires Replaceable(T, p, r)
    ensures RouteReplaced(T, InsertTable(T, p, r), p, Existing(T, p, r), r, g)
  {
    var U, i := InsertTable(T, p, r), FindRoute(T[p].routes, r.face, r.origin);
    AppliedFrame(T, RibUpdate(Register, p, r));
    FromAboveAtChanged(T, U, p, g);
    ReplaceFinds(T[p].routes, i, r, g);
    QueriesAgree(T[p].routes, g);
    QueriesAgree(U[p].routes, g);
    OneOnFace(T[p].routes, i);
  }

  lemma UpdateOwn(T: Table, U: Table, p: Name, was: Route, r: Route, g: nat, hop: Effect)
    requires RouteReplaced(T, U, p, was, r, g)
    requires HasInherited(T[p], g) <==> Inherits(T, p, g)
    requires hop == if r.cost != was.cost && g == r.face then Set(r.cost) else Keep
    ensures After(Wanted(T, p, g), hop) == Wanted(U, p, g)
    ensures HasInherited(U[p], g) == Inherits(U, p, g)
  {
  }

  ghost predicate Spoils(T: Table, p: Name, was: Route, r: Route, dead: set<nat>)
    requires p in T
  {
    || (was.flags.childInherit && !r.flags.childInherit && HasCapture(T[p]) && FromAbove(T, p, r.face).Some?)
    || (was.flags.childInherit && r.flags.childInherit && was.flags != r.flags && was.cost != r.cost && r.face !in dead)
  }

  lemma UpdatePushFinds(T: Table, p: Name, was: Route, r: Route, g: nat)
    requires was.face == r.face
    ensures var push := UpdatePush(T, p, was, r);
            var changed := r.flags != was.flags || r.cost != was.cost;
            && FindFace(push.0, g) == (
                 if g != r.face || !changed then None
                 else if r.flags.childInherit then (if was.flags.childInherit && r.flags != was.flags then None else Some(r))
                 else if was.flags.childInherit then FromAbove(T, p, r.face)
                 else None)
            && FindFace(push.1, g) == (if g == r.face && was.flags.childInherit && !r.flags.childInherit then Some(r) else None)
  {
    assert FindFace([r], g) == if g == r.face then Some(r) else None;
    if FromAbove(T, p, r.face).Some? {
      var a := FromAbove(T, p, r.face).value;
      assert FindFace([a], g) == if g == a.face then Some(a) else None;
    }
  }

  lemma UpdatePushRight(T: Table, U: Table, p: Name, was: Route, r: Route, dead: set<nat>, g: nat)
    requires RouteReplaced(T, U, p, was, r, g)
    ensures var push := UpdatePush(T, p, was, r);
            PushRightOn(T, U, p, push.0, push.1, dead, g) <==> !(g == r.face && Spoils(T, p, was, r, dead))
  {
    UpdatePushFinds(T, p, was, r, g);
  }

  lemma UpdateParts(T: Table, p: Name, r: Route, dead: set<nat>)
    requires Replaceable(T, p, r) && RecordsAgree(T) && Existing(T, p, r).flags.capture == r.flags.capture
    ensures ForRegistration(T, p, r).Some?
    ensures var es, U, was := ForRegistration(T, p, r).value, InsertTable(T, p, r), Existing(T, p, r);
            var push := UpdatePush(T, p, was, r);
            && PushesDown(T, p, es, push.0, push.1) && OwnHopsRight(T, U, p, es) && OwnRecordsRight(U, p, es)
            && (PushRight(T, U, p, push.0, push.1, dead) <==> !LeaksPastCapture(T, p, was, r) && !MissesCost(T, p, was, r, dead))
  {
    UpdateEmits(T, p, r);
    var es, U, was := ForRegistration(T, p, r).value, InsertTable(T, p, r), Existing(T, p, r);
    var push := UpdatePush(T, p, was, r);
    forall d, g
      ensures d != p ==> HopEffect(es, d, g) == DownEffect(T, p, push.0, push.1, d, g) &&
                         RecordEffect(es, d, g) == DownEffect(T, p, push.0, push.1, d, g)
    {
      UpdateEffect(T, p, r, d, g);
    }
    forall g
      ensures After(Wanted(T, p, g), HopEffect(es, p, g)) == Wanted(U, p, g)
      ensures Recorded(HasInherited(U[p], g), RecordEffect(es, p, g)) == Inherits(U, p, g)
    {
      UpdateReplaced(T, p, r, g);
      UpdateEffect(T, p, r, p, g);
      UpdateOwn(T, U, p, was, r, g, HopEffect(es, p, g));
    }
    forall g
      ensures PushRightOn(T, U, p, push.0, push.1, dead, g) <==> !(g == r.face && Spoils(T, p, was, r, dead))
    {
      UpdateReplaced(T, p, r, g);
      UpdatePushRight(T, U, p, was, r, dead, g);
    }
  }

  /** Overwriting a route with the same capture bit is right exactly when it neither leaks past a capturing entry nor
      misses a cost. */
  lemma UpdateStep(T: Table, u: RibUpdate, fib: Fib, dead: set<nat>)
    requires Consistent(T, fib, dead) && u.kind == Register && Holds(T, u.name, u.route)
    requires Existing(T, u.name, u.route).flags.capture == u.route.flags.capture
    ensures var es, was := Emitted(T, u, None), Existing(T, u.name, u.route);
            es.Some? && Applicable(Applied(T, u), es.value) &&
            (Consistent(Committed(T, u, es.value), Delivered(fib, u, es.value), dead) <==>
             !LeaksPastCapture(T, u.name, was, u.route) && !MissesCost(T, u.name, was, u.route, dead))
  {
    var push := UpdatePush(T, u.name, Existing(T, u.name, u.route), u.route);
    UpdateParts(T, u.name, u.route, dead);
    RecordsAlwaysApplicable(T, u, None);
    AppliedFrame(T, u);
    AppliedShape(T, u);
    InsertCounters(T, u.name, u.route);
    StepFromParts(T, Applied(T, u), u, Emitted(T, u, None).value, push.0, push.1, fib, dead);
  }
}
