/** Unregistering a route, or removing it with its face. */
module StepErase {
  import opened Names
  import opened Routes
  import opened RibModel
  import opened RibOps
  import opened Inheritance
  import opened Updates
  import opened Propagation
  import opened Compute
  import opened CommitSafety
  import opened Incremental
  import opened Hazards

  ghost predicate Erasable(T: Table, p: Name, r: Route)
  {
    && TreeOk(T) && Holds(T, p, r) && OnePerFace(T[p].routes)
    && T[p].captures == CountCaptures(T[p].routes)
  }

  function Rest(T: Table, p: Name, r: Route): Entry
  {
    if p in T then EntryWithout(T[p], r) else Entry(None, [], [], [], 0)
  }

  predicate CaptureTurnsOff(T: Table, p: Name, r: Route)
    requires p in T
  {
    HasCapture(T[p]) && !HasCapture(Rest(T, p, r))
  }

  /** With one route per face there is no second route on the erased one's face. */
  lemma NoSecondRoute(T: Table, p: Name, r: Route, next: Option<Route>)
    requires Holds(T, p, r) && OnePerFace(T[p].routes) && IsSecondLowest(T[p].routes, r.face, next)
    ensures next == None
  {
  }

  // ----- the erased route in the table -----

  /** What changes at `p` on face `g` when `was` goes and `rest` remains, in terms of the tables before and after. */
  ghost predicate RouteErased(T: Table, U: Table, p: Name, was: Route, rest: Entry, g: nat)
  {
    && p in T && (p in U <==> rest.routes != []) && (p in U ==> U[p] == rest)
    && rest.inherited == T[p].inherited
    && FindFace(T[p].routes, was.face) == Some(was)
    && FindFace(rest.routes, g) == (if g == was.face then None else FindFace(T[p].routes, g))
    && Lowest(T[p].routes, g, false) == FindFace(T[p].routes, g)
    && Lowest(rest.routes, g, false) == FindFace(rest.routes, g)
    && FirstInheritable(rest.routes, g) == (if g == was.face then None else Offer(T, p, g))
    && (g == was.face ==> Offer(T, p, g) == (if was.flags.childInherit then Some(was) else None))
    && HasCapture(T[p]) == (was.flags.capture || HasCapture(rest))
    && (rest.routes == [] ==> !HasCapture(rest))
    && FromAbove(U, p, g) == FromAbove(T, p, g)
  }

  lemma EraseErased(T: Table, p: Name, r: Route, g: nat)
    requires Erasable(T, p, r)
    ensures RouteErased(T, EraseTable(T, p, r), p, Existing(T, p, r), Rest(T, p, r), g)
  {
    var U, i := EraseTable(T, p, r), FindRoute(T[p].routes, r.face, r.origin);
    AppliedFrame(T, RibUpdate(Unregister, p, r));
    FromAboveAtChanged(T, U, p, g);
    EraseElsewhere(T, p, r);
    EraseFinds(T[p].routes, i, g);
    QueriesAgree(T[p].routes, g);
    QueriesAgree(EraseAt(T[p].routes, i), g);
    OneOnFace(T[p].routes, i);
    CountErase(T[p].routes, i);
  }

  // ----- what is emitted -----

  /** The ancestors' routes go to the children. */
  predicate HandsDown(was: Route, rest: Entry, captureOff: bool)
  {
    (was.flags.capture && captureOff && rest.routes != []) ||
    (was.flags.childInherit && !was.flags.capture && !HasCapture(rest))
  }

  function ErasePush(T: Table, p: Name, r: Route): (x: (seq<Route>, seq<Route>))
    requires TreeOk(T) && Holds(T, p, r)
    ensures FaceSorted(x.0) && FaceSorted(x.1)
  {
    var was := Existing(T, p, r);
    (if HandsDown(was, Rest(T, p, r), CaptureTurnsOff(T, p, r)) then AncestorRoutes(T, p) else [],
     if was.flags.childInherit then [was] else [])
  }

  lemma ErasePushFinds(T: Table, p: Name, r: Route, g: nat)
    requires TreeOk(T) && Holds(T, p, r)
    ensures var was := Existing(T, p, r);
            && FindFace(ErasePush(T, p, r).0, g) ==
               (if HandsDown(was, Rest(T, p, r), CaptureTurnsOff(T, p, r)) then FromAbove(T, p, g) else None)
            && FindFace(ErasePush(T, p, r).1, g) == (if was.flags.childInherit && g == was.face then Some(was) else None)
  {
    AncestorRoutesFind(T, p, g);
  }

  /** The emissions about `p` itself: before those for the children, after them, and for an entry that goes. */
  function EraseBefore(T: Table, p: Name, r: Route): seq<Emission>
    requires TreeOk(T) && Holds(T, p, r)
  {
    var was, rest := Existing(T, p, r), Rest(T, p, r);
    [Hop(RemoveUpdate(p, was.face))] +
    if was.flags.capture && CaptureTurnsOff(T, p, r) && rest.routes != [] then GainedByEntry(p, rest, AncestorRoutes(T, p)) else []
  }

  function EraseAfter(T: Table, p: Name, r: Route): seq<Emission>
    requires TreeOk(T) && Holds(T, p, r)
  {
    Restored(T, p, Rest(T, p, r), Existing(T, p, r))
  }

  function EraseLast(T: Table, p: Name, r: Route): seq<Emission>
    requires Holds(T, p, r)
  {
    if Rest(T, p, r).routes == [] then ErasedEntry(p, T[p].inherited) else []
  }

  function EraseDown(T: Table, p: Name, r: Route): seq<Emission>
    requires TreeOk(T) && Holds(T, p, r)
  {
    ChildrenBelow(T, p);
    var was, push := Existing(T, p, r), ErasePush(T, p, r);
    if was.flags.childInherit || was.flags.capture then PushDown(T, p, T[p].children, push.0, push.1) else []
  }

  lemma EraseEmits(T: Table, p: Name, r: Route)
    requires TreeOk(T) && Holds(T, p, r)
    ensures ForUnregistration(T, p, r, None) ==
            EraseBefore(T, p, r) + EraseDown(T, p, r) + EraseAfter(T, p, r) + EraseLast(T, p, r)
  {
    var was, rest := Existing(T, p, r), Rest(T, p, r);
    var captureOff := CaptureTurnsOff(T, p, r);
    CopyIsLinked(T, p, rest);
    assert AncestorRoutesOfEntry(T, rest) == AncestorRoutes(T, p);
    assert Unblocked(T, p, rest, was, captureOff) == ErasePush(T, p, r).0;
    var a, b, c := EraseBefore(T, p, r), EraseDown(T, p, r), EraseAfter(T, p, r);
    assert ForErasedRoute(T, p, rest, was, captureOff) == a + b + c;
    assert a + b + c + [] == a + b + c;
    assert |rest.routes| == |T[p].routes| - 1;
  }

  /** The effect at `p` on face `g`, on the next hop and on the record. */
  function EraseHop(T: Table, p: Name, was: Route, rest: Entry, captureOff: bool, g: nat): Effect
    requires p in T
  {
    if rest.routes == [] then (if g == was.face || HasInherited(T[p], g) then Clear else Keep)
    else if g == was.face && EraseRecord(T, p, was, rest, captureOff, g) == Keep then Clear
    else EraseRecord(T, p, was, rest, captureOff, g)
  }

  function EraseRecord(T: Table, p: Name, was: Route, rest: Entry, captureOff: bool, g: nat): Effect
    requires p in T
  {
    if rest.routes == [] || FromAbove(T, p, g).None? then Keep
    else if g == was.face && !HasCapture(rest) then Set(FromAbove(T, p, g).value.cost)
    else if was.flags.capture && captureOff && !HasFace(rest, g) then Set(FromAbove(T, p, g).value.cost)
    else Keep
  }

  lemma EraseBeforeEffect(T: Table, p: Name, r: Route, d: Name, g: nat)
    requires TreeOk(T) && Holds(T, p, r)
    ensures var was, rest := Existing(T, p, r), Rest(T, p, r);
            var gained := if d == p && was.flags.capture && CaptureTurnsOff(T, p, r) && rest.routes != [] &&
                             FromAbove(T, p, g).Some? && !HasFace(rest, g) then Set(FromAbove(T, p, g).value.cost) else Keep;
            && HopEffect(EraseBefore(T, p, r), d, g) == Then(if d == p && g == was.face then Clear else Keep, gained)
            && RecordEffect(EraseBefore(T, p, r), d, g) == gained
  {
    var was, rest, above := Existing(T, p, r), Rest(T, p, r), AncestorRoutes(T, p);
    AncestorRoutesFind(T, p, g);
    GainedByEntryEffect(p, rest, above, d, g);
    EffectOfOne(Hop(RemoveUpdate(p, was.face)), d, g);
    EffectConcat([Hop(RemoveUpdate(p, was.face))], GainedByEntry(p, rest, above), d, g);
    assert [Hop(RemoveUpdate(p, was.face))] + [] == [Hop(RemoveUpdate(p, was.face))];
  }

  lemma EraseAfterEffect(T: Table, p: Name, r: Route, d: Name, g: nat)
    requires TreeOk(T) && Holds(T, p, r)
    ensures var was, rest := Existing(T, p, r), Rest(T, p, r);
            var effect := if d == p && g == was.face && !HasCapture(rest) && rest.routes != [] && FromAbove(T, p, g).Some?
                          then Set(FromAbove(T, p, g).value.cost) else Keep;
            HopEffect(EraseAfter(T, p, r), d, g) == effect && RecordEffect(EraseAfter(T, p, r), d, g) == effect
  {
    var was := Existing(T, p, r);
    AncestorRoutesFind(T, p, was.face);
    if EraseAfter(T, p, r) != [] {
      var a := FindFace(AncestorRoutes(T, p), was.face).value;
      assert [] + EraseAfter(T, p, r) == EraseAfter(T, p, r);
      EmitEffect([], p, a, true, AddUpdate(p, a.face, a.cost), d, g);
    }
  }

  lemma EraseDownEffect(T: Table, p: Name, r: Route, d: Name, g: nat)
    requires TreeOk(T) && Holds(T, p, r)
    ensures var push := ErasePush(T, p, r);
            HopEffect(EraseDown(T, p, r), d, g) == RecordEffect(EraseDown(T, p, r), d, g) == DownEffect(T, p, push.0, push.1, d, g)
  {
    var push := ErasePush(T, p, r);
    ChildrenAreTop(T, p);
    PushDownReachAll(T, p, T[p].children, push.0, push.1, d, g);
  }

  lemma EraseEffect(T: Table, p: Name, r: Route, d: Name, g: nat)
    requires TreeOk(T) && Holds(T, p, r) && !HasFace(Rest(T, p, r), Existing(T, p, r).face)
    ensures var es, was, rest, push := ForUnregistration(T, p, r, None), Existing(T, p, r), Rest(T, p, r), ErasePush(T, p, r);
            && (d != p ==> HopEffect(es, d, g) == RecordEffect(es, d, g) == DownEffect(T, p, push.0, push.1, d, g))
            && (d == p ==> HopEffect(es, d, g) == EraseHop(T, p, was, rest, CaptureTurnsOff(T, p, r), g))
            && (d == p ==> RecordEffect(es, d, g) == EraseRecord(T, p, was, rest, CaptureTurnsOff(T, p, r), g))
  {
    var was, push := Existing(T, p, r), ErasePush(T, p, r);
    var a, b, c, l := EraseBefore(T, p, r), EraseDown(T, p, r), EraseAfter(T, p, r), EraseLast(T, p, r);
    EraseEmits(T, p, r);
    EraseBeforeEffect(T, p, r, d, g);
    EraseDownEffect(T, p, r, d, g);
    EraseAfterEffect(T, p, r, d, g);
    ErasedEntryEffect(p, T[p].inherited, d, g);
    EffectConcat(a, b, d, g);
    EffectConcat(a + b, c, d, g);
    EffectConcat(a + b + c, l, d, g);
  }

  // ----- right or not -----

  lemma EraseOwn(T: Table, U: Table, p: Name, was: Route, rest: Entry, captureOff: bool, g: nat)
    requires RouteErased(T, U, p, was, rest, g) && captureOff == (HasCapture(T[p]) && !HasCapture(rest))
    requires HasInherited(T[p], g) <==> Inherits(T, p, g)
    ensures After(Wanted(T, p, g), EraseHop(T, p, was, rest, captureOff, g)) == Wanted(U, p, g)
    ensures p in U ==> Recorded(HasInherited(U[p], g), EraseRecord(T, p, was, rest, captureOff, g)) == Inherits(U, p, g)
    ensures p !in U ==> EraseRecord(T, p, was, rest, captureOff, g) == Keep
  {
  }

  ghost predicate Spoils(T: Table, p: Name, was: Route, rest: Entry, dead: set<nat>, g: nat)
    requires p in T
  {
    if rest.routes == [] then was.flags.capture && FromAbove(T, p, g).Some?
    else
      && (was.flags.childInherit || was.flags.capture) && !HasCapture(rest) && g !in dead && FromAbove(T, p, g).Some?
      && FirstInheritable(rest.routes, g).Some?
      && FirstInheritable(rest.routes, g).value.cost != FromAbove(T, p, g).value.cost
  }

  lemma ErasePushRight(T: Table, U: Table, p: Name, was: Route, rest: Entry, captureOff: bool, add: seq<Route>, remove: seq<Route>,
                       dead: set<nat>, g: nat)
    requires RouteErased(T, U, p, was, rest, g) && captureOff == (HasCapture(T[p]) && !HasCapture(rest))
    requires FindFace(add, g) == if HandsDown(was, rest, captureOff) then FromAbove(T, p, g) else None
    requires FindFace(remove, g) == if was.flags.childInherit && g == was.face then Some(was) else None
    requires rest.routes == [] && g != was.face ==> Offer(T, p, g) == None
    ensures PushRightOn(T, U, p, add, remove, dead, g) <==> !Spoils(T, p, was, rest, dead, g)
  {
  }

  lemma EraseParts(T: Table, p: Name, r: Route, dead: set<nat>)
    requires Erasable(T, p, r) && RecordsAgree(T)
    ensures var es, U, was, rest, push := ForUnregistration(T, p, r, None), EraseTable(T, p, r), Existing(T, p, r), Rest(T, p, r), ErasePush(T, p, r);
            && PushesDown(T, p, es, push.0, push.1) && OwnHopsRight(T, U, p, es) && OwnRecordsRight(U, p, es)
            && (PushRight(T, U, p, push.0, push.1, dead) <==> forall d, g :: Affected(T, p, d, g) ==> !Spoils(T, p, was, rest, dead, g))
  {
    var es, U, was, rest, push := ForUnregistration(T, p, r, None), EraseTable(T, p, r), Existing(T, p, r), Rest(T, p, r), ErasePush(T, p, r);
    var captureOff := CaptureTurnsOff(T, p, r);
    EraseErased(T, p, r, was.face);
    forall d, g
      ensures d != p ==> HopEffect(es, d, g) == DownEffect(T, p, push.0, push.1, d, g) &&
                         RecordEffect(es, d, g) == DownEffect(T, p, push.0, push.1, d, g)
    {
      EraseEffect(T, p, r, d, g);
    }
    forall g
      ensures After(Wanted(T, p, g), HopEffect(es, p, g)) == Wanted(U, p, g)
      ensures if p in U then Recorded(HasInherited(U[p], g), RecordEffect(es, p, g)) == Inherits(U, p, g)
              else RecordEffect(es, p, g) == Keep
    {
      EraseErased(T, p, r, g);
      EraseEffect(T, p, r, p, g);
      EraseOwn(T, U, p, was, rest, captureOff, g);
    }
    forall g
      ensures PushRightOn(T, U, p, push.0, push.1, dead, g) <==> !Spoils(T, p, was, rest, dead, g)
    {
      EraseErased(T, p, r, g);
      ErasePushFinds(T, p, r, g);
      ErasePushRight(T, U, p, was, rest, captureOff, push.0, push.1, dead, g);
    }
  }

  /** Erasing a route is right exactly when a last capturing route does not leave something blocked, or when no ancestor
      route is handed down over a route still offered at another cost. */
  lemma EraseStep(T: Table, u: RibUpdate, fib: Fib, dead: set<nat>)
    requires Consistent(T, fib, dead) && u.kind != Register && Holds(T, u.name, u.route)
    ensures var es, was, rest := Emitted(T, u, None), Existing(T, u.name, u.route), EntryWithout(T[u.name], u.route);
            es.Some? && Applicable(Applied(T, u), es.value) &&
            (Consistent(Committed(T, u, es.value), Delivered(fib, u, es.value), DeadAfter(dead, u)) <==>
             if rest.routes == [] then !StaysBlocked(T, u.name, was)
             else !OverridesOffer(T, u.name, rest, was, DeadAfter(dead, u)))
  {
    var push := ErasePush(T, u.name, u.route);
    EraseParts(T, u.name, u.route, DeadAfter(dead, u));
    RecordsAlwaysApplicable(T, u, None);
    AppliedFrame(T, u);
    AppliedShape(T, u);
    EraseCounters(T, u.name, u.route);
    StepFromParts(T, Applied(T, u), u, Emitted(T, u, None).value, push.0, push.1, fib, dead);
    SpoilsIsHazard(T, u.name, Existing(T, u.name, u.route), EntryWithout(T[u.name], u.route), DeadAfter(dead, u));
  }

  lemma SpoilsIsHazard(T: Table, p: Name, was: Route, rest: Entry, dead: set<nat>)
    requires p in T
    ensures (forall d, g :: Affected(T, p, d, g) ==> !Spoils(T, p, was, rest, dead, g)) <==>
            if rest.routes == [] then !StaysBlocked(T, p, was) else !OverridesOffer(T, p, rest, was, dead)
  {
  }

  /** Erasing a route that is not there changes nothing. */
  lemma NothingStep(T: Table, u: RibUpdate, fib: Fib, dead: set<nat>)
    requires Consistent(T, fib, dead) && u.kind != Register && !Holds(T, u.name, u.route)
    ensures var es := Emitted(T, u, None);
            es.Some? && es.value == [] && Applicable(Applied(T, u), es.value) &&
            Consistent(Committed(T, u, es.value), Delivered(fib, u, es.value), DeadAfter(dead, u))
  {
    if u.name in T {
      EraseElsewhere(T, u.name, u.route);
      assert T[u.name].routes != [];
      assert Applied(T, u) == T;
    }
  }
}
