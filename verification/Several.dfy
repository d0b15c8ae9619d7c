/** Entries with several routes on one face: what the updater does to the entry's own next hop and to its descendants, in
    terms of the costs and flags of all the routes. */
module Several {
  import opened Names
  import opened Routes
  import opened RibModel
  import opened RibOps
  import opened Inheritance
  import opened Updates
  import opened Propagation
  import opened Compute
  import opened Incremental
  import opened Hazards
  import opened StepErase

  // ----- costs on a face -----

  /** No route on face `g` (only those children inherit, if asked) costs less. */
  ghost predicate NoneCheaper(rs: seq<Route>, g: nat, inheritable: bool, cost: nat)
  {
    forall i :: 0 <= i < |rs| && rs[i].face == g && (inheritable ==> rs[i].flags.childInherit) ==> cost <= rs[i].cost
  }

  /** And one of them costs that much. */
  ghost predicate IsLeast(rs: seq<Route>, g: nat, inheritable: bool, cost: nat)
  {
    NoneCheaper(rs, g, inheritable, cost) &&
    exists i :: 0 <= i < |rs| && rs[i].face == g && (inheritable ==> rs[i].flags.childInherit) && rs[i].cost == cost
  }

  lemma LowestAgainst(rs: seq<Route>, g: nat, inheritable: bool, cost: nat)
    ensures var c := Lowest(rs, g, inheritable);
            && (NoneCheaper(rs, g, inheritable, cost) <==> c.None? || cost <= c.value.cost)
            && (IsLeast(rs, g, inheritable, cost) <==> c.Some? && c.value.cost == cost)
  {
    var c := Lowest(rs, g, inheritable);
    if c.Some? {
      var k :| 0 <= k < |rs| && rs[k] == c.value;
      assert Matches(rs[k], g, inheritable);
    }
    assert forall i :: 0 <= i < |rs| ==>
      (Matches(rs[i], g, inheritable) <==> rs[i].face == g && (inheritable ==> rs[i].flags.childInherit));
  }

  // ----- what is pushed down -----

  /** A descendant of `p` that what is pushed down on face `g` reaches. */
  ghost predicate Reached(T: Table, p: Name, d: Name, g: nat)
  {
    d in T && p < d && OpenBelow(T, p, d, g)
  }

  /** What happens there: the given cost is set unless the entry has its own route, otherwise an inherited route may go. */
  ghost function Handed(T: Table, p: Name, d: Name, g: nat, cost: Option<nat>, cleared: bool): Effect
  {
    if !Reached(T, p, d, g) then Keep
    else if cost.Some? && !HasFace(T[d], g) then Set(cost.value)
    else if cleared && HasInherited(T[d], g) then Clear
    else Keep
  }

  lemma PushIsHanded(T: Table, p: Name, add: seq<Route>, remove: seq<Route>, d: Name, g: nat)
    requires TreeOk(T) && p in T && FaceSorted(add) && FaceSorted(remove)
    ensures AllBelow(T, p, T[p].children)
    ensures var es := PushDown(T, p, T[p].children, add, remove);
            HopEffect(es, d, g) == RecordEffect(es, d, g) == Handed(T, p, d, g, CostOf(FindFace(add, g)), FindFace(remove, g).Some?)
  {
    ChildrenAreTop(T, p);
    PushDownReachAll(T, p, T[p].children, add, remove, d, g);
  }

  lemma OneAdded(r: Route, g: nat)
    ensures FaceSorted([r]) && FindFace([r], g) == if g == r.face then Some(r) else None
  {
    FindFaceCons(r, []);
  }

  lemma AboveOf(T: Table, p: Name, e: Entry, g: nat)
    requires TreeOk(T) && CopyOf(T, p, e)
    ensures e.parent.Some? ==> e.parent.value in T
    ensures FaceSorted(AncestorRoutesOfEntry(T, e)) && FindFace(AncestorRoutesOfEntry(T, e), g) == FromAbove(T, p, g)
  {
    CopyIsLinked(T, p, e);
    assert AncestorRoutesOfEntry(T, e) == AncestorRoutes(T, p);
    AncestorRoutesFind(T, p, g);
  }

  // ----- a new route -----

  /** What a new route `r` sets on face `g` below the entry: its cost, if children inherit it and none of the routes they
      inherit from `rs` costs less. */
  ghost function Offered(rs: seq<Route>, r: Route, g: nat): Option<nat>
  {
    if g == r.face && r.flags.childInherit && NoneCheaper(rs, g, true, r.cost) then Some(r.cost) else None
  }

  /** And at the entry itself: its cost, if no route on the face costs less. */
  ghost function OwnAfterNew(rs: seq<Route>, r: Route, g: nat, cleared: bool): Effect
  {
    if g == r.face && NoneCheaper(rs, g, false, r.cost) then Set(r.cost) else if cleared then Clear else Keep
  }

  lemma NewPush(T: Table, p: Name, e: Entry, r: Route, captureOn: bool, add: seq<Route>, remove: seq<Route>, d: Name, g: nat)
    requires TreeOk(T) && CopyOf(T, p, e) && AllBelow(T, p, e.children) && (e.parent.Some? ==> e.parent.value in T)
    requires remove == if captureOn then AncestorRoutesOfEntry(T, e) else []
    requires add == if r.flags.childInherit && (var c := Lowest(e.routes, r.face, true); c.None? || r.cost <= c.value.cost) then [r] else []
    ensures var es := PushDown(T, p, e.children, add, remove);
            HopEffect(es, d, g) == RecordEffect(es, d, g) ==
            Handed(T, p, d, g, Offered(e.routes, r, g), captureOn && FromAbove(T, p, g).Some?)
  {
    AboveOf(T, p, e, g);
    LowestAgainst(e.routes, r.face, true, r.cost);
    OneAdded(r, g);
    PushIsHanded(T, p, add, remove, d, g);
  }

  /** Everything a new route does, to every next hop and record, whatever other routes the entry has. */
  lemma AddedEffect(T: Table, p: Name, e: Entry, r: Route, captureOn: bool, d: Name, g: nat)
    requires TreeOk(T) && CopyOf(T, p, e)
    ensures var es := ForNewRoute(T, p, e, r, captureOn);
            var down := Handed(T, p, d, g, Offered(e.routes, r, g), captureOn && FromAbove(T, p, g).Some?);
            var cleared := captureOn && FromAbove(T, p, g).Some? && HasInherited(e, g);
            && (d != p ==> HopEffect(es, d, g) == RecordEffect(es, d, g) == down)
            && (d == p ==> HopEffect(es, d, g) == OwnAfterNew(e.routes, r, g, cleared))
            && (d == p ==> RecordEffect(es, d, g) == if cleared then Clear else Keep)
  {
    AboveOf(T, p, e, g);
    CopyIsLinked(T, p, e);
    LowestAgainst(e.routes, r.face, false, r.cost);
    var previous, other := Lowest(e.routes, r.face, true), Lowest(e.routes, r.face, false);
    var add := if r.flags.childInherit && (previous.None? || r.cost <= previous.value.cost) then [r] else [];
    var remove := if captureOn then AncestorRoutesOfEntry(T, e) else [];
    var own := if other.None? || r.cost <= other.value.cost then [Hop(AddUpdate(p, r.face, r.cost))] else [];
    var lost, push := LostByEntry(p, e, remove), PushDown(T, p, e.children, add, remove);
    LostByEntryEffect(p, e, remove, d, g);
    NewPush(T, p, e, r, captureOn, add, remove, d, g);
    EffectOfOne(Hop(AddUpdate(p, r.face, r.cost)), d, g);
    EffectConcat(lost, push, d, g);
    EffectConcat(lost + push, own, d, g);
  }

  /** Registering a route an entry does not have: a descendant that has no route of its own on the face gets its cost exactly
      if children inherit it and no route they inherit from the entry on that face costs less. */
  lemma NewRouteReaches(T: Table, p: Name, r: Route, d: Name)
    requires TreeOk(T) && p in T && !Holds(T, p, r) && Affected(T, p, d, r.face)
    ensures ForRegistration(T, p, r).Some?
    ensures HopEffect(ForRegistration(T, p, r).value, d, r.face) == Set(r.cost) <==>
            r.flags.childInherit &&
            forall i :: 0 <= i < |T[p].routes| && T[p].routes[i].face == r.face && T[p].routes[i].flags.childInherit ==>
              r.cost <= T[p].routes[i].cost
  {
    AddedEffect(T, p, T[p], r, !HasCapture(T[p]) && r.flags.capture, d, r.face);
  }

  /** The routes of the entry once the registration is committed. */
  ghost function RoutesAfter(T: Table, p: Name, r: Route): seq<Route>
  {
    InsertElsewhere(T, p, r);
    InsertTable(T, p, r)[p].routes
  }

  lemma RegisteredRoutes(T: Table, p: Name, r: Route)
    requires p in T
    ensures RoutesAfter(T, p, r) == if Holds(T, p, r) then Replaced(T, p, r) else T[p].routes + [r]
  {
    InsertElsewhere(T, p, r);
  }

  /** The routes once `r` has replaced the one with its face and origin. */
  function Replaced(T: Table, p: Name, r: Route): seq<Route>
    requires Holds(T, p, r)
  {
    T[p].routes[FindRoute(T[p].routes, r.face, r.origin) := r]
  }

  lemma LeastWithNew(rs: seq<Route>, r: Route, g: nat, inheritable: bool, m: nat)
    requires IsLeast(rs, g, inheritable, m)
    ensures IsLeast(rs + [r], g, inheritable,
                    if g == r.face && (inheritable ==> r.flags.childInherit) && r.cost < m then r.cost else m)
  {
    var t := rs + [r];
    var i :| 0 <= i < |rs| && rs[i].face == g && (inheritable ==> rs[i].flags.childInherit) && rs[i].cost == m;
    assert t[i] == rs[i] && t[|rs|] == r;
    assert forall j :: 0 <= j < |t| ==> t[j] == if j < |rs| then rs[j] else r;
  }

  lemma LeastIsOne(rs: seq<Route>, g: nat, inheritable: bool, m: nat, k: nat)
    requires IsLeast(rs, g, inheritable, m) && IsLeast(rs, g, inheritable, k)
    ensures m == k
  {
  }

  /** Next hops at the cheapest cost stay there, at the entry and below, when a route is added, unless capture is turned on
      and a record says that the face is inherited: then the next hop goes if the new route does not set it. */
  lemma NewRouteTracks(T: Table, p: Name, r: Route, d: Name, m: nat, m': nat)
    requires TreeOk(T) && p in T && !Holds(T, p, r) && (d == p || Affected(T, p, d, r.face))
    requires IsLeast(T[p].routes, r.face, d != p, m) && IsLeast(RoutesAfter(T, p, r), r.face, d != p, m')
    ensures ForRegistration(T, p, r).Some?
    ensures After(Some(m), HopEffect(ForRegistration(T, p, r).value, d, r.face)) == Some(m') <==>
            || (r.cost <= m && (d != p ==> r.flags.childInherit))
            || !(!HasCapture(T[p]) && r.flags.capture && FromAbove(T, p, r.face).Some? && HasInherited(T[d], r.face))
  {
    RegisteredRoutes(T, p, r);
    LeastAfterNew(T[p].routes, r, d != p, m, m');
    NewRouteAt(T, p, r, d, m);
    NewReaches(r.cost <= m && (d != p ==> r.flags.childInherit), r.cost, m,
               !HasCapture(T[p]) && r.flags.capture && FromAbove(T, p, r.face).Some? && HasInherited(T[d], r.face));
  }

  lemma NewReaches(offered: bool, cost: nat, m: nat, cleared: bool)
    ensures After(Some(m), if offered then Set(cost) else if cleared then Clear else Keep) == Some(if offered then cost else m) <==>
            offered || !cleared
  {
  }

  lemma NewRouteAt(T: Table, p: Name, r: Route, d: Name, m: nat)
    requires TreeOk(T) && p in T && !Holds(T, p, r) && (d == p || Affected(T, p, d, r.face)) && IsLeast(T[p].routes, r.face, d != p, m)
    ensures ForRegistration(T, p, r).Some?
    ensures HopEffect(ForRegistration(T, p, r).value, d, r.face) ==
            if r.cost <= m && (d != p ==> r.flags.childInherit) then Set(r.cost)
            else if !HasCapture(T[p]) && r.flags.capture && FromAbove(T, p, r.face).Some? && HasInherited(T[d], r.face) then Clear
            else Keep
  {
    AddedEffect(T, p, T[p], r, !HasCapture(T[p]) && r.flags.capture, d, r.face);
    LeastDecides(T[p].routes, r.face, d != p, m, r.cost);
  }

  lemma LeastDecides(rs: seq<Route>, g: nat, inheritable: bool, m: nat, cost: nat)
    requires IsLeast(rs, g, inheritable, m)
    ensures NoneCheaper(rs, g, inheritable, cost) <==> cost <= m
  {
  }

  lemma LeastAfterNew(rs: seq<Route>, r: Route, inheritable: bool, m: nat, m': nat)
    requires IsLeast(rs, r.face, inheritable, m) && IsLeast(rs + [r], r.face, inheritable, m')
    ensures m' == if (inheritable ==> r.flags.childInherit) && r.cost <= m then r.cost else m
  {
    LeastWithNew(rs, r, r.face, inheritable, m);
    LeastIsOne(rs + [r], r.face, inheritable, m', if (inheritable ==> r.flags.childInherit) && r.cost < m then r.cost else m);
  }

  // ----- a route that goes -----

  /** What the second-cheapest route, which is handed down anew, sets below the entry. */
  ghost function OfferedNext(rest: seq<Route>, next: Option<Route>, g: nat): Option<nat>
  {
    if next.Some? then Offered(rest, next.value, g) else None
  }

  /** Everything removing a route does below the entry, whatever other routes it has: the cost of the second-cheapest route
      is set if children inherit it and no remaining route they inherit costs less; otherwise what the ancestors offer,
      if it is handed down; otherwise what the removed route had given goes. */
  lemma ErasedBelow(T: Table, p: Name, r: Route, next: Option<Route>, d: Name, g: nat)
    requires TreeOk(T) && Holds(T, p, r) && d != p && IsSecondLowest(T[p].routes, r.face, next)
    ensures var es, was, rest := ForUnregistration(T, p, r, next), Existing(T, p, r), Rest(T, p, r);
            var above := if HandsDown(was, rest, CaptureTurnsOff(T, p, r)) then CostOf(FromAbove(T, p, g)) else None;
            HopEffect(es, d, g) == RecordEffect(es, d, g) ==
            Then(Handed(T, p, d, g, above, was.flags.childInherit && g == was.face),
                 Handed(T, p, d, g, OfferedNext(rest.routes, next, g), false))
  {
    var was, rest := Existing(T, p, r), Rest(T, p, r);
    var push := ErasePush(T, p, r);
    var more := if next.Some? then ForNewRoute(T, p, rest, next.value, false) else [];
    var gone := EraseLast(T, p, r);
    ErasedEmitsAll(T, p, r, next);
    ErasedPartBelow(T, p, r, d, g);
    if next.Some? {
      AddedEffect(T, p, rest, next.value, false, d, g);
    }
    ErasedEntryEffect(p, T[p].inherited, d, g);
    var first := EraseBefore(T, p, r) + EraseDown(T, p, r) + EraseAfter(T, p, r);
    EffectConcat(first, more, d, g);
    EffectConcat(first + more, gone, d, g);
  }

  lemma ErasedEmitsAll(T: Table, p: Name, r: Route, next: Option<Route>)
    requires TreeOk(T) && Holds(T, p, r)
    ensures CopyOf(T, p, Rest(T, p, r))
    ensures ForUnregistration(T, p, r, next) ==
            EraseBefore(T, p, r) + EraseDown(T, p, r) + EraseAfter(T, p, r) +
            (if next.Some? then ForNewRoute(T, p, Rest(T, p, r), next.value, false) else []) + EraseLast(T, p, r)
  {
    var was, rest := Existing(T, p, r), Rest(T, p, r);
    CopyIsLinked(T, p, rest);
    assert AncestorRoutesOfEntry(T, rest) == AncestorRoutes(T, p);
    assert Unblocked(T, p, rest, was, CaptureTurnsOff(T, p, r)) == ErasePush(T, p, r).0;
    assert ForErasedRoute(T, p, rest, was, CaptureTurnsOff(T, p, r)) ==
           EraseBefore(T, p, r) + EraseDown(T, p, r) + EraseAfter(T, p, r);
    assert |rest.routes| == |T[p].routes| - 1;
  }

  lemma ErasedPartBelow(T: Table, p: Name, r: Route, d: Name, g: nat)
    requires TreeOk(T) && Holds(T, p, r) && d != p
    ensures var es, was, rest := EraseBefore(T, p, r) + EraseDown(T, p, r) + EraseAfter(T, p, r), Existing(T, p, r), Rest(T, p, r);
            var above := if HandsDown(was, rest, CaptureTurnsOff(T, p, r)) then CostOf(FromAbove(T, p, g)) else None;
            HopEffect(es, d, g) == RecordEffect(es, d, g) ==
            Handed(T, p, d, g, above, was.flags.childInherit && g == was.face)
  {
    var a, b, c := EraseBefore(T, p, r), EraseDown(T, p, r), EraseAfter(T, p, r);
    EraseBeforeEffect(T, p, r, d, g);
    EraseDownEffect(T, p, r, d, g);
    EraseAfterEffect(T, p, r, d, g);
    ErasePushFinds(T, p, r, g);
    EffectConcat(a, b, d, g);
    EffectConcat(a + b, c, d, g);
  }

  /** Everything removing a route does at the entry itself, when others remain: the second-cheapest route is put in if no
      remaining route on the face costs less. */
  lemma ErasedAtEntry(T: Table, p: Name, r: Route, next: Option<Route>, g: nat)
    requires TreeOk(T) && Holds(T, p, r) && Rest(T, p, r).routes != [] && IsSecondLowest(T[p].routes, r.face, next)
    ensures var es, was, rest := ForUnregistration(T, p, r, next), Existing(T, p, r), Rest(T, p, r);
            && HopEffect(es, p, g) == Then(EraseHop(T, p, was, rest, CaptureTurnsOff(T, p, r), g),
                                           if next.Some? then OwnAfterNew(rest.routes, next.value, g, false) else Keep)
            && RecordEffect(es, p, g) == EraseRecord(T, p, was, rest, CaptureTurnsOff(T, p, r), g)
  {
    var rest := Rest(T, p, r);
    var first := EraseBefore(T, p, r) + EraseDown(T, p, r) + EraseAfter(T, p, r);
    var more := if next.Some? then ForNewRoute(T, p, rest, next.value, false) else [];
    ErasedEmitsAll(T, p, r, next);
    ErasedPartAtEntry(T, p, r, g);
    if next.Some? {
      AddedEffect(T, p, rest, next.value, false, p, g);
    }
    EffectConcat(first, more, p, g);
    assert first + more + [] == first + more;
  }

  lemma ErasedPartAtEntry(T: Table, p: Name, r: Route, g: nat)
    requires TreeOk(T) && Holds(T, p, r) && Rest(T, p, r).routes != []
    ensures var es := EraseBefore(T, p, r) + EraseDown(T, p, r) + EraseAfter(T, p, r);
            && HopEffect(es, p, g) == EraseHop(T, p, Existing(T, p, r), Rest(T, p, r), CaptureTurnsOff(T, p, r), g)
            && RecordEffect(es, p, g) == EraseRecord(T, p, Existing(T, p, r), Rest(T, p, r), CaptureTurnsOff(T, p, r), g)
  {
    var a, b, c := EraseBefore(T, p, r), EraseDown(T, p, r), EraseAfter(T, p, r);
    EraseBeforeEffect(T, p, r, p, g);
    EraseDownEffect(T, p, r, p, g);
    EraseAfterEffect(T, p, r, p, g);
    EffectConcat(a, b, p, g);
    EffectConcat(a + b, c, p, g);
  }

  /** Where the next hop of a descendant without its own route on the face ends up when a route goes. */
  lemma ErasedEnds(T: Table, p: Name, r: Route, next: Option<Route>, d: Name, x: Option<nat>)
    requires TreeOk(T) && Holds(T, p, r) && Affected(T, p, d, r.face) && IsSecondLowest(T[p].routes, r.face, next)
    ensures var es, was, rest := ForUnregistration(T, p, r, next), Existing(T, p, r), Rest(T, p, r);
            After(x, HopEffect(es, d, r.face)) ==
            if && next.Some? && next.value.flags.childInherit
               && forall i :: 0 <= i < |rest.routes| && rest.routes[i].face == r.face && rest.routes[i].flags.childInherit ==>
                    next.value.cost <= rest.routes[i].cost
            then Some(next.value.cost)
            else if HandsDown(was, rest, CaptureTurnsOff(T, p, r)) && FromAbove(T, p, r.face).Some?
            then Some(FromAbove(T, p, r.face).value.cost)
            else if was.flags.childInherit && HasInherited(T[d], r.face) then None
            else x
  {
    var was, rest := Existing(T, p, r), Rest(T, p, r);
    var above := if HandsDown(was, rest, CaptureTurnsOff(T, p, r)) then CostOf(FromAbove(T, p, r.face)) else None;
    ErasedBelow(T, p, r, next, d, r.face);
    TwoHanded(T, p, d, r.face, above, was.flags.childInherit, OfferedNext(rest.routes, next, r.face), x);
    SecondHasFace(T[p].routes, r.face, next);
  }

  lemma SecondHasFace(rs: seq<Route>, f: nat, next: Option<Route>)
    requires IsSecondLowest(rs, f, next)
    ensures next.Some? ==> next.value.face == f
  {
  }

  lemma TwoHanded(T: Table, p: Name, d: Name, g: nat, above: Option<nat>, cleared: bool, second: Option<nat>, x: Option<nat>)
    requires Affected(T, p, d, g)
    ensures After(x, Then(Handed(T, p, d, g, above, cleared), Handed(T, p, d, g, second, false))) ==
            if second.Some? then second else if above.Some? then above else if cleared && HasInherited(T[d], g) then None else x
  {
  }

  /** With the entry still offering the face, its descendant ends at the cheapest remaining cost exactly if the second-cheapest
      route before, which may be the removed one itself, is inheritable and costs that, or costs more (or is not inheritable)
      and by coincidence the ancestors' route, or what the descendant had and keeps, costs that. */
  lemma ErasedTracks(T: Table, p: Name, r: Route, next: Option<Route>, d: Name, x: Option<nat>, m: nat)
    requires TreeOk(T) && Holds(T, p, r) && Affected(T, p, d, r.face) && IsSecondLowest(T[p].routes, r.face, next)
    requires p in EraseTable(T, p, r) && IsLeast(EraseTable(T, p, r)[p].routes, r.face, true, m)
    ensures next.Some?
    ensures var was, rest := Existing(T, p, r), Rest(T, p, r);
            After(x, HopEffect(ForUnregistration(T, p, r, next), d, r.face)) == Some(m) <==>
            if next.value.flags.childInherit && next.value.cost <= m then next.value.cost == m
            else if HandsDown(was, rest, CaptureTurnsOff(T, p, r)) && FromAbove(T, p, r.face).Some?
            then FromAbove(T, p, r.face).value.cost == m
            else !(was.flags.childInherit && HasInherited(T[d], r.face)) && x == Some(m)
  {
    var rest := Rest(T, p, r).routes;
    EraseElsewhere(T, p, r);
    ErasedEnds(T, p, r, next, d, x);
    LowestAgainst(rest, r.face, true, m);
    TwoOnFace(T[p].routes, r, next);
    LowestAgainst(rest, r.face, true, next.value.cost);
  }

  lemma TwoOnFace(rs: seq<Route>, r: Route, next: Option<Route>)
    requires FindRoute(rs, r.face, r.origin) < |rs| && IsSecondLowest(rs, r.face, next)
    requires Lowest(EraseAt(rs, FindRoute(rs, r.face, r.origin)), r.face, true).Some?
    ensures next.Some?
  {
    var i := FindRoute(rs, r.face, r.origin);
    var t := EraseAt(rs, i);
    EraseAtIndex(rs, i);
    var k :| 0 <= k < |t| && Matches(t[k], r.face, true);
    var j := if k < i then k else k + 1;
    assert rs[j] == t[k];
  }

  /** When the cheapest route on the face goes, the second-cheapest is a cheapest remaining one. */
  lemma CheapestGoes(T: Table, p: Name, r: Route, next: Option<Route>, d: Name, x: Option<nat>, m: nat)
    requires TreeOk(T) && Holds(T, p, r) && Affected(T, p, d, r.face) && IsSecondLowest(T[p].routes, r.face, next)
    requires var rest := Rest(T, p, r).routes;
             && IsLeast(rest, r.face, false, m) && Existing(T, p, r).cost < m
             && forall i :: 0 <= i < |rest| && rest[i].face == r.face && rest[i].cost == m ==> rest[i].flags.childInherit
    ensures After(x, HopEffect(ForUnregistration(T, p, r, next), d, r.face)) == Some(m)
  {
    SecondIsRemaining(T[p].routes, FindRoute(T[p].routes, r.face, r.origin), next, m);
    ErasedEnds(T, p, r, next, d, x);
  }

  /** The other routes, by their positions in the whole list. */
  lemma LeastOfOthers(rs: seq<Route>, i: nat, f: nat, m: nat) returns (j: nat)
    requires i < |rs| && IsLeast(EraseAt(rs, i), f, false, m)
    ensures j < |rs| && j != i && rs[j].face == f && rs[j].cost == m
    ensures forall c :: 0 <= c < |rs| && c != i && rs[c].face == f ==> m <= rs[c].cost
  {
    var rest := EraseAt(rs, i);
    EraseAtIndex(rs, i);
    var k :| 0 <= k < |rest| && rest[k].face == f && rest[k].cost == m;
    j := if k < i then k else k + 1;
    forall c | 0 <= c < |rs| && c != i && rs[c].face == f
      ensures m <= rs[c].cost
    {
      assert rs[c] == rest[if c < i then c else c - 1];
    }
  }

  lemma SecondIsRemaining(rs: seq<Route>, i: nat, next: Option<Route>, m: nat)
    requires i < |rs| && IsSecondLowest(rs, rs[i].face, next) && IsLeast(EraseAt(rs, i), rs[i].face, false, m) && rs[i].cost < m
    ensures next.Some? && next.value in EraseAt(rs, i) && next.value.face == rs[i].face && next.value.cost == m
  {
    var f := rs[i].face;
    var j := LeastOfOthers(rs, i, f, m);
    assert next.Some?;
    var a, b :| 0 <= a < |rs| && 0 <= b < |rs| && SecondAt(rs, f, a, b) && next.value == rs[a];
    SecondBelow(rs, f, a, b, i, j, m);
    EraseAtIndex(rs, i);
    assert next.value == EraseAt(rs, i)[if a < i then a else a - 1];
  }

  lemma SecondBelow(rs: seq<Route>, f: nat, a: nat, b: nat, i: nat, j: nat, m: nat)
    requires a < |rs| && b < |rs| && i < |rs| && j < |rs| && SecondAt(rs, f, a, b) && i != j
    requires rs[i].face == rs[j].face == f && rs[i].cost < m == rs[j].cost
    requires forall c :: 0 <= c < |rs| && c != i && rs[c].face == f ==> m <= rs[c].cost
    ensures a != i && rs[a].cost == m
  {
  }

  // ----- a route registered again -----

  /** `k` is the least cost on face `g` of the routes children inherit, if there are any. */
  ghost predicate LeastOffer(rs: seq<Route>, g: nat, k: Option<nat>)
  {
    if k.Some? then IsLeast(rs, g, true, k.value)
    else forall i :: 0 <= i < |rs| && rs[i].face == g ==> !rs[i].flags.childInherit
  }

  lemma LeastOfferIsLowest(rs: seq<Route>, g: nat, k: Option<nat>)
    requires LeastOffer(rs, g, k)
    ensures k == CostOf(Lowest(rs, g, true))
  {
    if k.Some? {
      LowestAgainst(rs, g, true, k.value);
    }
  }

  /** What happens to the entry's own next hop on the route's face, `m` being the least cost on it now. */
  ghost function OwnAfterUpdate(was: nat, now: nat, m: nat, k: Option<nat>): Effect
  {
    if now == was then Keep
    else if now <= m then Set(now)
    else if was < m && k.Some? then Set(k.value)
    else Keep
  }

  lemma OwnUpdateEffect(p: Name, e: Entry, r: Route, was: Route, m: nat, k: Option<nat>, d: Name, g: nat)
    requires r in e.routes && IsLeast(e.routes, r.face, false, m) && LeastOffer(e.routes, r.face, k)
    ensures OwnHopUpdate(p, e, r, was).None? <==> k.None? && was.cost < m < r.cost
    ensures OwnHopUpdate(p, e, r, was).Some? ==>
              var es := OwnHopUpdate(p, e, r, was).value;
              && HopEffect(es, d, g) == (if d == p && g == r.face then OwnAfterUpdate(was.cost, r.cost, m, k) else Keep)
              && RecordEffect(es, d, g) == Keep
  {
    LowestOfMember(e.routes, r);
    LowestAgainst(e.routes, r.face, false, m);
    LeastOfferIsLowest(e.routes, r.face, k);
    EffectOfOne(Hop(AddUpdate(p, r.face, r.cost)), d, g);
    if k.Some? {
      EffectOfOne(Hop(AddUpdate(p, r.face, k.value)), d, g);
    }
  }

  /** What goes down on face `g` because of cost and child-inherit, before capture is looked at. */
  ghost function DownAfterUpdate(T: Table, p: Name, was: Route, r: Route, k: Option<nat>, d: Name, g: nat): Effect
  {
    if g != r.face then Keep
    else if was.flags.childInherit && !r.flags.childInherit then
      Handed(T, p, d, g, if k.Some? then k else CostOf(FromAbove(T, p, g)), true)
    else if r.flags.childInherit && k == Some(r.cost) && (!was.flags.childInherit || (r.flags == was.flags && r.cost != was.cost)) then
      Handed(T, p, d, g, Some(r.cost), false)
    else Keep
  }

  /** And because of capture. */
  ghost function DownAfterCapture(T: Table, p: Name, was: Route, r: Route, d: Name, g: nat): Effect
  {
    if !was.flags.capture && r.flags.capture then Handed(T, p, d, g, None, FromAbove(T, p, g).Some?)
    else if was.flags.capture && !r.flags.capture then Handed(T, p, d, g, CostOf(FromAbove(T, p, g)), false)
    else Keep
  }

  /** What capture changes at the entry itself. */
  ghost function OwnAfterCapture(T: Table, p: Name, e: Entry, was: Route, r: Route, g: nat): Effect
  {
    if FromAbove(T, p, g).None? then Keep
    else if !was.flags.capture && r.flags.capture then (if HasInherited(e, g) then Clear else Keep)
    else if was.flags.capture && !r.flags.capture then (if HasFace(e, g) then Keep else Set(FromAbove(T, p, g).value.cost))
    else Keep
  }

  lemma CaptureChangeEffect(T: Table, p: Name, e: Entry, r: Route, was: Route, d: Name, g: nat)
    requires TreeOk(T) && CopyOf(T, p, e)
    ensures var es := CaptureChange(T, p, e, r, was);
            && (d != p ==> HopEffect(es, d, g) == RecordEffect(es, d, g) == DownAfterCapture(T, p, was, r, d, g))
            && (d == p ==> HopEffect(es, d, g) == RecordEffect(es, d, g) == OwnAfterCapture(T, p, e, was, r, g))
  {
    AboveOf(T, p, e, g);
    CopyIsLinked(T, p, e);
    var above := AncestorRoutesOfEntry(T, e);
    if !was.flags.capture && r.flags.capture {
      LostByEntryEffect(p, e, above, d, g);
      PushIsHanded(T, p, [], above, d, g);
      EffectConcat(LostByEntry(p, e, above), PushDown(T, p, e.children, [], above), d, g);
    } else if was.flags.capture && !r.flags.capture {
      GainedByEntryEffect(p, e, above, d, g);
      PushIsHanded(T, p, above, [], d, g);
      EffectConcat(GainedByEntry(p, e, above), PushDown(T, p, e.children, above, []), d, g);
    }
  }

  lemma InheritOnEffect(T: Table, p: Name, e: Entry, r: Route, was: Route, k: Option<nat>, d: Name, g: nat)
    requires TreeOk(T) && CopyOf(T, p, e) && LeastOffer(e.routes, r.face, k) && r in e.routes
    requires !was.flags.childInherit && r.flags.childInherit
    ensures var es := InheritChange(T, p, e, r, was);
            HopEffect(es, d, g) == RecordEffect(es, d, g) == DownAfterUpdate(T, p, was, r, k, d, g)
  {
    CopyIsLinked(T, p, e);
    LeastOfferIsLowest(e.routes, r.face, k);
    OfferAgainst(e.routes, r, k);
    OneAdded(r, g);
    PushIsHanded(T, p, [r], [], d, g);
    assert InheritChange(T, p, e, r, was) == if r.cost <= k.value then PushDown(T, p, e.children, [r], []) else [];
  }

  lemma InsteadFinds(T: Table, p: Name, e: Entry, r: Route, k: Option<nat>, g: nat)
    requires TreeOk(T) && CopyOf(T, p, e) && LeastOffer(e.routes, r.face, k) && (e.parent.Some? ==> e.parent.value in T)
    ensures FaceSorted(Instead(T, e, r))
    ensures CostOf(FindFace(Instead(T, e, r), g)) ==
            if g != r.face then None else if k.Some? then k else CostOf(FromAbove(T, p, g))
  {
    AboveOf(T, p, e, r.face);
    LeastOfferIsLowest(e.routes, r.face, k);
    var add := Instead(T, e, r);
    if add != [] {
      assert add == [add[0]] && add[0].face == r.face;
      OneAdded(add[0], g);
    }
  }

  lemma InheritOffEffect(T: Table, p: Name, e: Entry, r: Route, was: Route, k: Option<nat>, d: Name, g: nat)
    requires TreeOk(T) && CopyOf(T, p, e) && LeastOffer(e.routes, r.face, k)
    requires was.flags.childInherit && !r.flags.childInherit
    ensures var es := InheritChange(T, p, e, r, was);
            HopEffect(es, d, g) == RecordEffect(es, d, g) == DownAfterUpdate(T, p, was, r, k, d, g)
  {
    CopyIsLinked(T, p, e);
    OneAdded(r, g);
    InsteadFinds(T, p, e, r, k, g);
    PushIsHanded(T, p, Instead(T, e, r), [r], d, g);
    assert InheritChange(T, p, e, r, was) == PushDown(T, p, e.children, Instead(T, e, r), [r]);
  }

  lemma InheritChangeEffect(T: Table, p: Name, e: Entry, r: Route, was: Route, k: Option<nat>, d: Name, g: nat)
    requires TreeOk(T) && CopyOf(T, p, e) && LeastOffer(e.routes, r.face, k) && r in e.routes
    ensures var es := InheritChange(T, p, e, r, was);
            HopEffect(es, d, g) == RecordEffect(es, d, g) ==
            if was.flags.childInherit == r.flags.childInherit then Keep else DownAfterUpdate(T, p, was, r, k, d, g)
  {
    if !was.flags.childInherit && r.flags.childInherit {
      InheritOnEffect(T, p, e, r, was, k, d, g);
    } else if was.flags.childInherit && !r.flags.childInherit {
      InheritOffEffect(T, p, e, r, was, k, d, g);
    }
  }

  /** An inheritable route of the list costs no more than the others exactly if it costs the least. */
  lemma OfferAgainst(rs: seq<Route>, r: Route, k: Option<nat>)
    requires r in rs && r.flags.childInherit && LeastOffer(rs, r.face, k)
    ensures k.Some? && k.value <= r.cost
  {
    var i :| 0 <= i < |rs| && rs[i] == r;
  }

  /** Everything registering a route again does, whatever other routes the entry has: `m` is the least cost on the face
      afterwards, `k` the least of those children inherit. */
  lemma UpdatedEffect(T: Table, p: Name, e: Entry, r: Route, was: Route, m: nat, k: Option<nat>, d: Name, g: nat)
    requires TreeOk(T) && CopyOf(T, p, e) && r in e.routes && ForUpdatedRoute(T, p, e, r, was).Some?
    requires IsLeast(e.routes, r.face, false, m) && LeastOffer(e.routes, r.face, k)
    ensures var es := ForUpdatedRoute(T, p, e, r, was).value;
            && (d != p ==> HopEffect(es, d, g) == RecordEffect(es, d, g) ==
                           Then(DownAfterUpdate(T, p, was, r, k, d, g), DownAfterCapture(T, p, was, r, d, g)))
            && (d == p ==> HopEffect(es, d, g) ==
                           Then(if g == r.face then OwnAfterUpdate(was.cost, r.cost, m, k) else Keep, OwnAfterCapture(T, p, e, was, r, g)))
            && (d == p ==> RecordEffect(es, d, g) == OwnAfterCapture(T, p, e, was, r, g))
  {
    if r.flags != was.flags || r.cost != was.cost {
      CopyIsLinked(T, p, e);
      OwnUpdateEffect(p, e, r, was, m, k, d, g);
      LeastOfferIsLowest(e.routes, r.face, k);
      var own := OwnHopUpdate(p, e, r, was).value;
      if r.cost != was.cost && r.flags == was.flags && r.flags.childInherit && k.Some? && r.cost <= k.value {
        OfferAgainst(e.routes, r, k);
        UpdatedPushed(T, p, e, r, own, d, g);
      } else {
        UpdatedOtherwise(T, p, e, r, was, own, k, d, g);
      }
    }
  }

  lemma UpdatedPushed(T: Table, p: Name, e: Entry, r: Route, own: seq<Emission>, d: Name, g: nat)
    requires TreeOk(T) && CopyOf(T, p, e) && AllBelow(T, p, e.children)
    ensures var es := own + PushDown(T, p, e.children, [r], []);
            var down := if g == r.face then Handed(T, p, d, g, Some(r.cost), false) else Keep;
            HopEffect(es, d, g) == Then(HopEffect(own, d, g), down) && RecordEffect(es, d, g) == Then(RecordEffect(own, d, g), down)
  {
    OneAdded(r, g);
    PushIsHanded(T, p, [r], [], d, g);
    EffectConcat(own, PushDown(T, p, e.children, [r], []), d, g);
  }

  lemma UpdatedOtherwise(T: Table, p: Name, e: Entry, r: Route, was: Route, own: seq<Emission>, k: Option<nat>, d: Name, g: nat)
    requires TreeOk(T) && CopyOf(T, p, e) && r in e.routes && LeastOffer(e.routes, r.face, k)
    ensures var es := own + InheritChange(T, p, e, r, was) + CaptureChange(T, p, e, r, was);
            var first := if was.flags.childInherit == r.flags.childInherit then Keep else DownAfterUpdate(T, p, was, r, k, d, g);
            var second := if d == p then OwnAfterCapture(T, p, e, was, r, g) else DownAfterCapture(T, p, was, r, d, g);
            && HopEffect(es, d, g) == Then(Then(HopEffect(own, d, g), first), second)
            && RecordEffect(es, d, g) == Then(Then(RecordEffect(own, d, g), first), second)
  {
    InheritChangeEffect(T, p, e, r, was, k, d, g);
    CaptureChangeEffect(T, p, e, r, was, d, g);
    EffectConcat(own, InheritChange(T, p, e, r, was), d, g);
    EffectConcat(own + InheritChange(T, p, e, r, was), CaptureChange(T, p, e, r, was), d, g);
  }

  lemma RegistersAgain(T: Table, p: Name, r: Route)
    requires TreeOk(T) && Holds(T, p, r)
    ensures var e := T[p].(routes := Replaced(T, p, r));
            && CopyOf(T, p, e) && r in e.routes
            && ForRegistration(T, p, r) == ForUpdatedRoute(T, p, e, r, Existing(T, p, r))
  {
    assert Replaced(T, p, r)[FindRoute(T[p].routes, r.face, r.origin)] == r;
  }

  lemma LeastOfferExists(rs: seq<Route>, g: nat) returns (k: Option<nat>)
    ensures LeastOffer(rs, g, k)
  {
    k := CostOf(Lowest(rs, g, true));
    if k.Some? {
      LowestAgainst(rs, g, true, k.value);
    } else {
      assert forall i :: 0 <= i < |rs| ==> !Matches(rs[i], g, true);
    }
  }

  /** How the least cost on the face changes when one route is replaced. */
  lemma LeastReplaced(rs: seq<Route>, i: nat, r: Route, inheritable: bool, m: nat, m': nat)
    requires i < |rs| && rs[i].face == r.face
    requires IsLeast(rs, r.face, inheritable, m) && IsLeast(rs[i := r], r.face, inheritable, m')
    ensures m < m' ==> m == rs[i].cost && (inheritable ==> rs[i].flags.childInherit)
    ensures m' < m ==> m' == r.cost && (inheritable ==> r.flags.childInherit)
    ensures inheritable ==> rs[i].flags.childInherit ==> m <= rs[i].cost
    ensures inheritable ==> r.flags.childInherit ==> m' <= r.cost
    ensures !inheritable ==> m <= rs[i].cost && m' <= r.cost
  {
    var t := rs[i := r];
    assert t[i] == r && forall j :: 0 <= j < |rs| && j != i ==> t[j] == rs[j];
    var a :| 0 <= a < |rs| && rs[a].face == r.face && (inheritable ==> rs[a].flags.childInherit) && rs[a].cost == m;
    var b :| 0 <= b < |t| && t[b].face == r.face && (inheritable ==> t[b].flags.childInherit) && t[b].cost == m';
    assert a != i ==> t[a] == rs[a];
    assert b != i ==> rs[b] == t[b];
  }

  /** Capture is turned on while a record says that the entry inherits the face of the route. */
  predicate ClearedByCapture(T: Table, p: Name, r: Route)
    requires Holds(T, p, r)
  {
    !Existing(T, p, r).flags.capture && r.flags.capture && FromAbove(T, p, r.face).Some? && HasInherited(T[p], r.face)
  }

  /** The entry's own next hop when a route is registered again and no null route is read: from the least cost on the face it
      gets to the new least cost exactly if it is not the case that the old cost was below every cost there is now, the new
      cost is not the least, and the cheapest inheritable route, which is put in, is dearer than the cheapest; and a record of
      the face being inherited does not make it go with capture turned on. */
  lemma UpdatedOwnHop(T: Table, p: Name, r: Route, m: nat, m': nat)
    requires TreeOk(T) && Holds(T, p, r) && ForRegistration(T, p, r).Some?
    requires IsLeast(T[p].routes, r.face, false, m) && IsLeast(RoutesAfter(T, p, r), r.face, false, m')
    ensures After(Some(m), HopEffect(ForRegistration(T, p, r).value, p, r.face)) == Some(m') <==>
            && !(Existing(T, p, r).cost < m' < r.cost && !IsLeast(RoutesAfter(T, p, r), r.face, true, m'))
            && !ClearedByCapture(T, p, r)
  {
    RegisteredRoutes(T, p, r);
    var k := LeastOfferExists(Replaced(T, p, r), r.face);
    UpdatedOwnIs(T, p, r, m', k);
    LeastReplaced(T[p].routes, FindRoute(T[p].routes, r.face, r.origin), r, false, m, m');
    OwnReaches(Existing(T, p, r).cost, r.cost, m, m', k);
    LeastOfferIs(Replaced(T, p, r), r.face, k, m');
  }

  lemma LeastOfferIs(rs: seq<Route>, g: nat, k: Option<nat>, m: nat)
    requires LeastOffer(rs, g, k)
    ensures k == Some(m) <==> IsLeast(rs, g, true, m)
  {
    if k.Some? && IsLeast(rs, g, true, m) {
      LeastIsOne(rs, g, true, m, k.value);
    }
  }

  lemma UpdatedOwnIs(T: Table, p: Name, r: Route, m: nat, k: Option<nat>)
    requires TreeOk(T) && Holds(T, p, r) && ForRegistration(T, p, r).Some?
    requires IsLeast(Replaced(T, p, r), r.face, false, m) && LeastOffer(Replaced(T, p, r), r.face, k)
    ensures HopEffect(ForRegistration(T, p, r).value, p, r.face) ==
            Then(OwnAfterUpdate(Existing(T, p, r).cost, r.cost, m, k), if ClearedByCapture(T, p, r) then Clear else Keep)
  {
    var e := T[p].(routes := Replaced(T, p, r));
    RegistersAgain(T, p, r);
    UpdatedEffect(T, p, e, r, Existing(T, p, r), m, k, p, r.face);
    HasItsFace(e.routes, r);
  }

  lemma OwnReaches(was: nat, now: nat, m: nat, m': nat, k: Option<nat>)
    requires (m < m' ==> m == was) && (m' < m ==> m' == now) && m <= was && m' <= now
    ensures After(Some(m), OwnAfterUpdate(was, now, m', k)) == Some(m') <==> !(was < m' < now && k != Some(m'))
  {
  }

  lemma HasItsFace(rs: seq<Route>, r: Route)
    requires r in rs
    ensures FindFace(rs, r.face).Some?
  {
  }

  lemma UpdatedDownIs(T: Table, p: Name, r: Route, m: nat, k: Option<nat>, d: Name)
    requires TreeOk(T) && Holds(T, p, r) && ForRegistration(T, p, r).Some? && d != p
    requires IsLeast(Replaced(T, p, r), r.face, false, m) && LeastOffer(Replaced(T, p, r), r.face, k)
    ensures HopEffect(ForRegistration(T, p, r).value, d, r.face) ==
            Then(DownAfterUpdate(T, p, Existing(T, p, r), r, k, d, r.face), DownAfterCapture(T, p, Existing(T, p, r), r, d, r.face))
  {
    RegistersAgain(T, p, r);
    UpdatedEffect(T, p, T[p].(routes := Replaced(T, p, r)), r, Existing(T, p, r), m, k, d, r.face);
  }

  lemma LeastExists(rs: seq<Route>, r: Route) returns (m: nat)
    requires r in rs
    ensures IsLeast(rs, r.face, false, m)
  {
    LowestOfMember(rs, r);
    m := Lowest(rs, r.face, false).value.cost;
    LowestAgainst(rs, r.face, false, m);
  }

  /** Below the entry, with the capture bit kept: a descendant without its own route gets from the least inheritable cost to
      the new least one, unless that changes and children inherit the route before and after, and it is not the one that is
      now the cheapest or another flag bit changes with it. */
  lemma UpdatedTracks(T: Table, p: Name, r: Route, d: Name, m: nat, m': nat)
    requires TreeOk(T) && Holds(T, p, r) && ForRegistration(T, p, r).Some? && Affected(T, p, d, r.face)
    requires Existing(T, p, r).flags.capture == r.flags.capture
    requires IsLeast(T[p].routes, r.face, true, m) && IsLeast(RoutesAfter(T, p, r), r.face, true, m')
    ensures After(Some(m), HopEffect(ForRegistration(T, p, r).value, d, r.face)) == Some(m') <==>
            || m == m'
            || !(Existing(T, p, r).flags.childInherit && r.flags.childInherit)
            || (r.cost == m' && r.flags == Existing(T, p, r).flags)
  {
    RegisteredRoutes(T, p, r);
    RegistersAgain(T, p, r);
    var least := LeastExists(Replaced(T, p, r), r);
    UpdatedDownIs(T, p, r, least, Some(m'), d);
    DownWhenAffected(T, p, Existing(T, p, r), r, m', d);
    LeastReplaced(T[p].routes, FindRoute(T[p].routes, r.face, r.origin), r, true, m, m');
    DownReaches(Existing(T, p, r), r, m, m');
  }

  ghost function DownSets(was: Route, r: Route, m: nat): Effect
  {
    if was.flags.childInherit && !r.flags.childInherit then Set(m)
    else if r.flags.childInherit && m == r.cost && (!was.flags.childInherit || (r.flags == was.flags && r.cost != was.cost)) then Set(m)
    else Keep
  }

  lemma DownWhenAffected(T: Table, p: Name, was: Route, r: Route, m: nat, d: Name)
    requires Affected(T, p, d, r.face) && was.flags.capture == r.flags.capture
    ensures Then(DownAfterUpdate(T, p, was, r, Some(m), d, r.face), DownAfterCapture(T, p, was, r, d, r.face)) == DownSets(was, r, m)
  {
  }

  lemma DownReaches(was: Route, r: Route, m: nat, m': nat)
    requires (m < m' ==> m == was.cost && was.flags.childInherit) && (m' < m ==> m' == r.cost && r.flags.childInherit)
    requires (was.flags.childInherit ==> m <= was.cost) && (r.flags.childInherit ==> m' <= r.cost)
    ensures After(Some(m), DownSets(was, r, m')) == Some(m') <==>
            m == m' || !(was.flags.childInherit && r.flags.childInherit) || (r.cost == m' && r.flags == was.flags)
  {
  }

  // ----- inputs -----

  const PLAIN := Flags(false, false, 0)
  const OFFERING := Flags(true, false, 0)
  const OWN := Route(9, 0, 1, PLAIN)

  /** An entry with the routes `rs`, and one below it with a route on face 9 that inherits `from`. */
  function Pair(rs: seq<Route>, from: seq<Route>): Table
  {
    map[[0] := Entry(None, [[0, 0]], rs, [], CountCaptures(rs)), [0, 0] := Entry(Some([0]), [], [OWN], from, 0)]
  }

  lemma PairTree(rs: seq<Route>, from: seq<Route>)
    ensures TreeOk(Pair(rs, from))
  {
    var T := Pair(rs, from);
    assert T.Keys == {[0], [0, 0]};
    assert [0][..0] == [] && [0, 0][..1] == [0] && [0, 0][..0] == [];
    assert ParentOf(T.Keys, [0]) == None && ParentOf(T.Keys, [0, 0]) == Some([0]);
  }

  lemma PairAffected(rs: seq<Route>, from: seq<Route>, g: nat)
    requires g != 9
    ensures Affected(Pair(rs, from), [0], [0, 0], g) && FromAbove(Pair(rs, from), [0], g) == None
  {
    var T := Pair(rs, from);
    forall m | m in T && [0] < m <= [0, 0]
      ensures m == [0, 0]
    {
    }
    assert [0][..0] == [] && !HasFace(T[[0, 0]], g);
    assert Nearest(T, [0], 0, g) == None && Offer(T, [0][..0], g) == None;
  }

  lemma ErasedHopIs(T: Table, p: Name, r: Route, next: Route, d: Name)
    requires TreeOk(T) && Holds(T, p, r) && Affected(T, p, d, r.face) && IsSecondLowest(T[p].routes, r.face, Some(next))
    requires FromAbove(T, p, r.face) == None && next.face == r.face
    ensures HopEffect(ForUnregistration(T, p, r, Some(next)), d, r.face) ==
            if next.flags.childInherit && NoneCheaper(Rest(T, p, r).routes, r.face, true, next.cost) then Set(next.cost)
            else if Existing(T, p, r).flags.childInherit && HasInherited(T[d], r.face) then Clear
            else Keep
  {
    ErasedBelow(T, p, r, Some(next), d, r.face);
  }

  /** Two inheritable routes on a face: when the cheaper goes, the child gets the dearer. */
  lemma SecondIsHandedDown()
    ensures var cheap, dear := Route(2, 0, 5, OFFERING), Route(2, 1, 10, OFFERING);
            var T := Pair([cheap, dear], [cheap]);
            TreeOk(T) && HopEffect(ForUnregistration(T, [0], cheap, Some(dear)), [0, 0], 2) == Set(10)
  {
    var cheap, dear := Route(2, 0, 5, OFFERING), Route(2, 1, 10, OFFERING);
    var rs := [cheap, dear];
    var T := Pair(rs, [cheap]);
    PairTree(rs, [cheap]);
    PairAffected(rs, [cheap], 2);
    assert SecondAt(rs, 2, 1, 0);
    assert FindRoute(rs, 2, 0) == 0 && EraseAt(rs, 0) == [dear];
    assert Rest(T, [0], cheap).routes == [dear];
    ErasedHopIs(T, [0], cheap, dear, [0, 0]);
  }

  /** When the dearer goes, the child loses the face although the entry goes on offering it. */
  lemma ChildLosesOffer()
    ensures var cheap, dear := Route(2, 0, 5, OFFERING), Route(2, 1, 10, OFFERING);
            var T := Pair([cheap, dear], [cheap]);
            TreeOk(T) && HopEffect(ForUnregistration(T, [0], dear, Some(dear)), [0, 0], 2) == Clear &&
            EntryWithout(T[[0]], dear).routes == [cheap]
  {
    var cheap, dear := Route(2, 0, 5, OFFERING), Route(2, 1, 10, OFFERING);
    var rs := [cheap, dear];
    var T := Pair(rs, [cheap]);
    PairTree(rs, [cheap]);
    PairAffected(rs, [cheap], 2);
    assert SecondAt(rs, 2, 1, 0);
    assert rs[0].origin != 1 && FindRoute(rs, 2, 1) == 1 && EraseAt(rs, 1) == [cheap];
    assert Rest(T, [0], dear).routes == [cheap] && [cheap][0] == cheap && HasInherited(T[[0, 0]], 2);
    ErasedHopIs(T, [0], dear, dear, [0, 0]);
  }

  /** The cheapest of two inheritable routes is made dearer than the other: the entry's next hop gets the other's cost. */
  lemma OtherTakesOver()
    ensures var rs, r := [Route(1, 0, 1, OFFERING), Route(1, 1, 5, OFFERING)], Route(1, 0, 10, OFFERING);
            && TreeOk(Pair(rs, [])) && ForRegistration(Pair(rs, []), [0], r).Some?
            && HopEffect(ForRegistration(Pair(rs, []), [0], r).value, [0], 1) == Set(5)
  {
    var rs, r := [Route(1, 0, 1, OFFERING), Route(1, 1, 5, OFFERING)], Route(1, 0, 10, OFFERING);
    PairTree(rs, []);
    assert FindRoute(rs, 1, 0) == 0 && Replaced(Pair(rs, []), [0], r) == [r, rs[1]];
    assert [r, rs[1]][1] == rs[1];
    UpdatedOn(Pair(rs, []), [0], r, 5, 5);
  }

  /** The cheapest of three routes is made dearer than the others, of which only the dearer is inheritable: the next hop gets
      that one's cost, 7, and not the least, 5. */
  lemma DearerTakesOver()
    ensures var rs, r := [Route(1, 0, 1, PLAIN), Route(1, 1, 5, PLAIN), Route(1, 2, 7, OFFERING)], Route(1, 0, 10, PLAIN);
            && TreeOk(Pair(rs, [])) && ForRegistration(Pair(rs, []), [0], r).Some?
            && HopEffect(ForRegistration(Pair(rs, []), [0], r).value, [0], 1) == Set(7)
  {
    var rs, r := [Route(1, 0, 1, PLAIN), Route(1, 1, 5, PLAIN), Route(1, 2, 7, OFFERING)], Route(1, 0, 10, PLAIN);
    PairTree(rs, []);
    assert FindRoute(rs, 1, 0) == 0 && Replaced(Pair(rs, []), [0], r) == [r, rs[1], rs[2]];
    assert [r, rs[1], rs[2]][1] == rs[1] && [r, rs[1], rs[2]][2] == rs[2];
    UpdatedOn(Pair(rs, []), [0], r, 5, 7);
  }

  lemma UpdatedOn(T: Table, p: Name, r: Route, m: nat, k: nat)
    requires TreeOk(T) && Holds(T, p, r) && Existing(T, p, r).flags == r.flags
    requires IsLeast(Replaced(T, p, r), r.face, false, m) && IsLeast(Replaced(T, p, r), r.face, true, k)
    ensures ForRegistration(T, p, r).Some?
    ensures HopEffect(ForRegistration(T, p, r).value, p, r.face) == OwnAfterUpdate(Existing(T, p, r).cost, r.cost, m, Some(k))
  {
    RegistersAgain(T, p, r);
    OwnUpdateEffect(p, T[p].(routes := Replaced(T, p, r)), r, Existing(T, p, r), m, Some(k), p, r.face);
    UpdatedOwnIs(T, p, r, m, Some(k));
  }
}
