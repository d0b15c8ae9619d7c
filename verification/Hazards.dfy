/** The ways in which one update can make the incremental result differ from the recomputed one, when no entry has two
    routes on one face. */
module Hazards {
  import opened Names
  import opened Routes
  import opened RibModel
  import opened RibOps
  import opened Inheritance
  import opened Compute
  import opened Incremental

  /** The update does not give an entry a second route on a face. */
  predicate KeepsOnePerFace(T: Table, u: RibUpdate)
  {
    u.kind == Register && u.name in T && !Holds(T, u.name, u.route) ==> !HasFace(T[u.name], u.route.face)
  }

  /** The route the update refers to. */
  function Existing(T: Table, p: Name, r: Route): Route
    requires Holds(T, p, r)
  {
    T[p].routes[FindRoute(T[p].routes, r.face, r.origin)]
  }

  // ----- the hazards -----

  /** A new route leaves behind the record that its face was inherited. */
  predicate StaleRecord(T: Table, p: Name, r: Route)
    requires p in T
  {
    !(r.flags.capture && !HasCapture(T[p])) && HasInherited(T[p], r.face)
  }

  /** Turning capture on takes from a descendant a face it gets from the entry itself. */
  ghost predicate StripsOwnOffer(T: Table, p: Name, r: Route)
    requires p in T
  {
    r.flags.capture && !HasCapture(T[p]) &&
    exists d, g :: Affected(T, p, d, g) && FromAbove(T, p, g).Some? && Offer(T, p, g).Some?
  }

  /** Child-inherit is switched off at a capturing entry, and a descendant is given an ancestor's route. */
  ghost predicate LeaksPastCapture(T: Table, p: Name, was: Route, r: Route)
    requires p in T
  {
    was.flags.childInherit && !r.flags.childInherit && HasCapture(T[p]) && FromAbove(T, p, r.face).Some? &&
    exists d :: Affected(T, p, d, r.face)
  }

  /** The cost and an unrelated flag bit change together: descendants keep the old cost. */
  ghost predicate MissesCost(T: Table, p: Name, was: Route, r: Route, dead: set<nat>)
    requires p in T
  {
    was.flags.childInherit && r.flags.childInherit && was.flags != r.flags && was.cost != r.cost && r.face !in dead &&
    exists d :: Affected(T, p, d, r.face)
  }

  /** The last route of a capturing entry goes, and a descendant does not get what the entry was blocking. */
  ghost predicate StaysBlocked(T: Table, p: Name, was: Route)
    requires p in T
  {
    was.flags.capture && exists d, g :: Affected(T, p, d, g) && FromAbove(T, p, g).Some?
  }

  /** Ancestor routes are handed down over a route the entry still offers at another cost. */
  ghost predicate OverridesOffer(T: Table, p: Name, rest: Entry, was: Route, dead: set<nat>)
    requires p in T
  {
    (was.flags.childInherit || was.flags.capture) && !HasCapture(rest) &&
    exists d, g :: Affected(T, p, d, g) && g !in dead && FromAbove(T, p, g).Some? &&
                   FirstInheritable(rest.routes, g).Some? &&
                   FirstInheritable(rest.routes, g).value.cost != FromAbove(T, p, g).value.cost
  }

  /** What the entry offers on face `g` once `was` is overwritten by `r`. */
  function OfferAfter(T: Table, p: Name, r: Route, g: nat): Option<Route>
  {
    if g != r.face then Offer(T, p, g) else if r.flags.childInherit then Some(r) else None
  }

  /** Re-registering switches capture on.  The routes from above are taken from all descendants, also on a face the entry
      goes on offering; and a new cost is not handed down. */
  ghost predicate StripsBySwitchingOn(T: Table, p: Name, was: Route, r: Route, dead: set<nat>)
    requires p in T
  {
    !was.flags.capture && r.flags.capture && exists d, g :: Affected(T, p, d, g) && StripsOn(T, p, was, r, dead, g)
  }

  predicate StripsOn(T: Table, p: Name, was: Route, r: Route, dead: set<nat>, g: nat)
    requires p in T
  {
    && OfferAfter(T, p, r, g).Some?
    && if g == r.face && !was.flags.childInherit then FromAbove(T, p, g).Some? && !HasCapture(T[p])
       else FromAbove(T, p, g).Some? || (g == r.face && was.cost != r.cost && g !in dead)
  }

  /** Re-registering switches capture off although another route goes on capturing, and the entry itself is given what its
      ancestors offer. */
  ghost predicate UncapturesItself(T: Table, p: Name, was: Route, r: Route)
    requires p in T
  {
    was.flags.capture && !r.flags.capture && T[p].captures > 1 && exists g :: FromAbove(T, p, g).Some? && !HasFace(T[p], g)
  }

  /** Re-registering switches capture off.  Descendants are given what the ancestors offer, also past a route that goes on
      capturing and also where the entry offers another cost; and a new cost is not handed down. */
  ghost predicate LeaksBySwitchingOff(T: Table, p: Name, was: Route, r: Route, dead: set<nat>)
    requires p in T
  {
    was.flags.capture && !r.flags.capture && exists d, g :: Affected(T, p, d, g) && LeaksOn(T, p, was, r, dead, g)
  }

  predicate LeaksOn(T: Table, p: Name, was: Route, r: Route, dead: set<nat>, g: nat)
    requires p in T
  {
    var above, own := FromAbove(T, p, g), OfferAfter(T, p, r, g);
    if above.None? then g == r.face && was.flags.childInherit && own.Some? && was.cost != r.cost && g !in dead
    else if own.None? then T[p].captures > 1
    else own.value.cost != above.value.cost && g !in dead
  }

  /** All the ways in which one update can leave FIB or records different from the recomputed ones. */
  ghost predicate Hazard(T: Table, u: RibUpdate, dead: set<nat>)
  {
    var p, r := u.name, u.route;
    p in T &&
    if u.kind == Register then
      if Holds(T, p, r) then
        var was := Existing(T, p, r);
        if was.flags.capture == r.flags.capture then LeaksPastCapture(T, p, was, r) || MissesCost(T, p, was, r, dead)
        else StripsBySwitchingOn(T, p, was, r, dead) || UncapturesItself(T, p, was, r) || LeaksBySwitchingOff(T, p, was, r, dead)
      else
        StaleRecord(T, p, r) || StripsOwnOffer(T, p, r)
    else
      Holds(T, p, r) &&
      var was, rest := Existing(T, p, r), EntryWithout(T[p], r);
      if rest.routes == [] then StaysBlocked(T, p, was) else OverridesOffer(T, p, rest, was, dead)
  }

  /** Re-registering changes the capture bit, which the counter does not follow. */
  predicate Drifts(T: Table, u: RibUpdate)
  {
    u.kind == Register && Holds(T, u.name, u.route) &&
    Existing(T, u.name, u.route).flags.capture != u.route.flags.capture
  }

  // ----- lists with one route per face -----

  lemma {:induction false} OneOnFace(rs: seq<Route>, i: nat)
    requires OnePerFace(rs) && i < |rs|
    ensures FindFace(rs, rs[i].face) == Some(rs[i])
    ensures Lowest(rs, rs[i].face, false) == Some(rs[i])
    ensures FirstInheritable(rs, rs[i].face) == if rs[i].flags.childInherit then Some(rs[i]) else None
    ensures Lowest(rs, rs[i].face, true) == FirstInheritable(rs, rs[i].face)
  {
    var g := rs[i].face;
    assert Matches(rs[i], g, false) && (rs[i].flags.childInherit ==> Matches(rs[i], g, true));
    assert forall j :: 0 <= j < |rs| && rs[j].face == g ==> j == i;
  }

  /** All queries about a face are about its one route. */
  lemma QueriesAgree(rs: seq<Route>, g: nat)
    requires OnePerFace(rs)
    ensures Lowest(rs, g, false) == FindFace(rs, g)
    ensures Lowest(rs, g, true) == FirstInheritable(rs, g)
    ensures FirstInheritable(rs, g) ==
            if FindFace(rs, g).Some? && FindFace(rs, g).value.flags.childInherit then FindFace(rs, g) else None
  {
    if i :| 0 <= i < |rs| && rs[i].face == g {
      OneOnFace(rs, i);
    }
  }

  lemma AppendFinds(rs: seq<Route>, r: Route, g: nat)
    requires OnePerFace(rs) && FindFace(rs, r.face).None?
    ensures OnePerFace(rs + [r])
    ensures FindFace(rs + [r], g) == if g == r.face then Some(r) else FindFace(rs, g)
    ensures FirstInheritable(rs + [r], g) ==
            if g != r.face then FirstInheritable(rs, g) else if r.flags.childInherit then Some(r) else None
  {
    FindFaceConcat(rs, [r], g);
    QueriesAgree(rs, g);
    QueriesAgree(rs + [r], g);
  }

  lemma ReplaceFinds(rs: seq<Route>, i: nat, r: Route, g: nat)
    requires OnePerFace(rs) && i < |rs| && r.face == rs[i].face
    ensures OnePerFace(rs[i := r])
    ensures FindFace(rs[i := r], g) == if g == r.face then Some(r) else FindFace(rs, g)
  {
    var t := rs[i := r];
    if g == r.face {
      OneOnFace(t, i);
    } else if j :| 0 <= j < |rs| && rs[j].face == g {
      assert t[j] == rs[j];
      OneOnFace(t, j);
      OneOnFace(rs, j);
    } else {
      assert forall j :: 0 <= j < |t| ==> t[j].face == rs[j].face;
    }
  }

  lemma EraseAtIndex(rs: seq<Route>, i: nat)
    requires i < |rs|
    ensures |EraseAt(rs, i)| == |rs| - 1
    ensures forall j :: 0 <= j < |rs| - 1 ==> EraseAt(rs, i)[j] == rs[if j < i then j else j + 1]
  {
  }

  lemma EraseFinds(rs: seq<Route>, i: nat, g: nat)
    requires OnePerFace(rs) && i < |rs|
    ensures OnePerFace(EraseAt(rs, i))
    ensures FindFace(EraseAt(rs, i), g) == if g == rs[i].face then None else FindFace(rs, g)
  {
    var t := EraseAt(rs, i);
    EraseAtIndex(rs, i);
    if g != rs[i].face {
      if j :| 0 <= j < |rs| && rs[j].face == g {
        OneOnFace(rs, j);
        var k := if j < i then j else j - 1;
        assert t[k] == rs[j];
        OneOnFace(t, k);
      }
    }
  }

  // ----- the updated table -----

  lemma AppliedFrame(T: Table, u: RibUpdate)
    requires TreeOk(T)
    ensures SameElsewhere(T, Applied(T, u), u.name) && SameInherited(T, Applied(T, u))
    ensures TreeOk(Applied(T, u))
  {
    if u.kind == Register {
      InsertElsewhere(T, u.name, u.route);
      InsertKeepsTree(T, u.name, u.route);
    } else {
      if u.name in T {
        EraseElsewhere(T, u.name, u.route);
      }
      EraseKeepsTree(T, u.name, u.route);
    }
  }

  lemma InsertedShape(T: Table, p: Name, r: Route)
    requires EntriesOk(T) && OneRoutePerFace(T) && (p in T && !Holds(T, p, r) ==> !HasFace(T[p], r.face))
    ensures EntriesOk(InsertTable(T, p, r)) && OneRoutePerFace(InsertTable(T, p, r))
  {
    InsertElsewhere(T, p, r);
    InsertKeepsEntries(T, p, r);
    if p in T {
      if Holds(T, p, r) {
        ReplaceFinds(T[p].routes, FindRoute(T[p].routes, r.face, r.origin), r, r.face);
      } else {
        AppendFinds(T[p].routes, r, r.face);
      }
    }
  }

  lemma ErasedShape(T: Table, p: Name, r: Route)
    requires EntriesOk(T) && OneRoutePerFace(T) && p in T
    ensures EntriesOk(EraseTable(T, p, r)) && OneRoutePerFace(EraseTable(T, p, r))
  {
    EraseElsewhere(T, p, r);
    EntryWithoutUnique(T[p], r);
    if Holds(T, p, r) {
      EraseFinds(T[p].routes, FindRoute(T[p].routes, r.face, r.origin), r.face);
    }
  }

  lemma AppliedShape(T: Table, u: RibUpdate)
    requires EntriesOk(T) && OneRoutePerFace(T) && KeepsOnePerFace(T, u)
    ensures EntriesOk(Applied(T, u)) && OneRoutePerFace(Applied(T, u))
  {
    if u.kind == Register {
      InsertedShape(T, u.name, u.route);
    } else if u.name in T {
      ErasedShape(T, u.name, u.route);
    }
  }
}
