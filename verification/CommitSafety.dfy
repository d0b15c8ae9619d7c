/** Committing never fails to find an entry: for any single update and any flags, every name that is recorded to gain
    or lose an inherited route is in the RIB after the update itself has been applied. */
module CommitSafety {
  import opened Names
  import opened Routes
  import opened RibModel
  import opened RibOps
  import opened Inheritance
  import opened Updates
  import opened Propagation
  import opened Compute

  /** Every record is about an entry below `p`, or about `p` itself when that is allowed. */
  ghost predicate RecordsNear(T: Table, p: Name, self: bool, es: seq<Emission>)
  {
    forall i :: 0 <= i < |es| && es[i].Record? ==> (es[i].name in T && p < es[i].name) || (self && es[i].name == p)
  }

  lemma NearConcat(T: Table, p: Name, self: bool, a: seq<Emission>, b: seq<Emission>)
    requires RecordsNear(T, p, self, a) && RecordsNear(T, p, self, b)
    ensures RecordsNear(T, p, self, a + b)
  {
  }

  lemma {:induction false} RecordIsSeen(es: seq<Emission>, i: nat)
    requires i < |es| && es[i].Record?
    ensures RecordEffect(es, es[i].name, es[i].route.face) != Keep
  {
    if i < |es| - 1 {
      RecordIsSeen(es[..|es| - 1], i);
    }
  }

  lemma PushDownNear(T: Table, p: Name, cs: seq<Name>, add: seq<Route>, remove: seq<Route>, self: bool)
    requires TreeOk(T) && FaceSorted(add) && FaceSorted(remove) && TopBelow(T, p, cs)
    ensures RecordsNear(T, p, self, PushDown(T, p, cs, add, remove))
  {
    var es := PushDown(T, p, cs, add, remove);
    forall i | 0 <= i < |es| && es[i].Record?
      ensures es[i].name in T && p < es[i].name
    {
      RecordIsSeen(es, i);
      PushDownReachAll(T, p, cs, add, remove, es[i].name, es[i].route.face);
    }
  }

  lemma {:induction false} GainedByNameNear(T: Table, p: Name, s: seq<Route>, ignore: Route)
    ensures RecordsNear(T, p, true, GainedByName(p, s, ignore))
  {
    if s == [] {
    } else {
      GainedByNameNear(T, p, s[..|s| - 1], ignore);
    }
  }

  lemma {:induction false} GainedByEntryNear(T: Table, p: Name, e: Entry, s: seq<Route>)
    ensures RecordsNear(T, p, true, GainedByEntry(p, e, s))
  {
    if s == [] {
    } else {
      GainedByEntryNear(T, p, e, s[..|s| - 1]);
    }
  }

  lemma {:induction false} LostByEntryNear(T: Table, p: Name, e: Entry, s: seq<Route>)
    ensures RecordsNear(T, p, true, LostByEntry(p, e, s))
  {
    if s == [] {
    } else {
      LostByEntryNear(T, p, e, s[..|s| - 1]);
    }
  }

  lemma {:induction false} ErasedEntryNear(T: Table, p: Name, s: seq<Route>)
    ensures RecordsNear(T, p, false, ErasedEntry(p, s))
  {
    if s == [] {
    } else {
      ErasedEntryNear(T, p, s[..|s| - 1]);
    }
  }

  lemma PredictedAreTop(T: Table, p: Name)
    requires TreeOk(T) && p !in T
    ensures TopBelow(T, p, PredictedChildren(T, p))
  {
    var cs := PredictedChildren(T, p);
    PredictionMatchesCommit(T, p, Route(0, 0, 0, Flags(false, false, 0)));
    AdoptedNoDuplicates(T, p);
    PredictedBelow(T, p);
    assert NoDuplicates(cs);
    forall c
      ensures c in cs <==> IsTopBelow(T, p, c)
    {
    }
  }

  lemma NewEntryNear(T: Table, p: Name, r: Route)
    requires TreeOk(T) && p !in T
    ensures AllBelow(T, p, PredictedChildren(T, p))
    ensures RecordsNear(T, p, true, ForNewEntry(T, p, r, PredictedChildren(T, p)))
  {
    var cs, above := PredictedChildren(T, p), AncestorRoutes(T, p);
    PredictedAreTop(T, p);
    var own := [Hop(AddUpdate(p, r.face, r.cost))];
    if !r.flags.childInherit && !r.flags.capture {
      GainedByNameNear(T, p, above, r);
      NearConcat(T, p, true, own, GainedByName(p, above, r));
    } else if r.flags.childInherit && r.flags.capture {
      PushDownNear(T, p, cs, [r], above, true);
      NearConcat(T, p, true, own, PushDown(T, p, cs, [r], above));
    } else if r.flags.childInherit {
      var add := InsertFace(EraseFace(above, r.face), r);
      GainedByNameNear(T, p, above, r);
      PushDownNear(T, p, cs, add, [], true);
      NearConcat(T, p, true, GainedByName(p, above, r), PushDown(T, p, cs, add, []));
      NearConcat(T, p, true, own, GainedByName(p, above, r) + PushDown(T, p, cs, add, []));
    } else {
      PushDownNear(T, p, cs, [], above, true);
      NearConcat(T, p, true, own, PushDown(T, p, cs, [], above));
    }
  }

  lemma NewRouteNear(T: Table, p: Name, e: Entry, r: Route, captureOn: bool, self: bool)
    requires TreeOk(T) && CopyOf(T, p, e) && (captureOn ==> self)
    ensures RecordsNear(T, p, self, ForNewRoute(T, p, e, r, captureOn))
  {
    CopyIsLinked(T, p, e);
    ChildrenAreTop(T, p);
    var previous := Lowest(e.routes, r.face, true);
    var add := if r.flags.childInherit && (previous.None? || r.cost <= previous.value.cost) then [r] else [];
    var remove := if captureOn then AncestorRoutesOfEntry(T, e) else [];
    var other := Lowest(e.routes, r.face, false);
    var a, b := LostByEntry(p, e, remove), PushDown(T, p, e.children, add, remove);
    var c := if other.None? || r.cost <= other.value.cost then [Hop(AddUpdate(p, r.face, r.cost))] else [];
    LostByEntryNear(T, p, e, remove);
    PushDownNear(T, p, e.children, add, remove, self);
    NearConcat(T, p, self, a, b);
    NearConcat(T, p, self, a + b, c);
  }

  lemma InheritChangeNear(T: Table, p: Name, e: Entry, r: Route, was: Route)
    requires TreeOk(T) && CopyOf(T, p, e)
    ensures RecordsNear(T, p, true, InheritChange(T, p, e, r, was))
  {
    CopyIsLinked(T, p, e);
    ChildrenAreTop(T, p);
    PushDownNear(T, p, e.children, [r], [], true);
    PushDownNear(T, p, e.children, [], [r], true);
    var previous := Lowest(e.routes, r.face, true);
    if previous.Some? {
      PushDownNear(T, p, e.children, [previous.value], [r], true);
    }
    var a := FindFace(AncestorRoutesOfEntry(T, e), r.face);
    if a.Some? {
      PushDownNear(T, p, e.children, [a.value], [r], true);
    }
  }

  lemma CaptureChangeNear(T: Table, p: Name, e: Entry, r: Route, was: Route)
    requires TreeOk(T) && CopyOf(T, p, e)
    ensures RecordsNear(T, p, true, CaptureChange(T, p, e, r, was))
  {
    CopyIsLinked(T, p, e);
    ChildrenAreTop(T, p);
    var above := AncestorRoutesOfEntry(T, e);
    if !was.flags.capture && r.flags.capture {
      LostByEntryNear(T, p, e, above);
      PushDownNear(T, p, e.children, [], above, true);
      NearConcat(T, p, true, LostByEntry(p, e, above), PushDown(T, p, e.children, [], above));
    } else if was.flags.capture && !r.flags.capture {
      GainedByEntryNear(T, p, e, above);
      PushDownNear(T, p, e.children, above, [], true);
      NearConcat(T, p, true, GainedByEntry(p, e, above), PushDown(T, p, e.children, above, []));
    }
  }

  lemma UpdatedRouteNear(T: Table, p: Name, e: Entry, r: Route, was: Route)
    requires TreeOk(T) && CopyOf(T, p, e) && r in e.routes && ForUpdatedRoute(T, p, e, r, was).Some?
    ensures RecordsNear(T, p, true, ForUpdatedRoute(T, p, e, r, was).value)
  {
    CopyIsLinked(T, p, e);
    if r.flags != was.flags || r.cost != was.cost {
      var own := OwnHopUpdate(p, e, r, was).value;
      PushedNear(T, p, e, own, [r], []);
      ChangesNear(T, p, e, r, was, own);
    }
  }

  lemma PushedNear(T: Table, p: Name, e: Entry, own: seq<Emission>, add: seq<Route>, remove: seq<Route>)
    requires TreeOk(T) && CopyOf(T, p, e) && AllBelow(T, p, e.children) && RecordsNear(T, p, true, own)
    requires FaceSorted(add) && FaceSorted(remove)
    ensures RecordsNear(T, p, true, own + PushDown(T, p, e.children, add, remove))
  {
    ChildrenAreTop(T, p);
    PushDownNear(T, p, e.children, add, remove, true);
    NearConcat(T, p, true, own, PushDown(T, p, e.children, add, remove));
  }

  lemma ChangesNear(T: Table, p: Name, e: Entry, r: Route, was: Route, own: seq<Emission>)
    requires TreeOk(T) && CopyOf(T, p, e) && RecordsNear(T, p, true, own)
    ensures RecordsNear(T, p, true, own + InheritChange(T, p, e, r, was) + CaptureChange(T, p, e, r, was))
  {
    InheritChangeNear(T, p, e, r, was);
    CaptureChangeNear(T, p, e, r, was);
    NearConcat(T, p, true, own, InheritChange(T, p, e, r, was));
    NearConcat(T, p, true, own + InheritChange(T, p, e, r, was), CaptureChange(T, p, e, r, was));
  }

  lemma OwnUnblockedNear(T: Table, p: Name, e: Entry, was: Route, captureOff: bool)
    requires TreeOk(T) && CopyOf(T, p, e)
    ensures RecordsNear(T, p, e.routes != [], OwnUnblocked(T, p, e, was, captureOff))
  {
    CopyIsLinked(T, p, e);
    GainedByEntryNear(T, p, e, AncestorRoutesOfEntry(T, e));
  }

  lemma DownUnblockedNear(T: Table, p: Name, e: Entry, was: Route, captureOff: bool)
    requires TreeOk(T) && CopyOf(T, p, e)
    ensures RecordsNear(T, p, e.routes != [], DownUnblocked(T, p, e, was, captureOff))
  {
    CopyIsLinked(T, p, e);
    ChildrenAreTop(T, p);
    PushDownNear(T, p, e.children, Unblocked(T, p, e, was, captureOff), if was.flags.childInherit then [was] else [], e.routes != []);
  }

  lemma ErasedRouteNear(T: Table, p: Name, e: Entry, was: Route, captureOff: bool)
    requires TreeOk(T) && CopyOf(T, p, e)
    ensures RecordsNear(T, p, e.routes != [], ForErasedRoute(T, p, e, was, captureOff))
  {
    OwnUnblockedNear(T, p, e, was, captureOff);
    DownUnblockedNear(T, p, e, was, captureOff);
    NearInFour(T, p, e.routes != [], [Hop(RemoveUpdate(p, was.face))], OwnUnblocked(T, p, e, was, captureOff),
               DownUnblocked(T, p, e, was, captureOff), Restored(T, p, e, was));
  }

  lemma NearInFour(T: Table, p: Name, self: bool, a: seq<Emission>, b: seq<Emission>, c: seq<Emission>, d: seq<Emission>)
    requires RecordsNear(T, p, self, a) && RecordsNear(T, p, self, b) && RecordsNear(T, p, self, c) && RecordsNear(T, p, self, d)
    ensures RecordsNear(T, p, self, a + b + c + d)
  {
    NearConcat(T, p, self, a, b);
    NearConcat(T, p, self, a + b, c);
    NearConcat(T, p, self, a + b + c, d);
  }

  lemma UnregistrationNear(T: Table, p: Name, r: Route, next: Option<Route>)
    requires TreeOk(T) && Holds(T, p, r)
    ensures RecordsNear(T, p, EntryWithout(T[p], r).routes != [], ForUnregistration(T, p, r, next))
  {
    var was := T[p].routes[FindRoute(T[p].routes, r.face, r.origin)];
    var copy := EntryWithout(T[p], r);
    var self := copy.routes != [];
    var a := ForErasedRoute(T, p, copy, was, HasCapture(T[p]) && !HasCapture(copy));
    var b := if next.Some? then ForNewRoute(T, p, copy, next.value, false) else [];
    var c := if |T[p].routes| == 1 then ErasedEntry(p, T[p].inherited) else [];
    ErasedRouteNear(T, p, copy, was, HasCapture(T[p]) && !HasCapture(copy));
    if next.Some? {
      NewRouteNear(T, p, copy, next.value, false, self);
    }
    ErasedEntryNear(T, p, T[p].inherited);
    NearConcat(T, p, self, a, b);
    NearConcat(T, p, self, a + b, c);
  }

  /** For any single update and any flags, every name in the computed inherited-route list is in the RIB after the
      update is applied, even when the update erases an entry. */
  lemma RecordsAlwaysApplicable(T: Table, u: RibUpdate, next: Option<Route>)
    requires TreeOk(T) && Emitted(T, u, next).Some?
    ensures Applicable(Applied(T, u), Emitted(T, u, next).value)
  {
    var p, r, U := u.name, u.route, Applied(T, u);
    var es := Emitted(T, u, next).value;
    if u.kind == Register {
      InsertElsewhere(T, p, r);
      if p !in T {
        NewEntryNear(T, p, r);
      } else if !Holds(T, p, r) {
        NewRouteNear(T, p, T[p], r, !HasCapture(T[p]) && r.flags.capture, true);
      } else {
        var i := FindRoute(T[p].routes, r.face, r.origin);
        var copy := T[p].(routes := T[p].routes[i := r]);
        assert copy.routes[i] == r;
        UpdatedRouteNear(T, p, copy, r, T[p].routes[i]);
      }
      assert RecordsNear(T, p, true, es);
    } else if Holds(T, p, r) {
      EraseElsewhere(T, p, r);
      UnregistrationNear(T, p, r, next);
    }
  }

  /** The entry's own next hop cannot be updated. */
  lemma OwnHopNone(p: Name, e: Entry, r: Route, was: Route)
    requires r in e.routes
    ensures OwnHopUpdate(p, e, r, was).None? <==>
            && (exists j :: 0 <= j < |e.routes| && e.routes[j].face == r.face && e.routes[j].cost < r.cost)
            && (forall j :: 0 <= j < |e.routes| && e.routes[j].face == r.face ==>
                              was.cost < e.routes[j].cost && !e.routes[j].flags.childInherit)
  {
    var rs := e.routes;
    var i :| 0 <= i < |rs| && rs[i] == r;
    assert Matches(rs[i], r.face, false);
    var low := Lowest(rs, r.face, false);
    var k :| 0 <= k < |rs| && rs[k] == low.value;
    assert forall j :: 0 <= j < |rs| ==> (Matches(rs[j], r.face, false) <==> rs[j].face == r.face);
    assert forall j :: 0 <= j < |rs| ==> (Matches(rs[j], r.face, true) <==> rs[j].face == r.face && rs[j].flags.childInherit);
  }

  /** Reading a null route happens exactly when the update makes a route dearer than another on its face, it used to
      be the cheapest there, and no route left on that face is inheritable. */
  lemma NullRouteRead(T: Table, p: Name, r: Route)
    requires TreeOk(T)
    ensures ForRegistration(T, p, r).None? <==>
            Holds(T, p, r) &&
            var i := FindRoute(T[p].routes, r.face, r.origin);
            var rs := T[p].routes[i := r];
            && (exists j :: 0 <= j < |rs| && rs[j].face == r.face && rs[j].cost < r.cost)
            && (forall j :: 0 <= j < |rs| && rs[j].face == r.face ==> T[p].routes[i].cost < rs[j].cost && !rs[j].flags.childInherit)
  {
    if Holds(T, p, r) {
      var i := FindRoute(T[p].routes, r.face, r.origin);
      var copy := T[p].(routes := T[p].routes[i := r]);
      assert copy.routes[i] == r;
      OwnHopNone(p, copy, r, T[p].routes[i]);
    }
  }
}
