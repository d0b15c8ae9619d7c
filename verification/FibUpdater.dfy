/** The FIB updater as an object: it computes the updates for one batch into two lists, and reacts to responses.  The RIB
    it reads through a constant reference is passed as its current value. */
module FibUpdaterClass {
  import opened Names
  import opened Routes
  import opened RibModel
  import opened RibOps
  import opened Inheritance
  import opened Updates
  import opened Propagation
  import opened Compute
  import opened Incremental
  import opened Protocol

  /** The inherited-route list is the emissions about records. */
  function RecordsOf(es: seq<Emission>): seq<Emission>
  {
    if es == [] then []
    else
      var e := es[|es| - 1];
      RecordsOf(es[..|es| - 1]) + if e.Record? then [e] else []
  }

  lemma {:induction false} RecordsAreEnough(T: Table, es: seq<Emission>)
    requires Applicable(T, es)
    ensures Applicable(T, RecordsOf(es))
    ensures ApplyRecords(T, RecordsOf(es)) == ApplyRecords(T, es)
  {
    if es == [] {
    } else {
      var before, e := es[..|es| - 1], es[|es| - 1];
      RecordsAreEnough(T, before);
      assert es == before + [e];
      ApplyLast(T, before, e);
      if e.Record? {
        assert RecordsOf(es) == RecordsOf(before) + [e];
        ApplyLast(T, RecordsOf(before), e);
      } else {
        assert RecordsOf(es) == RecordsOf(before);
      }
    }
  }

  /** What the last emission does to the table the others leave. */
  function OneRecord(U: Table, e: Emission): Table
  {
    if e.Hop? || e.name !in U then U
    else if e.gained then U[e.name := U[e.name].(inherited := U[e.name].inherited + [e.route])]
    else U[e.name := U[e.name].(inherited := DropFace(U[e.name].inherited, e.route.face))]
  }

  lemma ApplyLast(T: Table, es: seq<Emission>, e: Emission)
    requires Applicable(T, es) && (e.Record? ==> e.name in T)
    ensures Applicable(T, es + [e]) && ApplyRecords(T, es + [e]) == OneRecord(ApplyRecords(T, es), e)
  {
    assert (es + [e])[..|es|] == es;
  }

  /** Half-way through a set: the part gone through holds what is kept of it, the rest is untouched. */
  ghost predicate Halfway(e: Entry, s: seq<Route>, now: seq<Route>, i: nat, done: nat)
  {
    i <= |now| && done <= |s| && now[..i] == Kept(e, s[..done]) && now[i..] == s[done..]
  }

  lemma HalfwayStep(e: Entry, s: seq<Route>, now: seq<Route>, i: nat, done: nat)
    requires Halfway(e, s, now, i, done) && i < |now|
    ensures done < |s| && now[i] == s[done]
    ensures if HasChildInheritOnFace(e, now[i].face) then Halfway(e, s, now[..i] + now[i + 1..], i, done + 1)
            else Halfway(e, s, now, i + 1, done + 1)
  {
    assert now[i] == now[i..][0];
    assert s[..done + 1][..done] == s[..done];
    assert s[done + 1..] == now[i + 1..] by {
      assert now[i + 1..] == now[i..][1..] && s[done + 1..] == s[done..][1..];
    }
    if HasChildInheritOnFace(e, now[i].face) {
      var next := now[..i] + now[i + 1..];
      assert next[..i] == now[..i] && next[i..] == now[i + 1..];
    } else {
      assert now[..i + 1] == now[..i] + [now[i]];
    }
  }

  lemma HalfwayEnd(e: Entry, s: seq<Route>, now: seq<Route>, i: nat, done: nat)
    requires Halfway(e, s, now, i, done) && i == |now|
    ensures now == Kept(e, s) && s[..done] == s
  {
    assert now[..i] == now;
    assert |s[done..]| == |now[i..]| == 0;
    assert s[..done] == s;
  }

  function RemovalOf(n: Name, e: Entry, r: Route): seq<Emission>
  {
    if !HasChildInheritOnFace(e, r.face) && HasInherited(e, r.face) then
      [Record(n, r, false), Hop(RemoveUpdate(n, r.face))]
    else []
  }

  function AdditionOf(n: Name, e: Entry, r: Route): seq<Emission>
  {
    if !HasChildInheritOnFace(e, r.face) && !HasFace(e, r.face) then
      [Record(n, r, true), Hop(AddUpdate(n, r.face, r.cost))]
    else []
  }

  lemma EmissionsStep(n: Name, e: Entry, s: seq<Route>, k: nat)
    requires k < |s|
    ensures Removals(n, e, s[..k + 1]) == Removals(n, e, s[..k]) + RemovalOf(n, e, s[k])
    ensures Additions(n, e, s[..k + 1]) == Additions(n, e, s[..k]) + AdditionOf(n, e, s[k])
  {
    assert s[..k + 1][..k] == s[..k];
  }

  lemma Regroup(a: seq<Emission>, b: seq<Emission>, c: seq<Emission>, d: seq<Emission>)
    ensures a + b + c == a + (b + c)
    ensures a + b + c + d == a + (b + c + d)
  {
  }

  lemma PushDownStep(T: Table, e: Name, cs: seq<Name>, k: nat, add: seq<Route>, remove: seq<Route>)
    requires TreeOk(T) && AllBelow(T, e, cs) && k < |cs|
    ensures AllBelow(T, e, cs[..k]) && AllBelow(T, e, cs[..k + 1])
    ensures PushDown(T, e, cs[..k + 1], add, remove) == PushDown(T, e, cs[..k], add, remove) + Traverse(T, cs[k], add, remove)
    ensures cs[k] in Below(T, e) && cs[k] !in Below(T, cs[k])
  {
    assert cs[..k + 1][..k] == cs[..k];
  }

  lemma {:induction false} EraseMissing(s: seq<Route>, g: nat)
    requires FaceSorted(s) && FindFace(s, g).None?
    ensures EraseFace(s, g) == s
  {
    if s == [] {
    } else {
      EraseMissing(s[1..], g);
    }
  }

  lemma RegroupFive(a: seq<Emission>, b: seq<Emission>, c: seq<Emission>, d: seq<Emission>, e: seq<Emission>)
    ensures a + b + c + d + e == a + (b + c + d + e)
  {
  }

  /** The order in which the RIB's map is gone through. */
  ghost predicate InMapOrder(keys: seq<Name>, T: Table)
  {
    StrictlySorted(keys) && forall n :: n in keys <==> n in T
  }

  lemma MapOrderIsSorted(keys: seq<Name>, T: Table)
    requires InMapOrder(keys, T)
    ensures keys == Sorted(T.Keys)
  {
    SortedIsUnique(keys, Sorted(T.Keys));
  }

  /** The children a name that is not in the RIB would get. */
  method ChildrenToBe(T: Table, keys: seq<Name>, p: Name) returns (children: seq<Name>)
    requires InMapOrder(keys, T) && p !in T
    ensures children == PredictedChildren(T, p)
  {
    var parent := ParentOf(T.Keys, p);
    var descendants := ScanFrom(keys, p);
    MapOrderIsSorted(keys, T);
    children := [];
    for i := 0 to |descendants|
      invariant forall x :: x in descendants[..i] ==> x in T
      invariant children == WithParent(T, descendants[..i], parent)
    {
      assert descendants[..i + 1][..i] == descendants[..i] && descendants[i] in descendants;
      assert forall x :: x in descendants[..i + 1] ==> x in descendants;
      if T[descendants[i]].parent == parent {
        children := children + [descendants[i]];
      }
    }
    assert descendants[..|descendants|] == descendants;
  }

  lemma UnregistrationParts(T: Table, p: Name, r: Route, next: Option<Route>, before: seq<Emission>)
    requires TreeOk(T) && Holds(T, p, r)
    ensures var copy := EntryWithout(T[p], r);
            var a := ForErasedRoute(T, p, copy, T[p].routes[FindRoute(T[p].routes, r.face, r.origin)], HasCapture(T[p]) && !HasCapture(copy));
            var b := if next.Some? then ForNewRoute(T, p, copy, next.value, false) else [];
            var c := if |T[p].routes| == 1 then ErasedEntry(p, T[p].inherited) else [];
            before + ForUnregistration(T, p, r, next) == before + a + b + c
  {
    var copy := EntryWithout(T[p], r);
    var a := ForErasedRoute(T, p, copy, T[p].routes[FindRoute(T[p].routes, r.face, r.origin)], HasCapture(T[p]) && !HasCapture(copy));
    var b := if next.Some? then ForNewRoute(T, p, copy, next.value, false) else [];
    var c := if |T[p].routes| == 1 then ErasedEntry(p, T[p].inherited) else [];
    assert ForUnregistration(T, p, r, next) == a + b + c;
    Regroup(before, a, b, c);
  }

  class FibUpdater {
    var batchFaceId: nat
    var updatesForBatchFaceId: seq<FibUpdate>
    var updatesForNonBatchFaceId: seq<FibUpdate>
    var inheritedRoutes: seq<Emission>

    /** Everything emitted since the batch began, in order. */
    ghost var log: seq<Emission>

    constructor ()
      ensures Valid() && log == []
    {
      batchFaceId, updatesForBatchFaceId, updatesForNonBatchFaceId, inheritedRoutes, log := 0, [], [], [], [];
    }

    /** The lists are what the emissions so far come to. */
    ghost predicate Valid()
      reads this
    {
      && updatesForBatchFaceId == Coalesced(log, batchFaceId, true)
      && updatesForNonBatchFaceId == Coalesced(log, batchFaceId, false)
      && inheritedRoutes == RecordsOf(log)
    }

    // ----- emitting -----

    method AddFibUpdate(u: FibUpdate)
      requires Valid()
      modifies this
      ensures Valid() && batchFaceId == old(batchFaceId) && log == old(log) + [Hop(u)]
    {
      var own := u.face == batchFaceId;
      var updates := if own then updatesForBatchFaceId else updatesForNonBatchFaceId;
      var i := 0;
      while i < |updates| && !(u.name == updates[i].name && u.face == updates[i].face)
        invariant 0 <= i <= |updates|
        invariant forall j :: 0 <= j < i ==> !Targets(updates[j], u.name, u.face)
      {
        i := i + 1;
      }
      assert i == FindTarget(updates, u.name, u.face);
      if i < |updates| {
        updates := updates[i := updates[i].(action := u.action, cost := u.cost)];
      } else {
        updates := updates + [u];
      }
      if own {
        updatesForBatchFaceId := updates;
      } else {
        updatesForNonBatchFaceId := updates;
      }
      log := log + [Hop(u)];
      assert log[..|log| - 1] == old(log);
    }

    method AddInheritedRoute(n: Name, r: Route)
      requires Valid()
      modifies this
      ensures Valid() && batchFaceId == old(batchFaceId) && log == old(log) + [Record(n, r, true)]
    {
      inheritedRoutes := inheritedRoutes + [Record(n, r, true)];
      log := log + [Record(n, r, true)];
      assert log[..|log| - 1] == old(log);
    }

    method RemoveInheritedRoute(n: Name, r: Route)
      requires Valid()
      modifies this
      ensures Valid() && batchFaceId == old(batchFaceId) && log == old(log) + [Record(n, r, false)]
    {
      inheritedRoutes := inheritedRoutes + [Record(n, r, false)];
      log := log + [Record(n, r, false)];
      assert log[..|log| - 1] == old(log);
    }

    /** A name gains a route: the record and the next hop. */
    method Gain(n: Name, r: Route)
      requires Valid()
      modifies this
      ensures Valid() && batchFaceId == old(batchFaceId)
      ensures log == old(log) + [Record(n, r, true), Hop(AddUpdate(n, r.face, r.cost))]
    {
      AddInheritedRoute(n, r);
      AddFibUpdate(AddUpdate(n, r.face, r.cost));
    }

    /** A name loses a route. */
    method Lose(n: Name, r: Route)
      requires Valid()
      modifies this
      ensures Valid() && batchFaceId == old(batchFaceId)
      ensures log == old(log) + [Record(n, r, false), Hop(RemoveUpdate(n, r.face))]
    {
      RemoveInheritedRoute(n, r);
      AddFibUpdate(RemoveUpdate(n, r.face));
    }

    method AddInheritedRoutes(n: Name, e: Entry, routesToAdd: seq<Route>)
      requires Valid()
      modifies this
      ensures Valid() && batchFaceId == old(batchFaceId) && log == old(log) + GainedByEntry(n, e, routesToAdd)
    {
      for i := 0 to |routesToAdd|
        invariant Valid() && batchFaceId == old(batchFaceId)
        invariant log == old(log) + GainedByEntry(n, e, routesToAdd[..i])
      {
        var r := routesToAdd[i];
        assert routesToAdd[..i + 1][..i] == routesToAdd[..i];
        if !HasFace(e, r.face) {
          Gain(n, r);
        }
      }
      assert routesToAdd[..|routesToAdd|] == routesToAdd;
    }

    method AddInheritedRoutesExcept(n: Name, routesToAdd: seq<Route>, ignore: Route)
      requires Valid()
      modifies this
      ensures Valid() && batchFaceId == old(batchFaceId) && log == old(log) + GainedByName(n, routesToAdd, ignore)
    {
      for i := 0 to |routesToAdd|
        invariant Valid() && batchFaceId == old(batchFaceId)
        invariant log == old(log) + GainedByName(n, routesToAdd[..i], ignore)
      {
        var r := routesToAdd[i];
        assert routesToAdd[..i + 1][..i] == routesToAdd[..i];
        if r.face != ignore.face {
          Gain(n, r);
        }
      }
      assert routesToAdd[..|routesToAdd|] == routesToAdd;
    }

    method RemoveInheritedRoutes(n: Name, e: Entry, routesToRemove: seq<Route>)
      requires Valid()
      modifies this
      ensures Valid() && batchFaceId == old(batchFaceId) && log == old(log) + LostByEntry(n, e, routesToRemove)
    {
      for i := 0 to |routesToRemove|
        invariant Valid() && batchFaceId == old(batchFaceId)
        invariant log == old(log) + LostByEntry(n, e, routesToRemove[..i])
      {
        var r := routesToRemove[i];
        assert routesToRemove[..i + 1][..i] == routesToRemove[..i];
        if HasInherited(e, r.face) {
          Lose(n, r);
        }
      }
      assert routesToRemove[..|routesToRemove|] == routesToRemove;
    }

    // ----- the subtree -----

    /** The first loop of traverseSubTree, which erases from the set while it goes through it. */
    method RemoveHere(n: Name, e: Entry, routesToRemove: seq<Route>) returns (kept: seq<Route>)
      requires Valid()
      modifies this
      ensures Valid() && batchFaceId == old(batchFaceId)
      ensures log == old(log) + Removals(n, e, routesToRemove) && kept == Kept(e, routesToRemove)
    {
      kept := routesToRemove;
      var i := 0;
      ghost var done := 0;
      while i < |kept|
        invariant Halfway(e, routesToRemove, kept, i, done)
        invariant Valid() && batchFaceId == old(batchFaceId)
        invariant log == old(log) + Removals(n, e, routesToRemove[..done])
        decreases |kept| - i
      {
        var r := kept[i];
        HalfwayStep(e, routesToRemove, kept, i, done);
        EmissionsStep(n, e, routesToRemove, done);
        ghost var before := log;
        if HasChildInheritOnFace(e, r.face) {
          kept := kept[..i] + kept[i + 1..];
        } else {
          if HasInherited(e, r.face) {
            Lose(n, r);
          }
          i := i + 1;
        }
        assert log == before + RemovalOf(n, e, r);
        Regroup(old(log), Removals(n, e, routesToRemove[..done]), RemovalOf(n, e, r), []);
        done := done + 1;
      }
      HalfwayEnd(e, routesToRemove, kept, i, done);
    }

    /** The second loop of traverseSubTree. */
    method AddHere(n: Name, e: Entry, routesToAdd: seq<Route>) returns (kept: seq<Route>)
      requires Valid()
      modifies this
      ensures Valid() && batchFaceId == old(batchFaceId)
      ensures log == old(log) + Additions(n, e, routesToAdd) && kept == Kept(e, routesToAdd)
    {
      kept := routesToAdd;
      var i := 0;
      ghost var done := 0;
      while i < |kept|
        invariant Halfway(e, routesToAdd, kept, i, done)
        invariant Valid() && batchFaceId == old(batchFaceId)
        invariant log == old(log) + Additions(n, e, routesToAdd[..done])
        decreases |kept| - i
      {
        var r := kept[i];
        HalfwayStep(e, routesToAdd, kept, i, done);
        EmissionsStep(n, e, routesToAdd, done);
        ghost var before := log;
        if HasChildInheritOnFace(e, r.face) {
          kept := kept[..i] + kept[i + 1..];
        } else {
          if !HasFace(e, r.face) {
            Gain(n, r);
          }
          i := i + 1;
        }
        assert log == before + AdditionOf(n, e, r);
        Regroup(old(log), Additions(n, e, routesToAdd[..done]), AdditionOf(n, e, r), []);
        done := done + 1;
      }
      HalfwayEnd(e, routesToAdd, kept, i, done);
    }

    method TraverseSubTree(T: Table, c: Name, routesToAdd: seq<Route>, routesToRemove: seq<Route>)
      requires Valid() && TreeOk(T) && c in T
      modifies this
      ensures Valid() && batchFaceId == old(batchFaceId)
      ensures log == old(log) + Traverse(T, c, routesToAdd, routesToRemove)
      decreases Below(T, c), 1, 0
    {
      var e := T[c];
      if HasCapture(e) {
        return;
      }
      var remove := RemoveHere(c, e, routesToRemove);
      var add := AddHere(c, e, routesToAdd);
      ChildrenBelow(T, c);
      ModifyChildrensInheritedRoutes(T, c, e.children, add, remove);
      Regroup(old(log), Removals(c, e, routesToRemove), Additions(c, e, routesToAdd), PushDown(T, c, e.children, add, remove));
    }

    method ModifyChildrensInheritedRoutes(T: Table, ghost e: Name, cs: seq<Name>, routesToAdd: seq<Route>, routesToRemove: seq<Route>)
      requires Valid() && TreeOk(T) && AllBelow(T, e, cs)
      modifies this
      ensures Valid() && batchFaceId == old(batchFaceId)
      ensures log == old(log) + PushDown(T, e, cs, routesToAdd, routesToRemove)
      decreases Below(T, e), 0, |cs|
    {
      for i := 0 to |cs|
        invariant Valid() && batchFaceId == old(batchFaceId)
        invariant AllBelow(T, e, cs[..i])
        invariant log == old(log) + PushDown(T, e, cs[..i], routesToAdd, routesToRemove)
      {
        PushDownStep(T, e, cs, i, routesToAdd, routesToRemove);
        TraverseSubTree(T, cs[i], routesToAdd, routesToRemove);
        Regroup(old(log), PushDown(T, e, cs[..i], routesToAdd, routesToRemove), Traverse(T, cs[i], routesToAdd, routesToRemove), []);
      }
      assert cs[..|cs|] == cs;
    }

    // ----- the cases -----

    method CreateFibUpdatesForNewRibEntry(T: Table, p: Name, r: Route, children: seq<Name>)
      requires Valid() && TreeOk(T) && AllBelow(T, p, children)
      modifies this
      ensures Valid() && batchFaceId == old(batchFaceId)
      ensures log == old(log) + ForNewEntry(T, p, r, children)
    {
      AddFibUpdate(AddUpdate(p, r.face, r.cost));
      ghost var a, b, c: seq<Emission> := [Hop(AddUpdate(p, r.face, r.cost))], [], [];
      var ancestorRoutes := AncestorRoutes(T, p);
      if !r.flags.childInherit && !r.flags.capture {
        AddInheritedRoutesExcept(p, ancestorRoutes, r);
        b := GainedByName(p, ancestorRoutes, r);
      } else if r.flags.childInherit && r.flags.capture {
        ModifyChildrensInheritedRoutes(T, p, children, [r], ancestorRoutes);
        b := PushDown(T, p, children, [r], ancestorRoutes);
      } else if r.flags.childInherit {
        AddInheritedRoutesExcept(p, ancestorRoutes, r);
        b := GainedByName(p, ancestorRoutes, r);
        var routesToAdd := ancestorRoutes;
        if FindFace(routesToAdd, r.face).Some? {
          routesToAdd := EraseFace(routesToAdd, r.face);
        } else {
          EraseMissing(routesToAdd, r.face);
        }
        routesToAdd := InsertFace(routesToAdd, r);
        ModifyChildrensInheritedRoutes(T, p, children, routesToAdd, []);
        c := PushDown(T, p, children, routesToAdd, []);
      } else {
        ModifyChildrensInheritedRoutes(T, p, children, [], ancestorRoutes);
        b := PushDown(T, p, children, [], ancestorRoutes);
      }
      assert log == old(log) + a + b + c;
      assert ForNewEntry(T, p, r, children) == a + (b + c);
      Regroup(old(log), a, b, c);
      Regroup(a, b, c, []);
    }

    method CreateFibUpdatesForNewRoute(T: Table, p: Name, e: Entry, r: Route, captureWasTurnedOn: bool)
      requires Valid() && TreeOk(T) && CopyOf(T, p, e)
      modifies this
      ensures Valid() && batchFaceId == old(batchFaceId)
      ensures log == old(log) + ForNewRoute(T, p, e, r, captureWasTurnedOn)
    {
      CopyIsLinked(T, p, e);
      var prevRoute := LowestCostByFace(e.routes, r.face, true);
      var routesToAdd: seq<Route> := [];
      if r.flags.childInherit {
        if prevRoute.None? || r.cost <= prevRoute.value.cost {
          routesToAdd := [r];
        }
      }
      var routesToRemove: seq<Route> := [];
      if captureWasTurnedOn {
        routesToRemove := AncestorRoutesOfEntry(T, e);
        RemoveInheritedRoutes(p, e, routesToRemove);
      }
      ghost var a := LostByEntry(p, e, routesToRemove);
      assert log == old(log) + a;
      ModifyChildrensInheritedRoutes(T, p, e.children, routesToAdd, routesToRemove);
      ghost var b := PushDown(T, p, e.children, routesToAdd, routesToRemove);
      var other := LowestCostByFace(e.routes, r.face, false);
      ghost var c: seq<Emission> := [];
      if other.None? || r.cost <= other.value.cost {
        AddFibUpdate(AddUpdate(p, r.face, r.cost));
        c := [Hop(AddUpdate(p, r.face, r.cost))];
      }
      Regroup(old(log), a, b, c);
    }

    /** The result is false when a null route would be read. */
    method UpdateOwnNextHop(p: Name, e: Entry, r: Route, was: Route) returns (ok: bool)
      requires Valid() && r in e.routes
      modifies this
      ensures Valid() && batchFaceId == old(batchFaceId)
      ensures ok == OwnHopUpdate(p, e, r, was).Some?
      ensures ok ==> log == old(log) + OwnHopUpdate(p, e, r, was).value
    {
      ok := true;
      LowestOfMember(e.routes, r);
      if r.cost != was.cost {
        var prevRoute := LowestCostByFace(e.routes, r.face, true);
        var lowest := LowestCostByFace(e.routes, r.face, false);
        if r.cost <= lowest.value.cost {
          AddFibUpdate(AddUpdate(p, r.face, r.cost));
        } else if was.cost < lowest.value.cost {
          if prevRoute.None? {
            return false;
          }
          AddFibUpdate(AddUpdate(p, prevRoute.value.face, prevRoute.value.cost));
        }
      }
    }

    method UpdateChildInherit(T: Table, p: Name, e: Entry, r: Route, was: Route)
      requires Valid() && TreeOk(T) && CopyOf(T, p, e)
      modifies this
      ensures Valid() && batchFaceId == old(batchFaceId)
      ensures log == old(log) + InheritChange(T, p, e, r, was)
    {
      CopyIsLinked(T, p, e);
      var prevRoute := LowestCostByFace(e.routes, r.face, true);
      if !was.flags.childInherit && r.flags.childInherit {
        if prevRoute.None? || r.cost <= prevRoute.value.cost {
          ModifyChildrensInheritedRoutes(T, p, e.children, [r], []);
        }
      } else if was.flags.childInherit && !r.flags.childInherit {
        var routesToAdd: seq<Route> := [];
        if prevRoute.Some? {
          routesToAdd := [prevRoute.value];
        } else {
          var ancestor := FindFace(AncestorRoutesOfEntry(T, e), r.face);
          if ancestor.Some? {
            routesToAdd := [ancestor.value];
          }
        }
        ModifyChildrensInheritedRoutes(T, p, e.children, routesToAdd, [r]);
      }
    }

    method UpdateCapture(T: Table, p: Name, e: Entry, r: Route, was: Route)
      requires Valid() && TreeOk(T) && CopyOf(T, p, e)
      modifies this
      ensures Valid() && batchFaceId == old(batchFaceId)
      ensures log == old(log) + CaptureChange(T, p, e, r, was)
    {
      CopyIsLinked(T, p, e);
      var ancestorRoutes := AncestorRoutesOfEntry(T, e);
      if !was.flags.capture && r.flags.capture {
        RemoveInheritedRoutes(p, e, ancestorRoutes);
        ModifyChildrensInheritedRoutes(T, p, e.children, [], ancestorRoutes);
        Regroup(old(log), LostByEntry(p, e, ancestorRoutes), PushDown(T, p, e.children, [], ancestorRoutes), []);
      } else if was.flags.capture && !r.flags.capture {
        AddInheritedRoutes(p, e, ancestorRoutes);
        ModifyChildrensInheritedRoutes(T, p, e.children, ancestorRoutes, []);
        Regroup(old(log), GainedByEntry(p, e, ancestorRoutes), PushDown(T, p, e.children, ancestorRoutes, []), []);
      }
    }

    method CreateFibUpdatesForUpdatedRoute(T: Table, p: Name, e: Entry, r: Route, was: Route) returns (ok: bool)
      requires Valid() && TreeOk(T) && CopyOf(T, p, e) && r in e.routes
      modifies this
      ensures Valid() && batchFaceId == old(batchFaceId)
      ensures ok == ForUpdatedRoute(T, p, e, r, was).Some?
      ensures ok ==> log == old(log) + ForUpdatedRoute(T, p, e, r, was).value
    {
      CopyIsLinked(T, p, e);
      var prevRoute := LowestCostByFace(e.routes, r.face, true);
      if r.flags == was.flags && r.cost == was.cost {
        return true;
      }
      ok := UpdateOwnNextHop(p, e, r, was);
      if !ok {
        return;
      }
      ghost var own := OwnHopUpdate(p, e, r, was).value;
      if r.cost != was.cost {
        if prevRoute.None? || r.cost <= prevRoute.value.cost {
          if r.flags == was.flags && r.flags.childInherit {
            ModifyChildrensInheritedRoutes(T, p, e.children, [r], []);
            Regroup(old(log), own, PushDown(T, p, e.children, [r], []), []);
            return;
          }
        }
      }
      UpdateChildInherit(T, p, e, r, was);
      UpdateCapture(T, p, e, r, was);
      Regroup(old(log), own, InheritChange(T, p, e, r, was), CaptureChange(T, p, e, r, was));
    }

    /** Gives the entry the routes its capture was blocking, if the capture is off and the entry stays. */
    method AddUnblockedRoutes(T: Table, p: Name, e: Entry, captureWasTurnedOff: bool) returns (routesToAdd: seq<Route>)
      requires Valid() && TreeOk(T) && CopyOf(T, p, e) && (e.parent.Some? ==> e.parent.value in T)
      modifies this
      ensures Valid() && batchFaceId == old(batchFaceId)
      ensures routesToAdd == if captureWasTurnedOff && e.routes != [] then AncestorRoutesOfEntry(T, e) else []
      ensures log == old(log) + if captureWasTurnedOff && e.routes != [] then GainedByEntry(p, e, routesToAdd) else []
    {
      routesToAdd := [];
      if captureWasTurnedOff && |e.routes| != 0 {
        routesToAdd := AncestorRoutesOfEntry(T, e);
        AddInheritedRoutes(p, e, routesToAdd);
      }
    }

    /** The part of createFibUpdatesForErasedRoute that depends on the flags of the erased route. */
    method UnblockAncestorRoutes(T: Table, p: Name, e: Entry, was: Route, captureWasTurnedOff: bool)
      requires Valid() && TreeOk(T) && CopyOf(T, p, e)
      modifies this
      ensures Valid() && batchFaceId == old(batchFaceId)
      ensures log == old(log) + OwnUnblocked(T, p, e, was, captureWasTurnedOff) + DownUnblocked(T, p, e, was, captureWasTurnedOff)
    {
      CopyIsLinked(T, p, e);
      if was.flags.childInherit && was.flags.capture {
        var routesToAdd := AddUnblockedRoutes(T, p, e, captureWasTurnedOff);
        ModifyChildrensInheritedRoutes(T, p, e.children, routesToAdd, [was]);
      } else if was.flags.childInherit {
        var routesToAdd: seq<Route> := [];
        if !HasCapture(e) {
          routesToAdd := AncestorRoutesOfEntry(T, e);
        }
        ModifyChildrensInheritedRoutes(T, p, e.children, routesToAdd, [was]);
      } else if was.flags.capture {
        var routesToAdd := AddUnblockedRoutes(T, p, e, captureWasTurnedOff);
        ModifyChildrensInheritedRoutes(T, p, e.children, routesToAdd, []);
      }
    }

    method CreateFibUpdatesForErasedRoute(T: Table, p: Name, e: Entry, was: Route, captureWasTurnedOff: bool)
      requires Valid() && TreeOk(T) && CopyOf(T, p, e)
      modifies this
      ensures Valid() && batchFaceId == old(batchFaceId)
      ensures log == old(log) + ForErasedRoute(T, p, e, was, captureWasTurnedOff)
    {
      CopyIsLinked(T, p, e);
      AddFibUpdate(RemoveUpdate(p, was.face));
      UnblockAncestorRoutes(T, p, e, was, captureWasTurnedOff);
      RestoreInheritedRoute(T, p, e, was);
      RegroupFive(old(log), [Hop(RemoveUpdate(p, was.face))], OwnUnblocked(T, p, e, was, captureWasTurnedOff),
                  DownUnblocked(T, p, e, was, captureWasTurnedOff), Restored(T, p, e, was));
    }

    /** The last part of createFibUpdatesForErasedRoute: the erased route may have been hiding an inherited one. */
    method RestoreInheritedRoute(T: Table, p: Name, e: Entry, was: Route)
      requires Valid() && TreeOk(T) && CopyOf(T, p, e)
      modifies this
      ensures Valid() && batchFaceId == old(batchFaceId)
      ensures log == old(log) + Restored(T, p, e, was)
    {
      CopyIsLinked(T, p, e);
      var ancestorRoutes := AncestorRoutesOfEntry(T, e);
      if !HasCapture(e) && |e.routes| != 0 {
        var ancestor := FindFace(ancestorRoutes, was.face);
        if ancestor.Some? {
          Gain(p, ancestor.value);
        }
      }
    }

    method CreateFibUpdatesForErasedRibEntry(p: Name, e: Entry)
      requires Valid()
      modifies this
      ensures Valid() && batchFaceId == old(batchFaceId)
      ensures log == old(log) + ErasedEntry(p, e.inherited)
    {
      for i := 0 to |e.inherited|
        invariant Valid() && batchFaceId == old(batchFaceId)
        invariant log == old(log) + ErasedEntry(p, e.inherited[..i])
      {
        assert e.inherited[..i + 1][..i] == e.inherited[..i];
        AddFibUpdate(RemoveUpdate(p, e.inherited[i].face));
      }
      assert e.inherited[..|e.inherited|] == e.inherited;
    }

    // ----- one update -----

    /** The result is false when a null route would be read. */
    method ComputeUpdatesForRegistration(T: Table, keys: seq<Name>, p: Name, r: Route) returns (ok: bool)
      requires Valid() && TreeOk(T) && InMapOrder(keys, T)
      modifies this
      ensures Valid() && batchFaceId == old(batchFaceId)
      ensures ok == ForRegistration(T, p, r).Some?
      ensures ok ==> log == old(log) + ForRegistration(T, p, r).value
    {
      ok := true;
      if p in T {
        var e := T[p];
        var existing := FindRoute(e.routes, r.face, r.origin);
        if existing == |e.routes| {
          CreateFibUpdatesForNewRoute(T, p, e, r, !HasCapture(e) && r.flags.capture);
        } else {
          var entryCopy := e.(routes := e.routes[existing := r]);
          assert entryCopy.routes[existing] == r;
          ok := CreateFibUpdatesForUpdatedRoute(T, p, entryCopy, r, e.routes[existing]);
        }
      } else {
        var children := ChildrenToBe(T, keys, p);
        PredictedBelow(T, p);
        CreateFibUpdatesForNewRibEntry(T, p, r, children);
      }
    }

    method ComputeUpdatesForUnregistration(T: Table, p: Name, r: Route) returns (ghost next: Option<Route>)
      requires Valid() && TreeOk(T)
      modifies this
      ensures Valid() && batchFaceId == old(batchFaceId)
      ensures Holds(T, p, r) ==> IsSecondLowest(T[p].routes, r.face, next)
      ensures log == old(log) + ForUnregistration(T, p, r, next)
    {
      next := None;
      if p in T {
        var e := T[p];
        var existing := FindRoute(e.routes, r.face, r.origin);
        if existing < |e.routes| {
          var temp := EntryWithout(e, r);
          CreateFibUpdatesForErasedRoute(T, p, temp, e.routes[existing], HasCapture(e) && !HasCapture(temp));
          next := ReplaceErasedRoute(T, p, temp, e.routes, r.face);
          if |e.routes| == 1 {
            CreateFibUpdatesForErasedRibEntry(p, e);
          }
          UnregistrationParts(T, p, r, next, old(log));
        }
      }
    }

    /** The route that takes the place of the erased one on its face, if there is one. */
    method ReplaceErasedRoute(T: Table, p: Name, temp: Entry, routes: seq<Route>, face: nat) returns (ghost next: Option<Route>)
      requires Valid() && TreeOk(T) && CopyOf(T, p, temp)
      modifies this
      ensures Valid() && batchFaceId == old(batchFaceId)
      ensures IsSecondLowest(routes, face, next)
      ensures log == old(log) + if next.Some? then ForNewRoute(T, p, temp, next.value, false) else []
    {
      var second := SecondLowestCostByFace(routes, face);
      next := second;
      if second.Some? {
        CreateFibUpdatesForNewRoute(T, p, temp, second.value, false);
      }
    }

    /** A batch holds exactly one update.  Afterwards the two lists are what is to be sent, and the inherited routes what
        is to be committed. */
    method ComputeUpdates(T: Table, keys: seq<Name>, u: RibUpdate) returns (ok: bool, ghost next: Option<Route>)
      requires TreeOk(T) && InMapOrder(keys, T)
      modifies this
      ensures NextOk(T, u, next) && batchFaceId == u.route.face
      ensures ok == Emitted(T, u, next).Some?
      ensures ok ==> log == Emitted(T, u, next).value && inheritedRoutes == RecordsOf(log)
      ensures ok ==> updatesForBatchFaceId == BatchList(u, log) && updatesForNonBatchFaceId == OtherList(u, log)
    {
      batchFaceId, inheritedRoutes, updatesForBatchFaceId, updatesForNonBatchFaceId, log := u.route.face, [], [], [], [];
      match u.kind {
        case Register =>
          next := None;
          ok := ComputeUpdatesForRegistration(T, keys, u.name, u.route);
        case Unregister =>
          ok := true;
          next := ComputeUpdatesForUnregistration(T, u.name, u.route);
        case RemoveFace =>
          ok := true;
          next := ComputeUpdatesForUnregistration(T, u.name, u.route);
          updatesForBatchFaceId := [];
      }
    }

    // ----- sending and responses -----

    ghost function Pendings(): Lists
      reads this
    {
      Lists(batchFaceId, updatesForBatchFaceId, updatesForNonBatchFaceId)
    }

    method SendUpdates(updates: seq<FibUpdate>) returns (commands: seq<Command>)
      ensures commands == Commands(updates)
    {
      commands := [];
      for i := 0 to |updates|
        invariant commands == Commands(updates[..i])
      {
        assert updates[..i + 1][..i] == updates[..i];
        if updates[i].action == AddNextHop {
          commands := commands + [Command(updates[i], AddNextHop, 0)];
        } else {
          commands := commands + [Command(updates[i], RemoveNextHop, 0)];
        }
      }
      assert updates[..|updates|] == updates;
    }

    method SendUpdatesForBatchFaceId() returns (commands: seq<Command>, outcome: Outcome)
      ensures Reaction(Pendings(), commands, outcome) == StartBatch(Pendings())
    {
      if |updatesForBatchFaceId| > 0 {
        commands := SendUpdates(updatesForBatchFaceId);
        outcome := Waiting;
      } else {
        commands, outcome := SendUpdatesForNonBatchFaceId();
      }
    }

    method SendUpdatesForNonBatchFaceId() returns (commands: seq<Command>, outcome: Outcome)
      ensures Reaction(Pendings(), commands, outcome) == StartOther(Pendings())
    {
      if |updatesForNonBatchFaceId| > 0 {
        commands := SendUpdates(updatesForNonBatchFaceId);
        outcome := Waiting;
      } else {
        commands, outcome := [], Success;
      }
    }

    method OnUpdateSuccess(u: FibUpdate) returns (commands: seq<Command>, outcome: Outcome)
      modifies this`updatesForBatchFaceId, this`updatesForNonBatchFaceId
      ensures Reaction(Pendings(), commands, outcome) == OnSuccess(old(Pendings()), u)
    {
      commands, outcome := [], Waiting;
      if u.face == batchFaceId {
        updatesForBatchFaceId := Dropped(updatesForBatchFaceId, u);
        if |updatesForBatchFaceId| == 0 {
          commands, outcome := SendUpdatesForNonBatchFaceId();
        }
      } else {
        updatesForNonBatchFaceId := Dropped(updatesForNonBatchFaceId, u);
        if |updatesForNonBatchFaceId| == 0 {
          outcome := Success;
        }
      }
    }

    method OnUpdateError(u: FibUpdate, response: Response, nTimeouts: nat) returns (commands: seq<Command>, outcome: Outcome)
      modifies this`updatesForNonBatchFaceId
      ensures Reaction(Pendings(), commands, outcome) == OnError(old(Pendings()), u, response, nTimeouts)
    {
      commands, outcome := [], Waiting;
      if response == TimedOut && nTimeouts < MAX_NUM_TIMEOUTS {
        commands := [Command(u, AddNextHop, nTimeouts + 1)];
      } else if response == FaceNotFound {
        if u.face == batchFaceId {
          outcome := Failure;
        } else {
          updatesForNonBatchFaceId := Dropped(updatesForNonBatchFaceId, u);
          if |updatesForNonBatchFaceId| == 0 {
            outcome := Success;
          }
        }
      } else {
        outcome := Thrown;
      }
    }
  }
}
