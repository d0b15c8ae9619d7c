/** Where the source falls short of the ideal: concrete inputs for every hazard, and exact conditions outside the regime
    of one route per face. */
module Limits {
  import opened Names
  import opened Routes
  import opened RibModel
  import opened RibOps
  import opened Inheritance
  import opened Updates
  import opened Propagation
  import opened Compute
  import opened CommitSafety
  import opened Incremental
  import opened Hazards
  import opened StepInsert
  import opened ExactStep
  import opened Several

  // ----- erasing one of several routes on a face -----

  /** When an entry keeps another route on the face of the erased one, its next hop ends up at the cheapest remaining
      cost exactly when the erased route was a cheapest one, or the two cheapest cost the same, or by coincidence the
      route offered from above, which is put in instead, has that cost. */
  lemma OwnHopAfterErase(T: Table, p: Name, r: Route, next: Option<Route>)
    requires TreeOk(T) && Holds(T, p, r) && HasFace(EntryWithout(T[p], r), r.face)
    requires IsSecondLowest(T[p].routes, r.face, next)
    ensures next.Some?
    ensures var rest, was := EntryWithout(T[p], r), Existing(T, p, r);
            var best := Lowest(rest.routes, r.face, false);
            && best.Some?
            && (After(Some(was.cost), HopEffect(ForUnregistration(T, p, r, next), p, r.face)) == Some(best.value.cost) <==>
                || was.cost <= best.value.cost
                || next.value.cost == best.value.cost
                || (!HasCapture(rest) && CostOf(FromAbove(T, p, r.face)) == Some(best.value.cost)))
  {
    var rest, was, f := EntryWithout(T[p], r), Existing(T, p, r), r.face;
    var best := Lowest(rest.routes, f, false);
    SecondIsThere(T[p].routes, r, next);
    ErasedHop(T, p, r, next);
    SecondAgainstBest(T[p].routes, r, next);
    HopCondition(HopEffect(ForUnregistration(T, p, r, next), p, f), was.cost, next.value.cost, best.value.cost,
                 CostOf(FromAbove(T, p, f)), HasCapture(rest));
  }

  const NO_FLAGS := Flags(false, false, 0)

  /** The root entry alone, with these routes. */
  function Single(rs: seq<Route>): Table
  {
    map[[] := Entry(None, [], rs, [], CountCaptures(rs))]
  }

  lemma SingleTree(rs: seq<Route>)
    ensures TreeOk(Single(rs))
  {
    assert Single(rs).Keys == {[]} && ParentOf({[]}, []) == None;
  }

  /** An input for which that fails: of three routes on a face the dearest goes, and with it the next hop, although two
      routes on the face stay. */
  lemma OwnHopAfterEraseFails()
    ensures var rs := [Route(1, 0, 1, NO_FLAGS), Route(1, 1, 5, NO_FLAGS), Route(1, 2, 9, NO_FLAGS)];
            && TreeOk(Single(rs)) && IsSecondLowest(rs, 1, Some(rs[1]))
            && HopEffect(ForUnregistration(Single(rs), [], rs[2], Some(rs[1])), [], 1) == Clear
            && EntryWithout(Single(rs)[[]], rs[2]).routes == [rs[0], rs[1]]
  {
    var rs := [Route(1, 0, 1, NO_FLAGS), Route(1, 1, 5, NO_FLAGS), Route(1, 2, 9, NO_FLAGS)];
    var T := Single(rs);
    SingleTree(rs);
    assert SecondAt(rs, 1, 1, 0);
    assert rs[0].origin != 2 && rs[1].origin != 2 && rs[2].origin == 2 && FindRoute(rs, 1, 2) == 2;
    var rest := EntryWithout(T[[]], rs[2]);
    assert rest.routes == [rs[0], rs[1]];
    assert HasFace(rest, 1) by {
      assert rest.routes[0].face == 1;
    }
    assert Lowest(rest.routes, 1, false) == Some(rs[0]);
    ErasedHop(T, [], rs[2], Some(rs[1]));
    assert FromAbove(T, [], 1) == None;
  }

  /** An input for which a null route is read: of two routes on a face, neither inheritable, the cheaper one is registered
      again as the dearer one. */
  lemma NullRouteReadHappens()
    ensures var rs := [Route(1, 0, 1, NO_FLAGS), Route(1, 1, 5, NO_FLAGS)];
            TreeOk(Single(rs)) && UniqueKeys(rs) && ForRegistration(Single(rs), [], Route(1, 0, 10, NO_FLAGS)).None?
  {
    var rs := [Route(1, 0, 1, NO_FLAGS), Route(1, 1, 5, NO_FLAGS)];
    var r := Route(1, 0, 10, NO_FLAGS);
    SingleTree(rs);
    assert FindRoute(rs, 1, 0) == 0;
    assert [r, rs[1]] == rs[0 := r] && rs[1].cost < r.cost;
    NullRouteRead(Single(rs), [], r);
  }

  lemma HopCondition(hop: Effect, was: nat, next: nat, best: nat, above: Option<nat>, captures: bool)
    requires best <= next && (was <= best ==> next == best)
    requires hop == if next <= best then Set(next) else if !captures && above.Some? then Set(above.value) else Clear
    ensures After(Some(was), hop) == Some(best) <==> was <= best || next == best || (!captures && above == Some(best))
  {
  }

  lemma SecondIsThere(rs: seq<Route>, r: Route, next: Option<Route>)
    requires FindRoute(rs, r.face, r.origin) < |rs|
    requires FindFace(EraseAt(rs, FindRoute(rs, r.face, r.origin)), r.face).Some?
    requires IsSecondLowest(rs, r.face, next)
    ensures next.Some? && Lowest(EraseAt(rs, FindRoute(rs, r.face, r.origin)), r.face, false).Some?
  {
    var i := FindRoute(rs, r.face, r.origin);
    var t := EraseAt(rs, i);
    EraseAtIndex(rs, i);
    var k :| 0 <= k < |t| && t[k].face == r.face;
    assert Matches(t[k], r.face, false);
    var j := if k < i then k else k + 1;
    assert rs[j] == t[k];
  }

  /** The cheapest remaining route costs no more than any other that remains, and is one of them. */
  lemma BestOfRest(rs: seq<Route>, i: nat, f: nat) returns (j: nat)
    requires i < |rs| && Lowest(EraseAt(rs, i), f, false).Some?
    ensures j < |rs| && j != i && rs[j].face == f && rs[j].cost == Lowest(EraseAt(rs, i), f, false).value.cost
    ensures forall c :: 0 <= c < |rs| && c != i && rs[c].face == f ==> rs[j].cost <= rs[c].cost
  {
    var t := EraseAt(rs, i);
    var best := Lowest(t, f, false).value;
    EraseAtIndex(rs, i);
    var m :| 0 <= m < |t| && t[m] == best;
    j := if m < i then m else m + 1;
    forall c | 0 <= c < |rs| && c != i && rs[c].face == f
      ensures best.cost <= rs[c].cost
    {
      var k := if c < i then c else c - 1;
      assert t[k] == rs[c] && Matches(t[k], f, false);
    }
  }

  /** The second-lowest cost is never below the cheapest remaining, and is equal to it when a cheapest route goes. */
  lemma SecondAgainstBest(rs: seq<Route>, r: Route, next: Option<Route>)
    requires FindRoute(rs, r.face, r.origin) < |rs| && next.Some?
    requires Lowest(EraseAt(rs, FindRoute(rs, r.face, r.origin)), r.face, false).Some?
    requires IsSecondLowest(rs, r.face, next)
    ensures var i := FindRoute(rs, r.face, r.origin);
            var best := Lowest(EraseAt(rs, i), r.face, false).value.cost;
            best <= next.value.cost && (rs[i].cost <= best ==> next.value.cost == best)
  {
    var i, f := FindRoute(rs, r.face, r.origin), r.face;
    var j := BestOfRest(rs, i, f);
    var a, b :| 0 <= a < |rs| && 0 <= b < |rs| && SecondAt(rs, f, a, b) && next.value == rs[a];
    AroundSecond(rs, f, a, b, i, j);
  }

  lemma AroundSecond(rs: seq<Route>, f: nat, a: nat, b: nat, i: nat, j: nat)
    requires a < |rs| && b < |rs| && i < |rs| && j < |rs| && SecondAt(rs, f, a, b)
    requires i != j && rs[i].face == f && rs[j].face == f
    requires forall c :: 0 <= c < |rs| && c != i && rs[c].face == f ==> rs[j].cost <= rs[c].cost
    ensures rs[j].cost <= rs[a].cost && (rs[i].cost <= rs[j].cost ==> rs[a].cost == rs[j].cost)
  {
  }

  lemma ErasedHop(T: Table, p: Name, r: Route, next: Option<Route>)
    requires TreeOk(T) && Holds(T, p, r) && HasFace(EntryWithout(T[p], r), r.face) && IsSecondLowest(T[p].routes, r.face, next)
    requires next.Some? && Lowest(EntryWithout(T[p], r).routes, r.face, false).Some?
    ensures var rest := EntryWithout(T[p], r);
            HopEffect(ForUnregistration(T, p, r, next), p, r.face) ==
            if next.value.cost <= Lowest(rest.routes, r.face, false).value.cost then Set(next.value.cost)
            else if !HasCapture(rest) && FromAbove(T, p, r.face).Some? then Set(FromAbove(T, p, r.face).value.cost)
            else Clear
  {
    ErasedAtEntry(T, p, r, next, r.face);
    LowestAgainst(EntryWithout(T[p], r).routes, r.face, false, next.value.cost);
  }

  // ----- the capture counter wraps around -----

  /** Re-registering a route with the capture bit and erasing it again makes the counter of an entry without any
      capturing route wrap around: the entry captures from then on. */
  lemma CounterWraps(e: Entry, r: Route)
    requires CountCaptures(e.routes) == 0 && e.captures == 0 && FindRoute(e.routes, r.face, r.origin) < |e.routes|
    requires r.flags.capture
    ensures var e' := EntryWithout(EntryWith(e, r), r);
            CountCaptures(e'.routes) == 0 && e'.captures == WORD - 1 && HasCapture(e')
  {
    var i := FindRoute(e.routes, r.face, r.origin);
    var rs := e.routes[i := r];
    var k := FindRoute(rs, r.face, r.origin);
    assert rs[i] == r;
    assert forall j :: 0 <= j < i ==> rs[j] == e.routes[j];
    assert k == i;
    assert EraseAt(rs, i) == EraseAt(e.routes, i);
    CountErase(e.routes, i);
  }

  // ----- every hazard happens -----

  const ROOT := Route(1, 0, 10, Flags(true, false, 0))
  const LEAF := Route(9, 0, 1, Flags(false, false, 0))

  /** Three names in a line: the root offers face 1, the middle one has the routes `ps`, the last one a route on face 9. */
  function Line(ps: seq<Route>, middle: seq<Route>, last: seq<Route>): Table
  {
    map[[] := Entry(None, [[0]], [ROOT], [], 0),
        [0] := Entry(Some([]), [[0, 0]], ps, middle, CountCaptures(ps)),
        [0, 0] := Entry(Some([0]), [], [LEAF], last, 0)]
  }

  lemma LineTree(ps: seq<Route>, middle: seq<Route>, last: seq<Route>)
    ensures TreeOk(Line(ps, middle, last))
  {
    var T := Line(ps, middle, last);
    var keys := T.Keys;
    assert keys == {[], [0], [0, 0]};
    assert [0][..0] == [] && [0, 0][..1] == [0];
    assert ParentOf(keys, []) == None && ParentOf(keys, [0]) == Some([]) && ParentOf(keys, [0, 0]) == Some([0]);
  }

  lemma LineAbove(ps: seq<Route>, middle: seq<Route>, last: seq<Route>, g: nat)
    ensures var T := Line(ps, middle, last);
            && FromAbove(T, [], g) == None
            && FromAbove(T, [0], g) == (if g == 1 then Some(ROOT) else None)
            && FromAbove(T, [0, 0], g) == (
                 if FirstInheritable(ps, g).Some? then FirstInheritable(ps, g)
                 else if CountCaptures(ps) > 0 then None
                 else if g == 1 then Some(ROOT) else None)
  {
    var T := Line(ps, middle, last);
    assert [0][..0] == [] && [0, 0][..1] == [0] && [0, 0][..0] == [];
    assert FirstInheritable([ROOT], g) == if g == 1 then Some(ROOT) else None;
    assert Nearest(T, [0], 1, g) == if g == 1 then Some(ROOT) else None;
    assert Nearest(T, [0, 0], 1, g) == if g == 1 then Some(ROOT) else None;
  }

  /** The records a line should have. */
  ghost predicate LineRecords(ps: seq<Route>, middle: seq<Route>, last: seq<Route>)
  {
    forall g :: && (FindFace(middle, g).Some? <==> g == 1 && FindFace(ps, 1).None? && CountCaptures(ps) == 0)
                && (FindFace(last, g).Some? <==> g != 9 && (FirstInheritable(ps, g).Some? || (g == 1 && CountCaptures(ps) == 0)))
  }

  lemma LineRecordsAgree(ps: seq<Route>, middle: seq<Route>, last: seq<Route>, n: Name, g: nat)
    requires LineRecords(ps, middle, last) && n in Line(ps, middle, last)
    ensures var T := Line(ps, middle, last); HasInherited(T[n], g) <==> Inherits(T, n, g)
  {
    assert FindFace(middle, g).Some? <==> g == 1 && FindFace(ps, 1).None? && CountCaptures(ps) == 0;
    LineAbove(ps, middle, last, g);
  }

  lemma LineEntries(ps: seq<Route>, middle: seq<Route>, last: seq<Route>)
    requires ps != [] && UniqueKeys(ps) && OnePerFace(ps)
    ensures var T := Line(ps, middle, last); EntriesOk(T) && CountersOk(T) && OneRoutePerFace(T)
  {
    CountOfOne(ROOT);
    CountOfOne(LEAF);
  }

  lemma LineSound(ps: seq<Route>, middle: seq<Route>, last: seq<Route>)
    requires ps != [] && UniqueKeys(ps) && OnePerFace(ps) && LineRecords(ps, middle, last)
    ensures Sound(Line(ps, middle, last))
  {
    LineTree(ps, middle, last);
    LineEntries(ps, middle, last);
    forall n, g | n in Line(ps, middle, last)
      ensures HasInherited(Line(ps, middle, last)[n], g) <==> Inherits(Line(ps, middle, last), n, g)
    {
      LineRecordsAgree(ps, middle, last, n, g);
    }
  }

  lemma LineAffected(ps: seq<Route>, middle: seq<Route>, last: seq<Route>, g: nat)
    requires g != 9
    ensures Affected(Line(ps, middle, last), [0], [0, 0], g)
  {
    var T := Line(ps, middle, last);
    forall m | m in T && [0] < m <= [0, 0]
      ensures m == [0, 0]
    {
    }
  }

  /** A route on a face the entry inherits leaves the record that it is inherited. */
  lemma StaleRecordHappens()
    ensures var T := Line([Route(2, 0, 5, Flags(false, false, 0))], [ROOT], [ROOT]);
            var u := RibUpdate(Register, [0], Route(1, 0, 5, Flags(false, false, 0)));
            Sound(T) && KeepsOnePerFace(T, u) && StaleRecord(T, u.name, u.route) && Hazard(T, u, {})
  {
    var ps := [Route(2, 0, 5, Flags(false, false, 0))];
    assert CountCaptures(ps) == 0;
    LineSound(ps, [ROOT], [ROOT]);
  }

  /** Capture is turned on at an entry that hands down a face its ancestors offer too. */
  lemma StripsOwnOfferHappens()
    ensures var own := Route(1, 0, 5, Flags(true, false, 0));
            var T := Line([own], [], [own]);
            var u := RibUpdate(Register, [0], Route(3, 0, 5, Flags(false, true, 0)));
            Sound(T) && KeepsOnePerFace(T, u) && StripsOwnOffer(T, u.name, u.route) && Hazard(T, u, {})
  {
    var own := Route(1, 0, 5, Flags(true, false, 0));
    assert CountCaptures([own]) == 0;
    LineSound([own], [], [own]);
    LineAbove([own], [], [own], 1);
    LineAffected([own], [], [own], 1);
  }

  /** A route is registered again with the capture bit set: the counter is wrong, FIB and records are not. */
  lemma CounterDriftsHappens()
    ensures var was := Route(2, 0, 5, Flags(false, false, 0));
            var T := Line([was], [ROOT], [ROOT]);
            var u := RibUpdate(Register, [0], was.(flags := Flags(false, true, 0)));
            Sound(T) && KeepsOnePerFace(T, u) && Drifts(T, u) && !Hazard(T, u, {})
  {
    var ps := [Route(2, 0, 5, Flags(false, false, 0))];
    assert CountCaptures(ps) == 0;
    LineSound(ps, [ROOT], [ROOT]);
    assert forall g :: FirstInheritable(ps, g) == None;
  }

  /** Capture is switched on for a route that is handed down on a face the ancestors offer too. */
  lemma StripsBySwitchingOnHappens()
    ensures var was := Route(1, 0, 5, Flags(true, false, 0));
            var T := Line([was], [], [was]);
            var u := RibUpdate(Register, [0], was.(flags := Flags(true, true, 0)));
            Sound(T) && KeepsOnePerFace(T, u) && StripsBySwitchingOn(T, u.name, was, u.route, {}) && Hazard(T, u, {})
  {
    var was := Route(1, 0, 5, Flags(true, false, 0));
    CountOfOne(was);
    LineSound([was], [], [was]);
    LineAbove([was], [], [was], 1);
    LineAffected([was], [], [was], 1);
    assert StripsOn(Line([was], [], [was]), [0], was, was.(flags := Flags(true, true, 0)), {}, 1);
  }

  /** Capture is switched off on one of two capturing routes. */
  lemma UncapturesItselfHappens()
    ensures var was, other := Route(2, 0, 5, Flags(false, true, 0)), Route(3, 0, 5, Flags(false, true, 0));
            var T := Line([was, other], [], []);
            var u := RibUpdate(Register, [0], was.(flags := Flags(false, false, 0)));
            Sound(T) && KeepsOnePerFace(T, u) && UncapturesItself(T, u.name, was, u.route) && Hazard(T, u, {})
  {
    var was, other := Route(2, 0, 5, Flags(false, true, 0)), Route(3, 0, 5, Flags(false, true, 0));
    var ps := [was, other];
    CountConcat([was], [other]);
    CountOfOne(was);
    CountOfOne(other);
    assert ps == [was] + [other] && CountCaptures(ps) == 2;
    LineSound(ps, [], []);
    LineAbove(ps, [], [], 1);
    assert FindRoute(ps, 2, 0) == 0;
  }

  /** Capture is switched off for a route that is handed down at another cost than the ancestors'. */
  lemma LeaksBySwitchingOffHappens()
    ensures var was := Route(1, 0, 5, Flags(true, true, 0));
            var T := Line([was], [], [was]);
            var u := RibUpdate(Register, [0], was.(flags := Flags(true, false, 0)));
            Sound(T) && KeepsOnePerFace(T, u) && LeaksBySwitchingOff(T, u.name, was, u.route, {}) && Hazard(T, u, {})
  {
    var was := Route(1, 0, 5, Flags(true, true, 0));
    CountOfOne(was);
    LineSound([was], [], [was]);
    LineAbove([was], [], [was], 1);
    LineAffected([was], [], [was], 1);
    assert LeaksOn(Line([was], [], [was]), [0], was, was.(flags := Flags(true, false, 0)), {}, 1);
  }

  /** Child-inherit is switched off on one route of an entry that captures by another. */
  lemma LeaksPastCaptureHappens()
    ensures var was := Route(1, 0, 5, Flags(true, false, 0));
            var T := Line([was, Route(2, 0, 5, Flags(false, true, 0))], [], [was]);
            var u := RibUpdate(Register, [0], was.(flags := Flags(false, false, 0)));
            Sound(T) && KeepsOnePerFace(T, u) && LeaksPastCapture(T, u.name, was, u.route) && Hazard(T, u, {})
  {
    var was := Route(1, 0, 5, Flags(true, false, 0));
    var ps := [was, Route(2, 0, 5, Flags(false, true, 0))];
    assert ps[1..] == [Route(2, 0, 5, Flags(false, true, 0))] && ps[1..][1..] == [];
    assert CountCaptures(ps[1..]) == 1 + CountCaptures(ps[1..][1..]);
    assert CountCaptures(ps) == 1;
    assert FirstInheritable(ps, 1) == Some(was) && forall g :: g != 1 ==> FirstInheritable(ps, g) == None;
    LineSound(ps, [], [was]);
    LineAbove(ps, [], [was], 1);
    LineAffected(ps, [], [was], 1);
    assert FindRoute(ps, 1, 0) == 0;
  }

  /** Cost and an unassigned flag bit change together. */
  lemma MissesCostHappens()
    ensures var was := Route(1, 0, 5, Flags(true, false, 0));
            var T := Line([was], [], [was]);
            var u := RibUpdate(Register, [0], Route(1, 0, 6, Flags(true, false, 1)));
            Sound(T) && KeepsOnePerFace(T, u) && MissesCost(T, u.name, was, u.route, {}) && Hazard(T, u, {})
  {
    var was := Route(1, 0, 5, Flags(true, false, 0));
    assert CountCaptures([was]) == 0;
    LineSound([was], [], [was]);
    LineAffected([was], [], [was], 1);
  }

  /** The only route of a capturing entry is erased. */
  lemma StaysBlockedHappens()
    ensures var was := Route(2, 0, 5, Flags(false, true, 0));
            var T := Line([was], [], []);
            var u := RibUpdate(Unregister, [0], was);
            Sound(T) && KeepsOnePerFace(T, u) && StaysBlocked(T, u.name, was) && Hazard(T, u, {})
  {
    var was := Route(2, 0, 5, Flags(false, true, 0));
    assert [was][1..] == [];
    assert CountCaptures([was]) == 1;
    LineSound([was], [], []);
    LineAbove([was], [], [], 1);
    LineAffected([was], [], [], 1);
    assert EraseAt([was], 0) == [];
  }

  /** An inheritable route is erased from an entry that still offers another face at its own cost. */
  lemma OverridesOfferHappens()
    ensures var kept, was := Route(1, 0, 5, Flags(true, false, 0)), Route(2, 0, 7, Flags(true, false, 0));
            var T := Line([kept, was], [], [kept, was]);
            var u := RibUpdate(Unregister, [0], was);
            Sound(T) && KeepsOnePerFace(T, u) && OverridesOffer(T, u.name, EntryWithout(T[[0]], was), was, {}) && Hazard(T, u, {})
  {
    var kept, was := Route(1, 0, 5, Flags(true, false, 0)), Route(2, 0, 7, Flags(true, false, 0));
    var ps := [kept, was];
    var T, u := Line(ps, [], ps), RibUpdate(Unregister, [0], was);
    TwoOffersSound(kept, was);
    LineAffected(ps, [], ps, 1);
    assert ps[0].face != 2 && ps[1].face == 2 && FindRoute(ps, 2, 0) == 1;
    assert EraseAt(ps, 1) == [kept];
    var rest := EntryWithout(T[[0]], was);
    assert rest.routes == [kept] && FirstInheritable(rest.routes, 1) == Some(kept);
    assert OverridesOffer(T, [0], rest, was, {});
    assert Existing(T, [0], was) == was;
  }

  /** The middle entry offers face 1 itself and face 2, and does not capture. */
  lemma TwoOffersSound(kept: Route, was: Route)
    requires kept.face == 1 && was.face == 2 && kept.flags == was.flags == Flags(true, false, 0)
    ensures var T := Line([kept, was], [], [kept, was]);
            Sound(T) && OnePerFace(T[[0]].routes) && T[[0]].captures == 0 && FromAbove(T, [0], 1) == Some(ROOT)
  {
    var ps := [kept, was];
    assert ps[1..] == [was] && ps[1..][1..] == [];
    assert CountCaptures(ps[1..]) == CountCaptures(ps[1..][1..]);
    assert CountCaptures(ps) == 0;
    assert FirstInheritable(ps, 1) == Some(kept) && FirstInheritable(ps, 2) == Some(was);
    assert forall g :: g != 1 && g != 2 ==> FirstInheritable(ps, g) == None;
    LineSound(ps, [], ps);
    LineAbove(ps, [], ps, 1);
  }

  // ----- a sound RIB always has a FIB that agrees with it -----

  ghost function Faces(T: Table): set<nat>
  {
    set n, i | n in T && 0 <= i < |T[n].routes| :: T[n].routes[i].face
  }

  /** The FIB recomputed from the RIB. */
  ghost function FibOf(T: Table): Fib
  {
    map n, g | n in T.Keys && g in Faces(T) && Wanted(T, n, g).Some? :: (n, g) := Wanted(T, n, g).value
  }

  lemma WantedFaces(T: Table, n: Name, g: nat)
    requires Wanted(T, n, g).Some?
    ensures n in T && g in Faces(T)
  {
    if HasFace(T[n], g) {
      var i :| 0 <= i < |T[n].routes| && T[n].routes[i].face == g;
    } else {
      FromAboveMeaning(T, n, g);
      var a :| a < n && a in T && Offer(T, a, g) == FromAbove(T, n, g) && ClearBetween(T, a, n, g);
      var i :| 0 <= i < |T[a].routes| && T[a].routes[i].face == g && T[a].routes[i].flags.childInherit;
      assert T[a].routes[i].face in Faces(T);
    }
  }

  lemma SoundIsConsistent(T: Table)
    requires Sound(T)
    ensures Consistent(T, FibOf(T), {})
  {
    forall n, g
      ensures Get(FibOf(T), n, g) == Wanted(T, n, g)
    {
      if Wanted(T, n, g).Some? {
        WantedFaces(T, n, g);
      }
    }
  }

  /** Every hazard makes FIB or records differ from the recomputed ones, starting from the right FIB. */
  lemma HazardBreaks(T: Table, u: RibUpdate)
    requires Sound(T) && KeepsOnePerFace(T, u) && Hazard(T, u, DeadAfter({}, u))
    ensures Consistent(T, FibOf(T), {})
    ensures var es := Emitted(T, u, None);
            es.Some? && Applicable(Applied(T, u), es.value) &&
            !Agrees(Committed(T, u, es.value), Delivered(FibOf(T), u, es.value), DeadAfter({}, u))
  {
    SoundIsConsistent(T);
    StepExact(T, u, FibOf(T), {});
  }

  // ----- what a stale record does later -----

  /** A new route on an inherited face leaves the record.  From then on every removal of that face pushed down from above
      takes away the next hop of the entry's own route. */
  lemma StaleRecordBites(T: Table, u: RibUpdate, fib: Fib, q: Name, add: seq<Route>, remove: seq<Route>)
    requires Consistent(T, fib, {}) && KeepsOnePerFace(T, u) && u.kind == Register && u.name in T && !Holds(T, u.name, u.route)
    requires StaleRecord(T, u.name, u.route) && FaceSorted(add) && FaceSorted(remove)
    requires FindFace(remove, u.route.face).Some? && FindFace(add, u.route.face).None?
    ensures Emitted(T, u, None).Some? && Applicable(Applied(T, u), Emitted(T, u, None).value)
    ensures var U := Committed(T, u, Emitted(T, u, None).value);
            q in U && q < u.name && OpenBelow(U, q, u.name, u.route.face) ==>
              && Wanted(U, u.name, u.route.face) == Some(u.route.cost)
              && TreeOk(U) && AllBelow(U, q, U[q].children)
              && HopEffect(PushDown(U, q, U[q].children, add, remove), u.name, u.route.face) == Clear
  {
    StepExact(T, u, fib, {});
    var p, r, es := u.name, u.route, Emitted(T, u, None).value;
    var V, U := Applied(T, u), Committed(T, u, es);
    CommittedShape(T, u, es);
    ApplyRecordsAt(V, es, p);
    InsertElsewhere(T, p, r);
    AppendFinds(T[p].routes, r, r.face);
    QueriesAgree(V[p].routes, r.face);
    NewRouteEffect(T, p, r, p, r.face);
    assert HasInherited(U[p], r.face) && FindFace(U[p].routes, r.face) == Some(r);
    if q in U && q < p && OpenBelow(U, q, p, r.face) {
      ChildrenBelow(U, q);
      ChildrenAreTop(U, q);
      PushDownReachAll(U, q, U[q].children, add, remove, p, r.face);
    }
  }

  // ----- the first route is not the cheapest -----

  /** What an entry offers on a face is its first inheritable route there; it is a cheapest one exactly when no later one
      costs less. */
  lemma OffersFirstNotCheapest(T: Table, n: Name, g: nat)
    requires n in T && Offer(T, n, g).Some?
    ensures Lowest(T[n].routes, g, true).Some?
    ensures Offer(T, n, g).value.cost == Lowest(T[n].routes, g, true).value.cost <==>
            forall j :: 0 <= j < |T[n].routes| && Matches(T[n].routes[j], g, true) ==> Offer(T, n, g).value.cost <= T[n].routes[j].cost
  {
    var rs, first := T[n].routes, Offer(T, n, g).value;
    var i :| 0 <= i < |rs| && rs[i] == first;
    assert Matches(rs[i], g, true);
    var low := Lowest(rs, g, true).value;
    var k :| 0 <= k < |rs| && rs[k] == low;
    assert Matches(rs[k], g, true);
  }

  /** A child inherits at cost 10 although its parent has an inheritable route on the same face at cost 5. */
  lemma DearerIsInherited()
    ensures var dear, cheap := Route(1, 0, 10, Flags(true, false, 0)), Route(1, 1, 5, Flags(true, false, 0));
            var T := map[[] := Entry(None, [[0]], [dear, cheap], [], 0), [0] := Entry(Some([]), [], [LEAF], [dear], 0)];
            TreeOk(T) && EntriesOk(T) && FindFace(AncestorRoutes(T, [0]), 1) == Some(dear) &&
            Lowest(T[[]].routes, 1, true) == Some(cheap)
  {
    var dear, cheap := Route(1, 0, 10, Flags(true, false, 0)), Route(1, 1, 5, Flags(true, false, 0));
    var T := map[[] := Entry(None, [[0]], [dear, cheap], [], 0), [0] := Entry(Some([]), [], [LEAF], [dear], 0)];
    assert T.Keys == {[], [0]} && [0][..0] == [];
    assert ParentOf(T.Keys, []) == None && ParentOf(T.Keys, [0]) == Some([]);
    AncestorRoutesFind(T, [0], 1);
    assert Nearest(T, [0], 1, 1) == Some(dear);
  }
}
