/** Registering a route that is already there with another capture bit. */
module StepSwitch {
  import opened Names
  import opened Routes
  import opened RibModel
  import opened RibOps
  import opened Inheritance
  import opened Updates
  import opened Propagation
  import opened Compute
  import opened CommitSafety
  import opened Incremental
  import opened Hazards
  import opened StepUpdate

  ghost predicate Switchable(T: Table, p: Name, r: Route)
  {
    Replaceable(T, p, r) && Existing(T, p, r).flags.capture != r.flags.capture
  }

  // ----- what is emitted -----

  /** The second push: what capture was letting through is removed, or what it was blocking is added. */
  function CapturePush(T: Table, p: Name, r: Route): (x: (seq<Route>, seq<Route>))
    requires ParentsOk(T)
    ensures FaceSorted(x.0) && FaceSorted(x.1)
  {
    if r.flags.capture then ([], AncestorRoutes(T, p)) else (AncestorRoutes(T, p), [])
  }

  /** What the entry itself loses or gains. */
  function OwnChange(T: Table, p: Name, r: Route): seq<Emission>
    requires ParentsOk(T) && Holds(T, p, r)
  {
    if r.flags.capture then LostByEntry(p, Copy(T, p, r), AncestorRoutes(T, p))
    else GainedByEntry(p, Copy(T, p, r), AncestorRoutes(T, p))
  }

  /** The push that depends on child-inherit; nothing when that bit stays the same. */
  function InheritPushed(T: Table, p: Name, r: Route): seq<Emission>
    requires TreeOk(T) && Holds(T, p, r) && AllBelow(T, p, T[p].children)
  {
    var was := Existing(T, p, r);
    var push := UpdatePush(T, p, was, r);
    if was.flags.childInherit == r.flags.childInherit then [] else PushDown(T, p, T[p].children, push.0, push.1)
  }

  lemma SwitchEmits(T: Table, p: Name, r: Route)
    requires Switchable(T, p, r)
    ensures AllBelow(T, p, T[p].children)
    ensures var second := CapturePush(T, p, r);
            ForRegistration(T, p, r) ==
            Some(OwnHop(p, Existing(T, p, r), r) + InheritPushed(T, p, r) +
                 (OwnChange(T, p, r) + PushDown(T, p, T[p].children, second.0, second.1)))
  {
    var was, copy := Existing(T, p, r), Copy(T, p, r);
    RegistersCopy(T, p, r);
    CopyOwnHop(T, p, r);
    CopyInheritChange(T, p, r);
    CopyCaptureChange(T, p, r);
    assert ForUpdatedRoute(T, p, copy, r, was) ==
           Some(OwnHop(p, was, r) + InheritChange(T, p, copy, r, was) + CaptureChange(T, p, copy, r, was));
    assert InheritChange(T, p, copy, r, was) == InheritPushed(T, p, r);
  }

  lemma CopyCaptureChange(T: Table, p: Name, r: Route)
    requires Switchable(T, p, r)
    ensures CopyOf(T, p, Copy(T, p, r)) && AllBelow(T, p, T[p].children)
    ensures var second := CapturePush(T, p, r);
            CaptureChange(T, p, Copy(T, p, r), r, Existing(T, p, r)) ==
            OwnChange(T, p, r) + PushDown(T, p, T[p].children, second.0, second.1)
  {
    var copy := Copy(T, p, r);
    CopyQueries(T, p, r);
    ChildrenBelow(T, p);
    CopyIsLinked(T, p, copy);
    assert AncestorRoutesOfEntry(T, copy) == AncestorRoutes(T, p);
  }

  // ----- its effect -----

  lemma InheritPushedEffect(T: Table, p: Name, r: Route, d: Name, g: nat)
    requires Switchable(T, p, r) && AllBelow(T, p, T[p].children)
    ensures var push := UpdatePush(T, p, Existing(T, p, r), r);
            HopEffect(InheritPushed(T, p, r), d, g) == RecordEffect(InheritPushed(T, p, r), d, g) ==
            DownEffect(T, p, push.0, push.1, d, g)
  {
    var was := Existing(T, p, r);
    var push := UpdatePush(T, p, was, r);
    if was.flags.childInherit == r.flags.childInherit {
      assert push == ([], []);
    } else {
      ChildrenAreTop(T, p);
      PushDownReachAll(T, p, T[p].children, push.0, push.1, d, g);
    }
  }

  /** Loses or gains at the entry itself. */
  function OwnEffect(T: Table, p: Name, r: Route, g: nat): Effect
    requires p in T
  {
    if FromAbove(T, p, g).None? then Keep
    else if r.flags.capture then (if HasInherited(T[p], g) then Clear else Keep)
    else if HasFace(T[p], g) then Keep else Set(FromAbove(T, p, g).value.cost)
  }

  lemma OwnChangeEffect(T: Table, p: Name, r: Route, d: Name, g: nat)
    requires Switchable(T, p, r)
    ensures HopEffect(OwnChange(T, p, r), d, g) == RecordEffect(OwnChange(T, p, r), d, g) ==
            if d == p then OwnEffect(T, p, r, g) else Keep
  {
    var copy := Copy(T, p, r);
    AncestorRoutesFind(T, p, g);
    ReplaceFinds(T[p].routes, FindRoute(T[p].routes, r.face, r.origin), r, g);
    if r.flags.capture {
      LostByEntryEffect(p, copy, AncestorRoutes(T, p), d, g);
    } else {
      GainedByEntryEffect(p, copy, AncestorRoutes(T, p), d, g);
    }
  }

  /** All emissions together. */
  lemma SwitchEffect(T: Table, p: Name, r: Route, d: Name, g: nat)
    requires Switchable(T, p, r)
    ensures ForRegistration(T, p, r).Some?
    ensures var es, was := ForRegistration(T, p, r).value, Existing(T, p, r);
            var first, second := UpdatePush(T, p, was, r), CapturePush(T, p, r);
            var down := Then(DownEffect(T, p, first.0, first.1, d, g), DownEffect(T, p, second.0, second.1, d, g));
            && (d != p ==> HopEffect(es, d, g) == RecordEffect(es, d, g) == down)
            && (d == p ==> RecordEffect(es, d, g) == OwnEffect(T, p, r, g))
            && (d == p ==> HopEffect(es, d, g) ==
                           Then(if r.cost != was.cost && g == r.face then Set(r.cost) else Keep, OwnEffect(T, p, r, g)))
  {
    SwitchEmits(T, p, r);
    var was, second := Existing(T, p, r), CapturePush(T, p, r);
    var own, inherit, change := OwnHop(p, was, r), InheritPushed(T, p, r), OwnChange(T, p, r);
    var down := PushDown(T, p, T[p].children, second.0, second.1);
    ChildrenAreTop(T, p);
    PushDownReachAll(T, p, T[p].children, second.0, second.1, d, g);
    InheritPushedEffect(T, p, r, d, g);
    OwnChangeEffect(T, p, r, d, g);
    EffectOfOne(Hop(AddUpdate(p, r.face, r.cost)), d, g);
    EffectConcat(own, inherit, d, g);
    EffectConcat(change, down, d, g);
    EffectConcat(own + inherit, change + down, d, g);
  }

  // ----- two pushes in one -----

  /** What pushing twice comes to on a face that descendants get from `p`: the second push wins, but its removal only
      touches what was passed down before. */
  ghost predicate Combines(T: Table, p: Name, first: (seq<Route>, seq<Route>), second: (seq<Route>, seq<Route>),
                           both: (seq<Route>, seq<Route>), g: nat)
  {
    && FindFace(both.0, g) == (
         if FindFace(second.0, g).Some? then FindFace(second.0, g)
         else if FindFace(second.1, g).Some? && PassedDown(T, p, g).Some? then None
         else FindFace(first.0, g))
    && (FindFace(both.1, g).Some? <==> FindFace(first.1, g).Some? || FindFace(second.1, g).Some?)
  }

  lemma CombinedEffect(T: Table, p: Name, first: (seq<Route>, seq<Route>), second: (seq<Route>, seq<Route>),
                       both: (seq<Route>, seq<Route>), d: Name, g: nat)
    requires RecordsAgree(T) && Combines(T, p, first, second, both, g)
    ensures Then(DownEffect(T, p, first.0, first.1, d, g), DownEffect(T, p, second.0, second.1, d, g)) ==
            DownEffect(T, p, both.0, both.1, d, g)
  {
    if d in T && p < d && OpenBelow(T, p, d, g) {
      assert HasInherited(T[d], g) <==> Inherits(T, d, g);
      if !HasFace(T[d], g) {
        AffectedWanted(T, T, p, d, g);
      }
    }
  }

  function SwitchPush(T: Table, p: Name, was: Route, r: Route): (x: (seq<Route>, seq<Route>))
    requires ParentsOk(T)
    ensures FaceSorted(x.0) && FaceSorted(x.1)
  {
    var first, above := UpdatePush(T, p, was, r), AncestorRoutes(T, p);
    if r.flags.capture then
      (if FindFace(above, r.face).Some? && PassedDown(T, p, r.face).Some? then [] else first.0,
       if was.flags.childInherit && !r.flags.childInherit then InsertFace(above, r) else above)
    else
      (if first.0 == [] then above else InsertFace(above, first.0[0]), first.1)
  }

  lemma SwitchCombines(T: Table, p: Name, was: Route, r: Route, g: nat)
    requires TreeOk(T) && was.face == r.face && was.flags.capture != r.flags.capture
    ensures Combines(T, p, UpdatePush(T, p, was, r), CapturePush(T, p, r), SwitchPush(T, p, was, r), g)
  {
    UpdatePushFinds(T, p, was, r, g);
    var first := UpdatePush(T, p, was, r);
    if first.0 != [] {
      assert first.0 == [first.0[0]];
      FindFaceCons(first.0[0], []);
    }
  }

  // ----- right or wrong -----

  /** The table after the switch, as the flags of the routes tell it. */
  lemma SwitchedTable(T: Table, p: Name, r: Route)
    requires Switchable(T, p, r) && CountersOk(T)
    ensures var U, was := Counted(InsertTable(T, p, r)), Existing(T, p, r);
            && SameElsewhere(T, U, p) && SameInherited(T, U) && p in U
            && U[p].captures == (if r.flags.capture then T[p].captures + 1 else T[p].captures - 1)
            && (was.flags.capture ==> T[p].captures > 0)
            && U[p].routes == T[p].routes[FindRoute(T[p].routes, r.face, r.origin) := r]
  {
    var i := FindRoute(T[p].routes, r.face, r.origin);
    InsertElsewhere(T, p, r);
    CountReplace(T[p].routes, i, r);
  }

  /** What changes at `p` on face `g`, in terms of the tables before and after. */
  ghost predicate Switched(T: Table, U: Table, p: Name, was: Route, r: Route, g: nat)
  {
    && p in T && p in U && was.face == r.face && was.flags.capture != r.flags.capture
    && U[p].inherited == T[p].inherited
    && U[p].captures == (if r.flags.capture then T[p].captures + 1 else T[p].captures - 1)
    && (was.flags.capture ==> T[p].captures > 0)
    && Lowest(T[p].routes, g, false) == FindFace(T[p].routes, g)
    && Lowest(U[p].routes, g, false) == FindFace(U[p].routes, g)
    && FromAbove(U, p, g) == FromAbove(T, p, g)
    && Offer(U, p, g) == OfferAfter(T, p, r, g)
    && (g != r.face ==> FindFace(U[p].routes, g) == FindFace(T[p].routes, g))
    && (g == r.face ==> FindFace(T[p].routes, g) == Some(was) && FindFace(U[p].routes, g) == Some(r))
    && (g == r.face ==> Offer(T, p, g) == if was.flags.childInherit then Some(was) else None)
  }

  /** What the queries give for the routes before and after one of them is replaced. */
  lemma ReplacedQueries(rs: seq<Route>, i: nat, r: Route, g: nat)
    requires OnePerFace(rs) && i < |rs| && rs[i].face == r.face
    ensures var t, was := rs[i := r], rs[i];
            && Lowest(rs, g, false) == FindFace(rs, g) && Lowest(t, g, false) == FindFace(t, g)
            && (g != r.face ==> FindFace(t, g) == FindFace(rs, g) && FirstInheritable(t, g) == FirstInheritable(rs, g))
            && (g == r.face ==> FindFace(rs, g) == Some(was) && FindFace(t, g) == Some(r))
            && (g == r.face ==> FirstInheritable(rs, g) == if was.flags.childInherit then Some(was) else None)
            && (g == r.face ==> FirstInheritable(t, g) == if r.flags.childInherit then Some(r) else None)
  {
    ReplaceFinds(rs, i, r, g);
    QueriesAgree(rs, g);
    QueriesAgree(rs[i := r], g);
    OneOnFace(rs, i);
  }

  lemma ReplacedIsSwitched(T: Table, U: Table, p: Name, i: nat, r: Route, g: nat)
    requires SameElsewhere(T, U, p) && p in T && p in U && U[p].inherited == T[p].inherited
    requires OnePerFace(T[p].routes) && i < |T[p].routes| && U[p].routes == T[p].routes[i := r]
    requires T[p].routes[i].face == r.face && T[p].routes[i].flags.capture != r.flags.capture
    requires U[p].captures == (if r.flags.capture then T[p].captures + 1 else T[p].captures - 1)
    requires T[p].routes[i].flags.capture ==> T[p].captures > 0
    ensures Switched(T, U, p, T[p].routes[i], r, g)
  {
    FromAboveAtChanged(T, U, p, g);
    ReplacedQueries(T[p].routes, i, r, g);
  }

  lemma SwitchIsSwitched(T: Table, p: Name, r: Route, g: nat)
    requires Switchable(T, p, r) && CountersOk(T)
    ensures Switched(T, Counted(InsertTable(T, p, r)), p, Existing(T, p, r), r, g)
  {
    SwitchedTable(T, p, r);
    ReplacedIsSwitched(T, Counted(InsertTable(T, p, r)), p, FindRoute(T[p].routes, r.face, r.origin), r, g);
  }

  /** At the entry itself: right, unless capture is switched off while another route goes on capturing. */
  lemma SwitchOwn(T: Table, U: Table, p: Name, was: Route, r: Route, g: nat)
    requires Switched(T, U, p, was, r, g) && (HasInherited(T[p], g) <==> Inherits(T, p, g))
    ensures var own := OwnEffect(T, p, r, g);
            var hop := Then(if r.cost != was.cost && g == r.face then Set(r.cost) else Keep, own);
            var wrong := was.flags.capture && T[p].captures > 1 && FromAbove(T, p, g).Some? && !HasFace(T[p], g);
            && (Recorded(HasInherited(U[p], g), own) == Inherits(U, p, g) <==> !wrong)
            && (!wrong ==> After(Wanted(T, p, g), hop) == Wanted(U, p, g))
  {
  }

  /** The route the push adds on face `g`. */
  function SwitchAdds(T: Table, p: Name, was: Route, r: Route, g: nat): Option<Route>
  {
    var above := FromAbove(T, p, g);
    var first := if g != r.face || was.flags.childInherit == r.flags.childInherit then None
                 else if r.flags.childInherit then Some(r) else above;
    if r.flags.capture then (if above.Some? && PassedDown(T, p, g).Some? then None else first)
    else if above.Some? then above else first
  }

  predicate SwitchRemoves(T: Table, p: Name, was: Route, r: Route, g: nat)
  {
    (r.flags.capture && FromAbove(T, p, g).Some?) || (g == r.face && was.flags.childInherit && !r.flags.childInherit)
  }

  lemma SwitchPushFinds(T: Table, p: Name, was: Route, r: Route, g: nat)
    requires TreeOk(T) && was.face == r.face && was.flags.capture != r.flags.capture
    ensures var push := SwitchPush(T, p, was, r);
            && FindFace(push.0, g) == SwitchAdds(T, p, was, r, g)
            && FindFace(push.1, g).Some? == SwitchRemoves(T, p, was, r, g)
  {
    SwitchCombines(T, p, was, r, g);
    UpdatePushFinds(T, p, was, r, g);
    AncestorRoutesFind(T, p, g);
  }

  lemma PushDecides(T: Table, U: Table, p: Name, was: Route, r: Route, add: seq<Route>, remove: seq<Route>, dead: set<nat>, g: nat)
    requires Switched(T, U, p, was, r, g)
    requires FindFace(add, g) == SwitchAdds(T, p, was, r, g) && FindFace(remove, g).Some? == SwitchRemoves(T, p, was, r, g)
    ensures PushRightOn(T, U, p, add, remove, dead, g) <==>
            !(if r.flags.capture then StripsOn(T, p, was, r, dead, g) else LeaksOn(T, p, was, r, dead, g))
  {
  }

  lemma SwitchPushRight(T: Table, U: Table, p: Name, was: Route, r: Route, dead: set<nat>, g: nat)
    requires TreeOk(T) && Switched(T, U, p, was, r, g)
    ensures var push := SwitchPush(T, p, was, r);
            PushRightOn(T, U, p, push.0, push.1, dead, g) <==>
            !(if r.flags.capture then StripsOn(T, p, was, r, dead, g) else LeaksOn(T, p, was, r, dead, g))
  {
    var push := SwitchPush(T, p, was, r);
    SwitchPushFinds(T, p, was, r, g);
    PushDecides(T, U, p, was, r, push.0, push.1, dead, g);
  }

  // ----- the step -----

  lemma SwitchPushesDown(T: Table, p: Name, r: Route)
    requires Switchable(T, p, r) && RecordsAgree(T)
    ensures ForRegistration(T, p, r).Some?
    ensures var push := SwitchPush(T, p, Existing(T, p, r), r); PushesDown(T, p, ForRegistration(T, p, r).value, push.0, push.1)
  {
    SwitchEmits(T, p, r);
    var es, was := ForRegistration(T, p, r).value, Existing(T, p, r);
    var push := SwitchPush(T, p, was, r);
    forall d, g
      ensures d != p ==> HopEffect(es, d, g) == DownEffect(T, p, push.0, push.1, d, g) &&
                         RecordEffect(es, d, g) == DownEffect(T, p, push.0, push.1, d, g)
    {
      SwitchEffect(T, p, r, d, g);
      SwitchCombines(T, p, was, r, g);
      CombinedEffect(T, p, UpdatePush(T, p, was, r), CapturePush(T, p, r), push, d, g);
    }
  }

  /** The entry goes on capturing and gets face `g` from above all the same. */
  ghost predicate WrongAt(T: Table, p: Name, was: Route, g: nat)
    requires p in T
  {
    was.flags.capture && T[p].captures > 1 && FromAbove(T, p, g).Some? && !HasFace(T[p], g)
  }

  lemma SwitchOwnAt(T: Table, p: Name, r: Route, g: nat)
    requires Switchable(T, p, r) && CountersOk(T) && RecordsAgree(T)
    ensures ForRegistration(T, p, r).Some?
    ensures var es, U := ForRegistration(T, p, r).value, Counted(InsertTable(T, p, r));
            && p in U
            && (Recorded(HasInherited(U[p], g), RecordEffect(es, p, g)) == Inherits(U, p, g) <==>
                !WrongAt(T, p, Existing(T, p, r), g))
            && (!WrongAt(T, p, Existing(T, p, r), g) ==> After(Wanted(T, p, g), HopEffect(es, p, g)) == Wanted(U, p, g))
  {
    SwitchIsSwitched(T, p, r, g);
    SwitchEffect(T, p, r, p, g);
    SwitchOwn(T, Counted(InsertTable(T, p, r)), p, Existing(T, p, r), r, g);
  }

  lemma NeverWrong(T: Table, p: Name, was: Route, r: Route)
    requires p in T && was.flags.capture != r.flags.capture
    ensures UncapturesItself(T, p, was, r) <==> exists g :: WrongAt(T, p, was, g)
  {
    if g :| WrongAt(T, p, was, g) {
      assert FromAbove(T, p, g).Some?;
    }
    if UncapturesItself(T, p, was, r) {
      var g :| FromAbove(T, p, g).Some? && !HasFace(T[p], g);
      assert WrongAt(T, p, was, g);
    }
  }

  /** Right at the entry itself exactly when it is wrong on no face. */
  lemma OwnRightFromFaces(T: Table, U: Table, p: Name, was: Route, es: seq<Emission>)
    requires p in T && p in U
    requires forall g :: Recorded(HasInherited(U[p], g), RecordEffect(es, p, g)) == Inherits(U, p, g) <==> !WrongAt(T, p, was, g)
    requires forall g :: !WrongAt(T, p, was, g) ==> After(Wanted(T, p, g), HopEffect(es, p, g)) == Wanted(U, p, g)
    ensures OwnRecordsRight(U, p, es) <==> forall g :: !WrongAt(T, p, was, g)
    ensures OwnRecordsRight(U, p, es) ==> OwnHopsRight(T, U, p, es)
  {
  }

  /** Right at the entry itself exactly when it does not uncapture itself. */
  lemma SwitchOwnRight(T: Table, p: Name, r: Route)
    requires Switchable(T, p, r) && CountersOk(T) && RecordsAgree(T)
    ensures ForRegistration(T, p, r).Some?
    ensures var es, U := ForRegistration(T, p, r).value, Counted(InsertTable(T, p, r));
            && (OwnRecordsRight(U, p, es) <==> !UncapturesItself(T, p, Existing(T, p, r), r))
            && (OwnRecordsRight(U, p, es) ==> OwnHopsRight(T, U, p, es))
  {
    SwitchOwnAt(T, p, r, 0);
    var es, U, was := ForRegistration(T, p, r).value, Counted(InsertTable(T, p, r)), Existing(T, p, r);
    forall g
      ensures Recorded(HasInherited(U[p], g), RecordEffect(es, p, g)) == Inherits(U, p, g) <==> !WrongAt(T, p, was, g)
      ensures !WrongAt(T, p, was, g) ==> After(Wanted(T, p, g), HopEffect(es, p, g)) == Wanted(U, p, g)
    {
      SwitchOwnAt(T, p, r, g);
    }
    NeverWrong(T, p, was, r);
    OwnRightFromFaces(T, U, p, was, es);
  }

  lemma SwitchPushRightAll(T: Table, p: Name, r: Route, dead: set<nat>)
    requires Switchable(T, p, r) && CountersOk(T)
    ensures var U, was := Counted(InsertTable(T, p, r)), Existing(T, p, r);
            var push := SwitchPush(T, p, was, r);
            PushRight(T, U, p, push.0, push.1, dead) <==>
            !StripsBySwitchingOn(T, p, was, r, dead) && !LeaksBySwitchingOff(T, p, was, r, dead)
  {
    var U, was := Counted(InsertTable(T, p, r)), Existing(T, p, r);
    var push := SwitchPush(T, p, was, r);
    forall g
      ensures PushRightOn(T, U, p, push.0, push.1, dead, g) <==>
              !(if r.flags.capture then StripsOn(T, p, was, r, dead, g) else LeaksOn(T, p, was, r, dead, g))
    {
      SwitchIsSwitched(T, p, r, g);
      SwitchPushRight(T, U, p, was, r, dead, g);
    }
  }

  /** Overwriting a route with another capture bit leaves FIB and records as recomputed from the flags exactly when it
      neither strips descendants, nor uncaptures the entry, nor leaks to descendants. */
  lemma SwitchStep(T: Table, u: RibUpdate, fib: Fib, dead: set<nat>)
    requires Consistent(T, fib, dead) && Drifts(T, u)
    ensures var es, was := Emitted(T, u, None), Existing(T, u.name, u.route);
            es.Some? && Applicable(Applied(T, u), es.value) &&
            (Agrees(Committed(T, u, es.value), Delivered(fib, u, es.value), dead) <==>
             && !StripsBySwitchingOn(T, u.name, was, u.route, dead) && !UncapturesItself(T, u.name, was, u.route)
             && !LeaksBySwitchingOff(T, u.name, was, u.route, dead))
  {
    var p, r := u.name, u.route;
    var was, U := Existing(T, p, r), Counted(Applied(T, u));
    var push := SwitchPush(T, p, was, r);
    SwitchPushesDown(T, p, r);
    var es := Emitted(T, u, None).value;
    RecordsAlwaysApplicable(T, u, None);
    SwitchedTable(T, p, r);
    SwitchOwnRight(T, p, r);
    SwitchPushRightAll(T, p, r, dead);
    CountedRecords(Applied(T, u), es);
    SwitchAgrees(T, U, u, es, push, fib, dead);
  }

  lemma SwitchAgrees(T: Table, U: Table, u: RibUpdate, es: seq<Emission>, push: (seq<Route>, seq<Route>), fib: Fib, dead: set<nat>)
    requires RecordsAgree(T) && FibAgrees(T, fib, dead) && SameElsewhere(T, U, u.name) && SameInherited(T, U)
    requires PushesDown(T, u.name, es, push.0, push.1) && Applicable(U, es) && u.kind == Register
    requires OwnRecordsRight(U, u.name, es) ==> OwnHopsRight(T, U, u.name, es)
    ensures RecordsAgree(ApplyRecords(U, es)) && FibAgrees(ApplyRecords(U, es), Delivered(fib, u, es), dead) <==>
            OwnRecordsRight(U, u.name, es) && PushRight(T, U, u.name, push.0, push.1, dead)
  {
    if OwnRecordsRight(U, u.name, es) {
      AgreeFromParts(T, U, u, es, push.0, push.1, fib, dead);
    } else {
      RecordsAfter(T, U, u.name, es, push.0, push.1);
    }
  }
}
