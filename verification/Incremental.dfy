/** The incremental FIB computation against recomputing the FIB from the RIB. */
module Incremental {
  import opened Names
  import opened Routes
  import opened RibModel
  import opened RibOps
  import opened Inheritance
  import opened Updates
  import opened Propagation
  import opened Compute

  // ----- the reference: what the FIB should hold, from the RIB alone -----

  function CostOf(o: Option<Route>): Option<nat>
  {
    match o
    case None => None
    case Some(r) => Some(r.cost)
  }

  /** The next hop of `n` on face `g`, as far as the counters tell which entries capture: its cheapest own route, or else, unless it captures, what its ancestors offer. */
  function Wanted(T: Table, n: Name, g: nat): Option<nat>
  {
    if n !in T then None
    else if HasFace(T[n], g) then CostOf(Lowest(T[n].routes, g, false))
    else if HasCapture(T[n]) then None
    else CostOf(FromAbove(T, n, g))
  }

  /** `n` inherits face `g`. */
  predicate Inherits(T: Table, n: Name, g: nat)
  {
    n in T && !HasFace(T[n], g) && !HasCapture(T[n]) && FromAbove(T, n, g).Some?
  }

  /** On every live face the FIB is what recomputing it from the RIB gives. */
  ghost predicate FibAgrees(T: Table, fib: Fib, dead: set<nat>)
  {
    forall n, g :: g !in dead ==> Get(fib, n, g) == Wanted(T, n, g)
  }

  /** The inherited faces recorded in the entries are exactly those they inherit. */
  ghost predicate RecordsAgree(T: Table)
  {
    forall n, g :: n in T ==> (HasInherited(T[n], g) <==> Inherits(T, n, g))
  }

  ghost predicate OneRoutePerFace(T: Table)
  {
    forall n :: n in T ==> OnePerFace(T[n].routes)
  }

  /** The RIB is well formed, no entry has two routes on one face, and its inheritance records are right. */
  ghost predicate Sound(T: Table)
  {
    TreeOk(T) && EntriesOk(T) && CountersOk(T) && OneRoutePerFace(T) && RecordsAgree(T)
  }

  ghost predicate Consistent(T: Table, fib: Fib, dead: set<nat>)
  {
    Sound(T) && FibAgrees(T, fib, dead)
  }

  /** FIB and records are what recomputing them from the routes and their flags gives, whatever the counters hold. */
  ghost predicate Agrees(T: Table, fib: Fib, dead: set<nat>)
  {
    RecordsAgree(Counted(T)) && FibAgrees(Counted(T), fib, dead)
  }

  /** What every update keeps, right or wrong. */
  ghost predicate Shaped(T: Table)
  {
    TreeOk(T) && EntriesOk(T) && OneRoutePerFace(T)
  }

  lemma ConsistentParts(T: Table, fib: Fib, dead: set<nat>)
    ensures Consistent(T, fib, dead) <==> Shaped(T) && CountersOk(T) && Agrees(T, fib, dead)
  {
    if CountersOk(T) {
      CountedIsSame(T);
    }
  }

  // ----- delivery of the two lists -----

  /** The list for the batch's own face; it is dropped when the face is gone. */
  function BatchList(u: RibUpdate, es: seq<Emission>): seq<FibUpdate>
  {
    if u.kind == RemoveFace then [] else Coalesced(es, u.route.face, true)
  }

  function OtherList(u: RibUpdate, es: seq<Emission>): seq<FibUpdate>
  {
    Coalesced(es, u.route.face, false)
  }

  function Delivered(fib: Fib, u: RibUpdate, es: seq<Emission>): Fib
  {
    ApplyList(ApplyList(fib, BatchList(u, es)), OtherList(u, es))
  }

  function DeadAfter(dead: set<nat>, u: RibUpdate): set<nat>
  {
    if u.kind == RemoveFace then dead + {u.route.face} else dead
  }

  lemma DeliveredGet(fib: Fib, u: RibUpdate, es: seq<Emission>, n: Name, g: nat)
    requires u.kind == RemoveFace ==> g != u.route.face
    ensures Get(Delivered(fib, u, es), n, g) == After(Get(fib, n, g), HopEffect(es, n, g))
  {
    ApplyListGet(fib, BatchList(u, es), n, g);
    ApplyListGet(ApplyList(fib, BatchList(u, es)), OtherList(u, es), n, g);
    CoalescedMeaning(es, u.route.face, true);
    CoalescedMeaning(es, u.route.face, false);
  }

  // ----- descendants of the changed entry -----

  /** `d` gets face `g` from `p` or through it, and has no route of its own on it. */
  ghost predicate Affected(T: Table, p: Name, d: Name, g: nat)
  {
    d in T && p < d && OpenBelow(T, p, d, g) && !HasFace(T[d], g)
  }

  /** What pushing `add` and `remove` below `p` makes of the face for an affected descendant. */
  function Net(T: Table, p: Name, add: seq<Route>, remove: seq<Route>, g: nat): Option<nat>
  {
    if FindFace(add, g).Some? then CostOf(FindFace(add, g))
    else if FindFace(remove, g).Some? then None
    else CostOf(PassedDown(T, p, g))
  }

  ghost function DownEffect(T: Table, p: Name, add: seq<Route>, remove: seq<Route>, d: Name, g: nat): Effect
  {
    if d in T && p < d && OpenBelow(T, p, d, g) then Local(T[d], add, remove, g) else Keep
  }

  function Recorded(before: bool, e: Effect): bool
  {
    match e
    case Keep => before
    case Set(_) => true
    case Clear => false
  }

  /** `T` and `U` hold the same routes and counters everywhere but at `p`. */
  ghost predicate SameElsewhere(T: Table, U: Table, p: Name)
  {
    forall m :: m != p ==> (m in T <==> m in U) && (m in T ==> U[m].routes == T[m].routes && U[m].captures == T[m].captures)
  }

  lemma SameOffersElsewhere(T: Table, U: Table, p: Name, m: Name, g: nat)
    requires SameElsewhere(T, U, p) && m != p
    ensures SameOffers(T, U, m, g)
  {
  }

  lemma WantedElsewhere(T: Table, U: Table, p: Name, d: Name, g: nat)
    requires SameElsewhere(T, U, p) && !(p <= d)
    ensures Wanted(U, d, g) == Wanted(T, d, g) && Inherits(U, d, g) == Inherits(T, d, g)
  {
    forall m | m < d
      ensures SameOffers(T, U, m, g)
    {
      SameOffersElsewhere(T, U, p, m, g);
    }
    NearestFrame(T, U, d, |d|, g);
  }

  lemma FromAboveAtChanged(T: Table, U: Table, p: Name, g: nat)
    requires SameElsewhere(T, U, p)
    ensures FromAbove(U, p, g) == FromAbove(T, p, g)
  {
    forall m | m < p
      ensures SameOffers(T, U, m, g)
    {
      SameOffersElsewhere(T, U, p, m, g);
    }
    NearestFrame(T, U, p, |p|, g);
  }

  lemma AffectedWanted(T: Table, U: Table, p: Name, d: Name, g: nat)
    requires SameElsewhere(T, U, p) && Affected(T, p, d, g)
    ensures Wanted(T, d, g) == CostOf(PassedDown(T, p, g)) && Wanted(U, d, g) == CostOf(PassedDown(U, p, g))
    ensures Inherits(T, d, g) == PassedDown(T, p, g).Some? && Inherits(U, d, g) == PassedDown(U, p, g).Some?
  {
    assert ClearBetween(T, p, d, g);
    assert ClearBetween(U, p, d, g);
    FromAboveThrough(T, p, d, g);
    FromAboveThrough(U, p, d, g);
    assert !HasCapture(T[d]);
  }

  lemma UnaffectedWanted(T: Table, U: Table, p: Name, d: Name, g: nat)
    requires SameElsewhere(T, U, p) && d in T && p < d && !Affected(T, p, d, g)
    ensures Wanted(U, d, g) == Wanted(T, d, g) && Inherits(U, d, g) == Inherits(T, d, g)
  {
    if !HasFace(T[d], g) && !HasCapture(T[d]) {
      var m :| m in T && p < m <= d && !(!HasCapture(T[m]) && !HasChildInheritOnFace(T[m], g));
      NoFaceNoOffer(T[d].routes, g);
      assert m != d;
      assert m < d;
      forall x | p < x < d
        ensures SameOffers(T, U, x, g)
      {
        SameOffersElsewhere(T, U, p, x, g);
      }
      FromAboveBlocked(T, U, p, d, g);
    }
  }

  lemma NoFaceNoOffer(rs: seq<Route>, g: nat)
    requires FindFace(rs, g).None?
    ensures FirstInheritable(rs, g).None?
  {
  }

  /** What the propagation does to a descendant, whatever is pushed. */
  lemma DescendantStep(T: Table, U: Table, p: Name, add: seq<Route>, remove: seq<Route>, d: Name, g: nat)
    requires RecordsAgree(T) && SameElsewhere(T, U, p) && d in T && p < d
    ensures var effect := DownEffect(T, p, add, remove, d, g);
            && (Affected(T, p, d, g) ==>
                  && After(Wanted(T, d, g), effect) == Net(T, p, add, remove, g)
                  && Recorded(HasInherited(T[d], g), effect) == Net(T, p, add, remove, g).Some?
                  && Wanted(U, d, g) == CostOf(PassedDown(U, p, g))
                  && Inherits(U, d, g) == PassedDown(U, p, g).Some?)
            && (!Affected(T, p, d, g) ==>
                  && After(Wanted(T, d, g), effect) == Wanted(U, d, g)
                  && Recorded(HasInherited(T[d], g), effect) == Inherits(U, d, g))
  {
    assert HasInherited(T[d], g) <==> Inherits(T, d, g);
    if Affected(T, p, d, g) {
      AffectedWanted(T, U, p, d, g);
    } else {
      UnaffectedWanted(T, U, p, d, g);
      assert DownEffect(T, p, add, remove, d, g) == Keep;
    }
  }

  // ----- from the parts to the whole -----

  /** Away from `p` the emissions do what pushing `add` and `remove` below `p` does. */
  ghost predicate PushesDown(T: Table, p: Name, es: seq<Emission>, add: seq<Route>, remove: seq<Route>)
  {
    forall d, g :: d != p ==> HopEffect(es, d, g) == DownEffect(T, p, add, remove, d, g) &&
                              RecordEffect(es, d, g) == DownEffect(T, p, add, remove, d, g)
  }

  /** At `p` itself the emissions turn the wanted next hops into the new wanted ones. */
  ghost predicate OwnHopsRight(T: Table, U: Table, p: Name, es: seq<Emission>)
  {
    forall g :: After(Wanted(T, p, g), HopEffect(es, p, g)) == Wanted(U, p, g)
  }

  /** At `p` itself the records come out right. */
  ghost predicate OwnRecordsRight(U: Table, p: Name, es: seq<Emission>)
  {
    forall g :: if p in U then Recorded(HasInherited(U[p], g), RecordEffect(es, p, g)) == Inherits(U, p, g)
                else RecordEffect(es, p, g) == Keep
  }

  /** What is pushed down is what `p` passes down after the change, wherever a descendant takes it. */
  ghost predicate PushRight(T: Table, U: Table, p: Name, add: seq<Route>, remove: seq<Route>, dead: set<nat>)
  {
    forall d, g :: Affected(T, p, d, g) ==> PushRightOn(T, U, p, add, remove, dead, g)
  }

  ghost predicate PushRightOn(T: Table, U: Table, p: Name, add: seq<Route>, remove: seq<Route>, dead: set<nat>, g: nat)
  {
    && Net(T, p, add, remove, g).Some? == PassedDown(U, p, g).Some?
    && (g !in dead ==> Net(T, p, add, remove, g) == CostOf(PassedDown(U, p, g)))
  }

  lemma {:induction false} NoRecordNoEffect(U: Table, es: seq<Emission>, p: Name, g: nat)
    requires Applicable(U, es) && p !in U
    ensures RecordEffect(es, p, g) == Keep
  {
    if es == [] {
    } else {
      NoRecordNoEffect(U, es[..|es| - 1], p, g);
    }
  }

  /** After the commit the routes, counters and links are those of the applied update. */
  lemma CommitSame(U: Table, es: seq<Emission>, n: Name, g: nat)
    requires Applicable(U, es)
    ensures Wanted(ApplyRecords(U, es), n, g) == Wanted(U, n, g)
    ensures Inherits(ApplyRecords(U, es), n, g) == Inherits(U, n, g)
  {
    var V := ApplyRecords(U, es);
    forall m
      ensures m in V ==> V[m].routes == U[m].routes && V[m].captures == U[m].captures
    {
      if m in V {
        ApplyRecordsAt(U, es, m);
      }
    }
    forall m | m < n
      ensures SameOffers(U, V, m, g)
    {
    }
    NearestFrame(U, V, n, |n|, g);
  }

  /** The inherited lists of `U` are those of `T`. */
  ghost predicate SameInherited(T: Table, U: Table)
  {
    forall n :: n in T && n in U ==> U[n].inherited == T[n].inherited
  }

  /** The records agree after the commit exactly when they come out right at `p` and the push is right. */
  lemma RecordsAfter(T: Table, U: Table, p: Name, es: seq<Emission>, add: seq<Route>, remove: seq<Route>)
    requires RecordsAgree(T) && SameElsewhere(T, U, p) && SameInherited(T, U)
    requires PushesDown(T, p, es, add, remove) && Applicable(U, es)
    ensures RecordsAgree(ApplyRecords(U, es)) <==>
            OwnRecordsRight(U, p, es) &&
            forall d, g :: Affected(T, p, d, g) ==> Net(T, p, add, remove, g).Some? == PassedDown(U, p, g).Some?
  {
    var V := ApplyRecords(U, es);
    forall n, g | n in V
      ensures (HasInherited(V[n], g) <==> Inherits(V, n, g)) <==>
              RecordRightAt(T, U, p, es, add, remove, n, g)
    {
      RecordAt(T, U, p, es, add, remove, n, g);
    }
    if OwnRecordsRight(U, p, es) &&
       forall d, g :: Affected(T, p, d, g) ==> Net(T, p, add, remove, g).Some? == PassedDown(U, p, g).Some? {
      assert forall n, g :: n in V ==> RecordRightAt(T, U, p, es, add, remove, n, g);
    } else if RecordsAgree(V) {
      forall g
        ensures if p in U then Recorded(HasInherited(U[p], g), RecordEffect(es, p, g)) == Inherits(U, p, g)
                else RecordEffect(es, p, g) == Keep
      {
        if p in V {
          assert HasInherited(V[p], g) <==> Inherits(V, p, g);
          assert RecordRightAt(T, U, p, es, add, remove, p, g);
        } else {
          NoRecordNoEffect(U, es, p, g);
        }
      }
      forall d, g | Affected(T, p, d, g)
        ensures Net(T, p, add, remove, g).Some? == PassedDown(U, p, g).Some?
      {
        assert d in V;
        assert HasInherited(V[d], g) <==> Inherits(V, d, g);
        assert RecordRightAt(T, U, p, es, add, remove, d, g);
      }
    }
  }

  ghost predicate RecordRightAt(T: Table, U: Table, p: Name, es: seq<Emission>, add: seq<Route>, remove: seq<Route>, n: Name, g: nat)
    requires n in U
  {
    if n == p then Recorded(HasInherited(U[p], g), RecordEffect(es, p, g)) == Inherits(U, p, g)
    else Affected(T, p, n, g) ==> Net(T, p, add, remove, g).Some? == PassedDown(U, p, g).Some?
  }

  lemma RecordAt(T: Table, U: Table, p: Name, es: seq<Emission>, add: seq<Route>, remove: seq<Route>, n: Name, g: nat)
    requires RecordsAgree(T) && SameElsewhere(T, U, p) && SameInherited(T, U)
    requires PushesDown(T, p, es, add, remove) && Applicable(U, es) && n in U
    ensures (HasInherited(ApplyRecords(U, es)[n], g) <==> Inherits(ApplyRecords(U, es), n, g)) <==>
            RecordRightAt(T, U, p, es, add, remove, n, g)
  {
    ApplyRecordsAt(U, es, n);
    CommitSame(U, es, n, g);
    assert HasInherited(ApplyRecords(U, es)[n], g) == Recorded(HasInherited(U[n], g), RecordEffect(es, n, g));
    if n != p {
      assert RecordEffect(es, n, g) == DownEffect(T, p, add, remove, n, g);
      assert U[n].inherited == T[n].inherited;
      assert HasInherited(T[n], g) <==> Inherits(T, n, g);
      if p < n {
        DescendantStep(T, U, p, add, remove, n, g);
      } else {
        WantedElsewhere(T, U, p, n, g);
      }
    }
  }

  /** The delivered FIB agrees exactly when the push is right on the live faces. */
  lemma FibAfter(T: Table, U: Table, u: RibUpdate, es: seq<Emission>, add: seq<Route>, remove: seq<Route>, fib: Fib, dead: set<nat>)
    requires RecordsAgree(T) && FibAgrees(T, fib, dead) && SameElsewhere(T, U, u.name)
    requires PushesDown(T, u.name, es, add, remove) && Applicable(U, es)
    requires OwnHopsRight(T, U, u.name, es)
    ensures FibAgrees(ApplyRecords(U, es), Delivered(fib, u, es), DeadAfter(dead, u)) <==>
            forall d, g :: Affected(T, u.name, d, g) && g !in DeadAfter(dead, u) ==>
                             Net(T, u.name, add, remove, g) == CostOf(PassedDown(U, u.name, g))
  {
    var V, fib', dead', p := ApplyRecords(U, es), Delivered(fib, u, es), DeadAfter(dead, u), u.name;
    forall n, g | g !in dead'
      ensures Get(fib', n, g) == Wanted(V, n, g) <==>
              (Affected(T, p, n, g) ==> Net(T, p, add, remove, g) == CostOf(PassedDown(U, p, g)))
    {
      FibAt(T, U, u, es, add, remove, fib, dead, n, g);
    }
  }

  lemma FibAt(T: Table, U: Table, u: RibUpdate, es: seq<Emission>, add: seq<Route>, remove: seq<Route>, fib: Fib, dead: set<nat>,
              n: Name, g: nat)
    requires RecordsAgree(T) && FibAgrees(T, fib, dead) && SameElsewhere(T, U, u.name)
    requires PushesDown(T, u.name, es, add, remove) && Applicable(U, es)
    requires OwnHopsRight(T, U, u.name, es) && g !in DeadAfter(dead, u)
    ensures Get(Delivered(fib, u, es), n, g) == Wanted(ApplyRecords(U, es), n, g) <==>
            (Affected(T, u.name, n, g) ==> Net(T, u.name, add, remove, g) == CostOf(PassedDown(U, u.name, g)))
  {
    var p := u.name;
    DeliveredGet(fib, u, es, n, g);
    CommitSame(U, es, n, g);
    assert Get(fib, n, g) == Wanted(T, n, g);
    if n == p {
      assert After(Wanted(T, p, g), HopEffect(es, p, g)) == Wanted(U, p, g);
    } else {
      assert HopEffect(es, n, g) == DownEffect(T, p, add, remove, n, g);
      if n in T && p < n {
        DescendantStep(T, U, p, add, remove, n, g);
      } else if n in T {
        WantedElsewhere(T, U, p, n, g);
      }
    }
  }

  /** FIB and records agree after the step exactly when the records at `p` do, and what is pushed down is what `p` then
      passes down. */
  lemma AgreeFromParts(T: Table, U: Table, u: RibUpdate, es: seq<Emission>, add: seq<Route>, remove: seq<Route>, fib: Fib, dead: set<nat>)
    requires RecordsAgree(T) && FibAgrees(T, fib, dead) && SameElsewhere(T, U, u.name) && SameInherited(T, U)
    requires PushesDown(T, u.name, es, add, remove) && OwnHopsRight(T, U, u.name, es) && Applicable(U, es)
    ensures RecordsAgree(ApplyRecords(U, es)) && FibAgrees(ApplyRecords(U, es), Delivered(fib, u, es), DeadAfter(dead, u)) <==>
            OwnRecordsRight(U, u.name, es) && PushRight(T, U, u.name, add, remove, DeadAfter(dead, u))
  {
    RecordsAfter(T, U, u.name, es, add, remove);
    FibAfter(T, U, u, es, add, remove, fib, dead);
    PushRightParts(T, U, u.name, add, remove, DeadAfter(dead, u));
  }

  /** The whole step is right exactly then, when the counters are. */
  lemma StepFromParts(T: Table, U: Table, u: RibUpdate, es: seq<Emission>, add: seq<Route>, remove: seq<Route>, fib: Fib, dead: set<nat>)
    requires Consistent(T, fib, dead) && SameElsewhere(T, U, u.name) && SameInherited(T, U)
    requires Shaped(U) && CountersOk(U)
    requires PushesDown(T, u.name, es, add, remove) && OwnHopsRight(T, U, u.name, es) && Applicable(U, es)
    ensures Consistent(ApplyRecords(U, es), Delivered(fib, u, es), DeadAfter(dead, u)) <==>
            OwnRecordsRight(U, u.name, es) && PushRight(T, U, u.name, add, remove, DeadAfter(dead, u))
  {
    CommitKeepsShape(U, es);
    AgreeFromParts(T, U, u, es, add, remove, fib, dead);
  }

  lemma CommitKeepsShape(U: Table, es: seq<Emission>)
    requires Shaped(U) && Applicable(U, es)
    ensures Shaped(ApplyRecords(U, es)) && (CountersOk(ApplyRecords(U, es)) <==> CountersOk(U))
  {
    var V := ApplyRecords(U, es);
    ApplyRecordsKeepsTree(U, es);
    forall n | n in V
      ensures V[n].routes == U[n].routes && V[n].captures == U[n].captures
    {
      ApplyRecordsAt(U, es, n);
    }
  }

  lemma PushRightParts(T: Table, U: Table, p: Name, add: seq<Route>, remove: seq<Route>, dead: set<nat>)
    ensures PushRight(T, U, p, add, remove, dead) <==>
            && (forall d, g :: Affected(T, p, d, g) ==> Net(T, p, add, remove, g).Some? == PassedDown(U, p, g).Some?)
            && (forall d, g :: Affected(T, p, d, g) && g !in dead ==> Net(T, p, add, remove, g) == CostOf(PassedDown(U, p, g)))
  {
    if PushRight(T, U, p, add, remove, dead) {
      forall d, g | Affected(T, p, d, g)
        ensures PushRightOn(T, U, p, add, remove, dead, g)
      {
      }
    }
  }
}
