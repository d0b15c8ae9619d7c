/** What the FIB updater emits for one RIB update, and how the RIB commits the update. */
module Compute {
  import opened Names
  import opened Routes
  import opened RibModel
  import opened RibOps
  import opened Inheritance
  import opened Updates
  import opened Propagation

  datatype Kind = Register | Unregister | RemoveFace

  datatype RibUpdate = RibUpdate(kind: Kind, name: Name, route: Route)

  // ----- inherited routes of a single name -----

  /** addInheritedRoutes for a name without an entry yet: all faces but the one of the new route. */
  function GainedByName(n: Name, s: seq<Route>, ignore: Route): seq<Emission>
  {
    if s == [] then []
    else
      var r := s[|s| - 1];
      GainedByName(n, s[..|s| - 1], ignore) +
      if r.face != ignore.face then [Record(n, r, true), Hop(AddUpdate(n, r.face, r.cost))] else []
  }

  /** removeInheritedRoutes for an entry. */
  function LostByEntry(n: Name, e: Entry, s: seq<Route>): seq<Emission>
  {
    if s == [] then []
    else
      var r := s[|s| - 1];
      LostByEntry(n, e, s[..|s| - 1]) +
      if HasInherited(e, r.face) then [Record(n, r, false), Hop(RemoveUpdate(n, r.face))] else []
  }

  /** addInheritedRoutes for an entry: faces it has no route on. */
  function GainedByEntry(n: Name, e: Entry, s: seq<Route>): seq<Emission>
  {
    if s == [] then []
    else
      var r := s[|s| - 1];
      GainedByEntry(n, e, s[..|s| - 1]) +
      if !HasFace(e, r.face) then [Record(n, r, true), Hop(AddUpdate(n, r.face, r.cost))] else []
  }

  /** createFibUpdatesForErasedRibEntry. */
  function ErasedEntry(n: Name, inherited: seq<Route>): seq<Emission>
  {
    if inherited == [] then []
    else ErasedEntry(n, inherited[..|inherited| - 1]) + [Hop(RemoveUpdate(n, inherited[|inherited| - 1].face))]
  }

  // ----- the cases -----

  /** createFibUpdatesForNewRibEntry. */
  function ForNewEntry(T: Table, p: Name, r: Route, cs: seq<Name>): seq<Emission>
    requires TreeOk(T) && AllBelow(T, p, cs)
  {
    var above := AncestorRoutes(T, p);
    [Hop(AddUpdate(p, r.face, r.cost))] +
    if !r.flags.childInherit && !r.flags.capture then
      GainedByName(p, above, r)
    else if r.flags.childInherit && r.flags.capture then
      PushDown(T, p, cs, [r], above)
    else if r.flags.childInherit then
      GainedByName(p, above, r) + PushDown(T, p, cs, InsertFace(EraseFace(above, r.face), r), [])
    else
      PushDown(T, p, cs, [], above)
  }

  /** `e` is the entry at `p` or a copy of it that differs in its routes only. */
  ghost predicate CopyOf(T: Table, p: Name, e: Entry)
  {
    p in T && e.parent == T[p].parent && e.children == T[p].children && e.inherited == T[p].inherited
  }

  lemma CopyIsLinked(T: Table, p: Name, e: Entry)
    requires TreeOk(T) && CopyOf(T, p, e)
    ensures AllBelow(T, p, e.children)
    ensures e.parent.Some? ==> e.parent.value in T
  {
    ChildrenBelow(T, p);
  }

  /** createFibUpdatesForNewRoute. */
  function ForNewRoute(T: Table, p: Name, e: Entry, r: Route, captureOn: bool): seq<Emission>
    requires TreeOk(T) && CopyOf(T, p, e)
  {
    CopyIsLinked(T, p, e);
    var previous := Lowest(e.routes, r.face, true);
    var add := if r.flags.childInherit && (previous.None? || r.cost <= previous.value.cost) then [r] else [];
    var remove := if captureOn then AncestorRoutesOfEntry(T, e) else [];
    var other := Lowest(e.routes, r.face, false);
    LostByEntry(p, e, remove) +
    PushDown(T, p, e.children, add, remove) +
    if other.None? || r.cost <= other.value.cost then [Hop(AddUpdate(p, r.face, r.cost))] else []
  }

  /** The part of createFibUpdatesForUpdatedRoute about the entry's own next hop.  Nothing: a null route is read. */
  function OwnHopUpdate(p: Name, e: Entry, r: Route, was: Route): Option<seq<Emission>>
    requires r in e.routes
  {
    var previous := Lowest(e.routes, r.face, true);
    LowestOfMember(e.routes, r);
    var lowest := Lowest(e.routes, r.face, false).value.cost;
    if r.cost == was.cost then Some([])
    else if r.cost <= lowest then Some([Hop(AddUpdate(p, r.face, r.cost))])
    else if was.cost < lowest then
      if previous.None? then None else Some([Hop(AddUpdate(p, previous.value.face, previous.value.cost))])
    else Some([])
  }

  lemma LowestOfMember(rs: seq<Route>, r: Route)
    requires r in rs
    ensures Lowest(rs, r.face, false).Some? && Lowest(rs, r.face, false).value.cost <= r.cost
  {
    var i :| 0 <= i < |rs| && rs[i] == r;
    assert Matches(rs[i], r.face, false);
  }

  /** The route handed down instead of one that children no longer inherit. */
  function Instead(T: Table, e: Entry, r: Route): seq<Route>
    requires ParentsOk(T) && (e.parent.Some? ==> e.parent.value in T)
  {
    var previous := Lowest(e.routes, r.face, true);
    if previous.Some? then [previous.value]
    else match FindFace(AncestorRoutesOfEntry(T, e), r.face)
         case Some(a) => [a]
         case None => []
  }

  function InheritChange(T: Table, p: Name, e: Entry, r: Route, was: Route): seq<Emission>
    requires TreeOk(T) && CopyOf(T, p, e)
  {
    CopyIsLinked(T, p, e);
    var previous := Lowest(e.routes, r.face, true);
    if !was.flags.childInherit && r.flags.childInherit then
      if previous.None? || r.cost <= previous.value.cost then PushDown(T, p, e.children, [r], []) else []
    else if was.flags.childInherit && !r.flags.childInherit then
      PushDown(T, p, e.children, Instead(T, e, r), [r])
    else []
  }

  function CaptureChange(T: Table, p: Name, e: Entry, r: Route, was: Route): seq<Emission>
    requires TreeOk(T) && CopyOf(T, p, e)
  {
    CopyIsLinked(T, p, e);
    var above := AncestorRoutesOfEntry(T, e);
    if !was.flags.capture && r.flags.capture then
      LostByEntry(p, e, above) + PushDown(T, p, e.children, [], above)
    else if was.flags.capture && !r.flags.capture then
      GainedByEntry(p, e, above) + PushDown(T, p, e.children, above, [])
    else []
  }

  /** createFibUpdatesForUpdatedRoute; `e` is the copy of the entry with the updated route in place. */
  function ForUpdatedRoute(T: Table, p: Name, e: Entry, r: Route, was: Route): Option<seq<Emission>>
    requires TreeOk(T) && CopyOf(T, p, e) && r in e.routes
  {
    CopyIsLinked(T, p, e);
    var previous := Lowest(e.routes, r.face, true);
    if r.flags == was.flags && r.cost == was.cost then Some([])
    else match OwnHopUpdate(p, e, r, was)
      case None => None
      case Some(own) =>
        if r.cost != was.cost && (previous.None? || r.cost <= previous.value.cost) && r.flags == was.flags && r.flags.childInherit then
          Some(own + PushDown(T, p, e.children, [r], []))
        else
          Some(own + InheritChange(T, p, e, r, was) + CaptureChange(T, p, e, r, was))
  }

  /** The ancestor routes that createFibUpdatesForErasedRoute hands to the children. */
  function Unblocked(T: Table, p: Name, e: Entry, was: Route, captureOff: bool): (add: seq<Route>)
    requires TreeOk(T) && CopyOf(T, p, e)
    ensures FaceSorted(add)
  {
    CopyIsLinked(T, p, e);
    if was.flags.capture && captureOff && e.routes != [] then AncestorRoutesOfEntry(T, e)
    else if was.flags.childInherit && !was.flags.capture && !HasCapture(e) then AncestorRoutesOfEntry(T, e)
    else []
  }

  /** What the entry itself inherits once nothing captures any more. */
  function OwnUnblocked(T: Table, p: Name, e: Entry, was: Route, captureOff: bool): seq<Emission>
    requires TreeOk(T) && CopyOf(T, p, e)
  {
    CopyIsLinked(T, p, e);
    if was.flags.capture && captureOff && e.routes != [] then GainedByEntry(p, e, AncestorRoutesOfEntry(T, e)) else []
  }

  /** What goes down from it. */
  function DownUnblocked(T: Table, p: Name, e: Entry, was: Route, captureOff: bool): seq<Emission>
    requires TreeOk(T) && CopyOf(T, p, e)
  {
    CopyIsLinked(T, p, e);
    if was.flags.childInherit || was.flags.capture then
      PushDown(T, p, e.children, Unblocked(T, p, e, was, captureOff), if was.flags.childInherit then [was] else [])
    else []
  }

  /** The erased route may have been hiding an inherited one. */
  function Restored(T: Table, p: Name, e: Entry, was: Route): seq<Emission>
    requires TreeOk(T) && CopyOf(T, p, e)
  {
    CopyIsLinked(T, p, e);
    var above := AncestorRoutesOfEntry(T, e);
    if !HasCapture(e) && e.routes != [] && FindFace(above, was.face).Some? then
      var a := FindFace(above, was.face).value;
      [Record(p, a, true), Hop(AddUpdate(p, a.face, a.cost))]
    else []
  }

  /** createFibUpdatesForErasedRoute; `e` is the copy of the entry without the erased route `was`. */
  function ForErasedRoute(T: Table, p: Name, e: Entry, was: Route, captureOff: bool): seq<Emission>
    requires TreeOk(T) && CopyOf(T, p, e)
  {
    [Hop(RemoveUpdate(p, was.face))] + OwnUnblocked(T, p, e, was, captureOff) + DownUnblocked(T, p, e, was, captureOff) +
    Restored(T, p, e, was)
  }

  /** computeUpdatesForRegistration. */
  ghost function ForRegistration(T: Table, p: Name, r: Route): Option<seq<Emission>>
    requires TreeOk(T)
  {
    if p !in T then
      PredictedBelow(T, p);
      Some(ForNewEntry(T, p, r, PredictedChildren(T, p)))
    else if !Holds(T, p, r) then
      Some(ForNewRoute(T, p, T[p], r, !HasCapture(T[p]) && r.flags.capture))
    else
      var i := FindRoute(T[p].routes, r.face, r.origin);
      var copy := T[p].(routes := T[p].routes[i := r]);
      assert copy.routes[i] == r;
      ForUpdatedRoute(T, p, copy, r, T[p].routes[i])
  }

  lemma PredictedBelow(T: Table, p: Name)
    ensures AllBelow(T, p, PredictedChildren(T, p))
  {
    var cs := PredictedChildren(T, p);
    forall i | 0 <= i < |cs|
      ensures cs[i] in T && p < cs[i]
    {
      assert cs[i] in cs;
    }
  }

  /** computeUpdatesForUnregistration; `next` is the route std::nth_element left in second place. */
  function ForUnregistration(T: Table, p: Name, r: Route, next: Option<Route>): seq<Emission>
    requires TreeOk(T)
  {
    if !Holds(T, p, r) then []
    else
      var was := T[p].routes[FindRoute(T[p].routes, r.face, r.origin)];
      var copy := EntryWithout(T[p], r);
      ForErasedRoute(T, p, copy, was, HasCapture(T[p]) && !HasCapture(copy)) +
      (if next.Some? then ForNewRoute(T, p, copy, next.value, false) else []) +
      if |T[p].routes| == 1 then ErasedEntry(p, T[p].inherited) else []
  }

  /** `next` is what the second-lowest-cost query may return when the update is computed. */
  ghost predicate NextOk(T: Table, u: RibUpdate, next: Option<Route>)
  {
    u.kind != Register && Holds(T, u.name, u.route) ==> IsSecondLowest(T[u.name].routes, u.route.face, next)
  }

  /** Everything emitted for one update, or nothing when a null route is read. */
  ghost function Emitted(T: Table, u: RibUpdate, next: Option<Route>): Option<seq<Emission>>
    requires TreeOk(T)
  {
    if u.kind == Register then ForRegistration(T, u.name, u.route)
    else Some(ForUnregistration(T, u.name, u.route, next))
  }

  // ----- effects of the single-name emissions -----

  lemma {:induction false} GainedByEntryEffect(n: Name, e: Entry, s: seq<Route>, d: Name, g: nat)
    requires FaceSorted(s)
    ensures var effect := if d == n && FindFace(s, g).Some? && !HasFace(e, g) then Set(FindFace(s, g).value.cost) else Keep;
            HopEffect(GainedByEntry(n, e, s), d, g) == effect && RecordEffect(GainedByEntry(n, e, s), d, g) == effect
  {
    if s == [] {
    } else {
      var k := |s| - 1;
      GainedByEntryEffect(n, e, s[..k], d, g);
      FindMember(s, k);
      FindFaceLast(s, g);
      var es := GainedByEntry(n, e, s[..k]);
      assert es + [] == es;
      EmitEffect(es, n, s[k], true, AddUpdate(n, s[k].face, s[k].cost), d, g);
    }
  }

  lemma {:induction false} GainedByNameIsByEntry(n: Name, s: seq<Route>, ignore: Route)
    ensures GainedByName(n, s, ignore) == GainedByEntry(n, NewEntry(ignore), s)
  {
    if s == [] {
    } else {
      GainedByNameIsByEntry(n, s[..|s| - 1], ignore);
    }
  }

  lemma {:induction false} LostByEntryEffect(n: Name, e: Entry, s: seq<Route>, d: Name, g: nat)
    requires FaceSorted(s)
    ensures var effect := if d == n && FindFace(s, g).Some? && HasInherited(e, g) then Clear else Keep;
            HopEffect(LostByEntry(n, e, s), d, g) == effect && RecordEffect(LostByEntry(n, e, s), d, g) == effect
  {
    if s == [] {
    } else {
      var k := |s| - 1;
      LostByEntryEffect(n, e, s[..k], d, g);
      FindFaceLast(s, g);
      var es := LostByEntry(n, e, s[..k]);
      assert es + [] == es;
      EmitEffect(es, n, s[k], false, RemoveUpdate(n, s[k].face), d, g);
    }
  }

  lemma {:induction false} ErasedEntryEffect(n: Name, s: seq<Route>, d: Name, g: nat)
    ensures HopEffect(ErasedEntry(n, s), d, g) == if d == n && FindFace(s, g).Some? then Clear else Keep
    ensures RecordEffect(ErasedEntry(n, s), d, g) == Keep
  {
    if s == [] {
    } else {
      var k := |s| - 1;
      ErasedEntryEffect(n, s[..k], d, g);
      FindFaceConcat(s[..k], [s[k]], g);
      assert s == s[..k] + [s[k]];
      EffectConcat(ErasedEntry(n, s[..k]), [Hop(RemoveUpdate(n, s[k].face))], d, g);
      EffectOfOne(Hop(RemoveUpdate(n, s[k].face)), d, g);
    }
  }

  // ----- committing -----

  function DropFace(s: seq<Route>, g: nat): (t: seq<Route>)
    ensures forall h :: FindFace(t, h) == if h == g then None else FindFace(s, h)
  {
    if s == [] then []
    else if s[0].face == g then DropFace(s[1..], g)
    else
      var t := DropFace(s[1..], g);
      assert ([s[0]] + t)[1..] == t;
      [s[0]] + t
  }

  /** Every recorded name has an entry, so the lookup in Rib::modifyInheritedRoutes succeeds. */
  ghost predicate Applicable(T: Table, es: seq<Emission>)
  {
    forall i :: 0 <= i < |es| && es[i].Record? ==> es[i].name in T
  }

  /** Rib::modifyInheritedRoutes. */
  function ApplyRecords(T: Table, es: seq<Emission>): (U: Table)
    requires Applicable(T, es)
    ensures U.Keys == T.Keys
  {
    if es == [] then T
    else
      var U := ApplyRecords(T, es[..|es| - 1]);
      match es[|es| - 1]
      case Hop(_) => U
      case Record(n, r, true) => U[n := U[n].(inherited := U[n].inherited + [r])]
      case Record(n, r, false) => U[n := U[n].(inherited := DropFace(U[n].inherited, r.face))]
  }

  lemma {:induction false} ApplyRecordsAt(T: Table, es: seq<Emission>, n: Name)
    requires Applicable(T, es) && n in T
    ensures ApplyRecords(T, es)[n] == T[n].(inherited := ApplyRecords(T, es)[n].inherited)
    ensures forall g :: HasInherited(ApplyRecords(T, es)[n], g) ==
                        match RecordEffect(es, n, g)
                        case Keep => HasInherited(T[n], g)
                        case Set(_) => true
                        case Clear => false
  {
    if es == [] {
    } else {
      var k := |es| - 1;
      ApplyRecordsAt(T, es[..k], n);
      var U := ApplyRecords(T, es[..k]);
      if es[k].Record? && es[k].name == n && es[k].gained {
        forall g
          ensures FindFace(U[n].inherited + [es[k].route], g).Some? <==>
                  FindFace(U[n].inherited, g).Some? || g == es[k].route.face
        {
          FindFaceConcat(U[n].inherited, [es[k].route], g);
        }
      }
    }
  }

  /** Counting anew does not interfere with the records. */
  lemma {:induction false} CountedRecords(T: Table, es: seq<Emission>)
    requires Applicable(T, es)
    ensures ApplyRecords(Counted(T), es) == Counted(ApplyRecords(T, es))
  {
    if es == [] {
    } else {
      CountedRecords(T, es[..|es| - 1]);
    }
  }

  lemma ApplyRecordsKeepsTree(T: Table, es: seq<Emission>)
    requires Applicable(T, es) && TreeOk(T)
    ensures TreeOk(ApplyRecords(T, es))
  {
    var U := ApplyRecords(T, es);
    forall n | n in U
      ensures U[n].parent == T[n].parent && U[n].children == T[n].children
    {
      ApplyRecordsAt(T, es, n);
    }
    SameLinksKeepTree(T, U);
  }

  lemma SameLinksKeepTree(T: Table, U: Table)
    requires TreeOk(T) && U.Keys == T.Keys
    requires forall n :: n in U ==> U[n].parent == T[n].parent && U[n].children == T[n].children
    ensures TreeOk(U)
  {
    forall n | n in U
      ensures U[n].parent == ParentOf(U.Keys, n)
    {
      assert T[n].parent == ParentOf(T.Keys, n);
    }
    forall n | n in U
      ensures NoDuplicates(U[n].children) && forall c :: c in U[n].children <==> c in U && U[c].parent == Some(n)
    {
      assert U[n].children == T[n].children;
      assert forall c :: c in T ==> U[c].parent == T[c].parent;
    }
  }

  /** The RIB with the update itself applied. */
  ghost function Applied(T: Table, u: RibUpdate): Table
  {
    if u.kind == Register then InsertTable(T, u.name, u.route) else EraseTable(T, u.name, u.route)
  }

  ghost function AppliedState(r: RibState, u: RibUpdate): RibState
  {
    if u.kind == Register then Insert(r, u.name, u.route) else Erase(r, u.name, u.route)
  }

  /** The RIB after Rib::onFibUpdateSuccess. */
  ghost function Committed(T: Table, u: RibUpdate, es: seq<Emission>): Table
    requires Applicable(Applied(T, u), es)
  {
    ApplyRecords(Applied(T, u), es)
  }
}
