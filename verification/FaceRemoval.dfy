/** Removing a face: the updates that are enqueued, and what draining them leaves. */
module FaceRemoval {
  import opened Names
  import opened Routes
  import opened RibModel
  import opened RibOps
  import opened Updates
  import opened Compute
  import opened Queue
  import opened Drained
  import opened System

  // ----- what is enqueued -----

  /** One update for each route of the entry on face `f`. */
  function RoutesOn(n: Name, rs: seq<Route>, f: nat): seq<RibUpdate>
  {
    if rs == [] then []
    else
      var r := rs[|rs| - 1];
      RoutesOn(n, rs[..|rs| - 1], f) + if r.face == f then [RibUpdate(RemoveFace, n, r)] else []
  }

  /** Rib::findRoutesWithFaceId over the entries listed under the face, in beginRemoveFace. */
  function FaceUpdates(T: Table, names: seq<Name>, f: nat): seq<RibUpdate>
    requires forall n :: n in names ==> n in T
  {
    if names == [] then []
    else
      var n := names[|names| - 1];
      assert n in names;
      FaceUpdates(T, names[..|names| - 1], f) + RoutesOn(n, T[n].routes, f)
  }

  ghost predicate ListedOk(T: Table, names: seq<Name>)
  {
    forall n :: n in names ==> n in T
  }

  lemma ListedAreEntries(r: RibState, f: nat)
    requires FacesOk(r)
    ensures ListedOk(r.table, Listed(r.faces, f))
  {
  }

  /** Every update is about face `f`. */
  ghost predicate AllRemove(us: seq<RibUpdate>, f: nat)
  {
    forall i :: 0 <= i < |us| ==> us[i].kind == RemoveFace && us[i].route.face == f
  }

  /** There is an update for every route on face `f`. */
  ghost predicate Covers(us: seq<RibUpdate>, T: Table, f: nat)
  {
    forall n, i :: n in T && 0 <= i < |T[n].routes| && T[n].routes[i].face == f ==> Mentions(us, n, T[n].routes[i].origin)
  }

  ghost predicate Mentions(us: seq<RibUpdate>, n: Name, origin: nat)
  {
    exists j :: 0 <= j < |us| && us[j].name == n && us[j].route.origin == origin
  }

  lemma MentionsConcat(a: seq<RibUpdate>, b: seq<RibUpdate>, n: Name, origin: nat)
    ensures Mentions(a + b, n, origin) <==> Mentions(a, n, origin) || Mentions(b, n, origin)
  {
    if j :| 0 <= j < |a| && a[j].name == n && a[j].route.origin == origin {
      assert (a + b)[j] == a[j];
    }
    if j :| 0 <= j < |b| && b[j].name == n && b[j].route.origin == origin {
      assert (a + b)[|a| + j] == b[j];
    }
  }

  lemma {:induction false} RoutesOnCover(n: Name, rs: seq<Route>, f: nat, i: nat)
    requires i < |rs| && rs[i].face == f
    ensures Mentions(RoutesOn(n, rs, f), n, rs[i].origin)
  {
    var k := |rs| - 1;
    var a, b := RoutesOn(n, rs[..k], f), if rs[k].face == f then [RibUpdate(RemoveFace, n, rs[k])] else [];
    MentionsConcat(a, b, n, rs[i].origin);
    if i < k {
      RoutesOnCover(n, rs[..k], f, i);
    } else {
      assert b[0].name == n && b[0].route.origin == rs[i].origin;
    }
  }

  lemma {:induction false} RoutesOnRemove(n: Name, rs: seq<Route>, f: nat)
    ensures AllRemove(RoutesOn(n, rs, f), f)
  {
    if rs == [] {
    } else {
      RoutesOnRemove(n, rs[..|rs| - 1], f);
    }
  }

  lemma {:induction false} FaceUpdatesRemove(T: Table, names: seq<Name>, f: nat)
    requires ListedOk(T, names)
    ensures AllRemove(FaceUpdates(T, names, f), f)
  {
    if names == [] {
    } else {
      var n := names[|names| - 1];
      assert n in names;
      FaceUpdatesRemove(T, names[..|names| - 1], f);
      RoutesOnRemove(n, T[n].routes, f);
    }
  }

  lemma {:induction false} FaceUpdatesCover(T: Table, names: seq<Name>, f: nat, k: nat, i: nat)
    requires ListedOk(T, names) && k < |names| && names[k] in T
    requires i < |T[names[k]].routes| && T[names[k]].routes[i].face == f
    ensures Mentions(FaceUpdates(T, names, f), names[k], T[names[k]].routes[i].origin)
  {
    var m := |names| - 1;
    var n := names[m];
    assert n in names;
    MentionsConcat(FaceUpdates(T, names[..m], f), RoutesOn(n, T[n].routes, f), names[k], T[names[k]].routes[i].origin);
    if k < m {
      FaceUpdatesCover(T, names[..m], f, k, i);
    } else {
      RoutesOnCover(n, T[n].routes, f, i);
    }
  }

  /** The face index finds every route on the face. */
  lemma IndexCovers(r: RibState, f: nat)
    requires RibOk(r)
    ensures ListedOk(r.table, Listed(r.faces, f))
    ensures Covers(FaceUpdates(r.table, Listed(r.faces, f), f), r.table, f)
  {
    var names := Listed(r.faces, f);
    ListedAreEntries(r, f);
    forall n, i | n in r.table && 0 <= i < |r.table[n].routes| && r.table[n].routes[i].face == f
      ensures Mentions(FaceUpdates(r.table, names, f), n, r.table[n].routes[i].origin)
    {
      assert HasFace(r.table[n], f);
      assert n in names;
      var k :| 0 <= k < |names| && names[k] == n;
      FaceUpdatesCover(r.table, names, f, k, i);
    }
  }

  // ----- what committing them does -----

  /** The routes of `n` on other faces than `f`. */
  function Others(rs: seq<Route>, f: nat): seq<Route>
  {
    if rs == [] then []
    else if rs[0].face == f then Others(rs[1..], f)
    else [rs[0]] + Others(rs[1..], f)
  }

  function OthersAt(T: Table, n: Name, f: nat): seq<Route>
  {
    if n in T then Others(T[n].routes, f) else []
  }

  lemma {:induction false} OthersConcat(a: seq<Route>, b: seq<Route>, f: nat)
    ensures Others(a + b, f) == Others(a, f) + Others(b, f)
  {
    if a == [] {
      assert a + b == b;
    } else {
      assert (a + b)[1..] == a[1..] + b;
      OthersConcat(a[1..], b, f);
    }
  }

  lemma EraseKeepsOthers(rs: seq<Route>, i: nat, f: nat)
    requires i < |rs| && rs[i].face == f
    ensures Others(EraseAt(rs, i), f) == Others(rs, f)
  {
    var a, b, c := rs[..i], [rs[i]], rs[i + 1..];
    assert rs == a + (b + c);
    OthersConcat(a, b + c, f);
    OthersConcat(b, c, f);
    OthersConcat(a, c, f);
    assert Others(b, f) == Others(b[1..], f);
  }

  ghost function Removed(r: RibState, u: RibUpdate): RibState
  {
    Advance(RibRules(), r, u)
  }

  /** The RIB without the route: routes on other faces stay, and only the one route goes. */
  lemma CommitRemoval(r: RibState, u: RibUpdate)
    requires RibOk(r) && u.kind == RemoveFace
    ensures RibOk(Removed(r, u))
    ensures forall n :: n in Removed(r, u).table ==>
              n in r.table && Removed(r, u).table[n].routes ==
                              (if n == u.name then EntryWithout(r.table[n], u.route).routes else r.table[n].routes)
    ensures forall n :: n in r.table && n !in Removed(r, u).table ==>
              n == u.name && EntryWithout(r.table[n], u.route).routes == []
  {
    AdvanceIs(r, u);
    CommitKeepsRib(r, u);
    var es, T := Emits(r.table, u).value, r.table;
    var U := Applied(T, u);
    RecordsKeepRoutes(U, es);
    if u.name in T {
      EraseElsewhere(T, u.name, u.route);
    }
  }

  lemma OthersKept(T: Table, U: Table, u: RibUpdate, n: Name)
    requires forall m :: m in U ==>
               m in T && U[m].routes == (if m == u.name then EntryWithout(T[m], u.route).routes else T[m].routes)
    requires forall m :: m in T && m !in U ==> m == u.name && EntryWithout(T[m], u.route).routes == []
    ensures OthersAt(U, n, u.route.face) == OthersAt(T, n, u.route.face)
  {
    if n in T && n == u.name {
      var i := FindRoute(T[n].routes, u.route.face, u.route.origin);
      if i < |T[n].routes| {
        EraseKeepsOthers(T[n].routes, i, u.route.face);
      }
    }
  }

  lemma RemovalKeepsOthers(r: RibState, u: RibUpdate, n: Name)
    requires RibOk(r) && u.kind == RemoveFace
    ensures OthersAt(Removed(r, u).table, n, u.route.face) == OthersAt(r.table, n, u.route.face)
  {
    CommitRemoval(r, u);
    OthersKept(r.table, Removed(r, u).table, u, n);
  }

  lemma RemovalCovers(T: Table, U: Table, us: seq<RibUpdate>, f: nat)
    requires EntriesOk(T) && us != [] && AllRemove(us, f) && Covers(us, T, f)
    requires forall n :: n in U ==>
               n in T && U[n].routes == (if n == us[0].name then EntryWithout(T[n], us[0].route).routes else T[n].routes)
    ensures Covers(us[1..], U, f)
  {
    var u := us[0];
    forall n, i | n in U && 0 <= i < |U[n].routes| && U[n].routes[i].face == f
      ensures Mentions(us[1..], n, U[n].routes[i].origin)
    {
      var j := StillThere(T[n], u.route, n == u.name, U[n].routes, i);
      assert T[n].routes[j].face == f;
      assert Mentions(us, n, U[n].routes[i].origin);
      assert us == [u] + us[1..];
      MentionsConcat([u], us[1..], n, U[n].routes[i].origin);
    }
  }

  /** A route that is there after the erasure was there before, and is not the erased one. */
  lemma StillThere(e: Entry, r: Route, touched: bool, rs: seq<Route>, i: nat) returns (j: nat)
    requires UniqueKeys(e.routes) && i < |rs|
    requires rs == if touched then EntryWithout(e, r).routes else e.routes
    ensures j < |e.routes| && e.routes[j] == rs[i]
    ensures touched ==> !(rs[i].face == r.face && rs[i].origin == r.origin)
  {
    var k := FindRoute(e.routes, r.face, r.origin);
    if touched && k < |e.routes| {
      j := if i < k then i else i + 1;
      assert rs[i] == e.routes[j];
    } else {
      j := i;
    }
  }

  /** Committing the updates one after another. */
  ghost function Drain(r: RibState, us: seq<RibUpdate>): RibState
    decreases |us|
  {
    if us == [] then r else Drain(Removed(r, us[0]), us[1..])
  }

  lemma {:induction false} DrainLeaves(r: RibState, us: seq<RibUpdate>, f: nat)
    requires RibOk(r) && AllRemove(us, f) && Covers(us, r.table, f)
    ensures forall n :: n in Drain(r, us).table ==> !HasFace(Drain(r, us).table[n], f)
    ensures forall n :: OthersAt(Drain(r, us).table, n, f) == OthersAt(r.table, n, f)
    decreases |us|
  {
    if us == [] {
    } else {
      var u := us[0];
      CommitRemoval(r, u);
      RemovalCovers(r.table, Removed(r, u).table, us, f);
      DrainLeaves(Removed(r, u), us[1..], f);
      forall n
        ensures OthersAt(Drain(r, us).table, n, f) == OthersAt(r.table, n, f)
      {
        RemovalKeepsOthers(r, u, n);
      }
    }
  }

  lemma {:induction false} DrainIsReplay(r: RibState, us: seq<RibUpdate>)
    ensures Drain(r, us) == Replay(RibRules(), r, us)
    decreases |us|
  {
    if us == [] {
    } else {
      DrainIsReplay(Removed(r, us[0]), us[1..]);
      ReplayFirst(RibRules(), r, us);
    }
  }

  lemma {:induction false} ReplayFirst<R, U, E>(rules: Rules<R, U, E>, r: R, us: seq<U>)
    requires us != []
    ensures Replay(rules, r, us) == Replay(rules, Advance(rules, r, us[0]), us[1..])
  {
    if |us| > 1 {
      var k := |us| - 1;
      ReplayFirst(rules, r, us[..k]);
      assert us[..k][1..] == us[1..][..k - 1];
    } else {
      assert us[..0] == [] && us[1..] == [];
    }
  }

  /** Draining the updates for a face leaves no route on it, and every route on the other faces as it was. */
  lemma FaceIsRemoved(r: RibState, f: nat)
    requires RibOk(r)
    ensures ListedOk(r.table, Listed(r.faces, f))
    ensures var r' := Replay(RibRules(), r, FaceUpdates(r.table, Listed(r.faces, f), f));
            && (forall n :: n in r'.table ==> !HasFace(r'.table[n], f))
            && (forall n :: OthersAt(r'.table, n, f) == OthersAt(r.table, n, f))
  {
    IndexCovers(r, f);
    var us := FaceUpdates(r.table, Listed(r.faces, f), f);
    FaceUpdatesRemove(r.table, Listed(r.faces, f), f);
    DrainLeaves(r, us, f);
    DrainIsReplay(r, us);
  }

  lemma RemovalNeverDenied(u: RibUpdate)
    requires u.kind == RemoveFace
    ensures NeverDenied(RibRules(), u)
  {
    forall r | RibRules().plan(r, u).Some?
      ensures RibRules().plan(r, u).value.lists.batch == []
    {
      assert RibRules().plan(r, u) == PlanOf(r, u);
    }
  }

  /** A face is destroyed while the queue is idle, and nothing is registered until the queue is idle again: then, however
      the responses came in, no route is left on the face and all routes on other faces are unchanged. */
  lemma DestroyedFaceIsDrained(s: Sys<RibState, RibUpdate, seq<Emission>>, f: nat, hs: seq<Happening<RibUpdate>>)
    requires Steady(RibRules(), EMPTY, s) && !s.crashed && !s.busy && s.trace.inflight == [] && RibOk(s.rib)
    requires ListedOk(s.rib.table, Listed(s.rib.faces, f))
    requires var us := FaceUpdates(s.rib.table, Listed(s.rib.faces, f), f);
             && AllAnswers(hs) && PossibleRun(RibRules(), Enqueue(RibRules(), s, us), hs)
             && !EndOf(RibRules(), Enqueue(RibRules(), s, us), hs).busy
             && !EndOf(RibRules(), Enqueue(RibRules(), s, us), hs).crashed
    ensures var us := FaceUpdates(s.rib.table, Listed(s.rib.faces, f), f);
            var T := EndOf(RibRules(), Enqueue(RibRules(), s, us), hs).rib.table;
            && (forall n :: n in T ==> !HasFace(T[n], f))
            && (forall n :: OthersAt(T, n, f) == OthersAt(s.rib.table, n, f))
  {
    var us := FaceUpdates(s.rib.table, Listed(s.rib.faces, f), f);
    FaceUpdatesRemove(s.rib.table, Listed(s.rib.faces, f), f);
    forall i | 0 <= i < |us|
      ensures NeverDenied(RibRules(), us[i])
    {
      RemovalNeverDenied(us[i]);
    }
    RibRulesOk();
    DrainedInOrder(RibRules(), EMPTY, s, us, hs);
    FaceIsRemoved(s.rib, f);
  }
}
