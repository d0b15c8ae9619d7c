/** Inserting and erasing routes: the whole RIB state and the invariants every sequence of operations keeps. */
module RibOps {
  import opened Names
  import opened Routes
  import opened RibModel

  /** The table, the face index and the number of routes. */
  datatype RibState = RibState(table: Table, faces: map<nat, seq<Name>>, nItems: int)

  const EMPTY := RibState(map[], map[], 0)

  function Bit(b: bool): nat
  {
    if b then 1 else 0
  }

  /** The entry after RibEntry::insertRoute, or after the overwrite that follows when the route exists. */
  function EntryWith(e: Entry, r: Route): Entry
  {
    var i := FindRoute(e.routes, r.face, r.origin);
    if i == |e.routes| then
      e.(routes := e.routes + [r], captures := e.captures + Bit(r.flags.capture))
    else
      e.(routes := e.routes[i := r])
  }

  /** The entry after RibEntry::eraseRoute.  The counter is unsigned: below zero it wraps around. */
  function EntryWithout(e: Entry, r: Route): Entry
  {
    var i := FindRoute(e.routes, r.face, r.origin);
    if i == |e.routes| then e
    else
      var n := if !e.routes[i].flags.capture then e.captures else if e.captures == 0 then WORD - 1 else e.captures - 1;
      e.(routes := EraseAt(e.routes, i), captures := n)
  }

  function NewEntry(r: Route): Entry
  {
    Entry(None, [], [r], [], Bit(r.flags.capture))
  }

  function Listed(faces: map<nat, seq<Name>>, f: nat): seq<Name>
  {
    if f in faces then faces[f] else []
  }

  ghost function InsertTable(T: Table, p: Name, r: Route): Table
  {
    if p in T then T[p := EntryWith(T[p], r)]
    else Linked(T, p, NewEntry(r), ParentOf(T.Keys, p), Adopted(T, p))
  }

  function EraseTable(T: Table, p: Name, r: Route): Table
  {
    if p !in T then T
    else
      var e := EntryWithout(T[p], r);
      if e.routes == [] then Unlinked(T, p) else T[p := e]
  }

  predicate Holds(T: Table, p: Name, r: Route)
  {
    p in T && FindRoute(T[p].routes, r.face, r.origin) < |T[p].routes|
  }

  ghost function Insert(s: RibState, p: Name, r: Route): RibState
  {
    var T' := InsertTable(s.table, p, r);
    if Holds(s.table, p, r) then s.(table := T')
    else RibState(T', s.faces[r.face := Listed(s.faces, r.face) + [p]], s.nItems + 1)
  }

  function Erase(s: RibState, p: Name, r: Route): RibState
  {
    if !Holds(s.table, p, r) then s
    else
      var faces' := if HasFace(EntryWithout(s.table[p], r), r.face) then s.faces
                    else s.faces[r.face := Except(Listed(s.faces, r.face), [p])];
      RibState(EraseTable(s.table, p, r), faces', s.nItems - 1)
  }

  // ----- invariants -----

  /** No entry is empty, and none holds two routes with the same face and origin. */
  ghost predicate EntriesOk(T: Table)
  {
    forall n :: n in T ==> T[n].routes != [] && UniqueKeys(T[n].routes)
  }

  /** An entry is listed under a face exactly when it has a route on that face. */
  ghost predicate FacesOk(s: RibState)
  {
    forall f: nat, n: Name :: n in Listed(s.faces, f) <==> n in s.table && HasFace(s.table[n], f)
  }

  /** The number of routes of the entries named in `K`. */
  ghost function Total(T: Table, K: set<Name>): nat
    requires K <= T.Keys
  {
    if K == {} then 0
    else
      var n :| n in K;
      |T[n].routes| + Total(T, K - {n})
  }

  ghost predicate RibOk(s: RibState)
  {
    TreeOk(s.table) && EntriesOk(s.table) && FacesOk(s) && s.nItems == Total(s.table, s.table.Keys)
  }

  ghost predicate CountersOk(T: Table)
  {
    forall n :: n in T ==> T[n].captures == CountCaptures(T[n].routes)
  }

  /** The same table with every capture counter counted anew from the flags of the routes. */
  function Counted(T: Table): Table
  {
    map n | n in T :: T[n].(captures := CountCaptures(T[n].routes))
  }

  lemma CountedIsSame(T: Table)
    requires CountersOk(T)
    ensures Counted(T) == T
  {
  }

  // ----- counting routes -----

  lemma {:induction false} TotalSplit(T: Table, K: set<Name>, x: Name)
    requires K <= T.Keys && x in K
    ensures Total(T, K) == |T[x].routes| + Total(T, K - {x})
  {
    var n :| n in K && Total(T, K) == |T[n].routes| + Total(T, K - {n});
    if n != x {
      TotalSplit(T, K - {n}, x);
      TotalSplit(T, K - {x}, n);
      assert K - {n} - {x} == K - {x} - {n};
    }
  }

  lemma {:induction false} TotalSame(T: Table, T': Table, K: set<Name>)
    requires K <= T.Keys && K <= T'.Keys
    requires forall n :: n in K ==> T[n].routes == T'[n].routes
    ensures Total(T, K) == Total(T', K)
  {
    if K == {} {
    } else {
      var n :| n in K;
      TotalSplit(T, K, n);
      TotalSplit(T', K, n);
      TotalSame(T, T', K - {n});
    }
  }

  /** When only the entry at `p` changed, the count changes by what that entry gained. */
  lemma TotalChange(T: Table, T': Table, p: Name)
    requires forall n :: n != p ==> (n in T <==> n in T')
    requires forall n :: n in T && n != p ==> T[n].routes == T'[n].routes
    ensures Total(T', T'.Keys) - (if p in T' then |T'[p].routes| else 0) ==
            Total(T, T.Keys) - (if p in T then |T[p].routes| else 0)
  {
    var K := T.Keys - {p};
    assert K == T'.Keys - {p};
    TotalSame(T, T', K);
    if p in T {
      TotalSplit(T, T.Keys, p);
    } else {
      assert T.Keys == K;
    }
    if p in T' {
      TotalSplit(T', T'.Keys, p);
    } else {
      assert T'.Keys == K;
    }
  }

  // ----- what the operations do to one entry -----

  lemma EntryWithFaces(e: Entry, r: Route, g: nat)
    ensures HasFace(EntryWith(e, r), g) <==> HasFace(e, g) || g == r.face
  {
    var i := FindRoute(e.routes, r.face, r.origin);
    var e' := EntryWith(e, r);
    if i == |e.routes| {
      FindFaceConcat(e.routes, [r], g);
    } else {
      assert forall j :: 0 <= j < |e.routes| ==> e'.routes[j].face == e.routes[j].face;
    }
  }

  lemma EntryWithoutFaces(e: Entry, r: Route, g: nat)
    requires g != r.face
    ensures HasFace(EntryWithout(e, r), g) <==> HasFace(e, g)
  {
    var i := FindRoute(e.routes, r.face, r.origin);
    if i < |e.routes| {
      assert e.routes == e.routes[..i] + ([e.routes[i]] + e.routes[i + 1..]);
      FindFaceConcat(e.routes[..i], [e.routes[i]] + e.routes[i + 1..], g);
      FindFaceConcat([e.routes[i]], e.routes[i + 1..], g);
      FindFaceConcat(e.routes[..i], e.routes[i + 1..], g);
    }
  }

  lemma EntryWithUnique(e: Entry, r: Route)
    requires UniqueKeys(e.routes)
    ensures UniqueKeys(EntryWith(e, r).routes)
  {
  }

  lemma EntryWithoutUnique(e: Entry, r: Route)
    requires UniqueKeys(e.routes)
    ensures UniqueKeys(EntryWithout(e, r).routes)
  {
  }

  // ----- preservation -----

  lemma TreeOkSameLinks(T: Table, p: Name, e: Entry)
    requires TreeOk(T) && p in T
    requires e.parent == T[p].parent && e.children == T[p].children
    ensures TreeOk(T[p := e])
  {
    var T' := T[p := e];
    assert T'.Keys == T.Keys;
    forall n | n in T'
      ensures T'[n].parent == ParentOf(T'.Keys, n)
    {
      assert T[n].parent == ParentOf(T.Keys, n);
    }
    forall n | n in T'
      ensures NoDuplicates(T'[n].children) && forall c :: c in T'[n].children <==> c in T' && T'[c].parent == Some(n)
    {
      assert T'[n].children == T[n].children;
      assert forall c :: c in T ==> T'[c].parent == T[c].parent;
    }
  }

  lemma InsertKeepsTree(T: Table, p: Name, r: Route)
    requires TreeOk(T)
    ensures TreeOk(InsertTable(T, p, r))
  {
    if p in T {
      TreeOkSameLinks(T, p, EntryWith(T[p], r));
    } else {
      LinkedKeepsTree(T, p, NewEntry(r));
    }
  }

  lemma EraseKeepsTree(T: Table, p: Name, r: Route)
    requires TreeOk(T)
    ensures TreeOk(EraseTable(T, p, r))
  {
    if p in T {
      var e := EntryWithout(T[p], r);
      if e.routes == [] {
        UnlinkedKeepsTree(T, p);
      } else {
        TreeOkSameLinks(T, p, e);
      }
    }
  }

  /** Only the routes of `p` change. */
  lemma InsertElsewhere(T: Table, p: Name, r: Route)
    ensures InsertTable(T, p, r).Keys == T.Keys + {p}
    ensures forall n :: n in T && n != p ==>
              InsertTable(T, p, r)[n].routes == T[n].routes && InsertTable(T, p, r)[n].captures == T[n].captures &&
              InsertTable(T, p, r)[n].inherited == T[n].inherited
    ensures InsertTable(T, p, r)[p].routes == if p in T then EntryWith(T[p], r).routes else [r]
    ensures InsertTable(T, p, r)[p].captures == if p in T then EntryWith(T[p], r).captures else Bit(r.flags.capture)
    ensures InsertTable(T, p, r)[p].inherited == if p in T then T[p].inherited else []
  {
  }

  lemma EraseElsewhere(T: Table, p: Name, r: Route)
    requires p in T
    ensures EraseTable(T, p, r).Keys == if EntryWithout(T[p], r).routes == [] then T.Keys - {p} else T.Keys
    ensures forall n :: n in T && n != p ==>
              EraseTable(T, p, r)[n].routes == T[n].routes && EraseTable(T, p, r)[n].captures == T[n].captures &&
              EraseTable(T, p, r)[n].inherited == T[n].inherited
    ensures p in EraseTable(T, p, r) ==> EraseTable(T, p, r)[p] == EntryWithout(T[p], r)
  {
  }

  lemma InsertKeepsFaces(s: RibState, p: Name, r: Route)
    requires FacesOk(s)
    ensures FacesOk(Insert(s, p, r))
  {
    var s' := Insert(s, p, r);
    InsertElsewhere(s.table, p, r);
    forall f: nat, n: Name
      ensures n in Listed(s'.faces, f) <==> n in s'.table && HasFace(s'.table[n], f)
    {
      assert n in Listed(s.faces, f) <==> n in s.table && HasFace(s.table[n], f);
      if p in s.table {
        EntryWithFaces(s.table[p], r, f);
        if Holds(s.table, p, r) {
          assert s.table[p].routes[FindRoute(s.table[p].routes, r.face, r.origin)].face == r.face;
        }
      }
      if n != p && n in s.table {
        assert s'.table[n].routes == s.table[n].routes;
      }
    }
  }

  lemma EraseKeepsFaces(s: RibState, p: Name, r: Route)
    requires FacesOk(s)
    ensures FacesOk(Erase(s, p, r))
  {
    if Holds(s.table, p, r) {
      var s' := Erase(s, p, r);
      EraseElsewhere(s.table, p, r);
      forall f: nat, n: Name
        ensures n in Listed(s'.faces, f) <==> n in s'.table && HasFace(s'.table[n], f)
      {
        assert n in Listed(s.faces, f) <==> n in s.table && HasFace(s.table[n], f);
        if f != r.face {
          EntryWithoutFaces(s.table[p], r, f);
        }
        if n != p && n in s.table {
          assert s'.table[n].routes == s.table[n].routes;
        }
      }
    }
  }

  lemma InsertKeepsEntries(T: Table, p: Name, r: Route)
    requires EntriesOk(T)
    ensures EntriesOk(InsertTable(T, p, r))
  {
    InsertElsewhere(T, p, r);
    if p in T {
      EntryWithUnique(T[p], r);
    }
  }

  lemma InsertCount(T: Table, p: Name, r: Route)
    ensures Total(InsertTable(T, p, r), InsertTable(T, p, r).Keys) == Total(T, T.Keys) + Bit(!Holds(T, p, r))
  {
    InsertElsewhere(T, p, r);
    TotalChange(T, InsertTable(T, p, r), p);
  }

  lemma EraseKeepsEntries(T: Table, p: Name, r: Route)
    requires EntriesOk(T) && p in T
    ensures EntriesOk(EraseTable(T, p, r))
  {
    EraseElsewhere(T, p, r);
    EntryWithoutUnique(T[p], r);
  }

  lemma EraseCount(T: Table, p: Name, r: Route)
    requires Holds(T, p, r)
    ensures Total(EraseTable(T, p, r), EraseTable(T, p, r).Keys) == Total(T, T.Keys) - 1
  {
    EraseElsewhere(T, p, r);
    TotalChange(T, EraseTable(T, p, r), p);
  }

  /** Every insert keeps every invariant of the RIB. */
  lemma InsertKeepsRib(s: RibState, p: Name, r: Route)
    requires RibOk(s)
    ensures RibOk(Insert(s, p, r))
  {
    InsertKeepsTree(s.table, p, r);
    InsertKeepsFaces(s, p, r);
    InsertKeepsEntries(s.table, p, r);
    InsertCount(s.table, p, r);
  }

  /** Every erase keeps every invariant of the RIB. */
  lemma EraseKeepsRib(s: RibState, p: Name, r: Route)
    requires RibOk(s)
    ensures RibOk(Erase(s, p, r))
  {
    if Holds(s.table, p, r) {
      EraseKeepsTree(s.table, p, r);
      EraseKeepsFaces(s, p, r);
      EraseKeepsEntries(s.table, p, r);
      EraseCount(s.table, p, r);
    }
  }

  // ----- the capture counter -----

  lemma EntryWithCounter(e: Entry, r: Route)
    requires e.captures == CountCaptures(e.routes)
    ensures var i, e' := FindRoute(e.routes, r.face, r.origin), EntryWith(e, r);
            e'.captures == CountCaptures(e'.routes) <==> (i < |e.routes| ==> e.routes[i].flags.capture == r.flags.capture)
  {
    var i := FindRoute(e.routes, r.face, r.origin);
    if i < |e.routes| {
      CountReplace(e.routes, i, r);
    } else {
      CountConcat(e.routes, [r]);
      CountOfOne(r);
    }
  }

  /** Registering leaves every capture counter right exactly when it does not change the capture bit of a route
      that is already there: the overwrite of an existing route does not touch the counter. */
  lemma InsertCounters(T: Table, p: Name, r: Route)
    requires CountersOk(T)
    ensures CountersOk(InsertTable(T, p, r)) <==>
            (Holds(T, p, r) ==> T[p].routes[FindRoute(T[p].routes, r.face, r.origin)].flags.capture == r.flags.capture)
  {
    var T' := InsertTable(T, p, r);
    InsertElsewhere(T, p, r);
    CountOfOne(r);
    if p in T {
      EntryWithCounter(T[p], r);
    }
    assert CountersOk(T') <==> T'[p].captures == CountCaptures(T'[p].routes);
  }

  lemma EraseCounters(T: Table, p: Name, r: Route)
    requires CountersOk(T)
    ensures CountersOk(EraseTable(T, p, r))
  {
    if p in T {
      EraseElsewhere(T, p, r);
      var i := FindRoute(T[p].routes, r.face, r.origin);
      if i < |T[p].routes| {
        CountErase(T[p].routes, i);
      }
    }
  }

  // ----- whole runs -----

  datatype Op = InsertOp(name: Name, route: Route) | EraseOp(name: Name, route: Route)

  ghost function Apply(s: RibState, op: Op): RibState
  {
    match op
    case InsertOp(p, r) => Insert(s, p, r)
    case EraseOp(p, r) => Erase(s, p, r)
  }

  ghost function Run(ops: seq<Op>): RibState
  {
    if ops == [] then EMPTY else Apply(Run(ops[..|ops| - 1]), ops[|ops| - 1])
  }

  /** Tree, face index, route count and entry contents are right after every sequence of operations. */
  lemma {:induction false} RunKeepsRib(ops: seq<Op>)
    ensures RibOk(Run(ops))
  {
    if ops == [] {
    } else {
      var n := |ops| - 1;
      RunKeepsRib(ops[..n]);
      match ops[n]
      case InsertOp(p, r) => InsertKeepsRib(Run(ops[..n]), p, r);
      case EraseOp(p, r) => EraseKeepsRib(Run(ops[..n]), p, r);
    }
  }

  /** An insert of a route that is already there does not change its capture bit. */
  predicate KeepsCaptureBit(T: Table, op: Op)
  {
    op.InsertOp? && Holds(T, op.name, op.route) ==>
      var rs := T[op.name].routes;
      rs[FindRoute(rs, op.route.face, op.route.origin)].flags.capture == op.route.flags.capture
  }

  ghost predicate KeepsCaptureBits(ops: seq<Op>)
  {
    ops != [] ==> KeepsCaptureBits(ops[..|ops| - 1]) && KeepsCaptureBit(Run(ops[..|ops| - 1]).table, ops[|ops| - 1])
  }

  /** The counters are right after the run and were right all along. */
  ghost predicate AlwaysCounted(ops: seq<Op>)
  {
    CountersOk(Run(ops).table) && (ops != [] ==> AlwaysCounted(ops[..|ops| - 1]))
  }

  /** The capture counters are right all along a run exactly when no insert in it changes the capture bit of a route that
      is already there. */
  lemma {:induction false} RunCounters(ops: seq<Op>)
    ensures AlwaysCounted(ops) <==> KeepsCaptureBits(ops)
  {
    if ops == [] {
    } else {
      var n := |ops| - 1;
      RunCounters(ops[..n]);
      if AlwaysCounted(ops[..n]) {
        match ops[n]
        case InsertOp(p, r) => InsertCounters(Run(ops[..n]).table, p, r);
        case EraseOp(p, r) => EraseCounters(Run(ops[..n]).table, p, r);
      }
    }
  }
}
