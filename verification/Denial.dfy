/** A run in which a batch whose face is denied twice is reported once as a failure and once as a success, and committed
    with the records of the batch after it. */
module Denial {
  import opened Names
  import opened Routes
  import opened RibModel
  import opened RibOps
  import opened Updates
  import opened Propagation
  import opened Compute
  import opened Protocol
  import opened Queue
  import opened Strays
  import opened System

  const FAR := Route(9, 0, 1, Flags(false, false, 0))
  const OFFERED := Route(1, 0, 10, Flags(true, false, 0))
  const PLAIN := Route(2, 0, 5, Flags(false, false, 0))

  /** Two entries, one below the other, with a route on face 9 each. */
  const TABLE: Table := map[[0] := Entry(None, [[0, 0]], [FAR], [], 0), [0, 0] := Entry(Some([0]), [], [FAR], [], 0)]
  const RIB := RibState(TABLE, map[9 := [[0], [0, 0]]], 2)

  const FIRST := RibUpdate(Register, [0], OFFERED)
  const SECOND := RibUpdate(Register, [0], PLAIN)

  lemma TableTree()
    ensures TreeOk(TABLE)
  {
    assert TABLE.Keys == {[0], [0, 0]};
    assert [0][..0] == [] && [0, 0][..1] == [0] && [0, 0][..0] == [];
    assert ParentOf(TABLE.Keys, [0]) == None && ParentOf(TABLE.Keys, [0, 0]) == Some([0]);
  }

  lemma TableTotal()
    ensures Total(TABLE, TABLE.Keys) == 2
  {
    assert TABLE.Keys == {[0], [0, 0]};
    assert {[0], [0, 0]} - {[0]} == {[0, 0]} && {[0], [0, 0]} - {[0, 0]} == {[0]};
    assert Total(TABLE, {[0]}) == 1 by {
      assert {[0]} - {[0]} == {};
    }
    assert Total(TABLE, {[0, 0]}) == 1 by {
      assert {[0, 0]} - {[0, 0]} == {};
    }
  }

  lemma FacesFine()
    ensures FacesOk(RIB)
  {
    forall f: nat, n: Name
      ensures n in Listed(RIB.faces, f) <==> n in TABLE && HasFace(TABLE[n], f)
    {
      assert n in TABLE <==> n == [0] || n == [0, 0];
      assert n in TABLE ==> TABLE[n].routes == [FAR];
    }
  }

  lemma RibFine()
    ensures RibOk(RIB)
  {
    TableTree();
    TableTotal();
    FacesFine();
  }

  /** The offer reaches the entry below. */
  lemma Reaches(r: Route)
    requires r.face != 9
    ensures TreeOk(TABLE) && AllBelow(TABLE, [0], [[0, 0]])
    ensures PushDown(TABLE, [0], [[0, 0]], [r], []) == [Record([0, 0], r, true), Hop(AddUpdate([0, 0], r.face, r.cost))]
  {
    TableTree();
    var e := TABLE[[0, 0]];
    assert [r][..0] == [] && [[0, 0]][..0] == [];
    assert !HasCapture(e) && !HasChildInheritOnFace(e, r.face) && !HasFace(e, r.face);
    assert Removals([0, 0], e, []) == [];
    assert Additions([0, 0], e, [r]) == [Record([0, 0], r, true), Hop(AddUpdate([0, 0], r.face, r.cost))];
    assert PushDown(TABLE, [0, 0], e.children, Kept(e, [r]), Kept(e, [])) == [];
  }

  lemma NothingPassed()
    ensures TreeOk(TABLE) && AllBelow(TABLE, [0], [[0, 0]])
    ensures PushDown(TABLE, [0], [[0, 0]], [], []) == []
  {
    TableTree();
    var e := TABLE[[0, 0]];
    assert [[0, 0]][..0] == [];
    assert Removals([0, 0], e, []) == [] && Additions([0, 0], e, []) == [] && Kept(e, []) == [];
    assert PushDown(TABLE, [0, 0], e.children, Kept(e, []), Kept(e, [])) == [];
  }

  /** The first update: the offer goes down, then the own next hop. */
  lemma FirstEmits()
    ensures TreeOk(TABLE)
    ensures Emits(TABLE, FIRST) == Some([Record([0, 0], OFFERED, true), Hop(AddUpdate([0, 0], 1, 10)), Hop(AddUpdate([0], 1, 10))])
  {
    Reaches(OFFERED);
    var e := TABLE[[0]];
    assert !Holds(TABLE, [0], OFFERED) && !HasCapture(e);
    assert Lowest(e.routes, 1, true).None? && Lowest(e.routes, 1, false).None?;
    assert ForNewRoute(TABLE, [0], e, OFFERED, false) ==
           LostByEntry([0], e, []) + PushDown(TABLE, [0], [[0, 0]], [OFFERED], []) + [Hop(AddUpdate([0], 1, 10))];
    assert LostByEntry([0], e, []) == [];
    assert ForNewRoute(TABLE, [0], e, OFFERED, false) ==
           [Record([0, 0], OFFERED, true), Hop(AddUpdate([0, 0], 1, 10)), Hop(AddUpdate([0], 1, 10))];
    assert ForRegistration(TABLE, [0], OFFERED) == Some(ForNewRoute(TABLE, [0], e, OFFERED, false));
    assert Emits(TABLE, FIRST) == ForRegistration(TABLE, [0], OFFERED);
  }

  lemma SecondEmits()
    ensures TreeOk(TABLE)
    ensures Emits(TABLE, SECOND) == Some([Hop(AddUpdate([0], 2, 5))])
  {
    NothingPassed();
    var e := TABLE[[0]];
    assert !Holds(TABLE, [0], PLAIN) && !HasCapture(e);
    assert Lowest(e.routes, 2, true).None? && Lowest(e.routes, 2, false).None?;
    assert ForNewRoute(TABLE, [0], e, PLAIN, false) ==
           LostByEntry([0], e, []) + PushDown(TABLE, [0], [[0, 0]], [], []) + [Hop(AddUpdate([0], 2, 5))];
    assert LostByEntry([0], e, []) == [];
    assert ForNewRoute(TABLE, [0], e, PLAIN, false) == [Hop(AddUpdate([0], 2, 5))];
    assert ForRegistration(TABLE, [0], PLAIN) == Some(ForNewRoute(TABLE, [0], e, PLAIN, false));
    assert Emits(TABLE, SECOND) == ForRegistration(TABLE, [0], PLAIN);
  }

  const BELOW := AddUpdate([0, 0], 1, 10)
  const OWN := AddUpdate([0], 1, 10)
  const OTHER := AddUpdate([0], 2, 5)

  lemma CoalescedSnoc(es: seq<Emission>, e: Emission, f: nat, own: bool)
    ensures Coalesced(es + [e], f, own) ==
            if e.Hop? && (e.u.face == f) == own then Merge(Coalesced(es, f, own), e.u) else Coalesced(es, f, own)
  {
    assert (es + [e])[..|es|] == es;
  }

  /** A record and two next hops on face `f` make up the list for that face. */
  lemma TwoHops(a: Emission, u: FibUpdate, v: FibUpdate, f: nat)
    requires a.Record? && u.face == v.face == f && u.name != v.name
    ensures Coalesced([a, Hop(u), Hop(v)], f, true) == [u, v] && Coalesced([a, Hop(u), Hop(v)], f, false) == []
  {
    assert [] + [a] == [a] && [a] + [Hop(u)] == [a, Hop(u)] && [a, Hop(u)] + [Hop(v)] == [a, Hop(u), Hop(v)];
    forall own: bool
      ensures Coalesced([a, Hop(u), Hop(v)], f, own) == if own then Merge(Merge([], u), v) else []
    {
      CoalescedSnoc([], a, f, own);
      CoalescedSnoc([a], Hop(u), f, own);
      CoalescedSnoc([a, Hop(u)], Hop(v), f, own);
    }
    assert Merge([], u) == [u] && FindTarget([u], v.name, f) == 1;
  }

  lemma OneHop(u: FibUpdate)
    ensures Coalesced([Hop(u)], u.face, true) == [u] && Coalesced([Hop(u)], u.face, false) == []
  {
    assert [] + [Hop(u)] == [Hop(u)];
    CoalescedSnoc([], Hop(u), u.face, true);
    CoalescedSnoc([], Hop(u), u.face, false);
  }

  lemma FirstPlan()
    ensures PlanOf(RIB, FIRST) == Some(Plan(Lists(1, [BELOW, OWN], []), [Record([0, 0], OFFERED, true), Hop(BELOW), Hop(OWN)]))
  {
    RibFine();
    FirstEmits();
    TwoHops(Record([0, 0], OFFERED, true), BELOW, OWN, 1);
  }

  lemma SecondPlan()
    ensures PlanOf(RIB, SECOND) == Some(Plan(Lists(2, [OTHER], []), [Hop(OTHER)]))
  {
    RibFine();
    SecondEmits();
    OneHop(OTHER);
  }

  /** Committing the first update with the records of the second: the offer is there, but not handed down. */
  lemma CommitWithOther()
    ensures var r := CommitOf(RIB, FIRST, [Hop(OTHER)]);
            && r.Some? && r.value.table.Keys == {[0], [0, 0]}
            && r.value.table[[0]].routes == [FAR, OFFERED] && r.value.table[[0, 0]].inherited == []
  {
    assert !Holds(TABLE, [0], OFFERED);
    assert [Hop(OTHER)][..0] == [];
    var T := InsertTable(TABLE, [0], OFFERED);
    assert T.Keys == {[0], [0, 0]} && T[[0]].routes == [FAR, OFFERED] && T[[0, 0]] == TABLE[[0, 0]];
    assert ApplyRecords(T, [Hop(OTHER)]) == ApplyRecords(T, []) == T;
  }

  /** Nothing under way, over that RIB. */
  const BEFORE := INITIAL.(rib := RIB)

  /** Two registrations on different faces, the face of the first one gone: its first denial reports it as failed and lets
      the second one out; its second denial reports it as successful.  It is then in the RIB, although its face is gone and
      its offer was not handed down, and nothing is marked as under way although the second one's command is out. */
  lemma DeniedTwice()
    ensures var hs := [Request([FIRST, SECOND]), Answer(Event(0, FaceNotFound, false)), StrayAnswer(0, FaceNotFound, false)];
            && PossibleRun(RibRules(), BEFORE, hs)
            && var s := EndOf(RibRules(), BEFORE, hs);
               && !s.crashed && s.calls == [Call(0, false), Call(0, true)]
               && !s.busy && s.trace.inflight == Commands([OTHER])
               && [0] in s.rib.table && OFFERED in s.rib.table[[0]].routes
               && [0, 0] in s.rib.table && s.rib.table[[0, 0]].inherited == []
  {
    FirstPlan();
    SecondPlan();
    CommitWithOther();
    assert RibRules().plan(RIB, FIRST) == PlanOf(RIB, FIRST) && RibRules().plan(RIB, SECOND) == PlanOf(RIB, SECOND);
    assert RibRules().commit(RIB, FIRST, [Hop(OTHER)]) == CommitOf(RIB, FIRST, [Hop(OTHER)]);
    FailsAndSucceeds(RibRules(), BEFORE, FIRST, SECOND, PlanOf(RIB, FIRST).value, PlanOf(RIB, SECOND).value, BELOW, OWN,
                     CommitOf(RIB, FIRST, [Hop(OTHER)]).value);
  }
}
