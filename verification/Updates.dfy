/** FIB updates: their effect on the FIB, and the coalescing of the emitted ones into two lists. */
module Updates {
  import opened Names
  import opened Routes

  datatype Action = AddNextHop | RemoveNextHop

  datatype FibUpdate = FibUpdate(name: Name, face: nat, cost: nat, action: Action)

  function AddUpdate(n: Name, g: nat, cost: nat): FibUpdate
  {
    FibUpdate(n, g, cost, AddNextHop)
  }

  /** A removal carries no cost; the field keeps its default. */
  function RemoveUpdate(n: Name, g: nat): FibUpdate
  {
    FibUpdate(n, g, 0, RemoveNextHop)
  }

  /** One thing the updater does while computing: request a next-hop change, or note that an entry will gain or lose
      an inherited route. */
  datatype Emission = Hop(u: FibUpdate) | Record(name: Name, route: Route, gained: bool)

  // ----- effects -----

  datatype Effect = Keep | Set(cost: nat) | Clear

  function EffectOf(u: FibUpdate): Effect
  {
    if u.action == AddNextHop then Set(u.cost) else Clear
  }

  /** Effect `a` followed by effect `b`. */
  function Then(a: Effect, b: Effect): Effect
  {
    if b == Keep then a else b
  }

  function After(o: Option<nat>, e: Effect): Option<nat>
  {
    match e
    case Keep => o
    case Set(c) => Some(c)
    case Clear => None
  }

  predicate Targets(u: FibUpdate, n: Name, g: nat)
  {
    u.name == n && u.face == g
  }

  /** What a sequence of emissions does to the next hop of `n` on face `g`: the last request counts. */
  function HopEffect(es: seq<Emission>, n: Name, g: nat): Effect
  {
    if es == [] then Keep
    else
      var e := es[|es| - 1];
      if e.Hop? && Targets(e.u, n, g) then EffectOf(e.u) else HopEffect(es[..|es| - 1], n, g)
  }

  /** What a sequence of emissions does to the record that `n` inherits face `g`. */
  function RecordEffect(es: seq<Emission>, n: Name, g: nat): Effect
  {
    if es == [] then Keep
    else
      var e := es[|es| - 1];
      if e.Record? && e.name == n && e.route.face == g then (if e.gained then Set(e.route.cost) else Clear)
      else RecordEffect(es[..|es| - 1], n, g)
  }

  lemma {:induction false} EffectConcat(a: seq<Emission>, b: seq<Emission>, n: Name, g: nat)
    ensures HopEffect(a + b, n, g) == Then(HopEffect(a, n, g), HopEffect(b, n, g))
    ensures RecordEffect(a + b, n, g) == Then(RecordEffect(a, n, g), RecordEffect(b, n, g))
  {
    if b == [] {
      assert a + b == a;
    } else {
      assert (a + b)[..|a + b| - 1] == a + b[..|b| - 1];
      EffectConcat(a, b[..|b| - 1], n, g);
    }
  }

  lemma EffectOfOne(e: Emission, n: Name, g: nat)
    ensures HopEffect([e], n, g) == if e.Hop? && Targets(e.u, n, g) then EffectOf(e.u) else Keep
    ensures RecordEffect([e], n, g) ==
            if e.Record? && e.name == n && e.route.face == g then (if e.gained then Set(e.route.cost) else Clear)
            else Keep
  {
    assert [e][..0] == [];
  }

  // ----- the FIB -----

  /** The forwarder's FIB: the cost of each next hop. */
  type Fib = map<(Name, nat), nat>

  function Get(fib: Fib, n: Name, g: nat): Option<nat>
  {
    if (n, g) in fib then Some(fib[(n, g)]) else None
  }

  /** Add-or-update and remove, as the FIB manager does them. */
  function ApplyUpdate(fib: Fib, u: FibUpdate): Fib
  {
    if u.action == AddNextHop then fib[(u.name, u.face) := u.cost] else fib - {(u.name, u.face)}
  }

  lemma ApplyUpdateGet(fib: Fib, u: FibUpdate, n: Name, g: nat)
    ensures Get(ApplyUpdate(fib, u), n, g) == After(Get(fib, n, g), if Targets(u, n, g) then EffectOf(u) else Keep)
  {
  }

  /** The FIB after all requests among the emissions, in the order they were emitted. */
  function ApplyHops(fib: Fib, es: seq<Emission>): Fib
  {
    if es == [] then fib
    else
      var before := ApplyHops(fib, es[..|es| - 1]);
      if es[|es| - 1].Hop? then ApplyUpdate(before, es[|es| - 1].u) else before
  }

  lemma {:induction false} ApplyHopsGet(fib: Fib, es: seq<Emission>, n: Name, g: nat)
    ensures Get(ApplyHops(fib, es), n, g) == After(Get(fib, n, g), HopEffect(es, n, g))
  {
    if es == [] {
    } else {
      ApplyHopsGet(fib, es[..|es| - 1], n, g);
    }
  }

  function ApplyList(fib: Fib, us: seq<FibUpdate>): Fib
  {
    if us == [] then fib else ApplyUpdate(ApplyList(fib, us[..|us| - 1]), us[|us| - 1])
  }

  function ListEffect(us: seq<FibUpdate>, n: Name, g: nat): Effect
  {
    if us == [] then Keep
    else if Targets(us[|us| - 1], n, g) then EffectOf(us[|us| - 1])
    else ListEffect(us[..|us| - 1], n, g)
  }

  lemma {:induction false} ApplyListGet(fib: Fib, us: seq<FibUpdate>, n: Name, g: nat)
    ensures Get(ApplyList(fib, us), n, g) == After(Get(fib, n, g), ListEffect(us, n, g))
  {
    if us == [] {
    } else {
      ApplyListGet(fib, us[..|us| - 1], n, g);
    }
  }

  lemma FibsEqual(a: Fib, b: Fib)
    requires forall n, g :: Get(a, n, g) == Get(b, n, g)
    ensures a == b
  {
    forall k
      ensures k in a <==> k in b
      ensures k in a ==> a[k] == b[k]
    {
      assert k == (k.0, k.1);
      assert Get(a, k.0, k.1) == Get(b, k.0, k.1);
    }
  }

  // ----- coalescing -----

  /** No two updates in the list are for the same name and face. */
  ghost predicate UniqueTargets(us: seq<FibUpdate>)
  {
    forall i, j :: 0 <= i < j < |us| ==> !Targets(us[i], us[j].name, us[j].face)
  }

  /** FibUpdater::addFibUpdate on one list: an update for the same name and face is replaced where it stands. */
  function Merge(us: seq<FibUpdate>, u: FibUpdate): (r: seq<FibUpdate>)
    ensures UniqueTargets(us) ==> UniqueTargets(r)
    ensures forall x :: x in r ==> x in us || x == u
  {
    var i := FindTarget(us, u.name, u.face);
    if i < |us| then us[i := u] else us + [u]
  }

  function FindTarget(us: seq<FibUpdate>, n: Name, g: nat): (i: nat)
    ensures i <= |us|
    ensures i < |us| ==> Targets(us[i], n, g)
    ensures forall j :: 0 <= j < i ==> !Targets(us[j], n, g)
  {
    if us == [] then 0
    else if Targets(us[0], n, g) then 0
    else
      var i := FindTarget(us[1..], n, g);
      assert forall j :: 1 <= j < i + 1 ==> us[j] == us[1..][j - 1];
      1 + i
  }

  /** The list the emissions leave behind: the one for the batch's own face `f`, or the one for all other faces. */
  function Coalesced(es: seq<Emission>, f: nat, own: bool): seq<FibUpdate>
  {
    if es == [] then []
    else
      var us := Coalesced(es[..|es| - 1], f, own);
      var e := es[|es| - 1];
      if e.Hop? && (e.u.face == f) == own then Merge(us, e.u) else us
  }

  /** In a list without repeated targets, an update's effect is the effect on its target. */
  lemma {:induction false} UniqueEffect(us: seq<FibUpdate>, i: nat)
    requires UniqueTargets(us) && i < |us|
    ensures ListEffect(us, us[i].name, us[i].face) == EffectOf(us[i])
  {
    if i < |us| - 1 {
      UniqueEffect(us[..|us| - 1], i);
    }
  }

  lemma {:induction false} NoTargetNoEffect(us: seq<FibUpdate>, n: Name, g: nat)
    requires forall i :: 0 <= i < |us| ==> !Targets(us[i], n, g)
    ensures ListEffect(us, n, g) == Keep
  {
    if us == [] {
    } else {
      NoTargetNoEffect(us[..|us| - 1], n, g);
    }
  }

  lemma MergeEffect(us: seq<FibUpdate>, u: FibUpdate, n: Name, g: nat)
    requires UniqueTargets(us)
    ensures ListEffect(Merge(us, u), n, g) == if Targets(u, n, g) then EffectOf(u) else ListEffect(us, n, g)
  {
    var r := Merge(us, u);
    var i := FindTarget(us, u.name, u.face);
    if i < |us| {
      if Targets(u, n, g) {
        UniqueEffect(r, i);
      } else if k :| 0 <= k < |us| && Targets(us[k], n, g) {
        assert r[k] == us[k];
        UniqueEffect(r, k);
        UniqueEffect(us, k);
      } else {
        NoTargetNoEffect(us, n, g);
        NoTargetNoEffect(r, n, g);
      }
    } else {
      assert r[..|r| - 1] == us;
    }
  }

  /** Each list names every target at most once, holds only the faces it is for, and has on those faces the effect of
      the whole emission sequence. */
  lemma {:induction false} CoalescedMeaning(es: seq<Emission>, f: nat, own: bool)
    ensures UniqueTargets(Coalesced(es, f, own))
    ensures forall u :: u in Coalesced(es, f, own) ==> (u.face == f) == own
    ensures forall n, g :: ListEffect(Coalesced(es, f, own), n, g) == if (g == f) == own then HopEffect(es, n, g) else Keep
  {
    if es == [] {
    } else {
      var before := es[..|es| - 1];
      CoalescedMeaning(before, f, own);
      var us := Coalesced(before, f, own);
      var e := es[|es| - 1];
      if e.Hop? && (e.u.face == f) == own {
        forall n, g
          ensures ListEffect(Coalesced(es, f, own), n, g) == if (g == f) == own then HopEffect(es, n, g) else Keep
        {
          MergeEffect(us, e.u, n, g);
        }
      }
    }
  }

  // ----- any order of delivery -----

  lemma MultisetMember(us: seq<FibUpdate>, vs: seq<FibUpdate>, u: FibUpdate)
    requires multiset(us) == multiset(vs)
    ensures u in us <==> u in vs
  {
    assert u in us <==> u in multiset(us);
    assert u in vs <==> u in multiset(vs);
  }

  /** The order of a list without repeated targets does not matter. */
  lemma AnyOrder(us: seq<FibUpdate>, vs: seq<FibUpdate>, n: Name, g: nat)
    requires UniqueTargets(us) && multiset(us) == multiset(vs)
    ensures ListEffect(vs, n, g) == ListEffect(us, n, g)
  {
    if ListEffect(vs, n, g) == Keep {
      if k :| 0 <= k < |us| && Targets(us[k], n, g) {
        MultisetMember(us, vs, us[k]);
        var j :| 0 <= j < |vs| && vs[j] == us[k];
        TargetHasEffect(vs, j);
        assert false;
      } else {
        NoTargetNoEffect(us, n, g);
      }
    } else {
      var j := EffectWitness(vs, n, g);
      MultisetMember(us, vs, vs[j]);
      var k :| 0 <= k < |us| && us[k] == vs[j];
      UniqueEffect(us, k);
    }
  }

  lemma {:induction false} TargetHasEffect(us: seq<FibUpdate>, i: nat)
    requires i < |us|
    ensures ListEffect(us, us[i].name, us[i].face) != Keep
  {
    if i < |us| - 1 {
      TargetHasEffect(us[..|us| - 1], i);
    }
  }

  lemma {:induction false} EffectWitness(us: seq<FibUpdate>, n: Name, g: nat) returns (i: nat)
    requires ListEffect(us, n, g) != Keep
    ensures i < |us| && Targets(us[i], n, g) && ListEffect(us, n, g) == EffectOf(us[i])
  {
    i := |us| - 1;
    if !Targets(us[i], n, g) {
      i := EffectWitness(us[..|us| - 1], n, g);
    }
  }

  /** Delivering the two coalesced lists, first the batch face's and then the other, each in any order, gives the FIB
      that the emitted requests give one after another. */
  lemma CoalescingPreservesMeaning(fib: Fib, es: seq<Emission>, f: nat, first: seq<FibUpdate>, second: seq<FibUpdate>)
    requires multiset(first) == multiset(Coalesced(es, f, true))
    requires multiset(second) == multiset(Coalesced(es, f, false))
    ensures ApplyList(ApplyList(fib, first), second) == ApplyHops(fib, es)
  {
    CoalescedMeaning(es, f, true);
    CoalescedMeaning(es, f, false);
    var a := ApplyList(fib, first);
    forall n, g
      ensures Get(ApplyList(a, second), n, g) == Get(ApplyHops(fib, es), n, g)
    {
      ApplyListGet(fib, first, n, g);
      ApplyListGet(a, second, n, g);
      ApplyHopsGet(fib, es, n, g);
      AnyOrder(Coalesced(es, f, true), first, n, g);
      AnyOrder(Coalesced(es, f, false), second, n, g);
    }
    FibsEqual(ApplyList(a, second), ApplyHops(fib, es));
  }
}
