/** Which routes a name inherits: the reference definition, and the two ancestor walks of the RIB. */
module Inheritance {
  import opened Names
  import opened Routes
  import opened RibModel
  import opened RibOps

  /** The route on face `g` that the entry at `n`, if any, hands to its children. */
  function Offer(T: Table, n: Name, g: nat): Option<Route>
  {
    if n in T then FirstInheritable(T[n].routes, g) else None
  }

  predicate Captures(T: Table, n: Name)
  {
    n in T && HasCapture(T[n])
  }

  /** Looking up from `n` over its proper prefixes shorter than `k`, longest first: the first offer on face `g`, but
      nothing above a capturing entry. */
  function Nearest(T: Table, n: Name, k: nat, g: nat): (r: Option<Route>)
    requires k <= |n|
    ensures r.Some? ==> r.value.face == g
  {
    if k == 0 then None
    else if Offer(T, n[..k - 1], g).Some? then Offer(T, n[..k - 1], g)
    else if Captures(T, n[..k - 1]) then None
    else Nearest(T, n, k - 1, g)
  }

  /** The route on face `g` the ancestors of `n` offer to it. */
  function FromAbove(T: Table, n: Name, g: nat): (r: Option<Route>)
    ensures r.Some? ==> r.value.face == g
  {
    Nearest(T, n, |n|, g)
  }

  /** What an entry below `n` with nothing in between gets on face `g`. */
  function PassedDown(T: Table, n: Name, g: nat): (r: Option<Route>)
    ensures r.Some? ==> r.value.face == g
  {
    if Offer(T, n, g).Some? then Offer(T, n, g)
    else if Captures(T, n) then None
    else FromAbove(T, n, g)
  }

  /** Nothing strictly between `e` and `d` captures or offers face `g`. */
  ghost predicate ClearBetween(T: Table, e: Name, d: Name, g: nat)
  {
    forall m :: m in T && e < m < d ==> !HasCapture(T[m]) && !HasChildInheritOnFace(T[m], g)
  }

  ghost predicate SameOffers(T: Table, U: Table, m: Name, g: nat)
  {
    Captures(T, m) == Captures(U, m) && Offer(T, m, g) == Offer(U, m, g)
  }

  lemma {:induction false} NearestFrame(T: Table, U: Table, n: Name, k: nat, g: nat)
    requires k <= |n|
    requires forall m :: m < n ==> SameOffers(T, U, m, g)
    ensures Nearest(T, n, k, g) == Nearest(U, n, k, g)
  {
    if k == 0 {
    } else {
      assert n[..k - 1] < n;
      assert SameOffers(T, U, n[..k - 1], g);
      NearestFrame(T, U, n, k - 1, g);
    }
  }

  lemma {:induction false} NearestOfPrefix(T: Table, e: Name, d: Name, k: nat, g: nat)
    requires e <= d && k <= |e|
    ensures Nearest(T, d, k, g) == Nearest(T, e, k, g)
  {
    if k == 0 {
    } else {
      assert d[..k - 1] == e[..k - 1];
      NearestOfPrefix(T, e, d, k - 1, g);
    }
  }

  lemma {:induction false} NearestThrough(T: Table, e: Name, d: Name, k: nat, g: nat)
    requires e < d && |e| < k <= |d|
    requires ClearBetween(T, e, d, g)
    ensures Nearest(T, d, k, g) == PassedDown(T, e, g)
  {
    if k == |e| + 1 {
      assert d[..k - 1] == e;
      NearestOfPrefix(T, e, d, |e|, g);
    } else {
      var m := d[..k - 1];
      assert e < m < d;
      NearestThrough(T, e, d, k - 1, g);
    }
  }

  /** With nothing in the way, `d` is offered what `e` passes down. */
  lemma FromAboveThrough(T: Table, e: Name, d: Name, g: nat)
    requires e < d && ClearBetween(T, e, d, g)
    ensures FromAbove(T, d, g) == PassedDown(T, e, g)
  {
    NearestThrough(T, e, d, |d|, g);
  }

  lemma {:induction false} NearestBlocked(T: Table, U: Table, e: Name, d: Name, k: nat, g: nat, m: Name)
    requires e < m < d && |m| < k <= |d|
    requires Captures(T, m) || Offer(T, m, g).Some?
    requires forall x :: e < x < d ==> SameOffers(T, U, x, g)
    ensures Nearest(T, d, k, g) == Nearest(U, d, k, g)
  {
    var x := d[..k - 1];
    assert m <= x;
    assert e < x < d && SameOffers(T, U, x, g);
    if x != m {
      NearestBlocked(T, U, e, d, k - 1, g, m);
    }
  }

  /** With something in the way, what `d` is offered does not depend on `e` or what is above it. */
  lemma FromAboveBlocked(T: Table, U: Table, e: Name, d: Name, g: nat)
    requires e < d && !ClearBetween(T, e, d, g)
    requires forall x :: e < x < d ==> SameOffers(T, U, x, g)
    ensures FromAbove(T, d, g) == FromAbove(U, d, g)
  {
    var m :| m in T && e < m < d && !(!HasCapture(T[m]) && !HasChildInheritOnFace(T[m], g));
    NearestBlocked(T, U, e, d, |d|, g, m);
  }

  /** `FromAbove` said without a walk: the offer of an ancestor with nothing in between, or nothing when every
      offering ancestor is cut off by a capturing entry. */
  lemma FromAboveMeaning(T: Table, n: Name, g: nat)
    ensures FromAbove(T, n, g).Some? ==>
              exists a :: a < n && a in T && Offer(T, a, g) == FromAbove(T, n, g) && ClearBetween(T, a, n, g)
    ensures FromAbove(T, n, g).None? ==>
              forall a :: a < n && a in T && Offer(T, a, g).Some? ==> exists m :: a < m < n && Captures(T, m)
  {
    if FromAbove(T, n, g).Some? {
      var a := NearestWitness(T, n, |n|, g);
    } else {
      forall a | a < n && a in T && Offer(T, a, g).Some?
        ensures exists m :: a < m < n && Captures(T, m)
      {
        var m := NoneWitness(T, n, |n|, g, a);
      }
    }
  }

  lemma {:induction false} NearestWitness(T: Table, n: Name, k: nat, g: nat) returns (a: Name)
    requires k <= |n| && Nearest(T, n, k, g).Some?
    requires forall m :: m in T && m < n && |m| >= k ==> !HasCapture(T[m]) && !HasChildInheritOnFace(T[m], g)
    ensures a < n && a in T && Offer(T, a, g) == Nearest(T, n, k, g) && ClearBetween(T, a, n, g)
  {
    a := n[..k - 1];
    if Offer(T, a, g).None? {
      forall m | m in T && m < n && |m| >= k - 1
        ensures !HasCapture(T[m]) && !HasChildInheritOnFace(T[m], g)
      {
        if |m| == k - 1 {
          assert m == n[..k - 1];
        }
      }
      a := NearestWitness(T, n, k - 1, g);
    }
  }

  lemma {:induction false} NoneWitness(T: Table, n: Name, k: nat, g: nat, a: Name) returns (m: Name)
    requires k <= |n| && Nearest(T, n, k, g).None?
    requires a < n && |a| < k && Offer(T, a, g).Some?
    ensures a < m < n && Captures(T, m)
  {
    m := n[..k - 1];
    assert a == n[..|a|];
    if |a| < k - 1 && !Captures(T, m) {
      m := NoneWitness(T, n, k - 1, g, a);
    }
  }

  // ----- the walks along parent links -----

  /** Collects inheritable routes from the entry `at` upwards, up to and including the first capturing one. */
  function AncestorWalk(T: Table, at: Option<Name>, acc: seq<Route>): (r: seq<Route>)
    requires ParentsOk(T) && FaceSorted(acc)
    requires at.Some? ==> at.value in T
    ensures FaceSorted(r)
    decreases if at.None? then 0 else |at.value| + 1
  {
    if at.None? then acc
    else
      var e := T[at.value];
      var acc' := InsertInheritable(acc, e.routes);
      if HasCapture(e) then acc' else AncestorWalk(T, e.parent, acc')
  }

  /** Rib::getAncestorRoutes for a name, in the RIB or not. */
  function AncestorRoutes(T: Table, n: Name): (r: seq<Route>)
    requires ParentsOk(T)
    ensures FaceSorted(r)
  {
    AncestorWalk(T, ParentOf(T.Keys, n), [])
  }

  /** Rib::getAncestorRoutes for an entry, which starts from its parent link. */
  function AncestorRoutesOfEntry(T: Table, e: Entry): (r: seq<Route>)
    requires ParentsOk(T) && (e.parent.Some? ==> e.parent.value in T)
    ensures FaceSorted(r)
  {
    AncestorWalk(T, e.parent, [])
  }

  /** One step up: everything between a name and its parent is absent from the table. */
  lemma FromAboveAtParent(T: Table, n: Name, g: nat)
    ensures FromAbove(T, n, g) == match ParentOf(T.Keys, n)
                                  case None => None
                                  case Some(p) => PassedDown(T, p, g)
  {
    ParentIsLongestPrefix(T.Keys, n);
    match ParentOf(T.Keys, n)
    case None =>
      NearestOfNothing(T, n, |n|, g);
    case Some(p) =>
      forall m | m in T && m < n
        ensures !(p < m)
      {
        assert m <= p;
      }
      FromAboveThrough(T, p, n, g);
  }

  lemma {:induction false} NearestOfNothing(T: Table, n: Name, k: nat, g: nat)
    requires k <= |n|
    requires forall q :: q in T ==> !(q < n)
    ensures Nearest(T, n, k, g) == None
  {
    if k == 0 {
    } else {
      assert n[..k - 1] < n;
      NearestOfNothing(T, n, k - 1, g);
    }
  }

  lemma {:induction false} WalkFinds(T: Table, at: Option<Name>, acc: seq<Route>, g: nat)
    requires ParentsOk(T) && FaceSorted(acc)
    requires at.Some? ==> at.value in T
    ensures FindFace(AncestorWalk(T, at, acc), g) ==
            if FindFace(acc, g).Some? then FindFace(acc, g)
            else if at.None? then None
            else PassedDown(T, at.value, g)
    decreases if at.None? then 0 else |at.value| + 1
  {
    if at.Some? {
      var e := T[at.value];
      var acc' := InsertInheritable(acc, e.routes);
      FromAboveAtParent(T, at.value, g);
      if !HasCapture(e) {
        WalkFinds(T, e.parent, acc', g);
      }
    }
  }

  /** The walk returns, for each face, exactly the reference answer. */
  lemma AncestorRoutesFind(T: Table, n: Name, g: nat)
    requires ParentsOk(T)
    ensures FindFace(AncestorRoutes(T, n), g) == FromAbove(T, n, g)
  {
    WalkFinds(T, ParentOf(T.Keys, n), [], g);
    FromAboveAtParent(T, n, g);
  }

  /** For a name in the RIB the two walks agree. */
  lemma WalksAgree(T: Table, n: Name)
    requires ParentsOk(T) && n in T
    ensures AncestorRoutesOfEntry(T, T[n]) == AncestorRoutes(T, n)
  {
  }

  // ----- what is computed before an insertion is what holds after it -----

  /** The children the updater predicts for a name that is not in the RIB: of all names below it, those whose parent
      is the parent the name would get. */
  ghost function PredictedChildren(T: Table, p: Name): seq<Name>
  {
    WithParent(T, Under(Sorted(T.Keys), p), ParentOf(T.Keys, p))
  }

  lemma {:induction false} WalkAbove(T: Table, U: Table, at: Option<Name>, acc: seq<Route>, p: Name)
    requires ParentsOk(T) && ParentsOk(U) && FaceSorted(acc)
    requires at.Some? ==> at.value in T && at.value < p
    requires forall m :: m < p && m in T ==>
               m in U && U[m].routes == T[m].routes && U[m].captures == T[m].captures && U[m].parent == T[m].parent
    ensures at.Some? ==> at.value in U
    ensures AncestorWalk(U, at, acc) == AncestorWalk(T, at, acc)
    decreases if at.None? then 0 else |at.value| + 1
  {
    if at.Some? && !HasCapture(T[at.value]) {
      WalkAbove(T, U, T[at.value].parent, InsertInheritable(acc, T[at.value].routes), p);
    }
  }

  /** Scanning the table with the new name in it finds the same names below as scanning the table without it. */
  lemma ScansAgree(T: Table, p: Name)
    ensures Under(Sorted(T.Keys + {p}), p) == Under(Sorted(T.Keys), p)
  {
    UnderIsSorted(Sorted(T.Keys + {p}), p);
    UnderIsSorted(Sorted(T.Keys), p);
    SortedIsUnique(Under(Sorted(T.Keys + {p}), p), Under(Sorted(T.Keys), p));
  }

  lemma AncestorsAgree(T: Table, p: Name, r: Route)
    requires TreeOk(T) && p !in T
    ensures ParentsOk(InsertTable(T, p, r))
    ensures AncestorRoutesOfEntry(InsertTable(T, p, r), InsertTable(T, p, r)[p]) == AncestorRoutes(T, p)
  {
    InsertKeepsTree(T, p, r);
    ParentIsLongestPrefix(T.Keys, p);
    AboveUnchanged(T, p, r);
    WalkAbove(T, InsertTable(T, p, r), ParentOf(T.Keys, p), [], p);
  }

  lemma AboveUnchanged(T: Table, p: Name, r: Route)
    requires p !in T
    ensures var U := InsertTable(T, p, r);
            && p in U && U[p].parent == ParentOf(T.Keys, p)
            && forall m :: m < p && m in T ==>
                 m in U && U[m].routes == T[m].routes && U[m].captures == T[m].captures && U[m].parent == T[m].parent
  {
    forall m | m < p && m in T
      ensures m !in Adopted(T, p)
    {
      assert !(p < m);
    }
  }

  /** Children and ancestor routes computed for a name before it is inserted are those its entry has afterwards: the
      children the commit finds by scanning the table that already holds the name. */
  lemma PredictionMatchesCommit(T: Table, p: Name, r: Route)
    requires TreeOk(T) && p !in T
    ensures InsertTable(T, p, r)[p].children == PredictedChildren(T, p)
    ensures ParentsOk(InsertTable(T, p, r))
    ensures AncestorRoutesOfEntry(InsertTable(T, p, r), InsertTable(T, p, r)[p]) == AncestorRoutes(T, p)
    ensures forall c :: c in PredictedChildren(T, p) <==> c in T && p < c && forall m :: m in T ==> !(p < m < c)
  {
    ScansAgree(T, p);
    AncestorsAgree(T, p, r);
    PredictedAreTopmost(T, p);
  }

  lemma PredictedAreTopmost(T: Table, p: Name)
    requires TreeOk(T) && p !in T
    ensures forall c :: c in PredictedChildren(T, p) <==> c in T && p < c && forall m :: m in T ==> !(p < m < c)
  {
    forall c
      ensures c in PredictedChildren(T, p) <==> c in T && p < c && forall m :: m in T ==> !(p < m < c)
    {
      if c in T && p < c {
        PredictedChild(T, p, c);
      }
    }
  }

  lemma PredictedChild(T: Table, p: Name, c: Name)
    requires TreeOk(T) && p !in T && c in T && p < c
    ensures T[c].parent == ParentOf(T.Keys, p) <==> forall m :: m in T ==> !(p < m < c)
  {
    ParentAfterInsert(T.Keys, p, c);
    ParentIsLongestPrefix(T.Keys + {p}, c);
    ParentIsLongestPrefix(T.Keys, c);
    ParentIsLongestPrefix(T.Keys, p);
    if T[c].parent != ParentOf(T.Keys, p) {
      var m := T[c].parent;
      assert m.Some? && p <= m.value;
      assert m.value in T.Keys && p != m.value;
      assert p < m.value < c;
    }
  }
}
