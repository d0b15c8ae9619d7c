/** Pushing inherited routes down the tree: what is emitted, and exactly which descendants it reaches. */
module Propagation {
  import opened Names
  import opened Routes
  import opened RibModel
  import opened Updates

  ghost function Below(T: Table, n: Name): set<Name>
  {
    set m | m in T && n < m
  }

  // ----- one entry -----

  /** The routes that go on to the children: an inheritable route of the entry stops those on its face. */
  function Kept(e: Entry, s: seq<Route>): (r: seq<Route>)
    ensures forall x :: x in r <==> x in s && !HasChildInheritOnFace(e, x.face)
  {
    if s == [] then []
    else
      var n := |s| - 1;
      var r := Kept(e, s[..n]);
      assert s == s[..n] + [s[n]];
      if HasChildInheritOnFace(e, s[n].face) then r else r + [s[n]]
  }

  function Removals(n: Name, e: Entry, s: seq<Route>): seq<Emission>
  {
    if s == [] then []
    else
      var r := s[|s| - 1];
      Removals(n, e, s[..|s| - 1]) +
      if !HasChildInheritOnFace(e, r.face) && HasInherited(e, r.face) then
        [Record(n, r, false), Hop(RemoveUpdate(n, r.face))]
      else []
  }

  function Additions(n: Name, e: Entry, s: seq<Route>): seq<Emission>
  {
    if s == [] then []
    else
      var r := s[|s| - 1];
      Additions(n, e, s[..|s| - 1]) +
      if !HasChildInheritOnFace(e, r.face) && !HasFace(e, r.face) then
        [Record(n, r, true), Hop(AddUpdate(n, r.face, r.cost))]
      else []
  }

  // ----- the subtree -----

  ghost predicate AllBelow(T: Table, e: Name, cs: seq<Name>)
  {
    forall i :: 0 <= i < |cs| ==> cs[i] in T && e < cs[i]
  }

  lemma ChildrenBelow(T: Table, n: Name)
    requires TreeOk(T) && n in T
    ensures AllBelow(T, n, T[n].children)
  {
    forall i | 0 <= i < |T[n].children|
      ensures T[n].children[i] in T && n < T[n].children[i]
    {
      ChildIsLonger(T, n, T[n].children[i]);
    }
  }

  function Traverse(T: Table, c: Name, add: seq<Route>, remove: seq<Route>): seq<Emission>
    requires TreeOk(T) && c in T
    decreases Below(T, c), 1, 0
  {
    var e := T[c];
    if HasCapture(e) then []
    else
      ChildrenBelow(T, c);
      Removals(c, e, remove) + Additions(c, e, add) + PushDown(T, c, e.children, Kept(e, add), Kept(e, remove))
  }

  /** What is emitted for the entries `cs` below `e` and everything under them. */
  function PushDown(T: Table, e: Name, cs: seq<Name>, add: seq<Route>, remove: seq<Route>): seq<Emission>
    requires TreeOk(T)
    requires AllBelow(T, e, cs)
    decreases Below(T, e), 0, |cs|
  {
    if cs == [] then []
    else
      var n := |cs| - 1;
      assert cs[n] in Below(T, e) && cs[n] !in Below(T, cs[n]);
      PushDown(T, e, cs[..n], add, remove) + Traverse(T, cs[n], add, remove)
  }

  // ----- exact reach -----

  /** No entry from `c` down to and including `d` captures or has an inheritable route on face `g`. */
  ghost predicate Open(T: Table, c: Name, d: Name, g: nat)
  {
    forall m :: m in T && c <= m <= d ==> !HasCapture(T[m]) && !HasChildInheritOnFace(T[m], g)
  }

  /** The same for the entries strictly below `e`. */
  ghost predicate OpenBelow(T: Table, e: Name, d: Name, g: nat)
  {
    forall m :: m in T && e < m <= d ==> !HasCapture(T[m]) && !HasChildInheritOnFace(T[m], g)
  }

  /** What reaching an entry does there to face `g`. */
  function Local(e: Entry, add: seq<Route>, remove: seq<Route>, g: nat): Effect
  {
    if FindFace(add, g).Some? && !HasFace(e, g) then Set(FindFace(add, g).value.cost)
    else if FindFace(remove, g).Some? && HasInherited(e, g) then Clear
    else Keep
  }

  /** `cs` are the entries below `e` with nothing in between, each once. */
  ghost predicate TopBelow(T: Table, e: Name, cs: seq<Name>)
  {
    NoDuplicates(cs) && AllBelow(T, e, cs) && forall c :: c in cs <==> IsTopBelow(T, e, c)
  }

  /** `d` is at or under one of the entries `cs`. */
  ghost predicate UnderOne(cs: seq<Name>, d: Name)
  {
    exists c :: c in cs && c <= d
  }

  ghost predicate IsTopBelow(T: Table, e: Name, c: Name)
  {
    c in T && e < c && forall m :: m in T ==> !(e < m < c)
  }

  /** A record and a next-hop update for the same name and face, after other emissions. */
  lemma EmitEffect(es: seq<Emission>, n: Name, r: Route, gained: bool, u: FibUpdate, d: Name, g: nat)
    requires u.name == n && u.face == r.face
    ensures var es' := es + [Record(n, r, gained), Hop(u)];
            && HopEffect(es', d, g) == (if d == n && g == r.face then EffectOf(u) else HopEffect(es, d, g))
            && RecordEffect(es', d, g) ==
               (if d == n && g == r.face then (if gained then Set(r.cost) else Clear) else RecordEffect(es, d, g))
  {
    var a, b := Record(n, r, gained), Hop(u);
    assert es + [a, b] == es + [a] + [b];
    EffectConcat(es + [a], [b], d, g);
    EffectConcat(es, [a], d, g);
    EffectOfOne(a, d, g);
    EffectOfOne(b, d, g);
  }

  lemma {:induction false} RemovalsEffect(n: Name, e: Entry, s: seq<Route>, d: Name, g: nat)
    requires FaceSorted(s)
    ensures var effect := if d == n && FindFace(s, g).Some? && !HasChildInheritOnFace(e, g) && HasInherited(e, g) then Clear else Keep;
            HopEffect(Removals(n, e, s), d, g) == effect && RecordEffect(Removals(n, e, s), d, g) == effect
  {
    if s == [] {
    } else {
      var k := |s| - 1;
      RemovalsEffect(n, e, s[..k], d, g);
      FindFaceLast(s, g);
      var es := Removals(n, e, s[..k]);
      assert es + [] == es;
      EmitEffect(es, n, s[k], false, RemoveUpdate(n, s[k].face), d, g);
    }
  }

  lemma {:induction false} AdditionsEffect(n: Name, e: Entry, s: seq<Route>, d: Name, g: nat)
    requires FaceSorted(s)
    ensures var effect := if d == n && FindFace(s, g).Some? && !HasChildInheritOnFace(e, g) && !HasFace(e, g)
                          then Set(FindFace(s, g).value.cost) else Keep;
            HopEffect(Additions(n, e, s), d, g) == effect && RecordEffect(Additions(n, e, s), d, g) == effect
  {
    if s == [] {
    } else {
      var k := |s| - 1;
      AdditionsEffect(n, e, s[..k], d, g);
      FindMember(s, k);
      FindFaceLast(s, g);
      var es := Additions(n, e, s[..k]);
      assert es + [] == es;
      EmitEffect(es, n, s[k], true, AddUpdate(n, s[k].face, s[k].cost), d, g);
    }
  }

  lemma {:induction false} KeptSorted(e: Entry, s: seq<Route>)
    requires FaceSorted(s)
    ensures FaceSorted(Kept(e, s))
  {
    if s == [] {
    } else {
      var k := |s| - 1;
      KeptSorted(e, s[..k]);
      var r := Kept(e, s[..k]);
      forall i | 0 <= i < |r|
        ensures r[i].face < s[k].face
      {
        assert r[i] in r;
        assert r[i] in s[..k];
      }
    }
  }

  lemma {:induction false} KeptFinds(e: Entry, s: seq<Route>, g: nat)
    ensures FindFace(Kept(e, s), g) == if HasChildInheritOnFace(e, g) then None else FindFace(s, g)
  {
    if s == [] {
    } else {
      var k := |s| - 1;
      KeptFinds(e, s[..k], g);
      assert s == s[..k] + [s[k]];
      FindFaceConcat(s[..k], [s[k]], g);
      FindFaceConcat(Kept(e, s[..k]), [s[k]], g);
    }
  }

  lemma ChildrenAreTop(T: Table, n: Name)
    requires TreeOk(T) && n in T
    ensures TopBelow(T, n, T[n].children)
  {
    ChildrenBelow(T, n);
    forall c
      ensures c in T[n].children <==> IsTopBelow(T, n, c)
    {
      if c in T {
        ParentIsLongestPrefix(T.Keys, c);
        if IsTopBelow(T, n, c) {
          LongestPrefixIsTop(T, n, c);
        }
      }
    }
  }

  lemma LongestPrefixIsTop(T: Table, n: Name, c: Name)
    requires n in T && IsTopBelow(T, n, c)
    ensures ParentOf(T.Keys, c) == Some(n)
  {
    forall q | q in T.Keys && q < c
      ensures q <= n
    {
      PrefixesOfOne(q, n, c);
      PrefixesOfOne(n, q, c);
    }
    LongestPrefixIsParent(T.Keys, c, Some(n));
  }

  /** Every entry below `e` is at or under exactly one topmost entry. */
  lemma {:induction false} TopOf(T: Table, e: Name, d: Name) returns (c: Name)
    requires d in T && e < d
    ensures IsTopBelow(T, e, c) && c <= d
    decreases |d|
  {
    if m :| m in T && e < m < d {
      c := TopOf(T, e, m);
    } else {
      c := d;
    }
  }

  lemma OpenFromTop(T: Table, e: Name, c: Name, d: Name, g: nat)
    requires IsTopBelow(T, e, c) && c <= d
    ensures Open(T, c, d, g) <==> OpenBelow(T, e, d, g)
  {
    forall m | m in T && e < m <= d
      ensures c <= m
    {
      PrefixesOfOne(c, m, d);
      PrefixesOfOne(m, c, d);
    }
  }

  lemma TopIsUnique(T: Table, e: Name, c: Name, c': Name, d: Name)
    requires IsTopBelow(T, e, c) && IsTopBelow(T, e, c') && c <= d && c' <= d
    ensures c == c'
  {
    PrefixesOfOne(c, c', d);
    PrefixesOfOne(c', c, d);
  }

  lemma HereEffect(n: Name, e: Entry, add: seq<Route>, remove: seq<Route>, d: Name, g: nat)
    requires FaceSorted(add) && FaceSorted(remove)
    ensures var effect := if d == n && !HasChildInheritOnFace(e, g) then Local(e, add, remove, g) else Keep;
            HopEffect(Removals(n, e, remove) + Additions(n, e, add), d, g) == effect &&
            RecordEffect(Removals(n, e, remove) + Additions(n, e, add), d, g) == effect
  {
    EffectConcat(Removals(n, e, remove), Additions(n, e, add), d, g);
    RemovalsEffect(n, e, remove, d, g);
    AdditionsEffect(n, e, add, d, g);
  }

  lemma OpenStep(T: Table, c: Name, d: Name, g: nat)
    requires c in T && c <= d
    ensures Open(T, c, d, g) <==>
            !HasCapture(T[c]) && !HasChildInheritOnFace(T[c], g) && OpenBelow(T, c, d, g)
  {
    forall m | m in T && c <= m <= d
      ensures m == c || c < m
    {
    }
  }

  lemma {:induction false} TraverseReach(T: Table, c: Name, add: seq<Route>, remove: seq<Route>, d: Name, g: nat)
    requires TreeOk(T) && c in T && FaceSorted(add) && FaceSorted(remove)
    ensures var effect := if d in T && c <= d && Open(T, c, d, g) then Local(T[d], add, remove, g) else Keep;
            HopEffect(Traverse(T, c, add, remove), d, g) == effect && RecordEffect(Traverse(T, c, add, remove), d, g) == effect
    decreases Below(T, c), 1, 0
  {
    var e := T[c];
    if c <= d {
      OpenStep(T, c, d, g);
    }
    if !HasCapture(e) {
      ChildrenAreTop(T, c);
      var add', remove' := Kept(e, add), Kept(e, remove);
      KeptSorted(e, add);
      KeptSorted(e, remove);
      KeptFinds(e, add, g);
      KeptFinds(e, remove, g);
      var here, under := Removals(c, e, remove) + Additions(c, e, add), PushDown(T, c, e.children, add', remove');
      EffectConcat(here, under, d, g);
      HereEffect(c, e, add, remove, d, g);
      PushDownReach(T, c, e.children, add', remove', d, g);
      if d in T && c < d {
        var top := TopOf(T, c, d);
        assert top in e.children && top <= d;
      }
    }
  }

  lemma UnderSplit(T: Table, e: Name, cs: seq<Name>, d: Name)
    requires cs != [] && NoDuplicates(cs) && forall c :: c in cs ==> IsTopBelow(T, e, c)
    ensures UnderOne(cs, d) <==> UnderOne(cs[..|cs| - 1], d) || cs[|cs| - 1] <= d
    ensures cs[|cs| - 1] <= d ==> !UnderOne(cs[..|cs| - 1], d)
  {
    var n := |cs| - 1;
    assert cs[n] in cs;
    forall x
      ensures x in cs <==> x in cs[..n] || x == cs[n]
    {
      assert cs == cs[..n] + [cs[n]];
    }
    forall x | x in cs[..n] && x <= d
      ensures !(cs[n] <= d)
    {
      var i :| 0 <= i < n && cs[i] == x;
      if cs[n] <= d {
        TopIsUnique(T, e, cs[n], x, d);
      }
    }
  }

  /** Exact reach of the propagation, for every tree and all flags: pushing `add` and `remove` below `e` touches face
      `g` of a descendant `d` exactly when no entry from below `e` down to and including `d` captures or has an
      inheritable route on `g`; there it adds the route if `d` has none of its own on `g`, and otherwise removes it if
      `d` is recorded as inheriting `g`. */
  lemma {:induction false} PushDownReach(T: Table, e: Name, cs: seq<Name>, add: seq<Route>, remove: seq<Route>, d: Name, g: nat)
    requires TreeOk(T) && FaceSorted(add) && FaceSorted(remove)
    requires NoDuplicates(cs) && AllBelow(T, e, cs) && forall c :: c in cs ==> IsTopBelow(T, e, c)
    ensures var reached := d in T && UnderOne(cs, d) && OpenBelow(T, e, d, g);
            var effect := if reached then Local(T[d], add, remove, g) else Keep;
            HopEffect(PushDown(T, e, cs, add, remove), d, g) == effect &&
            RecordEffect(PushDown(T, e, cs, add, remove), d, g) == effect
    decreases Below(T, e), 0, |cs|
  {
    if cs == [] {
    } else {
      var n := |cs| - 1;
      var c := cs[n];
      assert c in cs;
      assert c in Below(T, e) && c !in Below(T, c);
      assert AllBelow(T, e, cs[..n]);
      UnderSplit(T, e, cs, d);
      PushDownReach(T, e, cs[..n], add, remove, d, g);
      TraverseReach(T, c, add, remove, d, g);
      EffectConcat(PushDown(T, e, cs[..n], add, remove), Traverse(T, c, add, remove), d, g);
      if c <= d {
        OpenFromTop(T, e, c, d, g);
      }
    }
  }

  /** The same for all children of `e`, whether or not `e` itself is in the table. */
  lemma PushDownReachAll(T: Table, e: Name, cs: seq<Name>, add: seq<Route>, remove: seq<Route>, d: Name, g: nat)
    requires TreeOk(T) && FaceSorted(add) && FaceSorted(remove) && TopBelow(T, e, cs)
    ensures var effect := if d in T && e < d && OpenBelow(T, e, d, g) then Local(T[d], add, remove, g) else Keep;
            HopEffect(PushDown(T, e, cs, add, remove), d, g) == effect &&
            RecordEffect(PushDown(T, e, cs, add, remove), d, g) == effect
  {
    PushDownReach(T, e, cs, add, remove, d, g);
    if d in T && e < d {
      var c := TopOf(T, e, d);
      assert c in cs && c <= d;
    }
  }
}
