/** Routes, route sets keyed by face, and the route list of one RIB entry. */
module Routes {

  datatype Option<+T> = None | Some(value: T)

  /** The 64-bit flag word: the two bits with a meaning, and whatever the other bits hold. */
  datatype Flags = Flags(childInherit: bool, capture: bool, rest: nat)

  datatype Route = Route(face: nat, origin: nat, cost: nat, flags: Flags)

  // ----- looking a face up in a list of routes -----

  /** The first route in the list on face `g`. */
  function FindFace(s: seq<Route>, g: nat): (r: Option<Route>)
    ensures r.None? ==> forall i :: 0 <= i < |s| ==> s[i].face != g
    ensures r.Some? ==> r.value in s && r.value.face == g
  {
    if s == [] then None
    else if s[0].face == g then Some(s[0])
    else
      var r := FindFace(s[1..], g);
      assert r.None? ==> forall i :: 1 <= i < |s| ==> s[i] == s[1..][i - 1];
      r
  }

  /** The first route in the list on face `g` that children inherit. */
  function FirstInheritable(s: seq<Route>, g: nat): (r: Option<Route>)
    ensures r.Some? ==> r.value in s && r.value.face == g && r.value.flags.childInherit
    ensures r.None? ==> forall i :: 0 <= i < |s| ==> !(s[i].face == g && s[i].flags.childInherit)
  {
    if s == [] then None
    else if s[0].face == g && s[0].flags.childInherit then Some(s[0])
    else
      var r := FirstInheritable(s[1..], g);
      assert r.None? ==> forall i :: 1 <= i < |s| ==> s[i] == s[1..][i - 1];
      r
  }

  lemma FindFaceCons(r: Route, s: seq<Route>)
    ensures forall g :: FindFace([r] + s, g) == if r.face == g then Some(r) else FindFace(s, g)
  {
    assert ([r] + s)[1..] == s;
  }

  lemma {:induction false} FindFaceConcat(a: seq<Route>, b: seq<Route>, g: nat)
    ensures FindFace(a + b, g) == if FindFace(a, g).Some? then FindFace(a, g) else FindFace(b, g)
  {
    if a == [] {
      assert a + b == b;
    } else {
      assert (a + b)[1..] == a[1..] + b;
      FindFaceConcat(a[1..], b, g);
    }
  }

  lemma FindFaceLast(s: seq<Route>, g: nat)
    requires s != []
    ensures var k := |s| - 1;
            FindFace(s, g) ==
            if FindFace(s[..k], g).Some? then FindFace(s[..k], g) else if s[k].face == g then Some(s[k]) else None
  {
    var k := |s| - 1;
    assert s == s[..k] + [s[k]];
    FindFaceConcat(s[..k], [s[k]], g);
  }

  lemma {:induction false} FirstInheritableConcat(a: seq<Route>, b: seq<Route>, g: nat)
    ensures FirstInheritable(a + b, g) ==
            if FirstInheritable(a, g).Some? then FirstInheritable(a, g) else FirstInheritable(b, g)
  {
    if a == [] {
      assert a + b == b;
    } else {
      assert (a + b)[1..] == a[1..] + b;
      FirstInheritableConcat(a[1..], b, g);
    }
  }

  // ----- std::set<Route> ordered by face -----

  ghost predicate FaceSorted(s: seq<Route>)
  {
    forall i, j :: 0 <= i < j < |s| ==> s[i].face < s[j].face
  }

  /** std::set::insert: keeps the route already there when the face is present. */
  function InsertFace(s: seq<Route>, r: Route): (t: seq<Route>)
    requires FaceSorted(s)
    ensures FaceSorted(t)
    ensures forall x :: x in t ==> x in s || x == r
    ensures forall g :: FindFace(t, g) ==
                        if FindFace(s, g).Some? then FindFace(s, g) else if g == r.face then Some(r) else None
  {
    if s == [] then [r]
    else if r.face < s[0].face then
      FindFaceCons(r, s);
      [r] + s
    else if r.face == s[0].face then s
    else
      var t := InsertFace(s[1..], r);
      FindFaceCons(s[0], t);
      assert forall j :: 0 <= j < |t| ==> t[j] in t && (t[j] in s[1..] || t[j] == r);
      [s[0]] + t
  }

  /** The inheritable routes of `routes`, inserted one after another. */
  function InsertInheritable(s: seq<Route>, routes: seq<Route>): (t: seq<Route>)
    requires FaceSorted(s)
    ensures FaceSorted(t)
    ensures forall g :: FindFace(t, g) ==
                        if FindFace(s, g).Some? then FindFace(s, g) else FirstInheritable(routes, g)
    decreases routes
  {
    if routes == [] then s
    else if routes[0].flags.childInherit then InsertInheritable(InsertFace(s, routes[0]), routes[1..])
    else InsertInheritable(s, routes[1..])
  }

  /** std::set::erase of the route on one face. */
  function EraseFace(s: seq<Route>, g: nat): (t: seq<Route>)
    requires FaceSorted(s)
    ensures FaceSorted(t)
    ensures forall x :: x in t ==> x in s
    ensures forall h :: FindFace(t, h) == if h == g then None else FindFace(s, h)
  {
    if s == [] then []
    else if s[0].face == g then s[1..]
    else
      var t := EraseFace(s[1..], g);
      assert forall x :: x in t ==> x in s[1..];
      [s[0]] + t
  }

  /** In a set keyed by face, a member is found under its own face. */
  lemma {:induction false} FindMember(s: seq<Route>, i: nat)
    requires FaceSorted(s) && i < |s|
    ensures FindFace(s, s[i].face) == Some(s[i])
  {
    if i == 0 {
    } else {
      FindMember(s[1..], i - 1);
    }
  }

  // ----- the route list of an entry -----

  /** Position of the route with this face and origin, or the length when there is none. */
  function FindRoute(rs: seq<Route>, face: nat, origin: nat): (i: nat)
    ensures i <= |rs|
    ensures i < |rs| ==> rs[i].face == face && rs[i].origin == origin
    ensures forall j :: 0 <= j < i ==> !(rs[j].face == face && rs[j].origin == origin)
  {
    if rs == [] then 0
    else if rs[0].face == face && rs[0].origin == origin then 0
    else
      var i := FindRoute(rs[1..], face, origin);
      assert forall j :: 1 <= j < i + 1 ==> rs[j] == rs[1..][j - 1];
      1 + i
  }

  function EraseAt(rs: seq<Route>, i: nat): seq<Route>
    requires i < |rs|
  {
    rs[..i] + rs[i + 1..]
  }

  function CountCaptures(rs: seq<Route>): nat
  {
    if rs == [] then 0
    else (if rs[0].flags.capture then 1 else 0) + CountCaptures(rs[1..])
  }

  lemma CountOfOne(r: Route)
    ensures CountCaptures([r]) == if r.flags.capture then 1 else 0
  {
    assert [r][1..] == [];
  }

  lemma {:induction false} CountConcat(a: seq<Route>, b: seq<Route>)
    ensures CountCaptures(a + b) == CountCaptures(a) + CountCaptures(b)
  {
    if a == [] {
      assert a + b == b;
    } else {
      assert (a + b)[1..] == a[1..] + b;
      CountConcat(a[1..], b);
    }
  }

  lemma {:induction false} CountPositive(rs: seq<Route>)
    ensures CountCaptures(rs) > 0 <==> exists i :: 0 <= i < |rs| && rs[i].flags.capture
  {
    if rs == [] {
    } else {
      CountPositive(rs[1..]);
      if i :| 0 <= i < |rs| && rs[i].flags.capture {
        if i > 0 {
          assert rs[1..][i - 1].flags.capture;
        }
      }
    }
  }

  /** Replacing one route changes the number of capturing routes by the difference of the two bits. */
  lemma {:induction false} CountReplace(rs: seq<Route>, i: nat, r: Route)
    requires i < |rs|
    ensures CountCaptures(rs[i := r]) + (if rs[i].flags.capture then 1 else 0) ==
            CountCaptures(rs) + (if r.flags.capture then 1 else 0)
  {
    assert rs == rs[..i] + [rs[i]] + rs[i + 1..];
    assert rs[i := r] == rs[..i] + [r] + rs[i + 1..];
    CountConcat(rs[..i] + [rs[i]], rs[i + 1..]);
    CountConcat(rs[..i] + [r], rs[i + 1..]);
    CountConcat(rs[..i], [rs[i]]);
    CountConcat(rs[..i], [r]);
  }

  lemma {:induction false} CountErase(rs: seq<Route>, i: nat)
    requires i < |rs|
    ensures CountCaptures(EraseAt(rs, i)) + (if rs[i].flags.capture then 1 else 0) == CountCaptures(rs)
  {
    var a, b := rs[..i], rs[i + 1..];
    assert rs == a + ([rs[i]] + b);
    CountConcat(a, [rs[i]] + b);
    CountConcat([rs[i]], b);
    CountConcat(a, b);
    CountOfOne(rs[i]);
  }

  ghost predicate UniqueKeys(rs: seq<Route>)
  {
    forall i, j :: 0 <= i < j < |rs| ==> !(rs[i].face == rs[j].face && rs[i].origin == rs[j].origin)
  }

  ghost predicate OnePerFace(rs: seq<Route>)
  {
    forall i, j :: 0 <= i < j < |rs| ==> rs[i].face != rs[j].face
  }

  // ----- lowest-cost queries -----

  predicate Matches(r: Route, g: nat, onlyInheritable: bool)
  {
    r.face == g && (onlyInheritable ==> r.flags.childInherit)
  }

  /** The first of the cheapest routes on face `g` (only those children inherit, if asked). */
  function Lowest(rs: seq<Route>, g: nat, onlyInheritable: bool): (c: Option<Route>)
    ensures c.Some? <==> exists i :: 0 <= i < |rs| && Matches(rs[i], g, onlyInheritable)
    ensures c.Some? ==> c.value in rs && Matches(c.value, g, onlyInheritable)
    ensures c.Some? ==> forall i :: 0 <= i < |rs| && Matches(rs[i], g, onlyInheritable) ==> c.value.cost <= rs[i].cost
  {
    if rs == [] then None
    else
      var n := |rs| - 1;
      var c := Lowest(rs[..n], g, onlyInheritable);
      assert forall i :: 0 <= i < n ==> rs[..n][i] == rs[i];
      assert c.Some? <==> exists i :: 0 <= i < n && Matches(rs[..n][i], g, onlyInheritable);
      if Matches(rs[n], g, onlyInheritable) && (c.None? || rs[n].cost < c.value.cost) then Some(rs[n]) else c
  }

  /** A route as std::nth_element may leave it in second place: one other matching route costs no more, all the
      rest cost no less.  Which one of several equally cheap routes it is, is not determined. */
  ghost predicate IsSecondLowest(rs: seq<Route>, g: nat, next: Option<Route>)
  {
    if next.None? then
      forall i, j :: 0 <= i < j < |rs| ==> rs[i].face != g || rs[j].face != g
    else
      exists i, j :: 0 <= i < |rs| && 0 <= j < |rs| && SecondAt(rs, g, i, j) && next.value == rs[i]
  }

  ghost predicate SecondAt(rs: seq<Route>, g: nat, i: nat, j: nat)
    requires i < |rs| && j < |rs|
  {
    && i != j && rs[i].face == g && rs[j].face == g && rs[j].cost <= rs[i].cost
    && forall k :: 0 <= k < |rs| && k != i && k != j && rs[k].face == g ==> rs[i].cost <= rs[k].cost
  }

  method LowestCostByFace(rs: seq<Route>, g: nat, onlyInheritable: bool) returns (c: Option<Route>)
    ensures c == Lowest(rs, g, onlyInheritable)
  {
    c := None;
    for i := 0 to |rs|
      invariant c == Lowest(rs[..i], g, onlyInheritable)
    {
      assert rs[..i + 1][..i] == rs[..i];
      if Matches(rs[i], g, onlyInheritable) {
        if c == None {
          c := Some(rs[i]);
        } else if rs[i].cost < c.value.cost {
          c := Some(rs[i]);
        }
      }
    }
    assert rs[..|rs|] == rs;
  }

  method SecondLowestCostByFace(rs: seq<Route>, g: nat) returns (next: Option<Route>)
    ensures IsSecondLowest(rs, g, next)
  {
    var low: nat, second: nat := |rs|, |rs|;
    for i := 0 to |rs|
      invariant low <= i || low == |rs|
      invariant second <= i || second == |rs|
      invariant low == |rs| ==> second == |rs| && forall k :: 0 <= k < i ==> rs[k].face != g
      invariant low < |rs| ==> low < i && rs[low].face == g
      invariant low < |rs| && second == |rs| ==> forall k :: 0 <= k < i && k != low ==> rs[k].face != g
      invariant second < |rs| ==> second < i && second != low && rs[second].face == g && rs[low].cost <= rs[second].cost
      invariant second < |rs| ==>
                  forall k :: 0 <= k < i && k != second && k != low && rs[k].face == g ==> rs[second].cost <= rs[k].cost
    {
      if rs[i].face == g {
        if low == |rs| {
          low := i;
        } else if rs[i].cost < rs[low].cost {
          low, second := i, low;
        } else if second == |rs| || rs[i].cost < rs[second].cost {
          second := i;
        }
      }
    }
    if second == |rs| {
      next := None;
    } else {
      next := Some(rs[second]);
      assert SecondAt(rs, g, second, low);
    }
  }
}
