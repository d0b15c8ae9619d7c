/** The RIB as a value: a table from names to entries, and what inserting and erasing a route makes of it. */
module RibModel {
  import opened Names
  import opened Routes

  /** One RIB entry.  Parent and children are recorded by name, which identifies an entry. */
  datatype Entry = Entry(
    parent: Option<Name>, children: seq<Name>, routes: seq<Route>, inherited: seq<Route>, captures: nat)

  type Table = map<Name, Entry>

  /** Counters of the source are 64 bits wide. */
  const WORD := 0x1_0000_0000_0000_0000

  predicate HasCapture(e: Entry)
  {
    e.captures > 0
  }

  predicate HasFace(e: Entry, g: nat)
  {
    FindFace(e.routes, g).Some?
  }

  predicate HasInherited(e: Entry, g: nat)
  {
    FindFace(e.inherited, g).Some?
  }

  predicate HasChildInheritOnFace(e: Entry, g: nat)
  {
    FirstInheritable(e.routes, g).Some?
  }

  // ----- parents -----

  /** The search for a parent: proper prefixes of `n` shorter than `k`, longest first. */
  function FindParent(keys: set<Name>, n: Name, k: nat): (p: Option<Name>)
    requires k <= |n|
    ensures p.Some? ==> p.value in keys && p.value < n && |p.value| < k
    ensures forall i :: 0 <= i < k && n[..i] in keys ==> p.Some? && i <= |p.value|
  {
    if k == 0 then None
    else if n[..k - 1] in keys then Some(n[..k - 1])
    else FindParent(keys, n, k - 1)
  }

  function ParentOf(keys: set<Name>, n: Name): Option<Name>
  {
    FindParent(keys, n, |n|)
  }

  /** `o` is the longest proper prefix of `n` among the keys, or nothing when no key is a proper prefix. */
  ghost predicate IsLongestPrefix(keys: set<Name>, n: Name, o: Option<Name>)
  {
    match o
    case None => forall q :: q in keys ==> !(q < n)
    case Some(p) => p in keys && p < n && forall q :: q in keys && q < n ==> q <= p
  }

  lemma ParentIsLongestPrefix(keys: set<Name>, n: Name)
    ensures IsLongestPrefix(keys, n, ParentOf(keys, n))
  {
    var o := ParentOf(keys, n);
    forall q | q in keys && q < n
      ensures o.Some? && q <= o.value
    {
      assert q == n[..|q|];
    }
  }

  lemma LongestPrefixIsParent(keys: set<Name>, n: Name, o: Option<Name>)
    requires IsLongestPrefix(keys, n, o)
    ensures o == ParentOf(keys, n)
  {
    ParentIsLongestPrefix(keys, n);
    var p := ParentOf(keys, n);
    if o.Some? && p.Some? {
      assert o.value <= p.value && p.value <= o.value;
      PrefixesOfOne(o.value, p.value, n);
    }
  }

  lemma ParentAfterInsert(keys: set<Name>, p: Name, x: Name)
    requires p !in keys
    ensures ParentOf(keys + {p}, x) ==
            if p < x && ParentOf(keys, x) == ParentOf(keys, p) then Some(p) else ParentOf(keys, x)
  {
    ParentIsLongestPrefix(keys, x);
    ParentIsLongestPrefix(keys, p);
    var ox, op := ParentOf(keys, x), ParentOf(keys, p);
    if p < x {
      if ox.Some? && p <= ox.value {
        assert ox != op;
        LongestPrefixIsParent(keys + {p}, x, ox);
      } else {
        if ox.Some? {
          PrefixesOfOne(ox.value, p, x);
          PrefixesOfOne(p, ox.value, x);
          assert ox.value < p;
        }
        assert op.Some? ==> op.value < x;
        if ox.Some? && op.Some? {
          PrefixesOfOne(ox.value, op.value, x);
        }
        assert ox == op;
        LongestPrefixIsParent(keys + {p}, x, Some(p));
      }
    } else {
      LongestPrefixIsParent(keys + {p}, x, ox);
    }
  }

  lemma ParentAfterErase(keys: set<Name>, p: Name, x: Name)
    requires p in keys
    ensures ParentOf(keys - {p}, x) == if ParentOf(keys, x) == Some(p) then ParentOf(keys, p) else ParentOf(keys, x)
  {
    ParentIsLongestPrefix(keys, x);
    ParentIsLongestPrefix(keys, p);
    var ox, op := ParentOf(keys, x), ParentOf(keys, p);
    if ox == Some(p) {
      assert op.Some? ==> op.value < x;
      forall q | q in keys - {p} && q < x
        ensures op.Some? && q <= op.value
      {
        assert q <= p;
        PrefixesOfOne(q, p, x);
        assert q < p;
      }
      LongestPrefixIsParent(keys - {p}, x, op);
    } else {
      LongestPrefixIsParent(keys - {p}, x, ox);
    }
  }

  // ----- the tree invariant -----

  ghost predicate ParentsOk(T: Table)
  {
    forall n :: n in T ==> T[n].parent == ParentOf(T.Keys, n)
  }

  ghost predicate ChildrenOk(T: Table)
  {
    forall n :: n in T ==> NoDuplicates(T[n].children) && forall c :: c in T[n].children <==> c in T && T[c].parent == Some(n)
  }

  /** Every parent link leads to the longest proper prefix in the table, and the children lists are the exact
      duplicate-free inverse of the parent links. */
  ghost predicate TreeOk(T: Table)
  {
    ParentsOk(T) && ChildrenOk(T)
  }

  lemma ChildIsLonger(T: Table, n: Name, c: Name)
    requires TreeOk(T) && n in T && c in T[n].children
    ensures c in T && n < c
  {
    ParentIsLongestPrefix(T.Keys, c);
  }

  // ----- list surgery -----

  /** std::list::remove, for every name in `drop`. */
  function Except(s: seq<Name>, drop: seq<Name>): (r: seq<Name>)
    ensures forall y :: y in r <==> y in s && y !in drop
    ensures |r| <= |s|
  {
    if s == [] then []
    else if s[0] in drop then Except(s[1..], drop)
    else [s[0]] + Except(s[1..], drop)
  }

  lemma {:induction false} ExceptTwice(s: seq<Name>, a: seq<Name>, b: seq<Name>)
    ensures Except(Except(s, a), b) == Except(s, a + b)
  {
    if s == [] {
    } else {
      ExceptTwice(s[1..], a, b);
      if s[0] !in a {
        assert ([s[0]] + Except(s[1..], a))[1..] == Except(s[1..], a);
      }
    }
  }

  lemma {:induction false} ExceptConcat(s: seq<Name>, t: seq<Name>, drop: seq<Name>)
    ensures Except(s + t, drop) == Except(s, drop) + Except(t, drop)
  {
    if s == [] {
      assert s + t == t;
    } else {
      assert (s + t)[1..] == s[1..] + t;
      ExceptConcat(s[1..], t, drop);
    }
  }

  lemma {:induction false} ExceptNothing(s: seq<Name>, drop: seq<Name>)
    requires forall y :: y in s ==> y !in drop
    ensures Except(s, drop) == s
  {
    if s == [] {
    } else {
      assert s[0] in s;
      ExceptNothing(s[1..], drop);
    }
  }

  lemma {:induction false} ExceptNoDuplicates(s: seq<Name>, drop: seq<Name>)
    requires NoDuplicates(s)
    ensures NoDuplicates(Except(s, drop))
  {
    if s == [] {
    } else {
      ExceptNoDuplicates(s[1..], drop);
      assert s[0] !in s[1..];
    }
  }

  lemma {:induction false} ExceptSorted(keys: seq<Name>, p: Name)
    requires StrictlySorted(keys)
    ensures StrictlySorted(Except(keys, [p]))
  {
    if keys == [] {
    } else {
      ExceptSorted(keys[1..], p);
      var r := Except(keys[1..], [p]);
      forall i | 0 <= i < |r|
        ensures Less(keys[0], r[i])
      {
        assert r[i] in keys[1..];
      }
    }
  }

  lemma ConcatNoDuplicates(a: seq<Name>, b: seq<Name>)
    requires NoDuplicates(a) && NoDuplicates(b)
    requires forall x :: x in a ==> x !in b
    ensures NoDuplicates(a + b)
  {
    forall i, j | 0 <= i < j < |a + b|
      ensures (a + b)[i] != (a + b)[j]
    {
      if i < |a| <= j {
        assert a[i] in a && b[j - |a|] in b;
      }
    }
  }

  // ----- linking a new entry, unlinking an erased one -----

  /** The names in `names` whose parent is `q`, in the same order. */
  function WithParent(T: Table, names: seq<Name>, q: Option<Name>): (r: seq<Name>)
    requires forall x :: x in names ==> x in T
    ensures forall x :: x in r <==> x in names && T[x].parent == q
  {
    if names == [] then []
    else
      var n := |names| - 1;
      var r := WithParent(T, names[..n], q);
      assert names == names[..n] + [names[n]];
      if T[names[n]].parent == q then r + [names[n]] else r
  }

  lemma {:induction false} WithParentNoDuplicates(T: Table, names: seq<Name>, q: Option<Name>)
    requires forall x :: x in names ==> x in T
    requires NoDuplicates(names)
    ensures NoDuplicates(WithParent(T, names, q))
  {
    if names == [] {
    } else {
      var n := |names| - 1;
      WithParentNoDuplicates(T, names[..n], q);
      assert names[n] !in names[..n];
    }
  }

  /** The names whose parent becomes `p`, in map order: found by scanning the table once `p` is in it. */
  ghost function Adopted(T: Table, p: Name): (r: seq<Name>)
    ensures forall x :: x in r <==> x in T && p < x && T[x].parent == ParentOf(T.Keys, p)
  {
    WithParent(T, Under(Sorted(T.Keys + {p}), p), ParentOf(T.Keys, p))
  }

  /** The table with entry `e` for the new name `p` under parent `q`, after the names in `moved` went from `q` to `p`. */
  function Linked(T: Table, p: Name, e: Entry, q: Option<Name>, moved: seq<Name>): Table
  {
    map x | x in T.Keys + {p} ::
      if x == p then e.(parent := q, children := moved)
      else if q == Some(x) then T[x].(children := Except(T[x].children + [p], moved))
      else if x in moved then T[x].(parent := Some(p))
      else T[x]
  }

  /** The table without `p`, whose children went to its parent. */
  function Unlinked(T: Table, p: Name): Table
    requires p in T
  {
    var q, cs := T[p].parent, T[p].children;
    map x | x in T.Keys - {p} ::
      if q == Some(x) then T[x].(children := Except(T[x].children, [p]) + cs)
      else if x in cs then T[x].(parent := q)
      else T[x]
  }

  lemma AdoptedNoDuplicates(T: Table, p: Name)
    ensures NoDuplicates(Adopted(T, p))
  {
    var scan := Sorted(T.Keys + {p});
    UnderIsSorted(scan, p);
    SortedHasNoDuplicates(Under(scan, p));
    WithParentNoDuplicates(T, Under(scan, p), ParentOf(T.Keys, p));
  }

  lemma LinkedParentsOk(T: Table, p: Name, e: Entry)
    requires TreeOk(T) && p !in T
    ensures ParentsOk(Linked(T, p, e, ParentOf(T.Keys, p), Adopted(T, p)))
  {
    var q, moved := ParentOf(T.Keys, p), Adopted(T, p);
    var T' := Linked(T, p, e, q, moved);
    assert T'.Keys == T.Keys + {p};
    ParentIsLongestPrefix(T.Keys, p);
    forall x | x in T'
      ensures T'[x].parent == ParentOf(T'.Keys, x)
    {
      ParentAfterInsert(T.Keys, p, x);
      if x != p {
        assert x in moved <==> p < x && T[x].parent == q;
        assert T'[x].parent == if x in moved then Some(p) else T[x].parent;
      }
    }
  }

  /** Moving any set of children of `q` below the new `p` keeps children and parents inverse to each other. */
  lemma LinkedChildAt(T: Table, p: Name, e: Entry, q: Option<Name>, moved: seq<Name>, n: Name, c: Name)
    requires ChildrenOk(T) && p !in T && (q.Some? ==> q.value in T)
    requires forall x :: x in T ==> T[x].parent != Some(p)
    requires forall x :: x in moved ==> x in T && T[x].parent == q
    requires forall x :: x in moved ==> q != Some(x)
    requires n in T || n == p
    ensures var T' := Linked(T, p, e, q, moved);
            c in T'[n].children <==> c in T' && T'[c].parent == Some(n)
  {
    var T' := Linked(T, p, e, q, moved);
    if n == p {
      assert T'[n].children == moved;
    } else if q == Some(n) {
      assert T'[n].children == Except(T[n].children + [p], moved);
      assert c in T[n].children + [p] <==> c in T[n].children || c == p;
    } else {
      assert T'[n].children == T[n].children;
    }
  }

  lemma LinkedNoDuplicates(T: Table, p: Name, e: Entry, n: Name)
    requires TreeOk(T) && p !in T
    requires n in T || n == p
    ensures NoDuplicates(Linked(T, p, e, ParentOf(T.Keys, p), Adopted(T, p))[n].children)
  {
    AdoptedNoDuplicates(T, p);
    if n != p && ParentOf(T.Keys, p) == Some(n) {
      assert p !in T[n].children;
      assert NoDuplicates(T[n].children + [p]);
      ExceptNoDuplicates(T[n].children + [p], Adopted(T, p));
    }
  }

  lemma LinkedChildrenOk(T: Table, p: Name, e: Entry)
    requires TreeOk(T) && p !in T
    ensures ChildrenOk(Linked(T, p, e, ParentOf(T.Keys, p), Adopted(T, p)))
  {
    var T' := Linked(T, p, e, ParentOf(T.Keys, p), Adopted(T, p));
    ParentIsLongestPrefix(T.Keys, p);
    forall n | n in T'
      ensures NoDuplicates(T'[n].children) && forall c :: c in T'[n].children <==> c in T' && T'[c].parent == Some(n)
    {
      LinkedNoDuplicates(T, p, e, n);
      forall c
        ensures c in T'[n].children <==> c in T' && T'[c].parent == Some(n)
      {
        LinkedChildAt(T, p, e, ParentOf(T.Keys, p), Adopted(T, p), n, c);
      }
    }
  }

  lemma LinkedKeepsTree(T: Table, p: Name, e: Entry)
    requires TreeOk(T) && p !in T
    ensures TreeOk(Linked(T, p, e, ParentOf(T.Keys, p), Adopted(T, p)))
  {
    LinkedParentsOk(T, p, e);
    LinkedChildrenOk(T, p, e);
  }

  lemma UnlinkedParentsOk(T: Table, p: Name)
    requires TreeOk(T) && p in T
    ensures ParentsOk(Unlinked(T, p))
  {
    var T' := Unlinked(T, p);
    assert T'.Keys == T.Keys - {p};
    forall x | x in T'
      ensures T'[x].parent == ParentOf(T'.Keys, x)
    {
      ParentAfterErase(T.Keys, p, x);
      ParentIsLongestPrefix(T.Keys, p);
    }
  }

  lemma UnlinkedChildAt(T: Table, p: Name, n: Name, c: Name)
    requires TreeOk(T) && p in T && n in T && n != p
    ensures var T' := Unlinked(T, p);
            c in T'[n].children <==> c in T' && T'[c].parent == Some(n)
  {
    ParentIsLongestPrefix(T.Keys, p);
    assert c in T[n].children <==> c in T && T[c].parent == Some(n);
    assert c in T[p].children <==> c in T && T[c].parent == Some(p);
  }

  lemma UnlinkedNoDuplicates(T: Table, p: Name, n: Name)
    requires TreeOk(T) && p in T && n in T && n != p
    ensures NoDuplicates(Unlinked(T, p)[n].children)
  {
    if T[p].parent == Some(n) {
      ExceptNoDuplicates(T[n].children, [p]);
      ConcatNoDuplicates(Except(T[n].children, [p]), T[p].children);
    }
  }

  lemma UnlinkedChildrenOk(T: Table, p: Name)
    requires TreeOk(T) && p in T
    ensures ChildrenOk(Unlinked(T, p))
  {
    var T' := Unlinked(T, p);
    forall n | n in T'
      ensures NoDuplicates(T'[n].children) && forall c :: c in T'[n].children <==> c in T' && T'[c].parent == Some(n)
    {
      UnlinkedNoDuplicates(T, p, n);
      forall c
        ensures c in T'[n].children <==> c in T' && T'[c].parent == Some(n)
      {
        UnlinkedChildAt(T, p, n, c);
      }
    }
  }

  lemma UnlinkedKeepsTree(T: Table, p: Name)
    requires TreeOk(T) && p in T
    ensures TreeOk(Unlinked(T, p))
  {
    UnlinkedParentsOk(T, p);
    UnlinkedChildrenOk(T, p);
  }
}
