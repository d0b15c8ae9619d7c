/** Names, the order std::map keeps them in, and the two ways the RIB lists the names below a prefix. */
module Names {

  /** A name component; only the total order of the components matters to the RIB. */
  type Component = nat

  /** A name.  Dafny's `<=` and `<` on sequences are "is a prefix of" and "is a proper prefix of". */
  type Name = seq<Component>

  /** `a` comes before `b`: component by component, a proper prefix before its extensions. */
  predicate Less(a: Name, b: Name)
  {
    if b == [] then false
    else if a == [] then true
    else if a[0] != b[0] then a[0] < b[0]
    else Less(a[1..], b[1..])
  }

  lemma {:induction false} LessIrreflexive(a: Name)
    ensures !Less(a, a)
  {
    if a == [] {
    } else {
      LessIrreflexive(a[1..]);
    }
  }

  lemma {:induction false} LessTransitive(a: Name, b: Name, c: Name)
    requires Less(a, b) && Less(b, c)
    ensures Less(a, c)
  {
    if a != [] && a[0] == b[0] == c[0] {
      LessTransitive(a[1..], b[1..], c[1..]);
    }
  }

  lemma {:induction false} LessTotal(a: Name, b: Name)
    ensures a == b || Less(a, b) || Less(b, a)
  {
    if a != [] && b != [] && a[0] == b[0] {
      LessTotal(a[1..], b[1..]);
      assert a[1..] == b[1..] ==> a == [a[0]] + a[1..] == b;
    }
  }

  /** Two prefixes of one name are prefixes of each other, the shorter of the longer. */
  lemma PrefixesOfOne(a: Name, b: Name, x: Name)
    requires a <= x && b <= x
    ensures |a| <= |b| ==> a <= b
    ensures |a| == |b| ==> a == b
  {
    assert a == x[..|a|] && b == x[..|b|];
  }

  /** A name comes before all of its proper extensions. */
  lemma {:induction false} PrefixComesFirst(p: Name, x: Name)
    requires p < x
    ensures Less(p, x)
  {
    if p == [] {
    } else {
      assert p[1..] < x[1..];
      PrefixComesFirst(p[1..], x[1..]);
    }
  }

  /** All extensions of a name sit together: nothing between a name and one of its extensions is not
      an extension too. */
  lemma {:induction false} ExtensionsContiguous(p: Name, y: Name, z: Name)
    requires p <= z
    requires Less(p, y) && Less(y, z)
    ensures p <= y
  {
    if p == [] {
    } else {
      LessTransitive(p, y, z);
      assert p[1..] <= z[1..];
      ExtensionsContiguous(p[1..], y[1..], z[1..]);
      assert p == [p[0]] + p[1..] && y == [y[0]] + y[1..];
    }
  }

  ghost predicate StrictlySorted(s: seq<Name>)
  {
    forall i, j :: 0 <= i < j < |s| ==> Less(s[i], s[j])
  }

  ghost predicate NoDuplicates<T>(s: seq<T>)
  {
    forall i, j :: 0 <= i < j < |s| ==> s[i] != s[j]
  }

  lemma SortedHasNoDuplicates(s: seq<Name>)
    requires StrictlySorted(s)
    ensures NoDuplicates(s)
  {
    forall i, j | 0 <= i < j < |s|
      ensures s[i] != s[j]
    {
      assert Less(s[i], s[j]);
      LessIrreflexive(s[i]);
    }
  }

  lemma NoMembersIsEmpty<T>(s: seq<T>)
    ensures s == [] <==> forall x :: x !in s
  {
    assert |s| > 0 ==> s[0] in s;
  }

  /** A strictly sorted sequence is determined by its elements. */
  lemma {:induction false} SortedIsUnique(a: seq<Name>, b: seq<Name>)
    requires StrictlySorted(a) && StrictlySorted(b)
    requires forall x :: x in a <==> x in b
    ensures a == b
  {
    NoMembersIsEmpty(a);
    NoMembersIsEmpty(b);
    if a != [] && b != [] {
      SameFirst(a, b);
      SortedHasNoDuplicates(a);
      SortedHasNoDuplicates(b);
      forall x
        ensures x in a[1..] <==> x in b[1..]
      {
        TailMembers(a, x);
        TailMembers(b, x);
      }
      SortedIsUnique(a[1..], b[1..]);
      assert a == [a[0]] + a[1..] && b == [b[0]] + b[1..];
    }
  }

  lemma SameFirst(a: seq<Name>, b: seq<Name>)
    requires StrictlySorted(a) && StrictlySorted(b)
    requires a != [] && b != []
    requires forall x :: x in a <==> x in b
    ensures a[0] == b[0]
  {
    if a[0] != b[0] {
      assert a[0] in b && b[0] in a;
      var i :| 0 <= i < |b| && b[i] == a[0];
      var j :| 0 <= j < |a| && a[j] == b[0];
      assert Less(b[0], b[i]) && Less(a[0], a[j]);
      LessTransitive(a[0], b[0], a[0]);
      LessIrreflexive(a[0]);
    }
  }

  lemma TailMembers<T>(a: seq<T>, x: T)
    requires a != [] && NoDuplicates(a)
    ensures x in a[1..] <==> x in a && x != a[0]
  {
    if x in a && x != a[0] {
      var i :| 0 <= i < |a| && a[i] == x;
      assert a[1..][i - 1] == x;
    }
  }

  /** The keys of `keys` that properly extend `p`, in the order they have in `keys`. */
  function Under(keys: seq<Name>, p: Name): (r: seq<Name>)
    ensures forall x :: x in r <==> x in keys && p < x
  {
    if keys == [] then []
    else
      var k := keys[|keys| - 1];
      var r := Under(keys[..|keys| - 1], p);
      assert forall x :: x in keys <==> x in keys[..|keys| - 1] || x == k;
      if p < k then r + [k] else r
  }

  /** Rib::findDescendantsForNonInsertedName: goes through all the names. */
  method ScanFrom(keys: seq<Name>, p: Name) returns (found: seq<Name>)
    ensures forall n :: n in found <==> n in keys && p <= n
    ensures p !in keys ==> found == Under(keys, p)
  {
    found := [];
    for i := 0 to |keys|
      invariant p !in keys ==> found == Under(keys[..i], p)
      invariant forall n :: n in found <==> n in keys[..i] && p <= n
    {
      assert keys[i] in keys;
      assert keys[..i + 1][..i] == keys[..i] && keys[..i + 1] == keys[..i] + [keys[i]];
      if p <= keys[i] {
        PrefixesOfOne(p, keys[i], keys[i]);
        found := found + [keys[i]];
      }
    }
    assert keys[..|keys|] == keys;
  }

  lemma {:induction false} UnderIsSorted(keys: seq<Name>, p: Name)
    requires StrictlySorted(keys)
    ensures StrictlySorted(Under(keys, p))
  {
    if keys == [] {
    } else {
      var n := |keys| - 1;
      UnderIsSorted(keys[..n], p);
      var r := Under(keys[..n], p);
      forall i | 0 <= i < |r|
        ensures Less(r[i], keys[n])
      {
        assert r[i] in keys[..n];
        var j :| 0 <= j < n && keys[j] == r[i];
      }
    }
  }

  lemma {:induction false} UnderConcat(a: seq<Name>, b: seq<Name>, p: Name)
    ensures Under(a + b, p) == Under(a, p) + Under(b, p)
  {
    if b == [] {
      assert a + b == a;
    } else {
      var n := |b| - 1;
      assert (a + b)[..|a + b| - 1] == a + b[..n];
      UnderConcat(a, b[..n], p);
    }
  }

  lemma UnderNothing(keys: seq<Name>, p: Name)
    requires forall i :: 0 <= i < |keys| ==> !(p < keys[i])
    ensures Under(keys, p) == []
  {
    assert Under(keys, p) != [] ==> Under(keys, p)[0] in Under(keys, p);
  }

  lemma UnderMiddle(a: seq<Name>, b: seq<Name>, c: seq<Name>, p: Name)
    requires forall i :: 0 <= i < |a| ==> !(p < a[i])
    requires forall i :: 0 <= i < |c| ==> !(p < c[i])
    ensures Under(a + b + c, p) == Under(b, p)
  {
    UnderNothing(a, p);
    UnderNothing(c, p);
    UnderConcat(a + b, c, p);
    UnderConcat(a, b, p);
  }

  /** In sorted keys nothing up to `p` itself extends it. */
  lemma NothingBefore(keys: seq<Name>, p: Name, at: nat, i: nat)
    requires StrictlySorted(keys)
    requires i <= at < |keys| && keys[at] == p
    ensures !(p < keys[i])
  {
    if p < keys[i] {
      PrefixComesFirst(p, keys[i]);
      LessTransitive(p, keys[i], p);
      LessIrreflexive(p);
    }
  }

  /** Once a key past `p` does not extend it, no later one does. */
  lemma NothingAfter(keys: seq<Name>, p: Name, at: nat, stop: nat, i: nat)
    requires StrictlySorted(keys)
    requires at < stop <= i < |keys| && keys[at] == p
    requires !(p <= keys[stop])
    ensures !(p < keys[i])
  {
    if p < keys[i] && i != stop {
      ExtensionsContiguous(p, keys[stop], keys[i]);
    }
  }

  /** The scan that starts after `p` and stops at the first key not extending it misses nothing. */
  lemma ScanMayStop(keys: seq<Name>, p: Name, at: nat, stop: nat)
    requires StrictlySorted(keys)
    requires at < stop <= |keys| && keys[at] == p
    requires stop < |keys| ==> !(p <= keys[stop])
    ensures Under(keys, p) == Under(keys[at + 1..stop], p)
  {
    var a, b, c := keys[..at + 1], keys[at + 1..stop], keys[stop..];
    forall i | 0 <= i < |a|
      ensures !(p < a[i])
    {
      NothingBefore(keys, p, at, i);
    }
    forall i | 0 <= i < |c|
      ensures !(p < c[i])
    {
      NothingAfter(keys, p, at, stop, stop + i);
    }
    assert keys == a + b + c;
    UnderMiddle(a, b, c, p);
  }

  lemma {:induction false} LeastOf(s: set<Name>) returns (m: Name)
    requires s != {}
    ensures m in s && forall x :: x in s && x != m ==> Less(m, x)
  {
    var y :| y in s;
    var rest := s - {y};
    assert s == rest + {y};
    m := y;
    if rest == {} {
    } else {
      var k := LeastOf(rest);
      LessTotal(k, y);
      if Less(k, y) {
        m := k;
      } else {
        forall x | x in rest && x != k
          ensures Less(y, x)
        {
          LessTransitive(y, k, x);
        }
      }
    }
  }

  lemma LeastExists(s: set<Name>)
    requires s != {}
    ensures exists m :: m in s && forall x :: x in s && x != m ==> Less(m, x)
  {
    var m := LeastOf(s);
  }

  /** The order in which a std::map with the keys `s` is traversed. */
  ghost function Sorted(s: set<Name>): (r: seq<Name>)
    ensures StrictlySorted(r)
    ensures forall x :: x in r <==> x in s
  {
    if s == {} then []
    else
      LeastExists(s);
      var m :| m in s && forall x :: x in s && x != m ==> Less(m, x);
      [m] + Sorted(s - {m})
  }

  /** Where std::map puts a new key. */
  function InsertKey(keys: seq<Name>, p: Name): (r: seq<Name>)
    ensures forall x :: x in r <==> x in keys || x == p
  {
    if keys == [] then [p]
    else if Less(p, keys[0]) then [p] + keys
    else [keys[0]] + InsertKey(keys[1..], p)
  }

  lemma {:induction false} InsertKeySorted(keys: seq<Name>, p: Name)
    requires StrictlySorted(keys) && p !in keys
    ensures StrictlySorted(InsertKey(keys, p))
  {
    if keys == [] {
    } else {
      LessTotal(p, keys[0]);
      assert keys[0] in keys;
      if Less(p, keys[0]) {
        forall i | 1 <= i < |keys|
          ensures Less(p, keys[i])
        {
          LessTransitive(p, keys[0], keys[i]);
        }
      } else {
        InsertKeySorted(keys[1..], p);
        var r := InsertKey(keys[1..], p);
        forall i | 0 <= i < |r|
          ensures Less(keys[0], r[i])
        {
          assert r[i] in r;
        }
      }
    }
  }
}
