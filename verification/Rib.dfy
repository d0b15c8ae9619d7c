/** The RIB as objects: the entries, the table that owns them, the face index and the queue of updates. */
module RibClass {
  import opened Names
  import opened Routes
  import opened RibModel
  import opened RibOps
  import opened Inheritance
  import opened Updates
  import opened Compute
  import opened CommitSafety
  import opened System
  import opened FaceRemoval
  import opened FibUpdaterClass

  /** An entry.  Names identify entries, so a link is the name of the entry it leads to. */
  class RibEntry {
    const name: Name
    var parent: Option<Name>
    var children: seq<Name>
    var routes: seq<Route>
    var inherited: seq<Route>
    var nRoutesWithCaptureSet: nat

    constructor (n: Name)
      ensures name == n && Value() == Entry(None, [], [], [], 0)
    {
      name, parent, children, routes, inherited, nRoutesWithCaptureSet := n, None, [], [], [], 0;
    }

    /** The entry as a value. */
    ghost function Value(): Entry
      reads this
    {
      Entry(parent, children, routes, inherited, nRoutesWithCaptureSet)
    }

    /** Inserts the route unless one with the same face and origin is there; tells where it is and whether it is new. */
    method InsertRoute(r: Route) returns (at: nat, didInsert: bool)
      modifies this`routes, this`nRoutesWithCaptureSet
      ensures at == FindRoute(old(routes), r.face, r.origin) && didInsert == (at == |old(routes)|)
      ensures routes == (if didInsert then old(routes) + [r] else old(routes))
      ensures nRoutesWithCaptureSet == old(nRoutesWithCaptureSet) + Bit(didInsert && r.flags.capture)
    {
      at := FindRoute(routes, r.face, r.origin);
      didInsert := at == |routes|;
      if didInsert {
        if r.flags.capture {
          nRoutesWithCaptureSet := nRoutesWithCaptureSet + 1;
        }
        routes := routes + [r];
      }
    }

    /** Inserts the route, or overwrites the one with the same face and origin without touching the counter. */
    method PutRoute(r: Route) returns (didInsert: bool)
      modifies this`routes, this`nRoutesWithCaptureSet
      ensures Value() == EntryWith(old(Value()), r)
      ensures didInsert == (FindRoute(old(routes), r.face, r.origin) == |old(routes)|)
    {
      var at;
      at, didInsert := InsertRoute(r);
      if !didInsert {
        routes := routes[at := r];
      }
    }

    /** The counter is unsigned and wraps around below zero. */
    method EraseRoute(r: Route)
      modifies this`routes, this`nRoutesWithCaptureSet
      ensures Value() == EntryWithout(old(Value()), r)
    {
      var at := FindRoute(routes, r.face, r.origin);
      if at != |routes| {
        if routes[at].flags.capture {
          nRoutesWithCaptureSet := if nRoutesWithCaptureSet == 0 then WORD - 1 else nRoutesWithCaptureSet - 1;
        }
        routes := EraseAt(routes, at);
      }
    }

    /** The precondition is the assertion in the source. */
    method AddChild(child: RibEntry)
      requires child.parent == None
      modifies this`children, child`parent
      ensures child.parent == Some(name) && children == old(children) + [child.name]
    {
      child.parent := Some(name);
      children := children + [child.name];
    }

    /** The precondition is the assertion in the source. */
    method RemoveChild(child: RibEntry)
      requires child.parent == Some(name)
      modifies this`children, child`parent
      ensures child.parent == None && children == Except(old(children), [child.name])
    {
      child.parent := None;
      children := Except(children, [child.name]);
    }

    method AddInheritedRoute(r: Route)
      modifies this`inherited
      ensures inherited == old(inherited) + [r]
    {
      inherited := inherited + [r];
    }

    method RemoveInheritedRoute(r: Route)
      modifies this`inherited
      ensures inherited == DropFace(old(inherited), r.face)
    {
      inherited := DropFace(inherited, r.face);
    }
  }

  class Rib {
    /** The keys of the map in map order. */
    var keys: seq<Name>
    var table: map<Name, RibEntry>
    var faceMap: map<nat, seq<Name>>
    var nItems: int
    var updateBatches: seq<RibUpdate>
    var isUpdateInProgress: bool

    constructor ()
      ensures Valid() && State() == EMPTY && fresh(table.Values) && updateBatches == [] && !isUpdateInProgress
    {
      keys, table, faceMap, nItems, updateBatches, isUpdateInProgress := [], map[], map[], 0, [], false;
      new;
      assert State() == EMPTY;
    }

    /** The table maps every key to the entry of that name. */
    ghost predicate Keyed()
      reads this`keys, this`table
    {
      StrictlySorted(keys) && (forall n :: n in keys <==> n in table) && (forall n :: n in table ==> table[n].name == n)
    }

    ghost function Values(): Table
      reads this`table, table.Values
    {
      map n | n in table :: table[n].Value()
    }

    ghost function State(): RibState
      reads this`table, this`faceMap, this`nItems, table.Values
    {
      RibState(Values(), faceMap, nItems)
    }

    ghost predicate Valid()
      reads this`keys, this`table, this`faceMap, this`nItems, table.Values
    {
      Keyed() && RibOk(State())
    }

    // ----- lookups -----

    method FindParent(prefix: Name) returns (p: Option<Name>)
      ensures p == ParentOf(table.Keys, prefix)
    {
      for i := |prefix| downto 0
        invariant RibModel.FindParent(table.Keys, prefix, |prefix|) == RibModel.FindParent(table.Keys, prefix, i)
      {
        if prefix[..i] in table {
          return Some(prefix[..i]);
        }
      }
      return None;
    }

    /** Scans the map from just after the prefix and stops at the first name that does not extend it.  The result is the
        same as filtering the whole table, in the same order. */
    method FindDescendants(prefix: Name) returns (found: seq<Name>)
      requires Keyed()
      ensures found == if prefix in table then Under(keys, prefix) else []
    {
      found := [];
      if prefix in table {
        var at: nat :| at < |keys| && keys[at] == prefix;
        var i := at + 1;
        while i < |keys| && prefix <= keys[i]
          invariant at < i <= |keys|
          invariant found == Under(keys[at + 1..i], prefix)
        {
          ExtendsProperly(keys, prefix, at, i);
          assert keys[at + 1..i + 1][..|keys[at + 1..i + 1]| - 1] == keys[at + 1..i];
          found := found + [keys[i]];
          i := i + 1;
        }
        ScanMayStop(keys, prefix, at, i);
      }
    }

    method FindDescendantsForNonInsertedName(prefix: Name) returns (found: seq<Name>)
      requires Keyed()
      ensures prefix !in table ==> found == Under(keys, prefix)
      ensures forall n :: n in found <==> n in table && prefix <= n
    {
      found := ScanFrom(keys, prefix);
    }

    // ----- ancestor routes -----

    /** Collects inheritable routes from an entry upwards, up to and including the first capturing one. */
    method CollectRoutes(from: Option<Name>) returns (ancestorRoutes: seq<Route>)
      requires ParentsOk(Values()) && (from.Some? ==> from.value in table)
      ensures ancestorRoutes == AncestorWalk(Values(), from, [])
    {
      ghost var T := Values();
      ancestorRoutes := [];
      var parent := from;
      while parent.Some?
        invariant parent.Some? ==> parent.value in table
        invariant FaceSorted(ancestorRoutes)
        invariant AncestorWalk(T, from, []) == AncestorWalk(T, parent, ancestorRoutes)
        decreases if parent.None? then 0 else |parent.value| + 1
      {
        ghost var before := ancestorRoutes;
        var entry := table[parent.value];
        assert T[parent.value] == entry.Value();
        for i := 0 to |entry.routes|
          invariant FaceSorted(ancestorRoutes)
          invariant InsertInheritable(before, entry.routes) == InsertInheritable(ancestorRoutes, entry.routes[i..])
        {
          assert entry.routes[i..][1..] == entry.routes[i + 1..];
          if entry.routes[i].flags.childInherit {
            ancestorRoutes := InsertFace(ancestorRoutes, entry.routes[i]);
          }
        }
        assert entry.routes[|entry.routes|..] == [];
        if entry.nRoutesWithCaptureSet > 0 {
          return;
        }
        ParentIsLongestPrefix(T.Keys, parent.value);
        parent := entry.parent;
      }
    }

    method GetAncestorRoutesOfEntry(entry: RibEntry) returns (ancestorRoutes: seq<Route>)
      requires ParentsOk(Values()) && (entry.parent.Some? ==> entry.parent.value in table)
      ensures ancestorRoutes == AncestorRoutesOfEntry(Values(), entry.Value())
    {
      ancestorRoutes := CollectRoutes(entry.parent);
    }

    /** For each face the first inheritable route of the nearest ancestor that has one, up to the first capturing one. */
    method GetAncestorRoutes(name: Name) returns (ancestorRoutes: seq<Route>)
      requires ParentsOk(Values())
      ensures ancestorRoutes == AncestorRoutes(Values(), name)
      ensures forall g :: FindFace(ancestorRoutes, g) == FromAbove(Values(), name, g)
    {
      var parent := FindParent(name);
      assert Values().Keys == table.Keys;
      ParentIsLongestPrefix(table.Keys, name);
      ancestorRoutes := CollectRoutes(parent);
      forall g
        ensures FindFace(ancestorRoutes, g) == FromAbove(Values(), name, g)
      {
        AncestorRoutesFind(Values(), name, g);
      }
    }

    /** One REMOVE_FACE update for every route on the face, entry by entry as the face index lists them. */
    method FindRoutesWithFaceId(faceId: nat) returns (routes: seq<RibUpdate>)
      requires ListedOk(Values(), Listed(faceMap, faceId))
      ensures routes == FaceUpdates(Values(), Listed(faceMap, faceId), faceId)
    {
      routes := [];
      if faceId in faceMap {
        var names := faceMap[faceId];
        for i := 0 to |names|
          invariant routes == FaceUpdates(Values(), names[..i], faceId)
        {
          assert names[i] in names && Values().Keys == table.Keys;
          var entry := table[names[i]];
          assert names[..i + 1][..i] == names[..i];
          assert Values()[names[i]] == entry.Value();
          ghost var before := routes;
          for j := 0 to |entry.routes|
            invariant routes == before + RoutesOn(names[i], entry.routes[..j], faceId)
          {
            assert entry.routes[..j + 1][..j] == entry.routes[..j];
            if entry.routes[j].face == faceId {
              routes := routes + [RibUpdate(RemoveFace, names[i], entry.routes[j])];
            }
          }
          assert entry.routes[..|entry.routes|] == entry.routes;
        }
        assert names[..|names|] == names;
      }
    }

    // ----- inserting -----

    /** When only two entries change, the table changes at their names. */
    lemma OnlyTheseChanged(before: Table, a: Name, b: Name)
      requires Keyed() && a in table && b in table && before.Keys == table.Keys
      requires forall n :: n in table && n != a && n != b ==> table[n].Value() == before[n]
      ensures Values() == before[a := table[a].Value()][b := table[b].Value()]
    {
    }

    lemma OnlyThisChanged(before: Table, a: Name)
      requires a in table && before.Keys == table.Keys
      requires forall n :: n in table && n != a ==> table[n].Value() == before[n]
      ensures Values() == before[a := table[a].Value()]
    {
    }

    /** parent->removeChild(child), seen from the table. */
    method Detach(parent: Name, child: Name)
      requires Keyed() && parent in table && child in table && table[child].parent == Some(parent) && child != parent
      modifies table[parent], table[child]
      ensures Values() == Detached(old(Values()), parent, child)
    {
      ghost var before := Values();
      table[parent].RemoveChild(table[child]);
      OnlyTheseChanged(before, parent, child);
    }

    /** entry->addChild(child), seen from the table. */
    method Attach(entry: Name, child: Name)
      requires Keyed() && entry in table && child in table && table[child].parent == None && child != entry
      modifies table[entry], table[child]
      ensures Values() == Attached(old(Values()), entry, child)
    {
      ghost var before := Values();
      table[entry].AddChild(table[child]);
      OnlyTheseChanged(before, entry, child);
    }

    /** Puts a route into an entry; tells whether the route is new. */
    method PutRoute(prefix: Name, route: Route) returns (didInsert: bool)
      requires Keyed() && prefix in table
      modifies table[prefix]
      ensures Values() == old(Values())[prefix := EntryWith(old(Values())[prefix], route)]
      ensures didInsert == !Holds(old(Values()), prefix, route)
    {
      ghost var before := Values();
      assert forall n :: n in table && n != prefix ==> table[n] != table[prefix];
      didInsert := table[prefix].PutRoute(route);
      OnlyThisChanged(before, prefix);
    }

    /** A new entry in the table, not yet linked. */
    method NewEntry(prefix: Name)
      requires Keyed() && prefix !in table
      modifies this`keys, this`table
      ensures Keyed() && prefix in table && fresh(table[prefix]) && table == old(table)[prefix := table[prefix]]
      ensures Values() == old(Values())[prefix := Entry(None, [], [], [], 0)]
    {
      ghost var before := Values();
      var entry := new RibEntry(prefix);
      assert entry !in table.Values;
      InsertKeySorted(keys, prefix);
      keys, table := InsertKey(keys, prefix), table[prefix := entry];
      OnlyTheseChanged(before[prefix := Entry(None, [], [], [], 0)], prefix, prefix);
    }

    /** A new entry with one route, not yet linked. */
    method CreateEntry(prefix: Name, route: Route)
      requires Keyed() && prefix !in table
      modifies this`keys, this`table
      ensures Keyed() && prefix in table && fresh(table[prefix]) && table == old(table)[prefix := table[prefix]]
      ensures Values() == old(Values())[prefix := RibOps.NewEntry(route)]
    {
      ghost var T := Values();
      NewEntry(prefix);
      var didInsert := PutRoute(prefix, route);
      NewEntryWith(T, prefix, route);
    }

    /** Adds an unlinked entry to the children of its parent, if it has one. */
    method LinkToParent(prefix: Name) returns (parent: Option<Name>)
      requires Keyed() && prefix in table && table[prefix].parent == None
      modifies table.Values
      ensures parent == ParentOf(table.Keys, prefix) && (parent.Some? ==> parent.value in table && parent.value != prefix)
      ensures Values() == if parent.Some? then Attached(old(Values()), parent.value, prefix) else old(Values())
    {
      parent := FindParent(prefix);
      ParentIsLongestPrefix(table.Keys, prefix);
      if parent.Some? {
        Attach(parent.value, prefix);
      }
    }

    /** Moves a child from its parent, if it has one, to another entry. */
    method MoveChild(from: Option<Name>, to: Name, child: Name)
      requires Keyed() && to in table && child in table && (from.Some? ==> from.value in table)
      requires child != to && from != Some(child) && table[child].parent == from
      modifies table.Values
      ensures Values() == MovedChild(old(Values()), from, to, child)
    {
      if from.Some? {
        Detach(from.value, child);
      }
      assert table[child].Value() == Values()[child];
      Attach(to, child);
    }

    /** Moves the descendants that have the same parent as the new entry below the new entry. */
    method AdoptChildren(prefix: Name, parent: Option<Name>, children: seq<Name>, ghost T: Table, ghost e: Entry)
      requires Keyed() && prefix !in T && NoDuplicates(children)
      requires forall x :: x in children ==> x in T && parent != Some(x)
      requires parent.Some? ==> parent.value in T
      requires Values() == Linked(T, prefix, e, parent, [])
      modifies table.Values
      ensures Values() == Linked(T, prefix, e, parent, WithParent(T, children, parent))
    {
      assert children[..0] == [];
      for i := 0 to |children|
        invariant Values() == Linked(T, prefix, e, parent, WithParent(T, children[..i], parent))
      {
        var child := children[i];
        assert children[..i + 1][..i] == children[..i];
        ghost var moved := WithParent(T, children[..i], parent);
        NotYetMoved(T, prefix, e, parent, moved, child);
        assert table[child].Value() == Values()[child];
        if table[child].parent == parent {
          LinkedStep(T, prefix, e, parent, moved, child);
          MoveChild(parent, prefix, child);
        }
      }
      assert children[..|children|] == children;
    }

    /** A new entry, linked to its parent. */
    method PlaceEntry(prefix: Name, route: Route) returns (parent: Option<Name>)
      requires Keyed() && prefix !in table
      modifies this`keys, this`table, table.Values
      ensures Keyed() && table.Keys == old(Values()).Keys + {prefix} && fresh(table.Values - old(table.Values))
      ensures parent == ParentOf(old(Values()).Keys, prefix) && (parent.Some? ==> parent.value in old(Values()))
      ensures Values() == Linked(old(Values()), prefix, RibOps.NewEntry(route), parent, [])
    {
      ghost var T := Values();
      CreateEntry(prefix, route);
      assert table[prefix].Value() == Values()[prefix];
      parent := LinkToParent(prefix);
      assert table.Keys == T.Keys + {prefix};
      ParentAfterInsert(T.Keys, prefix, prefix);
      LinkedStart(T, prefix, RibOps.NewEntry(route), parent);
    }

    method ChildrenToAdopt(prefix: Name, ghost T: Table) returns (children: seq<Name>)
      requires Keyed() && prefix !in T && table.Keys == T.Keys + {prefix}
      ensures NoDuplicates(children)
      ensures forall x :: x in children ==> x in T && ParentOf(T.Keys, prefix) != Some(x)
      ensures WithParent(T, children, ParentOf(T.Keys, prefix)) == Adopted(T, prefix)
    {
      children := FindDescendants(prefix);
      assert forall n :: n in keys <==> n in table.Keys;
      ScanFindsAdopted(T, keys, prefix);
    }

    /** A new name: a new entry, linked to its parent, with the descendants that were its parent's children. */
    method InsertEntry(prefix: Name, route: Route) returns (parent: Option<Name>, ghost moved: seq<Name>)
      requires Keyed() && prefix !in table
      modifies this`keys, this`table, table.Values
      ensures Keyed() && fresh(table.Values - old(table.Values))
      ensures parent == ParentOf(old(Values()).Keys, prefix) && moved == Adopted(old(Values()), prefix)
      ensures Values() == Linked(old(Values()), prefix, RibOps.NewEntry(route), parent, moved)
    {
      ghost var T := Values();
      parent := PlaceEntry(prefix, route);
      var children := ChildrenToAdopt(prefix, T);
      moved := WithParent(T, children, parent);
      AdoptChildren(prefix, parent, children, T, RibOps.NewEntry(route));
    }

    /** Puts the route into the entry of that name, old or new; tells whether the route is new. */
    method InsertIntoTable(prefix: Name, route: Route) returns (didInsert: bool)
      requires Keyed()
      modifies this`keys, this`table, table.Values
      ensures Keyed() && fresh(table.Values - old(table.Values))
      ensures Values() == InsertTable(old(Values()), prefix, route)
      ensures didInsert == !Holds(old(Values()), prefix, route)
    {
      if prefix in table {
        didInsert := PutRoute(prefix, route);
        assert Values() == InsertTable(old(Values()), prefix, route);
      } else {
        var parent, moved := InsertEntry(prefix, route);
        didInsert := true;
        assert Values() == InsertTable(old(Values()), prefix, route);
      }
    }

    /** Inserting, without looking at the invariants it keeps. */
    method InsertRoute(prefix: Name, route: Route)
      requires Keyed()
      modifies this`keys, this`table, this`faceMap, this`nItems, table.Values
      ensures Keyed() && fresh(table.Values - old(table.Values))
      ensures State() == RibOps.Insert(old(State()), prefix, route)
    {
      var didInsert := InsertIntoTable(prefix, route);
      if didInsert {
        IndexRoute(prefix, route.face);
      }
    }

    /** Lists the entry under the face of its new route, and counts the route. */
    method IndexRoute(prefix: Name, face: nat)
      modifies this`faceMap, this`nItems
      ensures State() == RibState(old(Values()), old(faceMap)[face := Listed(old(faceMap), face) + [prefix]], old(nItems) + 1)
    {
      nItems := nItems + 1;
      faceMap := faceMap[face := Listed(faceMap, face) + [prefix]];
    }

    method Insert(prefix: Name, route: Route)
      requires Valid()
      modifies this`keys, this`table, this`faceMap, this`nItems, table.Values
      ensures Valid() && State() == RibOps.Insert(old(State()), prefix, route)
      ensures fresh(table.Values - old(table.Values))
    {
      InsertKeepsRib(State(), prefix, route);
      InsertRoute(prefix, route);
    }

    // ----- erasing -----

    /** Moves a child of an entry to the entry's parent, if it has one. */
    method MoveUp(prefix: Name, parent: Option<Name>, child: Name)
      requires Keyed() && prefix in table && child in table && (parent.Some? ==> parent.value in table && parent.value != child)
      requires child != prefix && table[child].parent == Some(prefix)
      modifies table.Values
      ensures Values() == MovedUp(old(Values()), prefix, parent, child)
    {
      Detach(prefix, child);
      if parent.Some? {
        assert table[child].Value() == Values()[child];
        Attach(parent.value, child);
      }
    }

    /** One turn of the loop, with the first `i` children already moved up. */
    method MoveChildUp(prefix: Name, parent: Option<Name>, child: Name, ghost T: Table, ghost i: nat)
      requires Keyed() && Placed(T, prefix) && i < |T[prefix].children| && Values() == Unlinking(T, prefix, i)
      requires parent == T[prefix].parent && child == T[prefix].children[i]
      modifies table.Values
      ensures Values() == Unlinking(T, prefix, i + 1)
    {
      UnlinkingStep(T, prefix, i);
      assert ChildPlaced(T, prefix, child);
      assert table.Keys == Values().Keys == T.Keys;
      assert table[child].Value() == Values()[child];
      MoveUp(prefix, parent, child);
    }

    method MoveChildrenUp(prefix: Name, parent: Option<Name>, children: seq<Name>, ghost T: Table)
      requires Keyed() && Placed(T, prefix) && Values() == Unlinking(T, prefix, 0)
      requires parent == T[prefix].parent && children == T[prefix].children
      modifies table.Values
      ensures Values() == Unlinking(T, prefix, |children|)
    {
      for i := 0 to |children|
        invariant Values() == Unlinking(T, prefix, i)
      {
        MoveChildUp(prefix, parent, children[i], T, i);
      }
    }

    method DropEntry(prefix: Name)
      requires Keyed()
      modifies this`keys, this`table
      ensures Keyed() && table == old(table) - {prefix}
      ensures Values() == old(Values()) - {prefix}
    {
      ExceptSorted(keys, prefix);
      keys, table := Except(keys, [prefix]), table - {prefix};
    }

    /** Takes an entry out of the tree and gives its children to its parent. */
    method EraseEntry(prefix: Name)
      requires Keyed() && Placed(Values(), prefix)
      modifies this`keys, this`table, table.Values
      ensures Keyed() && table == old(table) - {prefix}
      ensures Values() == Unlinked(old(Values()), prefix)
    {
      ghost var T := Values();
      assert table[prefix].Value() == T[prefix];
      var parent, children := table[prefix].parent, table[prefix].children;
      UnlinkingStart(T, prefix);
      UnlinkingDone(T, prefix);
      if parent.Some? {
        Detach(parent.value, prefix);
      }
      MoveChildrenUp(prefix, parent, children, T);
      DropEntry(prefix);
    }

    /** Takes a route out of an entry. */
    method EraseFrom(prefix: Name, route: Route)
      requires Keyed() && prefix in table
      modifies table[prefix]
      ensures Values() == old(Values())[prefix := EntryWithout(old(Values())[prefix], route)]
    {
      ghost var before := Values();
      table[prefix].EraseRoute(route);
      OnlyTheseChanged(before, prefix, prefix);
    }

    /** Takes a route out of an entry, and the entry out of the face index if it was its last on the face. */
    method TakeRoute(prefix: Name, route: Route)
      requires Keyed() && prefix in table
      modifies this`faceMap, this`nItems, table[prefix]
      ensures Values() == old(Values())[prefix := EntryWithout(old(Values())[prefix], route)]
      ensures nItems == old(nItems) - 1
      ensures faceMap == if HasFace(EntryWithout(old(Values())[prefix], route), route.face) then old(faceMap)
                         else old(faceMap)[route.face := Except(Listed(old(faceMap), route.face), [prefix])]
    {
      EraseFrom(prefix, route);
      nItems := nItems - 1;
      assert table[prefix].Value() == Values()[prefix];
      if FindFace(table[prefix].routes, route.face).None? {
        faceMap := faceMap[route.face := Except(Listed(faceMap, route.face), [prefix])];
      }
    }

    /** Erases an entry that has no route left. */
    method EraseIfEmpty(prefix: Name)
      requires Keyed() && Placed(Values(), prefix)
      modifies this`keys, this`table, table.Values
      ensures Keyed() && table.Values <= old(table.Values)
      ensures Values() == if old(Values())[prefix].routes == [] then Unlinked(old(Values()), prefix) else old(Values())
    {
      assert table[prefix].Value() == Values()[prefix];
      if table[prefix].routes == [] {
        EraseEntry(prefix);
      }
    }

    /** Erases a route that is there. */
    method EraseHeld(prefix: Name, route: Route)
      requires Keyed() && Holds(Values(), prefix, route) && Placed(Values(), prefix)
      modifies this`keys, this`table, this`faceMap, this`nItems, table.Values
      ensures Keyed() && table.Values <= old(table.Values)
      ensures State() == RibOps.Erase(old(State()), prefix, route)
    {
      ErasedIsPlaced(Values(), prefix, route);
      TakeRoute(prefix, route);
      EraseIfEmpty(prefix);
    }

    /** Erasing, without looking at the invariants it keeps. */
    method EraseRoute(prefix: Name, route: Route)
      requires Keyed() && (prefix in table ==> Placed(Values(), prefix))
      modifies this`keys, this`table, this`faceMap, this`nItems, table.Values
      ensures Keyed() && table.Values <= old(table.Values)
      ensures State() == RibOps.Erase(old(State()), prefix, route)
    {
      if prefix in table {
        assert table[prefix].Value() == Values()[prefix];
        if FindRoute(table[prefix].routes, route.face, route.origin) != |table[prefix].routes| {
          EraseHeld(prefix, route);
        }
      }
    }

    method Erase(prefix: Name, route: Route)
      requires Valid()
      modifies this`keys, this`table, this`faceMap, this`nItems, table.Values
      ensures Valid() && State() == RibOps.Erase(old(State()), prefix, route)
      ensures table.Values <= old(table.Values)
    {
      EraseKeepsRib(State(), prefix, route);
      if prefix in table {
        TreeIsPlaced(Values(), prefix);
      }
      EraseRoute(prefix, route);
    }

    // ----- inherited routes -----

    /** One of the records the updater computed. */
    method ModifyInherited(n: Name, route: Route, gained: bool)
      requires Keyed() && n in table
      modifies table[n]
      ensures Values() == old(Values())[n := WithRecord(old(Values())[n], route, gained)]
    {
      ghost var before := Values();
      assert forall x :: x in table && x != n ==> table[x] != table[n];
      if gained {
        table[n].AddInheritedRoute(route);
      } else {
        table[n].RemoveInheritedRoute(route);
      }
      OnlyThisChanged(before, n);
    }

    /** The precondition is the assertion in the source: every record names an entry. */
    method ModifyInheritedRoutes(inheritedRoutes: seq<Emission>)
      requires Keyed() && Applicable(Values(), inheritedRoutes)
      modifies table.Values
      ensures Values() == ApplyRecords(old(Values()), inheritedRoutes)
    {
      ghost var T := Values();
      assert inheritedRoutes[..0] == [];
      for i := 0 to |inheritedRoutes|
        invariant Values() == ApplyRecords(T, inheritedRoutes[..i])
      {
        assert inheritedRoutes[..i + 1] == inheritedRoutes[..i] + [inheritedRoutes[i]];
        ApplyLast(T, inheritedRoutes[..i], inheritedRoutes[i]);
        if inheritedRoutes[i].Record? {
          ModifyInherited(inheritedRoutes[i].name, inheritedRoutes[i].route, inheritedRoutes[i].gained);
        }
      }
      assert inheritedRoutes[..|inheritedRoutes|] == inheritedRoutes;
    }

    // ----- the queue -----

    method AddUpdateToQueue(update: RibUpdate)
      modifies this`updateBatches
      ensures updateBatches == old(updateBatches) + [update]
    {
      updateBatches := updateBatches + [update];
    }

    /** The batch to hand to the FIB updater now, if any. */
    method SendBatchFromQueue() returns (batch: Option<RibUpdate>)
      modifies this`updateBatches, this`isUpdateInProgress
      ensures batch.None? <==> old(isUpdateInProgress) || old(updateBatches) == []
      ensures batch.None? ==> updateBatches == old(updateBatches) && isUpdateInProgress == old(isUpdateInProgress)
      ensures batch.Some? ==> old(updateBatches) == [batch.value] + updateBatches && isUpdateInProgress
    {
      if updateBatches == [] || isUpdateInProgress {
        return None;
      }
      isUpdateInProgress := true;
      batch := Some(updateBatches[0]);
      updateBatches := updateBatches[1..];
    }

    method BeginApplyUpdate(update: RibUpdate) returns (batch: Option<RibUpdate>)
      modifies this`updateBatches, this`isUpdateInProgress
      ensures isUpdateInProgress
      ensures batch.None? ==> old(isUpdateInProgress) && updateBatches == old(updateBatches) + [update]
      ensures batch.Some? ==> !old(isUpdateInProgress) && old(updateBatches) + [update] == [batch.value] + updateBatches
    {
      AddUpdateToQueue(update);
      batch := SendBatchFromQueue();
    }

    method AddUpdatesToQueue(updates: seq<RibUpdate>)
      modifies this`updateBatches
      ensures updateBatches == old(updateBatches) + updates
    {
      for i := 0 to |updates|
        invariant updateBatches == old(updateBatches) + updates[..i]
      {
        AddUpdateToQueue(updates[i]);
      }
      assert updates[..|updates|] == updates;
    }

    /** Enqueues the removal of every route on the face.  What is required holds in every valid RIB. */
    method BeginRemoveFace(faceId: nat) returns (batch: Option<RibUpdate>)
      requires ListedOk(Values(), Listed(faceMap, faceId))
      modifies this`updateBatches, this`isUpdateInProgress
      ensures var queue := old(updateBatches) + FaceUpdates(old(Values()), Listed(faceMap, faceId), faceId);
              && queue == (if batch.Some? then [batch.value] + updateBatches else updateBatches)
              && (batch.None? <==> old(isUpdateInProgress) || queue == [])
      ensures isUpdateInProgress == (old(isUpdateInProgress) || batch.Some?)
    {
      var routes := FindRoutesWithFaceId(faceId);
      AddUpdatesToQueue(routes);
      batch := SendBatchFromQueue();
    }

    /** The update itself. */
    method ApplyUpdate(update: RibUpdate)
      requires Valid()
      modifies this`keys, this`table, this`faceMap, this`nItems, table.Values
      ensures Valid() && State() == AppliedState(old(State()), update)
      ensures fresh(table.Values - old(table.Values))
    {
      match update.kind
      case Register => Insert(update.name, update.route);
      case Unregister => Erase(update.name, update.route);
      case RemoveFace => Erase(update.name, update.route);
    }

    /** Applies the update and the records to the table. */
    method Commit(update: RibUpdate, inheritedRoutes: seq<Emission>)
      requires Valid() && Applicable(AppliedState(State(), update).table, inheritedRoutes)
      modifies this`keys, this`table, this`faceMap, this`nItems, table.Values
      ensures Valid() && fresh(table.Values - old(table.Values))
      ensures var r := AppliedState(old(State()), update); State() == r.(table := ApplyRecords(r.table, inheritedRoutes))
    {
      ApplyUpdate(update);
      RecordsKeepRib(State(), inheritedRoutes);
      ModifyInheritedRoutes(inheritedRoutes);
    }

    /** Applies the update and the records the updater computed for it.  That every record names an entry is not assumed:
        it follows from how they are computed. */
    method CommitComputed(update: RibUpdate, inheritedRoutes: seq<Emission>)
      requires Valid() && Computed(State(), update, inheritedRoutes)
      modifies this`keys, this`table, this`faceMap, this`nItems, table.Values
      ensures Valid() && fresh(table.Values - old(table.Values))
      ensures IsCommitted(old(State()), update, inheritedRoutes, State())
    {
      RecordsFit(State(), update, inheritedRoutes);
      Commit(update, inheritedRoutes);
    }

    method AdvanceQueue() returns (batch: Option<RibUpdate>)
      modifies this`updateBatches, this`isUpdateInProgress
      ensures Advanced(old(updateBatches), updateBatches, isUpdateInProgress, batch)
    {
      isUpdateInProgress := false;
      batch := SendBatchFromQueue();
    }

    /** Commits the batch under way and looks at the queue again. */
    method OnFibUpdateSuccess(update: RibUpdate, inheritedRoutes: seq<Emission>) returns (batch: Option<RibUpdate>)
      requires Valid() && Computed(State(), update, inheritedRoutes)
      modifies this, table.Values
      ensures Valid() && IsCommitted(old(State()), update, inheritedRoutes, State())
      ensures fresh(table.Values - old(table.Values))
      ensures Advanced(old(updateBatches), updateBatches, isUpdateInProgress, batch)
    {
      CommitComputed(update, inheritedRoutes);
      ghost var after := State();
      batch := AdvanceQueue();
      assert State() == after;
    }

    /** The batch under way is dropped: the table stays as it is. */
    method OnFibUpdateFailure() returns (batch: Option<RibUpdate>)
      modifies this`updateBatches, this`isUpdateInProgress
      ensures Advanced(old(updateBatches), updateBatches, isUpdateInProgress, batch)
    {
      batch := AdvanceQueue();
    }
  }

  /** The queue after the end of a batch: the front has been handed out and is now under way, or nothing was left. */
  ghost predicate Advanced(before: seq<RibUpdate>, after: seq<RibUpdate>, busy: bool, batch: Option<RibUpdate>)
  {
    && busy == batch.Some? == (before != [])
    && before == if batch.Some? then [batch.value] + after else after
  }

  /** The records are those the updater computes for the update. */
  ghost predicate Computed(r: RibState, u: RibUpdate, records: seq<Emission>)
  {
    TreeOk(r.table) &&
    exists next, es :: NextOk(r.table, u, next) && Emitted(r.table, u, next) == Some(es) && records == RecordsOf(es)
  }

  /** The state after the commit of the update with those records. */
  ghost predicate IsCommitted(r: RibState, u: RibUpdate, records: seq<Emission>, r': RibState)
    requires TreeOk(r.table)
  {
    forall next, es :: NextOk(r.table, u, next) && Emitted(r.table, u, next) == Some(es) && records == RecordsOf(es) ==>
      r' == CommittedState(r, u, next, es)
  }

  /** Computed records can be applied: each names an entry that is there once the update itself is applied. */
  lemma RecordsFit(r: RibState, u: RibUpdate, records: seq<Emission>)
    requires Computed(r, u, records)
    ensures Applicable(AppliedState(r, u).table, records)
    ensures var a := AppliedState(r, u); IsCommitted(r, u, records, a.(table := ApplyRecords(a.table, records)))
  {
    var next, es :| NextOk(r.table, u, next) && Emitted(r.table, u, next) == Some(es) && records == RecordsOf(es);
    EmittedFit(r, u, next, es);
    FitIsCommitted(r, u, records);
  }

  lemma FitIsCommitted(r: RibState, u: RibUpdate, records: seq<Emission>)
    requires TreeOk(r.table) && Applicable(AppliedState(r, u).table, records)
    ensures var a := AppliedState(r, u); IsCommitted(r, u, records, a.(table := ApplyRecords(a.table, records)))
  {
    forall next, es | NextOk(r.table, u, next) && Emitted(r.table, u, next) == Some(es) && records == RecordsOf(es)
      ensures var a := AppliedState(r, u); a.(table := ApplyRecords(a.table, records)) == CommittedState(r, u, next, es)
    {
      EmittedFit(r, u, next, es);
    }
  }

  lemma EmittedFit(r: RibState, u: RibUpdate, next: Option<Route>, es: seq<Emission>)
    requires TreeOk(r.table) && NextOk(r.table, u, next) && Emitted(r.table, u, next) == Some(es)
    ensures Applicable(AppliedState(r, u).table, RecordsOf(es))
    ensures var a := AppliedState(r, u); a.(table := ApplyRecords(a.table, RecordsOf(es))) == CommittedState(r, u, next, es)
  {
    RecordsAlwaysApplicable(r.table, u, next);
    AppliedIsTable(r, u);
    RecordsAreEnough(AppliedState(r, u).table, es);
  }

  function WithRecord(e: Entry, r: Route, gained: bool): Entry
  {
    e.(inherited := if gained then e.inherited + [r] else DropFace(e.inherited, r.face))
  }

  /** Taking a route out does not change the links around the entry. */
  lemma ErasedIsPlaced(T: Table, p: Name, r: Route)
    requires Placed(T, p)
    ensures var U := T[p := EntryWithout(T[p], r)];
            && Placed(U, p) && Unlinked(U, p) == Unlinked(T, p)
  {
    var U := T[p := EntryWithout(T[p], r)];
    forall k | 0 <= k < |U[p].children|
      ensures ChildPlaced(U, p, U[p].children[k])
    {
      assert ChildPlaced(T, p, T[p].children[k]);
    }
  }

  /** The scan of the table with the new name in it. */
  lemma ScanFindsAdopted(T: Table, keys: seq<Name>, p: Name)
    requires StrictlySorted(keys) && p !in T && forall n :: n in keys <==> n in T.Keys + {p}
    ensures NoDuplicates(Under(keys, p))
    ensures var q := ParentOf(T.Keys, p);
            && (forall x :: x in Under(keys, p) ==> x in T && q != Some(x))
            && WithParent(T, Under(keys, p), q) == Adopted(T, p)
  {
    SortedIsUnique(keys, Sorted(T.Keys + {p}));
    UnderIsSorted(keys, p);
    SortedHasNoDuplicates(Under(keys, p));
    ParentIsLongestPrefix(T.Keys, p);
  }

  /** The table while `p` is being taken out: it has left its parent, and its first `k` children have moved up. */
  function Unlinking(T: Table, p: Name, k: nat): Table
    requires p in T && k <= |T[p].children|
  {
    var q, cs := T[p].parent, T[p].children[..k];
    map x | x in T ::
      if x == p then T[p].(parent := None, children := Except(T[p].children, cs))
      else if q == Some(x) then T[x].(children := Except(T[x].children, [p]) + cs)
      else if x in cs then T[x].(parent := q)
      else T[x]
  }

  /** What unlinking needs to know about the tree around `p`. */
  ghost predicate Placed(T: Table, p: Name)
  {
    && p in T && NoDuplicates(T[p].children)
    && (T[p].parent.Some? ==> T[p].parent.value in T && T[p].parent.value != p)
    && forall k :: 0 <= k < |T[p].children| ==> ChildPlaced(T, p, T[p].children[k])
  }

  ghost predicate ChildPlaced(T: Table, p: Name, x: Name)
    requires p in T
  {
    x in T && x != p && T[p].parent != Some(x) && T[x].parent == Some(p)
  }

  lemma TreeIsPlaced(T: Table, p: Name)
    requires TreeOk(T) && p in T
    ensures Placed(T, p)
  {
    ParentIsLongestPrefix(T.Keys, p);
    forall k | 0 <= k < |T[p].children|
      ensures ChildPlaced(T, p, T[p].children[k])
    {
      assert T[p].children[k] in T[p].children;
      ParentIsLongestPrefix(T.Keys, T[p].children[k]);
    }
  }

  lemma UnlinkingStart(T: Table, p: Name)
    requires Placed(T, p)
    ensures Unlinking(T, p, 0) == if T[p].parent.Some? then Detached(T, T[p].parent.value, p) else T
  {
    var q := T[p].parent;
    assert T[p].children[..0] == [];
    ExceptNothing(T[p].children, []);
    if q.Some? {
      assert Except(T[q.value].children, [p]) + [] == Except(T[q.value].children, [p]);
    }
  }

  /** What one turn of the loop makes of the table. */
  function MovedUp(U: Table, p: Name, q: Option<Name>, x: Name): Table
    requires p in U && x in U && p != x && (q.Some? ==> q.value in U && q.value != x)
  {
    var V := Detached(U, p, x);
    if q.Some? then Attached(V, q.value, x) else V
  }

  lemma UnlinkingStepAt(T: Table, p: Name, k: nat, n: Name)
    requires p in T && n in T && k < |T[p].children| && (T[p].parent.Some? ==> T[p].parent.value in T && T[p].parent.value != p)
    requires ChildPlaced(T, p, T[p].children[k]) && T[p].children[k] !in T[p].children[..k]
    ensures Unlinking(T, p, k + 1)[n] == MovedUp(Unlinking(T, p, k), p, T[p].parent, T[p].children[k])[n]
  {
    var q, cs := T[p].parent, T[p].children;
    var x := cs[k];
    assert cs[..k + 1] == cs[..k] + [x];
    if n == p {
      ExceptTwice(cs, cs[..k], [x]);
    } else if q == Some(n) {
      assert Except(T[n].children, [p]) + cs[..k + 1] == Except(T[n].children, [p]) + cs[..k] + [x];
    }
  }

  lemma UnlinkingStep(T: Table, p: Name, k: nat)
    requires Placed(T, p) && k < |T[p].children|
    ensures Unlinking(T, p, k)[T[p].children[k]].parent == Some(p)
    ensures Unlinking(T, p, k + 1) == MovedUp(Unlinking(T, p, k), p, T[p].parent, T[p].children[k])
  {
    var x := T[p].children[k];
    assert ChildPlaced(T, p, x) && x !in T[p].children[..k];
    forall n | n in T
      ensures Unlinking(T, p, k + 1)[n] == MovedUp(Unlinking(T, p, k), p, T[p].parent, x)[n]
    {
      UnlinkingStepAt(T, p, k, n);
    }
  }

  lemma UnlinkingDone(T: Table, p: Name)
    requires p in T
    ensures Unlinking(T, p, |T[p].children|) - {p} == Unlinked(T, p)
  {
    var cs := T[p].children;
    assert cs[..|cs|] == cs;
  }

  lemma NotYetMoved(T: Table, p: Name, e: Entry, q: Option<Name>, moved: seq<Name>, x: Name)
    requires p !in T && x in T && x !in moved && (q.Some? ==> q.value in T) && q != Some(x)
    ensures var L := Linked(T, p, e, q, moved); x in L && p in L && (q.Some? ==> q.value in L) && L[x] == T[x]
  {
  }

  lemma NewEntryWith(T: Table, p: Name, r: Route)
    ensures var U := T[p := Entry(None, [], [], [], 0)];
            U[p := EntryWith(U[p], r)] == T[p := NewEntry(r)]
  {
    assert [] + [r] == [r];
  }

  function Detached(V: Table, q: Name, x: Name): Table
    requires q in V && x in V && q != x
  {
    V[q := V[q].(children := Except(V[q].children, [x]))][x := V[x].(parent := None)]
  }

  function Attached(V: Table, p: Name, x: Name): Table
    requires p in V && x in V && p != x
  {
    V[p := V[p].(children := V[p].children + [x])][x := V[x].(parent := Some(p))]
  }

  /** The table after child `x` went from `q` to `p`. */
  function MovedChild(V: Table, q: Option<Name>, p: Name, x: Name): Table
    requires p in V && x in V && (q.Some? ==> q.value in V) && x != p && q != Some(x)
  {
    Attached(if q.Some? then Detached(V, q.value, x) else V, p, x)
  }

  /** Linking without moving any child yet. */
  lemma LinkedStart(T: Table, p: Name, e: Entry, q: Option<Name>)
    requires p !in T && e.parent == None && e.children == [] && (q.Some? ==> q.value in T)
    ensures Linked(T, p, e, q, []) == if q.Some? then Attached(T[p := e], q.value, p) else T[p := e]
  {
    if q.Some? {
      ExceptNothing(T[q.value].children + [p], []);
    }
  }

  lemma LinkedStep(T: Table, p: Name, e: Entry, q: Option<Name>, moved: seq<Name>, x: Name)
    requires p !in T && x in T && x !in moved && (q.Some? ==> q.value in T) && q != Some(x)
    ensures MovedChild(Linked(T, p, e, q, moved), q, p, x) == Linked(T, p, e, q, moved + [x])
  {
    var U, V := MovedChild(Linked(T, p, e, q, moved), q, p, x), Linked(T, p, e, q, moved + [x]);
    if q.Some? {
      ExceptTwice(T[q.value].children + [p], moved, [x]);
    }
    assert U.Keys == V.Keys;
    forall n | n in V
      ensures U[n] == V[n]
    {
      if n == p {
      } else if n == x {
      } else if q == Some(n) {
      } else {
        assert n in moved + [x] <==> n in moved;
      }
    }
  }

  lemma ExtendsProperly(keys: seq<Name>, p: Name, at: nat, i: nat)
    requires StrictlySorted(keys) && at < i < |keys| && keys[at] == p && p <= keys[i]
    ensures p < keys[i]
  {
    PrefixesOfOne(p, keys[i], keys[i]);
    LessIrreflexive(p);
  }
}
