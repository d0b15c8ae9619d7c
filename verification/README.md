# RIB, FIB updater and consumer: a verified model

The project models two parts of the simulator.

**The Routing Information Base and its FIB updater** (`NFD/rib`). The RIB keeps an entry for every registered name. An
entry has routes (face, origin, cost, child-inherit and capture flags), a parent link, a list of children, a list of
routes it inherits and a counter of capturing routes. When a route is registered or removed, the updater works out only
the next hops that *change*, in the entry and below it, sends them to the forwarder in two phases, and lets the RIB commit
when all are acknowledged. Updates wait in a queue, one batch at a time.

**The consumer applications and their round-trip estimator** (`apps/ndn-consumer*.cpp`, `utils/ndn-rtt-*.cpp`). A consumer
requests numbered packets, notices timeouts, sends again, measures round trips and adapts a congestion window.

The main results:

- *Incremental equals recomputed, exactly when* (`ExactStep.StepExact`). If the FIB and the inheritance records are what
  recomputing them from the RIB gives, and no entry gets two routes on one face, then after any update has been computed,
  delivered and committed they are again what recomputing gives **if and only if** the update is none of nine named hazards.
  What is recomputed uses the flags of the routes, so the statement is about FIB and records alone; separately, the capture
  counters stay right if and only if the update does not overwrite a capture bit. Each hazard is a condition on the table and
  the update before the call (`Hazards`), and a concrete table shows that each one happens (`Limits`).
- *The whole system* (`System.FibFollowsRib`). Over every run of requests and command responses, in any interleaving,
  through the queue, the re-entrant dispatch, the two phases, retries, denials and exceptions, in which no batch is dispatched
  while commands of a denied one are outstanding: whenever nothing is under way, the FIB is the one recomputed from the RIB and
  the RIB is the sequential application of exactly the batches that succeeded.
- *When that goes wrong* (`Strays`, `Denial`). A batch fails at the first denial of its own face while its other commands may
  still be outstanding; the next batch overwrites the updater's lists, and a late response is handled with those but calls the
  continuations of its own batch. `Strays.UntimelyExact` says exactly which steps leave such commands behind,
  `Strays.BatchesCompleteOnce` how often each batch is reported when no step does, `Strays.StaleDispatchBreaks` that every such
  step can be followed by a run that reports the denied batch as failed *and* as successful, and `Denial.DeniedTwice` is such a
  run with a concrete RIB.
- *The protocol* (`Delivery`, `Failures`). Two phases, at most eleven sendings, termination, the success continuation once;
  the FIB is the intended one exactly when no removal timed out on a live face; as long as no other batch is dispatched,
  continuations are called once exactly when the batch's face is denied at most once.
- *Several routes on a face* (`Several`). Outside that regime, what every update does to every next hop and record is stated in
  terms of the least cost and the least inheritable cost on the face, with exact conditions for when the entry and its
  descendants end up at the cheapest cost.
- *The objects* (`Rib`, `FibUpdater`, `ConsumerApp`). Classes with the fields of the source, whose methods change them in
  place and are proved against the functions the theorems are about.
- *No number is lost* (`Accounting.NoNumberLost`). Over every run of sends, Data and timeouts each requested number is
  delivered, awaited or to be sent again; every record about it is right; and every measured round trip is unambiguous
  (Karn's algorithm, section 3 of RFC 6298).
- *One decrease per round trip* (`Recovery.OneDecreasePerRoundTrip`), and bounds for the estimate, the deviation and the
  timeout in every run (`Accounting.EstimateInRuns`).

Names are sequences of components in the canonical order. A table is a map from names to entries. What the updater does
while computing is a sequence of *emissions* (next-hop requests and inheritance records); the lists that are sent are its
coalescing. Faces known to be gone (`dead`) are left out of the comparison of FIBs: the forwarder rejects commands for them.

Where the code does not do what the design says, the model follows the code:

- Re-registering a route overwrites its capture flag but not the counter (`RibOps.RunCounters` says exactly when the
  counters are right, `StepSwitch.SwitchStep` when FIB and records are, `Limits.CounterWraps` shows the unsigned counter
  wrapping around).
- The walk over the ancestors keeps the first inheritable route listed on a face, not the cheapest
  (`Limits.OffersFirstNotCheapest`).
- The route with the second lowest cost is whatever `std::nth_element` puts second, so it is a relation and not a function.
- Updating a route can read a route that is not there (`CommitSafety.NullRouteRead` says exactly when, and
  `Limits.NullRouteReadHappens` gives an input); the model has no result in that case.
- A removal that times out is sent again as an addition (`Delivery.FibWhenDone`, `Delivery.LostRemovalStays`).
- In the restricted runs of the design (one route per prefix, capturing routes left alone) the FIB is right only if a
  re-registration also keeps the flag bits that are neither child-inherit nor capture: `ExactStep.Plain` has that condition
  and `Limits.MissesCostHappens` shows why.
- The assertion in the window decrease fails exactly when the number to be sent next is the highest one received so far
  (`Recovery.AheadExact`; `Recovery.AheadIsZero` is a run in which it does), and sending the last 32-bit number breaks the bookkeeping (`Accounting.LastNumberIsLost`).

## Model

| member | source | states |
|---|---|---|
| `ExactStep.StepExact` | NFD/rib/fib-updater.cpp:67-186 | with at most one route per face and entry, FIB and inheritance records that equal those recomputed from the routes and their flags still do after an update has been computed, coalesced, delivered and committed if and only if the update is none of the nine hazards; the capture counters stay right if and only if it does not overwrite a capture bit |
| `ExactStep.RunIsRight` | NFD/rib/rib.cpp:428-456 | in every run of updates without a hazard or an overwritten capture bit the FIB and the records equal the recomputed ones after every commit |
| `ExactStep.PlainIsSafe` | NFD/rib/fib-updater.cpp:92-186 | updates of the restricted runs (one route per prefix, capturing routes neither removed nor registered again, other flag bits kept) are no hazards |
| `ExactStep.PlainRunIsRight` | NFD/rib/fib-updater.cpp:92-186 | so in all restricted runs the FIB equals the recomputed one after every commit |
| `ExactStep.EmittedDetermined` | NFD/rib/rib-entry.cpp:193-215 | with one route per face the choice `std::nth_element` leaves open does not matter |
| `Incremental.DescendantStep` | NFD/rib/fib-updater.cpp:637-692 | pushing add and remove sets down changes the next hop of a descendant to the recomputed one exactly when, for faces whose offer reaches it, the sets amount to the change of what the entry passes down |
| `Incremental.StepFromParts` | NFD/rib/fib-updater.cpp:67-90 | an update is right for the whole table exactly when it is right for the entry and for what it pushes down |
| `StepInsert.NewEntryStep` | NFD/rib/fib-updater.cpp:376-421 | registering under a new name always keeps FIB and records equal to the recomputed ones |
| `StepInsert.NewRouteStep` | NFD/rib/fib-updater.cpp:423-460 | a new route in an entry does so if and only if it leaves no stale record and strips no descendant of what the entry offers |
| `StepUpdate.UpdateStep` | NFD/rib/fib-updater.cpp:462-559 | re-registering with the same capture bit does so if and only if nothing leaks past a capture and no descendant keeps an old cost |
| `StepSwitch.SwitchStep` | NFD/rib/fib-updater.cpp:515-559 | re-registering with another capture bit keeps FIB and records equal to those recomputed from the flags if and only if it strips no descendant of what the entry goes on offering, hands no cost on wrongly, does not give the entry or its descendants what a route that goes on capturing blocks |
| `StepSwitch.CombinedEffect` | NFD/rib/fib-updater.cpp:515-559 | the two pushes of such an update, for child-inherit and for capture, act on every descendant and face like one |
| `StepErase.EraseStep` | NFD/rib/fib-updater.cpp:561-635 | removing a route does so if and only if no descendant stays without what was blocked and no ancestor's route overrides what the entry still offers |
| `StepErase.NothingStep` | NFD/rib/fib-updater.cpp:146-186 | removing a route that is not there changes nothing |
| `Limits.HazardBreaks` | NFD/rib/fib-updater.cpp:67-186 | for every sound table and every hazard there is a right FIB after which FIB and records are wrong |
| `Limits.SoundIsConsistent` | NFD/rib/fib-updater.cpp:67-186 | every sound table has a right FIB |
| `Limits.StaleRecordHappens` | NFD/rib/fib-updater.cpp:423-460 | a concrete new route on an inherited face that leaves a stale record |
| `Limits.StripsOwnOfferHappens` | NFD/rib/fib-updater.cpp:441-450 | a concrete new capturing route that takes from a child the face the entry itself offers |
| `Limits.CounterDriftsHappens` | NFD/rib/rib.cpp:119-128 | a concrete re-registration that makes the counter wrong and FIB and records right |
| `Limits.StripsBySwitchingOnHappens` | NFD/rib/fib-updater.cpp:539-548 | a concrete re-registration that switches capture on and takes from a child the face the entry goes on offering |
| `Limits.UncapturesItselfHappens` | NFD/rib/fib-updater.cpp:549-557 | a concrete re-registration that switches capture off and gives the entry an ancestor's route although another route goes on capturing |
| `Limits.LeaksBySwitchingOffHappens` | NFD/rib/fib-updater.cpp:549-557 | a concrete re-registration that switches capture off and gives a child an ancestor's route although another route goes on capturing |
| `Limits.LeaksPastCaptureHappens` | NFD/rib/fib-updater.cpp:515-538 | a concrete entry that captures and whose child is given an ancestor's route when child-inherit is switched off |
| `Limits.MissesCostHappens` | NFD/rib/fib-updater.cpp:489-503 | a concrete change of cost together with another flag bit that the child does not get |
| `Limits.StaysBlockedHappens` | NFD/rib/fib-updater.cpp:567-584 | a concrete removal of the last route of a capturing entry whose child does not get what was blocked |
| `Limits.OverridesOfferHappens` | NFD/rib/fib-updater.cpp:585-597 | a concrete removal after which the child has the ancestor's cost although the entry still offers the face |
| `Limits.OwnHopAfterErase` | NFD/rib/fib-updater.cpp:162-184 | with several routes on one face, the entry's next hop is at the cheapest remaining cost after a removal exactly under the stated condition on the costs |
| `Limits.OwnHopAfterEraseFails` | NFD/rib/fib-updater.cpp:162-184 | a concrete removal of the dearest of three routes on a face that deletes the next hop although two stay |
| `Several.AddedEffect` | NFD/rib/fib-updater.cpp:423-460 | whatever other routes the entry has, everything a new route does to every next hop and record: below the entry its cost is set exactly if children inherit it and none of the routes they inherit costs less, at the entry exactly if no route on the face costs less |
| `Several.NewRouteReaches` | NFD/rib/fib-updater.cpp:430-446 | a descendant without its own route on the face gets the cost of a new route exactly if it is inheritable and no inheritable route of the entry on that face costs less |
| `Several.NewRouteTracks` | NFD/rib/fib-updater.cpp:430-459 | next hops at the least cost on the face, at the entry and below, are at the least cost after the commit, except exactly when turning capture on clears what a record says is inherited and the new route does not set it again |
| `Several.ErasedBelow` | NFD/rib/fib-updater.cpp:146-186 | whatever other routes the entry has, everything a removal does to every next hop and record below it |
| `Several.ErasedAtEntry` | NFD/rib/fib-updater.cpp:146-186 | and at the entry itself, when other routes remain |
| `Several.ErasedEnds` | NFD/rib/fib-updater.cpp:161-184 | where a descendant's next hop ends after a removal: at the second-cheapest cost if that route is inheritable and no remaining inheritable one costs less, otherwise at what ancestors offer if it is handed down, otherwise it goes if the removed route was inheritable and a record says so |
| `Several.ErasedTracks` | NFD/rib/fib-updater.cpp:161-184 | while the entry goes on offering the face, the descendant ends at the least remaining inheritable cost exactly under the stated condition on the costs and flags |
| `Several.CheapestGoes` | NFD/rib/fib-updater.cpp:161-184 | when the cheapest route goes and all next cheapest ones are inheritable, the descendant gets their cost |
| `Several.SecondIsHandedDown` | NFD/rib/fib-updater.cpp:173-178 | a concrete removal of the cheaper of two inheritable routes after which the child gets the dearer |
| `Several.ChildLosesOffer` | NFD/rib/fib-updater.cpp:173-178 | a concrete removal of the dearer one after which the child loses the face the entry still offers |
| `Several.UpdatedEffect` | NFD/rib/fib-updater.cpp:462-559 | whatever other routes the entry has, everything a re-registration does to every next hop and record, in terms of the least cost and the least inheritable cost on the face |
| `Several.UpdatedOwnHop` | NFD/rib/fib-updater.cpp:470-487 | when a result exists, the entry's own next hop goes from the least cost on the face to the new least cost if and only if it is not the case that the old cost was below all costs there now, the new cost is not the least and the cheapest inheritable route is dearer, and turning capture on does not clear it |
| `Several.UpdatedTracks` | NFD/rib/fib-updater.cpp:489-538 | below the entry, with the capture bit kept, the least inheritable cost is followed if and only if it stays, or the route is not inheritable both before and after, or it is now the cheapest and only its cost changed |
| `Several.OtherTakesOver` | NFD/rib/fib-updater.cpp:483-487 | a concrete re-registration after which the other route's cost is the next hop |
| `Several.DearerTakesOver` | NFD/rib/fib-updater.cpp:483-487 | a concrete re-registration after which the next hop has the cost of a dearer inheritable route |
| `Limits.StaleRecordBites` | NFD/rib/fib-updater.cpp:666-669 | after a stale record, a push from above that removes the face deletes the next hop of the entry's own route |
| `Limits.OffersFirstNotCheapest` | NFD/rib/rib.cpp:308-323 | what an entry offers on a face costs as much as its cheapest inheritable route there exactly if no inheritable route listed after the first is cheaper |
| `Limits.DearerIsInherited` | NFD/rib/rib.cpp:308-323 | a concrete entry whose child inherits the dearer of two routes |
| `Limits.CounterWraps` | NFD/rib/rib-entry.cpp:110-126 | re-registering with capture and removing again wraps the counter of an entry without capturing routes around |
| `Propagation.TraverseReach` | NFD/rib/fib-updater.cpp:647-692 | in every tree, traversing a child adds or removes face g at descendant d exactly when no entry on the path to d captures and none has a child-inherit route on g, and d has no own route on g (add) or has g recorded (remove) |
| `Propagation.PushDownReach` | NFD/rib/fib-updater.cpp:637-645 | the same for pushing below any set of entries that are topmost below a name |
| `Propagation.PushDownReachAll` | NFD/rib/fib-updater.cpp:637-692 | the same for all children of an entry |
| `Propagation.Kept` | NFD/rib/fib-updater.cpp:656-689 | the set that goes on to the children is the given one without the faces on which the entry has a child-inherit route |
| `CommitSafety.RecordsAlwaysApplicable` | NFD/rib/rib.cpp:472-491 | for every update, all flags and also when an entry is erased, every computed record names an entry that is in the table after the update: the lookup assertion cannot fail |
| `CommitSafety.NullRouteRead` | NFD/rib/fib-updater.cpp:476-487 | the null route is read exactly when the updated route was strictly cheapest on its face, is no longer cheapest, and no route on that face is inheritable |
| `Limits.NullRouteReadHappens` | NFD/rib/fib-updater.cpp:476-487 | a concrete re-registration for which it is read |
| `Updates.CoalescingPreservesMeaning` | NFD/rib/fib-updater.cpp:313-334 | carrying out the batch-face list and then the other-face list, each in any order, gives the FIB of carrying out all emissions in order; each name and face occurs once and in the list of its face |
| `Updates.CoalescedMeaning` | NFD/rib/fib-updater.cpp:313-334 | a coalesced list has one update per name and face, and its effect is that of the last emission |
| `Updates.AnyOrder` | NFD/rib/fib-updater.cpp:188-206 | the order within a list does not matter |
| `Inheritance.FromAboveMeaning` | NFD/rib/rib.cpp:301-347 | what ancestors offer is the first inheritable route of the nearest ancestor that has one, with no capturing entry below it |
| `Inheritance.AncestorRoutesFind` | NFD/rib/rib.cpp:325-347 | the walk returns that for every face |
| `Inheritance.WalksAgree` | NFD/rib/rib.cpp:301-347 | for a name in the RIB the walk from the entry and the walk from the name agree |
| `Inheritance.PredictionMatchesCommit` | NFD/rib/fib-updater.cpp:126-143 | the children and ancestor routes computed for a name that is not there are those its entry has once it is inserted, where the commit finds the children by scanning the table that already holds the name; they are the topmost names below it |
| `Names.ExtensionsContiguous` | ndn-cxx/ndn-cxx/name.cpp:280-295 | in the order of names all extensions of a name come right after it |
| `Names.PrefixComesFirst` | ndn-cxx/ndn-cxx/name.cpp:280-295 | a proper prefix is less than its extensions |
| `Names.LessTransitive` | ndn-cxx/ndn-cxx/name.cpp:280-295 | the order is transitive |
| `Names.LessTotal` | ndn-cxx/ndn-cxx/name.cpp:280-295 | the order is total |
| `Names.ScanMayStop` | NFD/rib/rib.cpp:226-245 | the scan that stops at the first name that does not extend the prefix finds what filtering all keys finds, in the same order |
| `Routes.Lowest` | NFD/rib/rib-entry.cpp:171-191 | the result is a cheapest matching route, or none if there is none |
| `Routes.LowestCostByFace` | NFD/rib/rib-entry.cpp:171-239 | the loop computes it, with and without the child-inherit condition |
| `Routes.SecondLowestCostByFace` | NFD/rib/rib-entry.cpp:193-215 | the result has the second lowest cost on the face, or there are fewer than two routes |
| `Routes.FindRoute` | NFD/rib/rib-entry.cpp:36-46 | the first route with that face and origin |
| `Routes.InsertFace` | NFD/rib/rib.cpp:42-46 | a set ordered by face keeps the route it has on a face |
| `RibModel.ParentIsLongestPrefix` | NFD/rib/rib.cpp:213-224 | the entry that is found has the longest proper prefix in the table |
| `RibModel.ParentAfterInsert` | NFD/rib/rib.cpp:130-159 | a new name becomes the parent of exactly its extensions that had the same parent |
| `RibModel.ParentAfterErase` | NFD/rib/rib.cpp:261-299 | an erased name is replaced as parent by its own parent |
| `RibModel.LinkedKeepsTree` | NFD/rib/rib.cpp:130-159 | linking a new entry keeps parents the longest prefixes and children their duplicate-free inverse |
| `RibModel.UnlinkedKeepsTree` | NFD/rib/rib.cpp:261-299 | so does unlinking an erased one |
| `RibOps.InsertKeepsRib` | NFD/rib/rib.cpp:97-168 | inserting keeps the tree, the face index, the route count and the contents of entries right |
| `RibOps.EraseKeepsRib` | NFD/rib/rib.cpp:170-198 | so does erasing |
| `RibOps.RunKeepsRib` | NFD/rib/rib.cpp:97-198 | so they are right after every sequence of inserts and erases |
| `RibOps.InsertCounters` | NFD/rib/rib-entry.cpp:48-63 | an insert keeps all capture counters right exactly when it does not change the capture bit of a route that is there |
| `RibOps.RunCounters` | NFD/rib/rib-entry.cpp:48-126 | the counters are right all along a run exactly when no insert in it does |
| `Compute.ApplyRecordsAt` | NFD/rib/rib.cpp:472-491 | applying records changes only inherited routes, and a face is inherited afterwards as the last record on it says |
| `Compute.GainedByEntryEffect` | NFD/rib/fib-updater.cpp:336-348 | an entry gains exactly the given faces on which it has no route |
| `Compute.LostByEntryEffect` | NFD/rib/fib-updater.cpp:364-374 | an entry loses exactly the given faces that it has recorded |
| `Compute.ErasedEntryEffect` | NFD/rib/fib-updater.cpp:629-635 | an erased entry loses exactly its recorded faces |
| `FibUpdaterClass.FibUpdater.AddFibUpdate` | NFD/rib/fib-updater.cpp:313-334 | the two lists stay the coalescing of everything emitted |
| `FibUpdaterClass.FibUpdater.AddInheritedRoutes` | NFD/rib/fib-updater.cpp:336-348 | emits the gains of an entry |
| `FibUpdaterClass.FibUpdater.AddInheritedRoutesExcept` | NFD/rib/fib-updater.cpp:350-362 | emits the gains of a new name |
| `FibUpdaterClass.FibUpdater.RemoveInheritedRoutes` | NFD/rib/fib-updater.cpp:364-374 | emits the losses of an entry |
| `FibUpdaterClass.FibUpdater.RemoveHere` | NFD/rib/fib-updater.cpp:656-672 | the loop that erases from its set while going through it emits the removals and leaves the kept set |
| `FibUpdaterClass.FibUpdater.AddHere` | NFD/rib/fib-updater.cpp:674-689 | likewise for the additions |
| `FibUpdaterClass.FibUpdater.TraverseSubTree` | NFD/rib/fib-updater.cpp:647-692 | the recursion terminates and emits exactly the traversal |
| `FibUpdaterClass.FibUpdater.ModifyChildrensInheritedRoutes` | NFD/rib/fib-updater.cpp:637-645 | the loop over children emits exactly what is pushed down |
| `FibUpdaterClass.FibUpdater.CreateFibUpdatesForNewRibEntry` | NFD/rib/fib-updater.cpp:376-421 | emits the updates for a new name |
| `FibUpdaterClass.FibUpdater.CreateFibUpdatesForNewRoute` | NFD/rib/fib-updater.cpp:423-460 | emits the updates for a new route |
| `FibUpdaterClass.FibUpdater.CreateFibUpdatesForUpdatedRoute` | NFD/rib/fib-updater.cpp:462-559 | emits the updates for a re-registered route, or reports the null read |
| `FibUpdaterClass.FibUpdater.CreateFibUpdatesForErasedRoute` | NFD/rib/fib-updater.cpp:561-627 | emits the updates for a removed route |
| `FibUpdaterClass.FibUpdater.CreateFibUpdatesForErasedRibEntry` | NFD/rib/fib-updater.cpp:629-635 | emits the updates for a removed entry |
| `FibUpdaterClass.FibUpdater.ComputeUpdatesForRegistration` | NFD/rib/fib-updater.cpp:92-144 | the emissions of a registration, including the prediction for a new name |
| `FibUpdaterClass.FibUpdater.ComputeUpdatesForUnregistration` | NFD/rib/fib-updater.cpp:146-186 | the emissions of a removal |
| `FibUpdaterClass.FibUpdater.ComputeUpdates` | NFD/rib/fib-updater.cpp:48-90 | afterwards the two lists and the inherited routes are those of the emissions the theorems are about, and the batch-face list is empty when the face is removed |
| `FibUpdaterClass.FibUpdater.SendUpdates` | NFD/rib/fib-updater.cpp:188-206 | one command for every update in the list |
| `FibUpdaterClass.ChildrenToBe` | NFD/rib/fib-updater.cpp:129-140 | the loop finds the predicted children |
| `FibUpdaterClass.RecordsAreEnough` | NFD/rib/rib.cpp:472-491 | committing the inherited-route list alone is committing all emissions |
| `Delivery.RunOk` | NFD/rib/fib-updater.cpp:188-311 | what every response keeps: outstanding commands are exactly the pending updates of the current phase, and the FIB is on its way to the intended one |
| `Delivery.TwoPhases` | NFD/rib/fib-updater.cpp:208-280 | for every interleaving of responses, other-face commands are out only when all batch-face ones are acknowledged, and the success continuation has been called once if both lists are empty and otherwise not at all |
| `Delivery.FibWhenDone` | NFD/rib/fib-updater.cpp:282-311 | when the batch has succeeded the FIB is the intended one on live faces exactly when no removal timed out on one |
| `Delivery.LostRemovalStays` | NFD/rib/fib-updater.cpp:282-293 | a concrete run in which one does and the batch succeeds with the next hop still there |
| `Delivery.SentAtMostElevenTimes` | NFD/rib/fib-updater.cpp:282-293 | each update is sent at most eleven times |
| `Retries.EleventhTimeoutThrows` | NFD/rib/fib-updater.cpp:38-38 | in every run, an update that was sent has been sent once and once more for each of its timeouts, at most ten; the next timeout throws exactly if it is the eleventh and otherwise sends the update again |
| `Retries.SettledAfterTimeouts` | NFD/rib/fib-updater.cpp:282-293 | from every state, up to ten timeouts in a row of a command send its update once more for each and throw nothing, and then an acceptance settles it; unless it is a removal accepted at once its next hop is then in the FIB |
| `Retries.ElevenInARow` | NFD/rib/fib-updater.cpp:282-311 | from the start of a batch, each of the first ten timeouts in a row of any command is survived and the eleventh throws |
| `Delivery.BatchCompletes` | NFD/rib/fib-updater.cpp:282-311 | every response uses up some of a bounded budget, so the batch completes |
| `Failures.CompletesOnce` | NFD/rib/fib-updater.cpp:295-306 | when all responses are in and no other batch was dispatched before, exactly one continuation call was made exactly when the batch's face was denied at most once |
| `Queue.RunSteady` | NFD/rib/rib.cpp:388-470 | in every run in which no batch is dispatched while commands of a denied one are outstanding: at most one batch is in flight, batches go out in the order they came, each is reported by one success call or by failure calls only, and the RIB is the sequential application of exactly those that succeeded, also when completion re-enters the queue |
| `Strays.UntimelyExact` | NFD/rib/fib-updater.cpp:48-65 | from every such state, a step leaves commands of an earlier batch outstanding exactly if it denies the batch's face while other commands of it are out and an update waits, or requests an update before the rest of a denied batch is answered |
| `Strays.BatchesCompleteOnce` | NFD/rib/rib.cpp:428-470 | in every such run each ended batch was committed exactly if its face was never denied, and its continuations were called once in total exactly if it was denied at most once |
| `Strays.StaleDispatchBreaks` | NFD/rib/fib-updater.cpp:48-60 | after every step that leaves commands behind there is a run of acceptances at whose end the denied batch has been reported both as failed and as successful, unless computing or committing an update crashed the daemon |
| `Strays.StrayCalls` | NFD/rib/fib-updater.cpp:261-306 | what a late response calls: the failure of its own batch exactly if its face is the current batch's and is denied, the success of its own batch exactly if the current lists are empty as far as they are looked at |
| `Denial.DeniedTwice` | NFD/rib/fib-updater.cpp:53-60 | a concrete run: two registrations, two denials of the first one's face; the first one is reported as failed and then as successful, and is in the RIB with the records of the second, while the second one's command is out and nothing counts as under way |
| `Drained.DrainedInOrder` | NFD/rib/rib.cpp:361-374 | from an idle queue, updates that cannot be denied end up applied in order |
| `System.FibFollowsRib` | NFD/rib/rib.cpp:349-491 | over every run of requests and responses in which no batch is dispatched while commands of a denied one are outstanding, if all dispatched updates were safe, no removal timed out and no response made the updater throw: the daemon has not crashed, the RIB is the sequential application of the successes, and whenever nothing is under way the FIB and the records equal the recomputed ones |
| `System.CommitRight` | NFD/rib/rib.cpp:428-456 | a batch that succeeds leaves FIB and RIB right |
| `System.FailRight` | NFD/rib/rib.cpp:458-470 | a batch whose face is denied leaves them right with that face gone |
| `System.RestRight` | NFD/rib/fib-updater.cpp:261-311 | so does every response to the rest of that batch |
| `System.CommitKeepsRib` | NFD/rib/rib.cpp:428-456 | committing keeps every invariant of the RIB |
| `System.ReplayKeepsRib` | NFD/rib/rib.cpp:428-456 | so does committing any sequence of updates |
| `FaceRemoval.IndexCovers` | NFD/rib/rib.cpp:493-515 | the face index finds every route on the face |
| `FaceRemoval.FaceIsRemoved` | NFD/rib/rib.cpp:361-374 | applying the removals for a face leaves no route on it and every other route as it was |
| `FaceRemoval.DestroyedFaceIsDrained` | NFD/rib/rib.cpp:361-374 | so does draining them through an idle queue, whatever the responses |
| `RibClass.RibEntry.InsertRoute` | NFD/rib/rib-entry.cpp:48-63 | inserts the route unless it is there; the counter follows |
| `RibClass.RibEntry.PutRoute` | NFD/rib/rib.cpp:105-128 | inserts or overwrites; an overwrite does not touch the counter |
| `RibClass.RibEntry.EraseRoute` | NFD/rib/rib-entry.cpp:65-126 | erases the route; the counter wraps around below zero |
| `RibClass.RibEntry.AddChild` | NFD/rib/rib-entry.cpp:94-100 | links a child that has no parent |
| `RibClass.RibEntry.RemoveChild` | NFD/rib/rib-entry.cpp:102-108 | unlinks a child of this entry |
| `RibClass.Rib.FindParent` | NFD/rib/rib.cpp:213-224 | the loop finds the longest proper prefix in the table |
| `RibClass.Rib.FindDescendants` | NFD/rib/rib.cpp:226-245 | the scan finds exactly the proper extensions, in map order |
| `RibClass.Rib.FindDescendantsForNonInsertedName` | NFD/rib/rib.cpp:247-259 | finds exactly the extensions, in map order |
| `Names.ScanFrom` | NFD/rib/rib.cpp:247-259 | the loop over all names that does so |
| `RibClass.Rib.CollectRoutes` | NFD/rib/rib.cpp:308-323 | the two nested loops compute the walk and terminate |
| `RibClass.Rib.GetAncestorRoutes` | NFD/rib/rib.cpp:325-347 | for each face the first inheritable route of the nearest ancestor that has one, up to the first capturing one |
| `RibClass.Rib.GetAncestorRoutesOfEntry` | NFD/rib/rib.cpp:301-323 | the same, starting from an entry |
| `RibClass.Rib.AdoptChildren` | NFD/rib/rib.cpp:148-159 | the loop moves exactly the descendants that had the new entry's parent below it; the assertions in addChild and removeChild hold |
| `RibClass.Rib.InsertEntry` | NFD/rib/rib.cpp:130-159 | a new name: the table becomes the linked one |
| `RibClass.Rib.Insert` | NFD/rib/rib.cpp:97-168 | the objects after inserting show exactly the state the invariants are proved for, and all invariants hold |
| `RibClass.Rib.MoveChildrenUp` | NFD/rib/rib.cpp:278-291 | the loop gives all children to the parent, or makes them roots; the assertions hold |
| `RibClass.Rib.EraseEntry` | NFD/rib/rib.cpp:261-299 | the table becomes the unlinked one |
| `RibClass.Rib.Erase` | NFD/rib/rib.cpp:170-198 | the objects after erasing show exactly the state the invariants are proved for, and all invariants hold |
| `RibClass.Rib.ModifyInheritedRoutes` | NFD/rib/rib.cpp:472-491 | the loop applies the records |
| `RibClass.Rib.FindRoutesWithFaceId` | NFD/rib/rib.cpp:493-515 | one removal for each route on the face, in the order of the index |
| `RibClass.Rib.SendBatchFromQueue` | NFD/rib/rib.cpp:388-400 | hands out the front of the queue unless a batch is under way or the queue is empty |
| `RibClass.Rib.BeginApplyUpdate` | NFD/rib/rib.cpp:349-359 | enqueues, then hands out the front if the queue was idle |
| `RibClass.Rib.BeginRemoveFace` | NFD/rib/rib.cpp:361-374 | enqueues the removal of every route on the face, then hands out the front, and marks it as under way, exactly if the queue was idle and is not empty |
| `RibClass.Rib.OnFibUpdateSuccess` | NFD/rib/rib.cpp:428-456 | commits the update with the computed records, whose applicability is proved and not assumed, keeps all invariants, and goes on with the queue |
| `RibClass.RecordsFit` | NFD/rib/rib.cpp:442-443 | the computed inherited-route list can be applied to the table after the update, and gives the committed state |
| `RibClass.Rib.OnFibUpdateFailure` | NFD/rib/rib.cpp:458-470 | goes on with the queue and leaves the table alone |
| `Accounting.NoNumberLost` | apps/ndn-consumer.cpp:110-294 | after every run, while the counter stays below the sentinel: each number from the start up to the counter is in exactly one of delivered, awaited, to be sent again; the delay and count records are about exactly the undelivered numbers and give the first and last transmission and their number; the history lists exactly those numbers once; and Karn's rule holds for every sample |
| `Accounting.LastNumberIsLost` | apps/ndn-consumer.cpp:166-182 | sending keeps all of that exactly when it does not use up the last 32-bit number |
| `Accounting.SendAccounted` | apps/ndn-consumer.cpp:158-206 | sending keeps all of that |
| `Accounting.DataAccounted` | apps/ndn-consumer.cpp:212-253 | so does Data, for any number and also while inactive |
| `Accounting.ExpireAccounted` | apps/ndn-consumer.cpp:265-277 | so does a timeout |
| `Accounting.EstimateInRuns` | utils/ndn-rtt-mean-deviation.cpp:82-118 | in every run with a clock that does not run backwards, the estimate is within the samples, the deviation within half the first sample or the spread, the timeout within its limits |
| `Accounting.SamplesNonNegative` | utils/ndn-rtt-mean-deviation.cpp:163-187 | no sample is negative |
| `Accounting.MultiplierStep` | utils/ndn-rtt-mean-deviation.cpp:163-187 | a valid measurement resets the multiplier to one, a timeout backs off, nothing else changes it |
| `Accounting.MultiplierInRuns` | utils/ndn-rtt-estimator.cpp:228-241 | in every run the multiplier is one doubled for each timeout since the last measurement, up to the maximum |
| `Accounting.SentBelowEnd` | apps/ndn-consumer.cpp:173-181 | in every run no number at or above the maximum is sent |
| `Accounting.AgainGoesFirst` | apps/ndn-consumer.cpp:164-182 | in every run a new number is sent only when all numbers up to the counter are delivered or awaited |
| `Accounting.SendPicks` | apps/ndn-consumer.cpp:164-182 | the number sent is the least of those to be sent again, or else the next one if it is below the maximum, or none |
| `Estimator.EstimateBounded` | utils/ndn-rtt-mean-deviation.cpp:82-103 | the same for any sequence of samples whose first is not negative |
| `Estimator.BackoffDoubles` | utils/ndn-rtt-estimator.cpp:228-234 | timeouts in a row double the multiplier until its maximum |
| `Estimator.TimeoutBounded` | utils/ndn-rtt-mean-deviation.cpp:105-118 | the timeout is between the smaller of the two limits and the maximum |
| `Estimator.TimeoutIsLeast` | utils/ndn-rtt-mean-deviation.cpp:105-118 | the timeout is the least t that is at least multiplier times minimum and at least multiplier times (estimate plus four deviations) when that is at most the maximum, and otherwise the maximum |
| `Estimator.MeasuredCloses` | utils/ndn-rtt-mean-deviation.cpp:82-103 | a measurement leaves 1 minus the first gain of the distance between estimate and sample, and 1 minus the second gain of the distance between deviation and error; the first sample sets both |
| `Windows.InFlightBounded` | apps/ndn-consumer-window.cpp:185-219 | in every run the in-flight count is at most the number of awaited Interests, and never wraps around |
| `Windows.InFlightExact` | apps/ndn-consumer-window.cpp:185-219 | the two stay equal exactly as long as no Data comes for a number that is not awaited while something is in flight |
| `Windows.WindowAtLeastInitial` | apps/ndn-consumer-pcon.cpp:152-209 | the window never gets smaller than the initial one, whatever a decrease computes: for ConsumerWindow and AIMD in every run, for BIC and CUBIC as long as no increase gives less |
| `Windows.CurveWindowExact` | apps/ndn-consumer-pcon.cpp:152-209 | for BIC and CUBIC that condition is necessary too |
| `Windows.DecreaseShrinks` | apps/ndn-consumer-pcon.cpp:185-202 | an AIMD decrease multiplies the window by beta but not below the initial window, and never enlarges it |
| `Windows.IncreaseGrows` | apps/ndn-consumer-pcon.cpp:152-162 | an AIMD increase adds one in slow start and afterwards the inverse of the window |
| `Windows.UnmarkedDataGrows` | apps/ndn-consumer-pcon.cpp:125-127 | for AIMD, the Data event itself: unmarked Data adds one below the threshold and the inverse of the window from there on |
| `Windows.MarkedDataShrinks` | apps/ndn-consumer-pcon.cpp:117-124 | marked Data that is reacted to and not suppressed gives the larger of beta times the window and the initial one, other marked Data leaves it |
| `Windows.ExpireMovesWindow` | apps/ndn-consumer-pcon.cpp:138-150 | a timeout does the same unless suppressed |
| `Windows.CurveSetsWindow` | apps/ndn-consumer-pcon.cpp:152-209 | for BIC and CUBIC the window is that of the curve, clamped in a reaction and left alone when suppressed |
| `Windows.SlowStartCountsData` | apps/ndn-consumer-pcon.cpp:152-162 | over every run of AIMD without marks and timeouts the window is the initial one plus the number of Data |
| `Windows.WindowGrowsByOne` | apps/ndn-consumer-window.cpp:185-219 | ConsumerWindow adds one with every Data; a timeout sets it back if configured |
| `Windows.WindowCountsData` | apps/ndn-consumer-window.cpp:185-219 | so over every run without setting back it is the initial window plus the number of Data |
| `Recovery.OneDecreasePerRoundTrip` | apps/ndn-consumer-pcon.cpp:175-209 | between two window decreases an Interest was sent for the first time and its Data arrived |
| `Recovery.AheadIsPositive` | apps/ndn-consumer-pcon.cpp:178-180 | the assertion holds in every run in which Data comes only for sent numbers, and the unsigned difference is the true one |
| `Recovery.AheadExact` | apps/ndn-consumer-pcon.cpp:178-180 | at every decrease in every run, for any Data, the asserted difference is zero exactly if the highest number received so far is the next number to send |
| `Recovery.AheadIsZero` | apps/ndn-consumer-pcon.cpp:178-180 | a concrete run in which it is: Data for a number not sent yet, which the counter then reaches |
| `Recovery.KeptIsHighest` | apps/ndn-consumer-pcon.cpp:110-115 | the number kept is the highest received, while numbers fit in 32 bits |
| `Recovery.RecPointStays` | apps/ndn-consumer-pcon.cpp:178-183 | after a decrease the recovery point stays at or above the counter it had then |
| `Recovery.RecPointIs` | apps/ndn-consumer-pcon.cpp:178-183 | after a decrease the recovery point is beyond the counter by the suppression factor times its distance to the highest number received |
| `Recovery.NextDecreaseIsBeyond` | apps/ndn-consumer-pcon.cpp:178-183 | before the next decrease Data came for a number beyond the counter of this one by more than that |
| `Recovery.HighReceived` | apps/ndn-consumer-pcon.cpp:110-115 | the highest number is one that was received |
| `ConsumerApp.RttMeanDeviation.SentSeq` | utils/ndn-rtt-mean-deviation.cpp:145-161 | marks a listed number, lists any other |
| `ConsumerApp.RttMeanDeviation.AckSeq` | utils/ndn-rtt-mean-deviation.cpp:163-187 | measures an unmarked number, resets the multiplier, and unlists the number |
| `ConsumerApp.Consumer.SendPacket` | apps/ndn-consumer.cpp:158-206 | the state becomes that of a send event, for the first number to be sent again or else a new one |
| `ConsumerApp.Consumer.WillSendOutInterest` | apps/ndn-consumer.cpp:279-294 | records the transmission and counts it in flight |
| `ConsumerApp.Consumer.OnData` | apps/ndn-consumer-pcon.cpp:104-136 | the state becomes that of a Data event, for each of the three classes |
| `ConsumerApp.Consumer.OnTimeout` | apps/ndn-consumer-pcon.cpp:138-150 | the state becomes that of a timeout, for each of the three classes |
| `ConsumerApp.Consumer.WindowDecrease` | apps/ndn-consumer-pcon.cpp:175-209 | the window, threshold and recovery point after a decrease, or none when suppressed |
| `ConsumerApp.Consumer.CheckRetxTimeout` | apps/ndn-consumer.cpp:110-132 | the sweep terminates and handles exactly the numbers whose timeout has run out, each once |
| `ConsumerApp.SweptLeaves` | apps/ndn-consumer.cpp:110-132 | after the sweep exactly the others are still awaited, exactly these are also to be sent again, and the multiplier backed off once for each |

## Left out

- References between RIB entries: an entry is an object that is changed in place, but a link to another entry is that entry's name, which identifies it; two objects with the same name are not modelled.
- The RIB the updater reads: `FibUpdater` gets the table as a value, which is what the objects of `Rib` show at that moment.
- The callback from the updater into the RIB: the class methods return the batch to dispatch next; no method joins the two objects, and that an empty update list completes a batch from within the dispatch is in `Queue.Dispatch`.
- Batches with several updates: every batch has exactly one, as the assertion in sendBatchFromQueue demands.
- The FIB manager, the controller and the face system: the FIB is a map with add-or-update and remove, the responses to commands are arbitrary inputs.
- System.FibFollowsRib: nothing is promised about FIB and RIB once a batch was dispatched while commands of a denied one were outstanding; the code then breaks the property (`Strays.StaleDispatchBreaks`, `Denial.DeniedTwice`).
- ExactStep.StepExact: no entry has two routes on one face; for such entries `Several` and `Limits.OwnHopAfterErase` say exactly when the entry's own next hop and those of its descendants follow the cheapest route in one update, but not over whole runs.
- Expiration events, signals, logging, prefix announcements and the management of commands in rib-manager.cpp: they do not touch the tree or the FIB.
- Window curves of BIC and CUBIC: the new window is an input of the event and their threshold is not tracked; everything about recovery points and in-flight counts holds for all three algorithms.
- When packets are sent: a send event may happen at any time, so the timing in ScheduleNextPacket is not modelled.
- Rounding and overflow of floating-point numbers and of times, and the largest double as initial threshold, which is the absence of a threshold here; dividing by a window of zero is left open.
- Estimator.EstimateBounded: fewer than 2^32 samples, because the sample counter then wraps around and the next sample counts as the first.
- Windows.WindowAtLeastInitial: AIMD with an initial window of zero, where the first division is by zero, needs the condition on increases too.
- ConsumerBatches and ConsumerZipfMandelbrot, which clear the history or choose numbers at random, and OnNack, which does nothing.
- Helpers for topologies, global routing, stack and link setup, transports, strategies, examples and bindings.
