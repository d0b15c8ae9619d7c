/** Sending the FIB updates: two phases, retries, and the responses in any order. */
module Protocol {
  import opened Names
  import opened Routes
  import opened Updates

  const MAX_NUM_TIMEOUTS := 10

  /** A command given to the controller: the update it is for, what it actually asks, and how often it timed out. */
  datatype Command = Command(u: FibUpdate, verb: Action, nTimeouts: nat)

  datatype Response = Accepted | TimedOut | FaceNotFound | OtherError

  /** What the updater remembers while a batch is under way. */
  datatype Lists = Lists(face: nat, batch: seq<FibUpdate>, other: seq<FibUpdate>)

  /** How an event ends: still waiting, or one of the two continuations is called, or an exception is thrown. */
  datatype Outcome = Waiting | Success | Failure | Thrown

  datatype Reaction = Reaction(lists: Lists, send: seq<Command>, outcome: Outcome)

  function Commands(us: seq<FibUpdate>): (cs: seq<Command>)
    ensures |cs| == |us|
    ensures forall i :: 0 <= i < |us| ==> cs[i] == Command(us[i], us[i].action, 0)
  {
    if us == [] then []
    else Commands(us[..|us| - 1]) + [Command(us[|us| - 1], us[|us| - 1].action, 0)]
  }

  /** std::list::remove of an update. */
  function Dropped(us: seq<FibUpdate>, u: FibUpdate): (r: seq<FibUpdate>)
    ensures forall x :: x in r <==> x in us && x != u
  {
    if us == [] then []
    else if us[0] == u then Dropped(us[1..], u)
    else [us[0]] + Dropped(us[1..], u)
  }

  /** sendUpdatesForNonBatchFaceId. */
  function StartOther(l: Lists): Reaction
  {
    if l.other != [] then Reaction(l, Commands(l.other), Waiting) else Reaction(l, [], Success)
  }

  /** sendUpdatesForBatchFaceId. */
  function StartBatch(l: Lists): Reaction
  {
    if l.batch != [] then Reaction(l, Commands(l.batch), Waiting) else StartOther(l)
  }

  /** onUpdateSuccess. */
  function OnSuccess(l: Lists, u: FibUpdate): Reaction
  {
    if u.face == l.face then
      var l' := l.(batch := Dropped(l.batch, u));
      if l'.batch == [] then StartOther(l') else Reaction(l', [], Waiting)
    else
      var l' := l.(other := Dropped(l.other, u));
      Reaction(l', [], if l'.other == [] then Success else Waiting)
  }

  /** onUpdateError.  A command that timed out is sent again as an addition, whatever it was. */
  function OnError(l: Lists, u: FibUpdate, response: Response, nTimeouts: nat): Reaction
  {
    if response == TimedOut && nTimeouts < MAX_NUM_TIMEOUTS then
      Reaction(l, [Command(u, AddNextHop, nTimeouts + 1)], Waiting)
    else if response == FaceNotFound then
      if u.face == l.face then Reaction(l, [], Failure)
      else
        var l' := l.(other := Dropped(l.other, u));
        Reaction(l', [], if l'.other == [] then Success else Waiting)
    else Reaction(l, [], Thrown)
  }

  function OnResponse(l: Lists, c: Command, response: Response): Reaction
  {
    if response == Accepted then OnSuccess(l, c.u) else OnError(l, c.u, response, c.nTimeouts)
  }

  // ----- runs -----

  /** A batch under way: the updater's lists, the commands without a response, the FIB; and, for the record, the FIB at
      the start and the intended one, the faces found gone, the removals that timed out, everything sent, and how
      often each continuation was called. */
  datatype Trace = Trace(
    lists: Lists, inflight: seq<Command>, fib: Fib, start: Fib, goal: Fib, dead: set<nat>, lost: set<FibUpdate>,
    sent: seq<Command>, successes: nat, failures: nat, thrown: bool)

  /** The response to the `i`-th outstanding command; a command that timed out may or may not have been carried out. */
  datatype Event = Event(i: nat, response: Response, done: bool)

  function Note(t: Trace, r: Reaction): Trace
  {
    t.(lists := r.lists,
       inflight := t.inflight + r.send,
       sent := t.sent + r.send,
       successes := t.successes + (if r.outcome == Success then 1 else 0),
       failures := t.failures + (if r.outcome == Failure then 1 else 0),
       thrown := t.thrown || r.outcome == Thrown)
  }

  function Begin(l: Lists, fib: Fib, dead: set<nat>): Trace
  {
    var goal := ApplyList(ApplyList(fib, l.batch), l.other);
    Note(Trace(l, [], fib, fib, goal, dead, {}, [], 0, 0, false), StartBatch(l))
  }

  function Without(cs: seq<Command>, i: nat): seq<Command>
    requires i < |cs|
  {
    cs[..i] + cs[i + 1..]
  }

  /** The FIB manager carries the command out when it accepts it, and perhaps when the response got lost. */
  function FibAfter(fib: Fib, c: Command, e: Event): Fib
  {
    if e.response == Accepted || (e.response == TimedOut && e.done)
    then ApplyUpdate(fib, c.u.(action := c.verb)) else fib
  }

  function Deliver(t: Trace, e: Event): Trace
    requires e.i < |t.inflight|
  {
    var c := t.inflight[e.i];
    var t' := t.(inflight := Without(t.inflight, e.i),
                 fib := FibAfter(t.fib, c, e),
                 dead := if e.response == FaceNotFound then t.dead + {c.u.face} else t.dead,
                 lost := if e.response == TimedOut && c.u.action == RemoveNextHop then t.lost + {c.u} else t.lost);
    Note(t', OnResponse(t.lists, c, e.response))
  }

  /** The response is not one that ends the batch in failure or with an exception. */
  predicate Benign(t: Trace, e: Event)
    requires e.i < |t.inflight|
  {
    var c := t.inflight[e.i];
    match e.response
    case Accepted => true
    case TimedOut => c.nTimeouts < MAX_NUM_TIMEOUTS
    case FaceNotFound => c.u.face != t.lists.face
    case OtherError => false
  }

  // ----- the invariant -----

  /** The commands without a response are for exactly these updates, each once. */
  ghost predicate Outstanding(cs: seq<Command>, us: seq<FibUpdate>)
  {
    && (forall i, j :: 0 <= i < j < |cs| ==> cs[i].u != cs[j].u)
    && (forall i :: 0 <= i < |cs| ==> cs[i].u in us)
    && (forall u :: u in us ==> exists i :: 0 <= i < |cs| && cs[i].u == u)
  }

  ghost predicate ListsOk(l: Lists)
  {
    && UniqueTargets(l.batch) && UniqueTargets(l.other)
    && (forall u :: u in l.batch ==> u.face == l.face)
    && (forall u :: u in l.other ==> u.face != l.face)
  }

  predicate Pending(l: Lists, u: FibUpdate)
  {
    u in l.batch || u in l.other
  }

  /** First the batch face's commands are out and nothing else; then, all of them accepted, the others'; the success
      continuation is called once, when both lists are empty and nothing is outstanding. */
  ghost predicate Phased(t: Trace)
  {
    && t.failures == 0 && !t.thrown
    && (t.lists.batch != [] ==> Outstanding(t.inflight, t.lists.batch) && t.successes == 0)
    && (t.lists.batch == [] && t.lists.other != [] ==> Outstanding(t.inflight, t.lists.other) && t.successes == 0)
    && (t.lists.batch == [] && t.lists.other == [] ==> t.inflight == [] && t.successes == 1)
  }

  /** A command asks what its update wants, unless it is a removal that timed out. */
  ghost predicate VerbsOk(t: Trace)
  {
    && (forall i :: 0 <= i < |t.inflight| ==>
          t.inflight[i].verb == (if t.inflight[i].u in t.lost then AddNextHop else t.inflight[i].u.action))
    && (forall i :: 0 <= i < |t.inflight| ==> t.inflight[i].nTimeouts <= MAX_NUM_TIMEOUTS)
    && (forall u :: u in t.lost ==> u.action == RemoveNextHop)
    && (t.lists.batch != [] ==> forall u :: u in t.lost ==> u.face == t.lists.face)
  }

  ghost predicate LostOn(t: Trace, n: Name, g: nat)
  {
    exists u :: u in t.lost && Targets(u, n, g)
  }

  function PendingEffect(l: Lists, n: Name, g: nat): Effect
  {
    Then(ListEffect(l.batch, n, g), ListEffect(l.other, n, g))
  }

  /** What the FIB holds and what is still to come make up the goal, except where a removal was lost. */
  ghost predicate OnTrack(t: Trace)
  {
    forall n, g :: g !in t.dead && !LostOn(t, n, g) ==>
                     After(Get(t.fib, n, g), PendingEffect(t.lists, n, g)) == Get(t.goal, n, g)
  }

  /** The goal holds what the updates still to come ask for. */
  ghost predicate GoalCovers(t: Trace)
  {
    forall u :: Pending(t.lists, u) ==> Get(t.goal, u.name, u.face) == After(None, EffectOf(u))
  }

  /** A lost removal is still to come, or has put the next hop in instead of taking it out. */
  ghost predicate LostMatters(t: Trace)
  {
    forall u :: u in t.lost ==>
                  && Get(t.goal, u.name, u.face) == None
                  && (Pending(t.lists, u) || u.face in t.dead || Get(t.fib, u.name, u.face) == Some(u.cost))
                  && forall v :: Pending(t.lists, v) && Targets(v, u.name, u.face) ==> v == u
  }

  /** In the first phase nothing but the batch's own face has been touched. */
  ghost predicate OnlyOwnFace(t: Trace)
  {
    t.lists.batch != [] ==> forall n, g :: g != t.lists.face ==> Get(t.fib, n, g) == Get(t.start, n, g)
  }

  ghost predicate Ok(t: Trace)
  {
    ListsOk(t.lists) && Phased(t) && VerbsOk(t) && OnTrack(t) && GoalCovers(t) && LostMatters(t) && OnlyOwnFace(t)
  }

  // ----- lists -----

  lemma {:induction false} DroppedUnique(us: seq<FibUpdate>, u: FibUpdate)
    requires UniqueTargets(us)
    ensures UniqueTargets(Dropped(us, u))
  {
    if us == [] {
    } else {
      DroppedUnique(us[1..], u);
      var r := Dropped(us[1..], u);
      forall j | 0 <= j < |r|
        ensures !Targets(us[0], r[j].name, r[j].face)
      {
        assert r[j] in r;
        var k :| 0 <= k < |us[1..]| && us[1..][k] == r[j];
        assert us[k + 1] == r[j];
      }
    }
  }

  /** Dropping an update takes away its effect and no other. */
  lemma DroppedEffect(us: seq<FibUpdate>, u: FibUpdate, n: Name, g: nat)
    requires UniqueTargets(us) && u in us
    ensures ListEffect(us, n, g) == if Targets(u, n, g) then EffectOf(u) else ListEffect(Dropped(us, u), n, g)
    ensures Targets(u, n, g) ==> ListEffect(Dropped(us, u), n, g) == Keep
  {
    var k :| 0 <= k < |us| && us[k] == u;
    var r := Dropped(us, u);
    DroppedUnique(us, u);
    if Targets(u, n, g) {
      UniqueEffect(us, k);
      forall j | 0 <= j < |r|
        ensures !Targets(r[j], n, g)
      {
        assert r[j] in r;
        var m :| 0 <= m < |us| && us[m] == r[j];
        assert m != k;
      }
      NoTargetNoEffect(r, n, g);
    } else if m :| 0 <= m < |us| && Targets(us[m], n, g) {
      UniqueEffect(us, m);
      assert us[m] in r;
      var j :| 0 <= j < |r| && r[j] == us[m];
      UniqueEffect(r, j);
    } else {
      NoTargetNoEffect(us, n, g);
      forall j | 0 <= j < |r|
        ensures !Targets(r[j], n, g)
      {
        assert r[j] in r;
        var m :| 0 <= m < |us| && us[m] == r[j];
      }
      NoTargetNoEffect(r, n, g);
    }
  }

  lemma OtherFaceNoEffect(us: seq<FibUpdate>, f: nat, own: bool, n: Name, g: nat)
    requires forall u :: u in us ==> (u.face == f) == own
    requires (g == f) != own
    ensures ListEffect(us, n, g) == Keep
  {
    assert forall i :: 0 <= i < |us| ==> us[i] in us;
    NoTargetNoEffect(us, n, g);
  }

  lemma UniqueMember(us: seq<FibUpdate>, u: FibUpdate, v: FibUpdate)
    requires UniqueTargets(us) && u in us && v in us && Targets(v, u.name, u.face)
    ensures u == v
  {
    var i :| 0 <= i < |us| && us[i] == u;
    var j :| 0 <= j < |us| && us[j] == v;
  }

  // ----- outstanding commands -----

  lemma CommandsOutstanding(us: seq<FibUpdate>)
    requires UniqueTargets(us)
    ensures Outstanding(Commands(us), us)
  {
    var cs := Commands(us);
    forall u | u in us
      ensures exists i :: 0 <= i < |cs| && cs[i].u == u
    {
      var i :| 0 <= i < |us| && us[i] == u;
      assert cs[i].u == u;
    }
  }

  lemma WithoutIndex(cs: seq<Command>, i: nat)
    requires i < |cs|
    ensures |Without(cs, i)| == |cs| - 1
    ensures forall j :: 0 <= j < |cs| - 1 ==> Without(cs, i)[j] == cs[if j < i then j else j + 1]
  {
  }

  lemma AnswerOutstanding(cs: seq<Command>, us: seq<FibUpdate>, i: nat)
    requires Outstanding(cs, us) && i < |cs|
    ensures Outstanding(Without(cs, i), Dropped(us, cs[i].u))
  {
    var ds := Without(cs, i);
    WithoutDistinct(cs, i);
    forall u | u in us && u != cs[i].u
      ensures exists j :: 0 <= j < |ds| && ds[j].u == u
    {
      var k :| 0 <= k < |cs| && cs[k].u == u;
      var j := if k < i then k else k - 1;
      WithoutIndex(cs, i);
      assert ds[j].u == u;
    }
    forall j | 0 <= j < |ds|
      ensures ds[j].u in us && ds[j].u != cs[i].u
    {
      WithoutIndex(cs, i);
    }
  }

  lemma WithoutDistinct(cs: seq<Command>, i: nat)
    requires i < |cs| && forall a, b :: 0 <= a < b < |cs| ==> cs[a].u != cs[b].u
    ensures var ds := Without(cs, i); forall a, b :: 0 <= a < b < |ds| ==> ds[a].u != ds[b].u
  {
    WithoutIndex(cs, i);
  }

  lemma ResendOutstanding(cs: seq<Command>, us: seq<FibUpdate>, i: nat, c: Command)
    requires Outstanding(cs, us) && i < |cs| && c.u == cs[i].u
    ensures Outstanding(Without(cs, i) + [c], us)
  {
    var ds := Without(cs, i) + [c];
    WithoutIndex(cs, i);
    forall u | u in us
      ensures exists j :: 0 <= j < |ds| && ds[j].u == u
    {
      var k :| 0 <= k < |cs| && cs[k].u == u;
      if k == i {
        assert ds[|ds| - 1].u == u;
      } else {
        assert ds[if k < i then k else k - 1].u == u;
      }
    }
  }

  lemma OutstandingMember(cs: seq<Command>, us: seq<FibUpdate>, i: nat)
    requires Outstanding(cs, us) && i < |cs|
    ensures us != []
  {
    assert cs[i].u in us;
  }

  lemma NothingOutstanding(cs: seq<Command>)
    requires Outstanding(cs, [])
    ensures cs == []
  {
    if |cs| > 0 {
      OutstandingMember(cs, [], 0);
    }
  }
}
