/** The congestion window over whole runs: the in-flight count and the smallest window. */
module Windows {
  import opened Routes
  import opened Estimator
  import opened ConsumerModel
  import opened Accounting

  // ----- in flight -----

  lemma {:induction false} BelowCount(xs: set<nat>, n: nat)
    requires forall x :: x in xs ==> x < n
    ensures |xs| <= n
  {
    if n > 0 {
      BelowCount(xs - {n - 1}, n - 1);
      if n - 1 in xs {
        assert xs == (xs - {n - 1}) + {n - 1};
      } else {
        assert xs == xs - {n - 1};
      }
    } else {
      assert xs == {};
    }
  }

  /** How many numbers are awaited. */
  function Awaited(b: Books): nat
  {
    |b.awaiting|
  }

  lemma AwaitedWith(m: map<nat, real>, n: nat, t: real)
    requires n !in m
    ensures |m[n := t]| == |m| + 1
  {
    assert |m| == |m.Keys| && |m[n := t]| == |m[n := t].Keys|;
    assert m[n := t].Keys == m.Keys + {n};
  }

  /** Fewer numbers are awaited than the counter tells. */
  lemma AwaitedBelow(c: Config, b: Books, log: Log)
    requires Partition(c, b, log)
    ensures Awaited(b) <= b.next
  {
    assert |b.awaiting| == |b.awaiting.Keys|;
    BelowCount(b.awaiting.Keys, b.next);
  }

  lemma AwaitedOnSend(c: Config, b: Books, log: Log, now: real)
    requires Partition(c, b, log) && Recorded(b) && Fits(c, b, Send(now))
    ensures Awaited(Sending(c, b, now)) == Awaited(b) + if Choice(c, b).Some? then 1 else 0
    ensures Choice(c, b).Some? ==> Awaited(b) < SENTINEL
  {
    SendShape(c, b, log, now);
    if Choice(c, b).Some? {
      var b', n := Sending(c, b, now), Choice(c, b).value;
      SendPartition(c, b, b', log, n, now);
      AwaitedWith(b.awaiting, n, now);
      AwaitedBelow(c, b', log.(sends := log.sends + [(n, now)]));
    }
  }

  lemma AwaitedWithout(m: map<nat, real>, n: nat)
    ensures |m - {n}| == |m| - if n in m then 1 else 0
  {
    assert |m| == |m.Keys| && |m - {n}| == |(m - {n}).Keys|;
    assert (m - {n}).Keys == m.Keys - {n};
  }

  /** Whether Data is for a number that is not awaited. */
  ghost predicate Stray(b: Books, e: Event)
  {
    e.Data? && !(b.active && e.number % WORD32 in b.awaiting)
  }

  /** By how much an event changes the number of awaited Interests. */
  ghost function Change(c: Config, b: Books, e: Event): int
  {
    match e
    case Send(_) => if Choice(c, b).Some? then 1 else 0
    case Data(_, _, _, _) => if Stray(b, e) then 0 else -1
    case Expire(_, _, _) => -1
    case SetActive(_, _) => 0
  }

  lemma AwaitedOnData(c: Config, b: Books, e: Event)
    requires e.Data?
    ensures Awaited(BooksStep(c, b, e)) == Awaited(b) + Change(c, b, e)
  {
    AwaitedWithout(b.awaiting, e.number % WORD32);
  }

  lemma AwaitedOnExpire(c: Config, b: Books, e: Event)
    requires e.Expire? && e.number in b.awaiting
    ensures Awaited(BooksStep(c, b, e)) == Awaited(b) + Change(c, b, e)
  {
    AwaitedWithout(b.awaiting, e.number);
  }

  lemma AwaitedStep(c: Config, b: Books, log: Log, e: Event)
    requires Partition(c, b, log) && Recorded(b) && Fits(c, b, e)
    ensures Awaited(BooksStep(c, b, e)) == Awaited(b) + Change(c, b, e)
    ensures Change(c, b, e) == 1 ==> Awaited(b) < SENTINEL
  {
    match e
    case Send(now) =>
      AwaitedOnSend(c, b, log, now);
    case Data(_, _, _, _) =>
      AwaitedOnData(c, b, e);
    case Expire(_, _, _) =>
      AwaitedOnExpire(c, b, e);
    case SetActive(_, _) =>
  }

  lemma InFlightStep(c: Config, s: State, e: Event)
    requires c.kind != Base && (Change(c, s.books, e) == 1 ==> s.win.inFlight < SENTINEL)
    ensures WindowStep(c, s, e).inFlight ==
            match e
            case Send(_) => s.win.inFlight + Change(c, s.books, e)
            case Data(_, _, _, _) => OneLess(s.win.inFlight)
            case Expire(_, _, _) => OneLess(s.win.inFlight)
            case SetActive(_, _) => s.win.inFlight
  {
  }

  lemma CountsKeepOrder(c: Config, s: State, log: Log, e: Event)
    requires c.kind != Base && Accounted(c, s.books, log) && Fits(c, s.books, e) && s.win.inFlight <= Awaited(s.books)
    ensures Step(c, s, e).win.inFlight <= Awaited(Step(c, s, e).books)
  {
    AwaitedStep(c, s.books, log, e);
    InFlightStep(c, s, e);
    OrderKept(s.win.inFlight, Awaited(s.books), Change(c, s.books, e), WindowStep(c, s, e).inFlight,
              Awaited(BooksStep(c, s.books, e)), e);
  }

  lemma OrderKept(i: nat, a: nat, change: int, i': nat, a': nat, e: Event)
    requires i <= a && a' == a + change
    requires i' == match e
                   case Send(_) => i + change
                   case Data(_, _, _, _) => OneLess(i)
                   case Expire(_, _, _) => OneLess(i)
                   case SetActive(_, _) => i
    requires e.SetActive? ==> change == 0
    requires e.Data? || e.Expire? ==> change >= -1
    ensures i' <= a'
  {
  }

  /** In every run the in-flight count is at most the number of awaited Interests. */
  lemma {:induction false} InFlightBounded(c: Config, estimate: real, es: seq<Event>, k: nat)
    requires c.kind != Base && c.start <= SENTINEL && k <= |es| && RunFits(c, Initial(c, estimate), es, k)
    ensures var s := After(c, Initial(c, estimate), es, k); s.win.inFlight <= Awaited(s.books)
  {
    if k == 0 {
    } else {
      InFlightBounded(c, estimate, es, k - 1);
      NoNumberLost(c, estimate, es, k - 1);
      var s := Initial(c, estimate);
      CountsKeepOrder(c, After(c, s, es, k - 1), LogAfter(c, s, es, k - 1), es[k - 1]);
    }
  }

  /** The two counts stay equal exactly as long as no Data comes for a number that is not awaited while something is in
      flight: such Data is counted as if it answered an outstanding Interest. */
  lemma InFlightExact(c: Config, s: State, log: Log, e: Event)
    requires c.kind != Base && Accounted(c, s.books, log) && Fits(c, s.books, e) && s.win.inFlight == Awaited(s.books)
    ensures var s' := Step(c, s, e);
            s'.win.inFlight == Awaited(s'.books) <==> !(Stray(s.books, e) && s.win.inFlight > 0)
  {
    AwaitedStep(c, s.books, log, e);
    InFlightStep(c, s, e);
    if e.Data? && !Stray(s.books, e) {
      AwaitedWithout(s.books.awaiting, e.number % WORD32);
    }
    if e.Expire? {
      AwaitedWithout(s.books.awaiting, e.number);
    }
  }

  // ----- the smallest window -----

  /** The window the curve gives on unmarked Data, or in place of a division by zero, is not below the initial one. */
  predicate CurveHigh(c: Config, e: Event)
  {
    c.kind == Pcon && !(c.aimd && c.initialWindow >= 1) && e.Data? && !e.marked ==> e.w >= c.initialWindow as real
  }

  ghost predicate CurvesHigh(c: Config, es: seq<Event>, k: nat)
    requires k <= |es|
  {
    forall i :: 0 <= i < k ==> CurveHigh(c, es[i])
  }

  lemma WindowStepAtLeast(c: Config, s: State, e: Event)
    requires CurveHigh(c, e) && s.win.size >= c.initialWindow as real
    ensures WindowStep(c, s, e).size >= c.initialWindow as real
  {
    if s.win.size > 0.0 {
      assert 1.0 / s.win.size > 0.0;
    }
  }

  /** The window never gets smaller than the initial one, whatever a decrease computes: for ConsumerWindow and AIMD always,
      for BIC and CUBIC as long as the curve does not grow to less. */
  lemma {:induction false} WindowAtLeastInitial(c: Config, estimate: real, es: seq<Event>, k: nat)
    requires k <= |es| && CurvesHigh(c, es, k)
    ensures After(c, Initial(c, estimate), es, k).win.size >= c.initialWindow as real
  {
    if k == 0 {
    } else {
      WindowAtLeastInitial(c, estimate, es, k - 1);
      WindowStepAtLeast(c, After(c, Initial(c, estimate), es, k - 1), es[k - 1]);
    }
  }

  /** For BIC and CUBIC that is exact: the window stays at or above the initial one over the whole run if and only if the
      curve does. */
  lemma {:induction false} CurveWindowExact(c: Config, estimate: real, es: seq<Event>, k: nat)
    requires c.kind == Pcon && !c.aimd && k <= |es|
    ensures (forall j :: 0 <= j <= k ==> After(c, Initial(c, estimate), es, j).win.size >= c.initialWindow as real) <==>
            CurvesHigh(c, es, k)
  {
    if CurvesHigh(c, es, k) {
      forall j | 0 <= j <= k
        ensures After(c, Initial(c, estimate), es, j).win.size >= c.initialWindow as real
      {
        WindowAtLeastInitial(c, estimate, es, j);
      }
    } else {
      var i :| 0 <= i < k && !CurveHigh(c, es[i]);
      assert After(c, Initial(c, estimate), es, i + 1).win.size == es[i].w;
    }
  }

  // ----- AIMD -----

  /** A decrease that is not suppressed multiplies the window by beta, but not below the initial window, and leaves the
      threshold at the product; with beta in [0, 1] it never enlarges the window. */
  lemma DecreaseShrinks(c: Config, next: nat, v: Win, w: real)
    requires c.aimd && 0.0 <= c.beta <= 1.0 && v.size >= c.initialWindow as real && Reacts(c, v)
    ensures var v', product := Decreased(c, next, v, w), Scaled(v.size, c.beta);
            && c.initialWindow as real <= v'.size <= v.size
            && v'.ssthresh == Some(product) && v'.size == Max(product, c.initialWindow as real)
  {
    Fraction(v.size, c.beta);
    DecreasedTo(c, next, v, w, Scaled(v.size, c.beta));
  }

  lemma DecreasedTo(c: Config, next: nat, v: Win, w: real, product: real)
    requires c.aimd && Reacts(c, v) && Reduced(c, v.size, w) == product && product <= v.size && c.initialWindow as real <= v.size
    ensures var v' := Decreased(c, next, v, w);
            && c.initialWindow as real <= v'.size <= v.size
            && v'.ssthresh == Some(product) && v'.size == Max(product, c.initialWindow as real)
  {
  }

  /** Slow start adds one; after that at most 1/n for a window of at least n. */
  lemma IncreaseGrows(c: Config, v: Win, w: real)
    requires c.aimd && v.size >= 1.0
    ensures var v' := Increased(c, v, w);
            && v.size < v'.size <= v.size + 1.0
            && ((v.ssthresh.None? || v.size < v.ssthresh.value) ==> v'.size == v.size + 1.0)
            && (v.ssthresh.Some? && v.size >= v.ssthresh.value ==> (v'.size - v.size) * v.size == 1.0)
  {
    assert 0.0 < 1.0 / v.size <= 1.0;
  }

  // ----- the window, event by event -----

  /** The highest number received when an event has been looked at. */
  function HighAt(s: State, e: Event): nat
  {
    if e.Data? && s.win.highData < e.number then e.number % WORD32 else s.win.highData
  }

  /** A decrease is not suppressed. */
  predicate Unsuppressed(c: Config, s: State, e: Event)
  {
    !c.useCwa || HighAt(s, e) as real > s.win.recPoint
  }

  /** ConsumerPcon with AIMD, any state with a window of at least one: unmarked Data adds one below the threshold and the inverse
      of the window from there on, and leaves the threshold. */
  lemma UnmarkedDataGrows(c: Config, s: State, n: nat, now: real, w: real)
    requires c.kind == Pcon && c.aimd && s.win.size >= 1.0
    ensures var v := Step(c, s, Data(n, false, now, w)).win;
            && (s.win.ssthresh.None? || s.win.size < s.win.ssthresh.value ==> v.size == s.win.size + 1.0)
            && (s.win.ssthresh.Some? && s.win.size >= s.win.ssthresh.value ==> (v.size - s.win.size) * s.win.size == 1.0)
            && v.size > s.win.size && v.ssthresh == s.win.ssthresh
  {
    IncreaseGrows(c, Heard(s.win, n), w);
    assert Step(c, s, Data(n, false, now, w)).win.size == Increased(c, Heard(s.win, n), w).size;
  }

  /** Marked Data that is reacted to multiplies by beta, but not below the initial window, and leaves the threshold at the
      product; other marked Data changes neither. */
  lemma MarkedDataShrinks(c: Config, s: State, n: nat, now: real, w: real)
    requires c.kind == Pcon && c.aimd
    ensures var e := Data(n, true, now, w);
            var v, reacts := Step(c, s, e).win, c.react && Unsuppressed(c, s, e);
            && v.size == (if !reacts then s.win.size
                          else if Scaled(s.win.size, c.beta) < c.initialWindow as real then c.initialWindow as real else Scaled(s.win.size, c.beta))
            && v.ssthresh == if reacts then Some(Scaled(s.win.size, c.beta)) else s.win.ssthresh
  {
    DecreasedSize(c, s.books.next, Heard(s.win, n), w);
  }

  /** A timeout is reacted to in the same way. */
  lemma ExpireMovesWindow(c: Config, s: State, n: nat, now: real, w: real)
    requires c.kind == Pcon && c.aimd
    ensures var e := Expire(n, now, w);
            var old', new' := s.win.size, Step(c, s, e).win.size;
            new' == if !Unsuppressed(c, s, e) then old'
                    else if Scaled(old', c.beta) < c.initialWindow as real then c.initialWindow as real else Scaled(old', c.beta)
    ensures var e := Expire(n, now, w);
            Step(c, s, e).win.ssthresh == if Unsuppressed(c, s, e) then Some(Scaled(s.win.size, c.beta)) else s.win.ssthresh
  {
    DecreasedSize(c, s.books.next, s.win, w);
  }

  lemma DecreasedSize(c: Config, next: nat, v: Win, w: real)
    requires c.aimd
    ensures var v' := Decreased(c, next, v, w);
            && v'.size == (if !Reacts(c, v) then v.size
                           else if Scaled(v.size, c.beta) < c.initialWindow as real then c.initialWindow as real else Scaled(v.size, c.beta))
            && v'.ssthresh == (if Reacts(c, v) then Some(Scaled(v.size, c.beta)) else v.ssthresh)
  {
  }

  /** BIC and CUBIC: unmarked Data takes the window of the curve, a reaction takes it too, but not below the initial window. */
  lemma CurveSetsWindow(c: Config, s: State, e: Event)
    requires c.kind == Pcon && !c.aimd && (e.Data? || e.Expire?)
    ensures var reacts := (e.Expire? || (e.marked && c.react)) && Unsuppressed(c, s, e);
            Step(c, s, e).win.size ==
            if e.Data? && !e.marked then e.w
            else if !reacts then s.win.size
            else if e.w < c.initialWindow as real then c.initialWindow as real else e.w
  {
  }

  /** ConsumerWindow grows by one with every Data, and a timeout sets the window back or leaves it, as configured. */
  lemma WindowGrowsByOne(c: Config, s: State, e: Event)
    requires c.kind == Window
    ensures Step(c, s, e).win.size ==
            if e.Data? then s.win.size + 1.0
            else if e.Expire? && c.initialWindowOnTimeout then c.initialWindow as real
            else s.win.size
  {
  }

  /** Sending and starting or stopping never move a window. */
  lemma OthersKeepWindow(c: Config, s: State, e: Event)
    requires e.Send? || e.SetActive?
    ensures Step(c, s, e).win.size == s.win.size && Step(c, s, e).win.ssthresh == s.win.ssthresh
  {
  }

  function DataCount(es: seq<Event>, k: nat): nat
    requires k <= |es|
  {
    if k == 0 then 0 else DataCount(es, k - 1) + if es[k - 1].Data? then 1 else 0
  }

  /** So over every run of ConsumerWindow in which timeouts leave it alone, the window is the initial one plus the number of
      Data received. */
  lemma {:induction false} WindowCountsData(c: Config, estimate: real, es: seq<Event>, k: nat)
    requires c.kind == Window && !c.initialWindowOnTimeout && k <= |es|
    ensures After(c, Initial(c, estimate), es, k).win.size == (c.initialWindow + DataCount(es, k)) as real
  {
    if k == 0 {
    } else {
      WindowCountsData(c, estimate, es, k - 1);
      WindowGrowsByOne(c, After(c, Initial(c, estimate), es, k - 1), es[k - 1]);
    }
  }

  /** No congestion: every Data is unmarked and nothing times out. */
  ghost predicate Calm(es: seq<Event>, k: nat)
    requires k <= |es|
  {
    forall i :: 0 <= i < k ==> !es[i].Expire? && (es[i].Data? ==> !es[i].marked)
  }

  /** Until then ConsumerPcon with AIMD is in slow start: the window is the initial one plus the number of Data received. */
  lemma {:induction false} SlowStartCountsData(c: Config, estimate: real, es: seq<Event>, k: nat)
    requires c.kind == Pcon && c.aimd && c.initialWindow >= 1 && k <= |es| && Calm(es, k)
    ensures var v := After(c, Initial(c, estimate), es, k).win;
            v.size == (c.initialWindow + DataCount(es, k)) as real && v.ssthresh == None
  {
    if k == 0 {
    } else {
      SlowStartCountsData(c, estimate, es, k - 1);
      var s, e := After(c, Initial(c, estimate), es, k - 1), es[k - 1];
      if e.Data? {
        UnmarkedDataGrows(c, s, e.number, e.now, e.w);
      } else {
        OthersKeepWindow(c, s, e);
      }
    }
  }
}
