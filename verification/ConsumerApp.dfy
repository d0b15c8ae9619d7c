/** The round-trip estimator and the consumer as objects. */
module ConsumerApp {
  import opened Routes
  import opened Estimator
  import opened ConsumerModel

  lemma {:induction false} FindSentIs(h: seq<Sent>, n: nat, i: nat)
    requires i <= |h| && (i < |h| ==> h[i].number == n) && forall j :: 0 <= j < i ==> h[j].number != n
    ensures FindSent(h, n) == i
  {
    if i == 0 {
    } else {
      FindSentIs(h[1..], n, i - 1);
    }
  }

  class RttMeanDeviation {
    const p: Params
    var history: seq<Sent>
    var currentEstimatedRtt: real
    var variance: real
    var nSamples: nat
    var multiplier: nat

    constructor (params: Params, initialEstimation: real)
      ensures p == params && Value() == Rtt([], initialEstimation, 0.0, 0, 1)
    {
      p, history, currentEstimatedRtt, variance, nSamples, multiplier := params, [], initialEstimation, 0.0, 0, 1;
    }

    ghost function Value(): Rtt
      reads this
    {
      Rtt(history, currentEstimatedRtt, variance, nSamples, multiplier)
    }

    method SentSeq(number: nat, now: real)
      modifies this`history
      ensures history == Noted(old(history), number, now)
    {
      var i := 0;
      while i < |history| && history[i].number != number
        invariant i <= |history| && forall j :: 0 <= j < i ==> history[j].number != number
      {
        i := i + 1;
      }
      FindSentIs(history, number, i);
      if i < |history| {
        history := history[i := history[i].(retx := true)];
      } else {
        history := history + [Sent(number, now, false)];
      }
    }

    method AckSeq(number: nat, now: real) returns (m: real)
      modifies this
      ensures Value() == Acked(p, old(Value()), number, now)
    {
      m := 0.0;
      var i := 0;
      while i < |history| && history[i].number != number
        invariant i <= |history| && forall j :: 0 <= j < i ==> history[j].number != number
      {
        i := i + 1;
      }
      FindSentIs(history, number, i);
      if i < |history| {
        if !history[i].retx {
          m := now - history[i].time;
          Measurement(m);
          ResetMultiplier();
        }
        history := history[..i] + history[i + 1..];
      }
    }

    method Measurement(m: real)
      modifies this`currentEstimatedRtt, this`variance, this`nSamples
      ensures Value() == Measured(p, old(Value()), m)
    {
      if nSamples != 0 {
        var err := m - currentEstimatedRtt;
        currentEstimatedRtt := currentEstimatedRtt + Scaled(err, p.gain);
        var difference := Abs(err) - variance;
        variance := variance + Scaled(difference, p.gain2);
      } else {
        currentEstimatedRtt := m;
        variance := m / 2.0;
      }
      nSamples := (nSamples + 1) % WORD32;
    }

    method IncreaseMultiplier()
      modifies this`multiplier
      ensures multiplier == BackedOff(p, old(multiplier))
    {
      multiplier := if multiplier * 2 < p.maxMultiplier then multiplier * 2 else p.maxMultiplier;
    }

    method RetransmitTimeout() returns (timeout: real)
      ensures timeout == Estimator.RetransmitTimeout(p, Value())
    {
      var k := multiplier as real;
      timeout := Min(p.maxRto, Max(Scaled(k, p.minRto), Scaled(k, currentEstimatedRtt + 4.0 * variance)));
    }

    method ResetMultiplier()
      modifies this`multiplier
      ensures multiplier == 1
    {
      multiplier := 1;
    }
  }

  /** `c.kind` tells which of the three classes the object is of. */
  class Consumer {
    const c: Config
    const rtt: RttMeanDeviation
    var active: bool
    var next: nat
    var seqTimeouts: map<nat, real>
    var seqFullDelay: map<nat, real>
    var seqLastDelay: map<nat, real>
    var seqRetxCounts: map<nat, nat>
    var retxSeqs: set<nat>
    var window: real
    var inFlight: nat
    var ssthresh: Option<real>
    var highData: nat
    var recPoint: real

    constructor (config: Config, initialEstimation: real)
      ensures fresh(rtt) && c == config && rtt.p == config.rtt && Value() == Initial(config, initialEstimation)
    {
      c := config;
      rtt := new RttMeanDeviation(config.rtt, initialEstimation);
      active, next, retxSeqs := false, config.start, {};
      seqTimeouts, seqFullDelay, seqLastDelay, seqRetxCounts := map[], map[], map[], map[];
      window, inFlight, ssthresh, highData, recPoint := config.initialWindow as real, 0, None, 0, 0.0;
    }

    ghost function BooksValue(): Books
      reads this, rtt
    {
      Books(active, next, seqTimeouts, seqFullDelay, seqLastDelay, seqRetxCounts, retxSeqs, rtt.Value())
    }

    ghost function WinValue(): Win
      reads this
    {
      Win(window, inFlight, ssthresh, highData, recPoint)
    }

    ghost function Value(): State
      reads this, rtt
    {
      State(BooksValue(), WinValue())
    }

    // ----- sending -----

    /** WillSendOutInterest of the base class. */
    method BaseWillSendOutInterest(number: nat, now: real)
      modifies this`seqTimeouts, this`seqFullDelay, this`seqLastDelay, this`seqRetxCounts, rtt`history
      ensures BooksValue() == NotedAsSent(old(BooksValue()), number, now)
    {
      assert Inserted(seqLastDelay - {number}, number, now) == seqLastDelay[number := now];
      seqTimeouts := Inserted(seqTimeouts, number, now);
      seqFullDelay := Inserted(seqFullDelay, number, now);
      seqLastDelay := seqLastDelay - {number};
      seqLastDelay := Inserted(seqLastDelay, number, now);
      seqRetxCounts := seqRetxCounts[number := ((if number in seqRetxCounts then seqRetxCounts[number] else 0) + 1) % WORD32];
      rtt.SentSeq(number, now);
    }

    method WillSendOutInterest(number: nat, now: real)
      modifies this`inFlight, this`seqTimeouts, this`seqFullDelay, this`seqLastDelay, this`seqRetxCounts, rtt`history
      ensures BooksValue() == NotedAsSent(old(BooksValue()), number, now)
      ensures WinValue() == WindowOnSend(c, old(WinValue()))
    {
      if c.kind != Base {
        inFlight := (inFlight + 1) % WORD32;
      }
      BaseWillSendOutInterest(number, now);
    }

    /** Sends the first number that is to be sent again, or else a new one, and tells which. */
    method SendPacket(now: real) returns (sent: Option<nat>)
      modifies this, rtt`history
      ensures sent == Choice(c, old(BooksValue()))
      ensures Value() == Step(c, old(Value()), Send(now))
    {
      if !active {
        return None;
      }
      var number := SENTINEL;
      if retxSeqs != {} {
        LeastExists(retxSeqs);
        number :| number in retxSeqs && forall x :: x in retxSeqs ==> number <= x;
        retxSeqs := retxSeqs - {number};
      }
      if number == SENTINEL {
        if c.seqMax != SENTINEL && next >= c.seqMax {
          return None;
        }
        number := next;
        next := (next + 1) % WORD32;
      }
      WillSendOutInterest(number, now);
      return Some(number);
    }

    // ----- Data -----

    /** OnData of the base class. */
    method BaseOnData(number: nat, now: real)
      requires rtt.p == c.rtt
      modifies this`seqRetxCounts, this`seqFullDelay, this`seqLastDelay, this`seqTimeouts, this`retxSeqs, rtt
      ensures BooksValue() == Received(c, old(BooksValue()), number, now)
    {
      if active {
        var n := number % WORD32;
        seqRetxCounts, seqFullDelay, seqLastDelay := seqRetxCounts - {n}, seqFullDelay - {n}, seqLastDelay - {n};
        seqTimeouts, retxSeqs := seqTimeouts - {n}, retxSeqs - {n};
        var m := rtt.AckSeq(n, now);
      }
    }

    method WindowIncrease(w: real)
      modifies this`window
      ensures WinValue() == Increased(c, old(WinValue()), w)
    {
      if !c.aimd {
        window := w;
      } else if ssthresh.None? || window < ssthresh.value {
        window := window + 1.0;
      } else {
        window := if window == 0.0 then w else window + 1.0 / window;
      }
    }

    method WindowDecrease(w: real)
      modifies this`window, this`ssthresh, this`recPoint
      ensures WinValue() == Decreased(c, next, old(WinValue()), w)
    {
      if !c.useCwa || highData as real > recPoint {
        var diff := (next - highData) % WORD32;
        recPoint := next as real + Scaled(c.suppress, diff as real);
        assert recPoint == RecoveryPoint(c, next, diff);
        var reduced := w;
        if c.aimd {
          reduced := Scaled(window, c.beta);
          ssthresh := Some(reduced);
        }
        assert reduced == Reduced(c, window, w);
        window := reduced;
        if window < c.initialWindow as real {
          window := c.initialWindow as real;
        }
      }
    }

    method DecrementInFlight()
      modifies this`inFlight
      ensures inFlight == OneLess(old(inFlight))
    {
      if inFlight > 0 {
        inFlight := inFlight - 1;
      }
    }

    method OnData(number: nat, marked: bool, now: real, w: real)
      requires rtt.p == c.rtt
      modifies this, rtt
      ensures Value() == Step(c, old(Value()), Data(number, marked, now, w))
    {
      BaseOnData(number, now);
      match c.kind {
        case Base =>
        case Window =>
          window := window + 1.0;
          DecrementInFlight();
        case Pcon =>
          if highData < number {
            highData := number % WORD32;
          }
          if marked {
            if c.react {
              WindowDecrease(w);
            }
          } else {
            WindowIncrease(w);
          }
          DecrementInFlight();
      }
    }

    // ----- timeouts -----

    /** OnTimeout of the base class. */
    method BaseOnTimeout(number: nat, now: real)
      requires rtt.p == c.rtt
      modifies this`retxSeqs, rtt`multiplier, rtt`history
      ensures retxSeqs == old(retxSeqs) + {number}
      ensures rtt.multiplier == BackedOff(c.rtt, old(rtt.multiplier)) && rtt.history == Noted(old(rtt.history), number, now)
    {
      rtt.IncreaseMultiplier();
      rtt.SentSeq(number, now);
      retxSeqs := retxSeqs + {number};
    }

    method OnTimeout(number: nat, now: real, w: real)
      requires rtt.p == c.rtt
      modifies this`retxSeqs, this`inFlight, this`window, this`ssthresh, this`recPoint, rtt`multiplier, rtt`history
      ensures retxSeqs == old(retxSeqs) + {number}
      ensures rtt.multiplier == BackedOff(c.rtt, old(rtt.multiplier)) && rtt.history == Noted(old(rtt.history), number, now)
      ensures WinValue() == WindowOnTimeout(c, next, old(WinValue()), w)
    {
      match c.kind {
        case Base =>
        case Window =>
          DecrementInFlight();
          if c.initialWindowOnTimeout {
            window := c.initialWindow as real;
          }
        case Pcon =>
          WindowDecrease(w);
          DecrementInFlight();
      }
      BaseOnTimeout(number, now);
    }

    /** One turn of the sweep: the entry is removed, then the timeout is handled. */
    method ExpireOne(number: nat, now: real, w: real)
      requires rtt.p == c.rtt
      modifies this, rtt
      ensures Value() == Step(c, old(Value()), Expire(number, now, w))
    {
      seqTimeouts := seqTimeouts - {number};
      OnTimeout(number, now, w);
    }

    /** Goes through the awaited numbers from the oldest on and stops at the first that has not expired.  Exactly those that
        have expired are handled, whatever the order among equally old ones; `curve(i)` is the window for the i-th. */
    method CheckRetxTimeout(now: real, curve: nat -> real) returns (order: seq<nat>)
      requires rtt.p == c.rtt
      modifies this, rtt
      ensures Value() == SweptBy(c, old(Value()), order, now, curve)
      ensures forall n :: n in order <==> Overdue(old(BooksValue()), RetransmitTimeout(c.rtt, old(rtt.Value())), n, now)
      ensures forall i, j :: 0 <= i < j < |order| ==> order[i] != order[j]
    {
      var timeout := rtt.RetransmitTimeout();
      order := Sweep(timeout, now, curve);
    }

    method Sweep(timeout: real, now: real, curve: nat -> real) returns (order: seq<nat>)
      requires rtt.p == c.rtt
      modifies this, rtt
      ensures Value() == SweptBy(c, old(Value()), order, now, curve)
      ensures forall n :: n in order <==> Overdue(old(BooksValue()), timeout, n, now)
      ensures forall i, j :: 0 <= i < j < |order| ==> order[i] != order[j]
    {
      ghost var before := Value();
      order := [];
      while seqTimeouts != map[]
        invariant Value() == SweptBy(c, before, order, now, curve)
        invariant forall n :: n in order ==> Overdue(before.books, timeout, n, now)
        invariant forall i, j :: 0 <= i < j < |order| ==> order[i] != order[j]
        decreases |seqTimeouts|
      {
        SweptLeaves(c, before, order, now, curve);
        OldestExists(seqTimeouts);
        var number :| number in seqTimeouts && forall x :: x in seqTimeouts ==> seqTimeouts[number] <= seqTimeouts[x];
        if seqTimeouts[number] + timeout > now {
          SweptAll(before.books, BooksValue(), order, timeout, now);
          return;
        }
        SweptOneMore(c, before, order, now, curve, number);
        ExpireOne(number, now, curve(|order|));
        order := order + [number];
      }
      SweptLeaves(c, before, order, now, curve);
      SweptAll(before.books, BooksValue(), order, timeout, now);
    }
  }

  /** The timeout of the number has run out. */
  predicate Overdue(b: Books, timeout: real, n: nat, now: real)
  {
    n in b.awaiting && b.awaiting[n] + timeout <= now
  }

  /** The state after the timeouts of those numbers, one after the other. */
  ghost function SweptBy(c: Config, s: State, order: seq<nat>, now: real, curve: nat -> real): State
  {
    if order == [] then s
    else
      var k := |order| - 1;
      Step(c, SweptBy(c, s, order[..k], now, curve), Expire(order[k], now, curve(k)))
  }

  lemma SweptOneMore(c: Config, s: State, order: seq<nat>, now: real, curve: nat -> real, n: nat)
    ensures SweptBy(c, s, order + [n], now, curve) == Step(c, SweptBy(c, s, order, now, curve), Expire(n, now, curve(|order|)))
  {
    assert (order + [n])[..|order|] == order;
  }

  /** What the timeouts of those numbers leave awaited and to be sent again, and how often they back off. */
  lemma {:induction false} SweptLeaves(c: Config, s: State, order: seq<nat>, now: real, curve: nat -> real)
    ensures var b := SweptBy(c, s, order, now, curve).books;
            && (forall n :: n in b.awaiting <==> n in s.books.awaiting && n !in order)
            && (forall n :: n in b.awaiting ==> b.awaiting[n] == s.books.awaiting[n])
            && (forall n :: n in b.again <==> n in s.books.again || n in order)
            && b.rtt.multiplier == BackedOffTimes(c.rtt, s.books.rtt.multiplier, |order|)
  {
    if order == [] {
    } else {
      var k := |order| - 1;
      SweptLeaves(c, s, order[..k], now, curve);
      assert order == order[..k] + [order[k]];
      var before := SweptBy(c, s, order[..k], now, curve);
      assert SweptBy(c, s, order, now, curve).books == Expired(c, before.books, order[k], now);
    }
  }

  lemma {:induction false} OldestOf(m: map<nat, real>, keys: set<nat>) returns (n: nat)
    requires keys != {} && keys <= m.Keys
    ensures n in keys && forall x :: x in keys ==> m[n] <= m[x]
  {
    n :| n in keys;
    var rest := keys - {n};
    assert keys == rest + {n};
    if rest == {} {
    } else {
      var k := OldestOf(m, rest);
      n := if m[n] < m[k] then n else k;
    }
  }

  lemma OldestExists(m: map<nat, real>)
    requires m != map[]
    ensures exists n :: n in m && forall x :: x in m ==> m[n] <= m[x]
  {
    assert m.Keys != {};
    var n := OldestOf(m, m.Keys);
    assert n in m && forall x :: x in m ==> m[n] <= m[x];
  }

  /** All that is left awaited is not overdue, so all that was is in the order. */
  lemma SweptAll(before: Books, after: Books, order: seq<nat>, timeout: real, now: real)
    requires forall n :: n in order ==> Overdue(before, timeout, n, now)
    requires forall n :: n in after.awaiting <==> n in before.awaiting && n !in order
    requires forall n :: n in after.awaiting ==> after.awaiting[n] == before.awaiting[n] && after.awaiting[n] + timeout > now
    ensures forall n :: n in order <==> Overdue(before, timeout, n, now)
  {
  }
}
