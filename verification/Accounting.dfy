/** No number is lost: over every run each requested number is delivered, awaited or to be sent again, what is recorded
    about it is right, and only unambiguous round trips are measured. */
module Accounting {
  import opened Routes
  import opened Estimator
  import opened ConsumerModel

  datatype Sample = Sample(number: nat, rtt: real, at: real)

  /** What has happened: transmissions with their times, numbers that timed out, numbers whose Data came, and the round
      trips that were measured. */
  datatype Log = Log(sends: seq<(nat, real)>, expired: set<nat>, delivered: set<nat>, samples: seq<Sample>)

  const NOTHING := Log([], {}, {}, [])

  ghost predicate Measures(b: Books, n: nat)
  {
    var i := FindSent(b.rtt.history, n);
    b.active && i < |b.rtt.history| && !b.rtt.history[i].retx
  }

  ghost function Logged(c: Config, b: Books, log: Log, e: Event): Log
  {
    match e
    case Send(now) => (
      match Choice(c, b)
      case None => log
      case Some(n) => log.(sends := log.sends + [(n, now)]))
    case Data(number, _, now, _) =>
      var n := number % WORD32;
      var log' := if b.active && n in b.full then log.(delivered := log.delivered + {n}) else log;
      if !Measures(b, n) then log'
      else log'.(samples := log.samples + [Sample(n, now - b.rtt.history[FindSent(b.rtt.history, n)].time, now)])
    case Expire(n, _, _) => log.(expired := log.expired + {n})
    case SetActive(_, _) => log
  }

  ghost function LogAfter(c: Config, s: State, es: seq<Event>, k: nat): Log
    requires k <= |es|
  {
    if k == 0 then NOTHING else Logged(c, After(c, s, es, k - 1).books, LogAfter(c, s, es, k - 1), es[k - 1])
  }

  /** When number `n` was sent. */
  function Times(sends: seq<(nat, real)>, n: nat): seq<real>
  {
    if sends == [] then []
    else
      var k := |sends| - 1;
      Times(sends[..k], n) + if sends[k].0 == n then [sends[k].1] else []
  }

  lemma TimesSnoc(sends: seq<(nat, real)>, m: nat, now: real, n: nat)
    ensures Times(sends + [(m, now)], n) == Times(sends, n) + if m == n then [now] else []
  {
    assert (sends + [(m, now)])[..|sends|] == sends;
  }

  // ----- the invariant -----

  /** Every number from the start up to the counter is in exactly one place, and no other number is anywhere. */
  ghost predicate Partition(c: Config, b: Books, log: Log)
  {
    && c.start <= b.next <= SENTINEL
    && (forall n :: c.start <= n < b.next <==> n in b.awaiting || n in b.again || n in log.delivered)
    && b.awaiting.Keys !! b.again && b.awaiting.Keys !! log.delivered && b.again !! log.delivered
  }

  /** The records about numbers are about exactly those that are not delivered. */
  ghost predicate Recorded(b: Books)
  {
    b.full.Keys == b.last.Keys == b.counts.Keys == b.awaiting.Keys + b.again
  }

  /** The recorded times are the first and the last transmission, the timeout runs from the last one, and the counter
      counts the transmissions. */
  ghost predicate TimedAt(b: Books, sends: seq<(nat, real)>, n: nat)
  {
    var ts := Times(sends, n);
    && n in b.full && n in b.last && n in b.counts
    && ts != [] && b.full[n] == ts[0] && b.last[n] == ts[|ts| - 1] && b.counts[n] == |ts| % WORD32
    && (n in b.awaiting ==> b.awaiting[n] == ts[|ts| - 1])
  }

  ghost predicate Timed(b: Books, log: Log)
  {
    forall n :: n in b.full ==> TimedAt(b, log.sends, n)
  }

  /** Numbers not reached yet were neither sent nor timed out. */
  ghost predicate Unused(b: Books, log: Log)
  {
    forall n :: n >= b.next ==> Times(log.sends, n) == [] && n !in log.expired
  }

  /** The history holds exactly the numbers that are not delivered, once each. */
  ghost predicate HistoryListed(b: Books)
  {
    && (forall i, j :: 0 <= i < j < |b.rtt.history| ==> b.rtt.history[i].number != b.rtt.history[j].number)
    && (forall n :: n in b.full <==> FindSent(b.rtt.history, n) < |b.rtt.history|)
  }

  /** A number in the history is marked exactly when it timed out; an unmarked one was sent once. */
  ghost predicate EntryRight(x: Sent, log: Log)
  {
    var ts := Times(log.sends, x.number);
    ts != [] && x.time == ts[0] && (x.retx <==> x.number in log.expired) && (!x.retx ==> |ts| == 1)
  }

  ghost predicate HistoryRight(b: Books, log: Log)
  {
    b.again <= log.expired && forall x :: x in b.rtt.history ==> EntryRight(x, log)
  }

  /** Karn's rule: every sample is the time from the only transmission of a number that never timed out to its Data. */
  ghost predicate Karn(log: Log)
  {
    forall i :: 0 <= i < |log.samples| ==>
      var m := log.samples[i];
      var ts := Times(log.sends, m.number);
      m.number in log.delivered && m.number !in log.expired && |ts| == 1 && m.rtt == m.at - ts[0]
  }

  ghost predicate Accounted(c: Config, b: Books, log: Log)
  {
    && Partition(c, b, log) && Recorded(b) && Timed(b, log) && Unused(b, log)
    && HistoryListed(b) && HistoryRight(b, log) && Karn(log)
  }

  lemma InitiallyAccounted(c: Config, estimate: real)
    requires c.start <= SENTINEL
    ensures Accounted(c, InitialBooks(c, estimate), NOTHING)
  {
  }

  // ----- sending -----

  /** What sending number `n` changes. */
  ghost predicate SentOne(b: Books, b': Books, n: nat, now: real)
  {
    && b'.awaiting == b.awaiting[n := now] && b'.again == b.again - {n}
    && b'.full == (if n in b.full then b.full else b.full[n := now]) && b'.last == b.last[n := now]
    && b'.counts == b.counts[n := ((if n in b.counts then b.counts[n] else 0) + 1) % WORD32]
    && b'.rtt.history == Noted(b.rtt.history, n, now)
    && (if n == b.next then b'.next == b.next + 1 else n in b.again && b'.next == b.next)
  }

  lemma SendShape(c: Config, b: Books, log: Log, now: real)
    requires Partition(c, b, log)
    requires Fresh(c, b) ==> b.next < SENTINEL
    ensures Choice(c, b).None? ==> Sending(c, b, now) == b
    ensures Choice(c, b).Some? ==> SentOne(b, Sending(c, b, now), Choice(c, b).value, now)
  {
    if b.again != {} {
      assert First(b.again) in b.again;
    }
  }

  lemma SendPartition(c: Config, b: Books, b': Books, log: Log, n: nat, now: real)
    requires Partition(c, b, log) && Recorded(b) && SentOne(b, b', n, now) && b'.next <= SENTINEL
    ensures Partition(c, b', log.(sends := log.sends + [(n, now)])) && Recorded(b')
  {
  }

  lemma SendTimedAt(b: Books, b': Books, sends: seq<(nat, real)>, n: nat, now: real, x: nat)
    requires SentOne(b, b', n, now) && x in b'.full
    requires x in b.full ==> TimedAt(b, sends, x)
    requires x == n ==> (if n in b.full then n in b.again && n !in b.awaiting else n !in b.counts && Times(sends, n) == [])
    ensures TimedAt(b', sends + [(n, now)], x)
  {
    TimesSnoc(sends, n, now, x);
    if x == n {
      var ts := Times(sends, n);
      assert (ts + [now])[|ts|] == now;
      OneMore(|ts|);
    } else {
      assert TimedAt(b, sends, x);
    }
  }

  lemma OneMore(k: nat)
    ensures (k % WORD32 + 1) % WORD32 == (k + 1) % WORD32
  {
  }

  lemma SendTimed(c: Config, b: Books, b': Books, log: Log, n: nat, now: real)
    requires Partition(c, b, log) && Recorded(b) && Timed(b, log) && Unused(b, log) && SentOne(b, b', n, now)
    ensures var log' := log.(sends := log.sends + [(n, now)]); Timed(b', log') && Unused(b', log')
  {
    var log' := log.(sends := log.sends + [(n, now)]);
    assert n in b.full <==> n in b.again;
    forall x | x in b'.full
      ensures TimedAt(b', log'.sends, x)
    {
      SendTimedAt(b, b', log.sends, n, now, x);
    }
    forall x | x >= b'.next
      ensures Times(log'.sends, x) == []
    {
      TimesSnoc(log.sends, n, now, x);
    }
  }

  /** A marked or added number leaves the list duplicate-free, and the list names what it named and `n`. */
  lemma NotedListed(h: seq<Sent>, n: nat, now: real)
    requires forall i, j :: 0 <= i < j < |h| ==> h[i].number != h[j].number
    ensures var h' := Noted(h, n, now);
            && (forall i, j :: 0 <= i < j < |h'| ==> h'[i].number != h'[j].number)
            && (forall x :: FindSent(h', x) < |h'| <==> FindSent(h, x) < |h| || x == n)
  {
    var h' := Noted(h, n, now);
    forall x
      ensures FindSent(h', x) < |h'| <==> FindSent(h, x) < |h| || x == n
    {
      if FindSent(h, x) < |h| {
        assert h'[FindSent(h, x)].number == x;
      } else if x == n {
        assert h'[|h|].number == x;
      }
    }
  }

  /** What is in the list after noting `n`: the old entries of other numbers, and one for `n`. */
  lemma NotedEntries(h: seq<Sent>, n: nat, now: real, x: Sent)
    requires forall i, j :: 0 <= i < j < |h| ==> h[i].number != h[j].number
    requires x in Noted(h, n, now)
    ensures if x.number != n then x in h
            else if FindSent(h, n) < |h| then x == h[FindSent(h, n)].(retx := true) else x == Sent(n, now, false)
  {
    var h' := Noted(h, n, now);
    var k :| 0 <= k < |h'| && h'[k] == x;
    if k < |h| {
      assert h[k] in h;
    }
  }

  lemma SendHistory(c: Config, b: Books, b': Books, log: Log, n: nat, now: real)
    requires Partition(c, b, log) && Recorded(b) && Unused(b, log) && HistoryListed(b) && HistoryRight(b, log)
    requires SentOne(b, b', n, now)
    ensures var log' := log.(sends := log.sends + [(n, now)]); HistoryListed(b') && HistoryRight(b', log')
  {
    var log' := log.(sends := log.sends + [(n, now)]);
    var h := b.rtt.history;
    NotedListed(h, n, now);
    assert n in b.full <==> n != b.next;
    forall x | x in b'.rtt.history
      ensures EntryRight(x, log')
    {
      NotedEntries(h, n, now, x);
      TimesSnoc(log.sends, n, now, x.number);
      if x.number == n && FindSent(h, n) < |h| {
        assert h[FindSent(h, n)] in h;
      }
    }
  }

  lemma SendKarn(c: Config, b: Books, b': Books, log: Log, n: nat, now: real)
    requires Partition(c, b, log) && Karn(log) && SentOne(b, b', n, now)
    ensures Karn(log.(sends := log.sends + [(n, now)]))
  {
    forall i | 0 <= i < |log.samples|
      ensures Times(log.sends + [(n, now)], log.samples[i].number) == Times(log.sends, log.samples[i].number)
    {
      TimesSnoc(log.sends, n, now, log.samples[i].number);
    }
  }

  lemma SendAccounted(c: Config, b: Books, log: Log, now: real)
    requires Accounted(c, b, log) && (Fresh(c, b) ==> b.next < SENTINEL)
    ensures Accounted(c, BooksStep(c, b, Send(now)), Logged(c, b, log, Send(now)))
  {
    SendShape(c, b, log, now);
    if Choice(c, b).Some? {
      var n, b' := Choice(c, b).value, Sending(c, b, now);
      SendPartition(c, b, b', log, n, now);
      SendTimed(c, b, b', log, n, now);
      SendHistory(c, b, b', log, n, now);
      SendKarn(c, b, b', log, n, now);
    }
  }

  // ----- Data -----

  /** What Data changes for the bookkeeping when the application is active. */
  ghost predicate GotOne(b: Books, b': Books, n: nat)
  {
    && b'.next == b.next && b'.awaiting == b.awaiting - {n} && b'.again == b.again - {n}
    && b'.full == b.full - {n} && b'.last == b.last - {n} && b'.counts == b.counts - {n}
    && b'.rtt.history == Dropped(b.rtt.history, n)
  }

  lemma RemovedListed(h: seq<Sent>, i: nat)
    requires i < |h| && forall j, k :: 0 <= j < k < |h| ==> h[j].number != h[k].number
    ensures var h' := h[..i] + h[i + 1..];
            && (forall j, k :: 0 <= j < k < |h'| ==> h'[j].number != h'[k].number)
            && (forall x :: FindSent(h', x) < |h'| <==> FindSent(h, x) < |h| && x != h[i].number)
            && (forall x :: x in h' ==> x in h && x.number != h[i].number)
  {
    var h' := h[..i] + h[i + 1..];
    forall x
      ensures FindSent(h', x) < |h'| <==> FindSent(h, x) < |h| && x != h[i].number
    {
      var k := FindSent(h, x);
      if k < |h| && x != h[i].number {
        assert h'[if k < i then k else k - 1].number == x;
      }
      var k' := FindSent(h', x);
      if k' < |h'| {
        assert h[if k' < i then k' else k' + 1].number == x;
      }
    }
    forall x | x in h'
      ensures x in h && x.number != h[i].number
    {
      var j :| 0 <= j < |h'| && h'[j] == x;
      assert x == h[if j < i then j else j + 1];
    }
  }

  lemma DataPartition(c: Config, b: Books, b': Books, log: Log, log': Log, n: nat)
    requires Partition(c, b, log) && Recorded(b) && GotOne(b, b', n)
    requires log'.delivered == if n in b.full then log.delivered + {n} else log.delivered
    ensures Partition(c, b', log') && Recorded(b')
  {
  }

  lemma DataTimed(b: Books, b': Books, log: Log, log': Log, n: nat)
    requires Timed(b, log) && Unused(b, log) && GotOne(b, b', n)
    requires log'.sends == log.sends && log'.expired == log.expired
    ensures Timed(b', log') && Unused(b', log')
  {
  }

  lemma DroppedListed(h: seq<Sent>, n: nat)
    requires forall j, k :: 0 <= j < k < |h| ==> h[j].number != h[k].number
    ensures var h' := Dropped(h, n);
            && (forall j, k :: 0 <= j < k < |h'| ==> h'[j].number != h'[k].number)
            && (forall x :: FindSent(h', x) < |h'| <==> FindSent(h, x) < |h| && x != n)
            && (forall x :: x in h' ==> x in h)
  {
    if FindSent(h, n) < |h| {
      RemovedListed(h, FindSent(h, n));
    }
  }

  lemma DataHistory(b: Books, b': Books, log: Log, log': Log, n: nat)
    requires HistoryListed(b) && HistoryRight(b, log) && GotOne(b, b', n)
    requires log'.sends == log.sends && log'.expired == log.expired
    ensures HistoryListed(b') && HistoryRight(b', log')
  {
    DroppedListed(b.rtt.history, n);
    forall x | x in b'.rtt.history
      ensures EntryRight(x, log')
    {
      assert EntryRight(x, log);
    }
  }

  lemma DataKarn(c: Config, b: Books, log: Log, number: nat, marked: bool, now: real, w: real)
    requires HistoryListed(b) && HistoryRight(b, log) && Karn(log)
    ensures Karn(Logged(c, b, log, Data(number, marked, now, w)))
  {
    var n := number % WORD32;
    var i := FindSent(b.rtt.history, n);
    if Measures(b, n) {
      assert b.rtt.history[i] in b.rtt.history;
    }
  }

  lemma DataAccounted(c: Config, b: Books, log: Log, number: nat, marked: bool, now: real, w: real)
    requires Accounted(c, b, log)
    ensures Accounted(c, BooksStep(c, b, Data(number, marked, now, w)), Logged(c, b, log, Data(number, marked, now, w)))
  {
    var n := number % WORD32;
    var b', log' := Received(c, b, number, now), Logged(c, b, log, Data(number, marked, now, w));
    DataKarn(c, b, log, number, marked, now, w);
    if b.active {
      assert GotOne(b, b', n);
      DataPartition(c, b, b', log, log', n);
      DataTimed(b, b', log, log', n);
      DataHistory(b, b', log, log', n);
    }
  }

  // ----- timeouts -----

  ghost predicate LostOne(b: Books, b': Books, n: nat, now: real)
  {
    && b'.next == b.next && b'.awaiting == b.awaiting - {n} && b'.again == b.again + {n}
    && b'.full == b.full && b'.last == b.last && b'.counts == b.counts
    && b'.rtt.history == Noted(b.rtt.history, n, now)
  }

  lemma ExpireHistory(b: Books, b': Books, log: Log, n: nat, now: real)
    requires HistoryListed(b) && HistoryRight(b, log) && LostOne(b, b', n, now) && n in b.full
    ensures var log' := log.(expired := log.expired + {n}); HistoryListed(b') && HistoryRight(b', log')
  {
    var log' := log.(expired := log.expired + {n});
    var h := b.rtt.history;
    var y := h[FindSent(h, n)];
    assert y in h && EntryRight(y, log);
    forall x | x in b'.rtt.history
      ensures EntryRight(x, log')
    {
      NotedEntries(h, n, now, x);
      if x.number != n {
        assert EntryRight(x, log);
      }
    }
    NotedListed(h, n, now);
  }

  lemma ExpireTimed(b: Books, b': Books, log: Log, n: nat, now: real)
    requires Timed(b, log) && LostOne(b, b', n, now)
    ensures Timed(b', log)
  {
    forall x | x in b'.full
      ensures TimedAt(b', log.sends, x)
    {
      assert TimedAt(b, log.sends, x);
    }
  }

  lemma ExpirePartition(c: Config, b: Books, b': Books, log: Log, n: nat, now: real)
    requires Partition(c, b, log) && Recorded(b) && Unused(b, log) && Karn(log) && LostOne(b, b', n, now) && n in b.awaiting
    ensures var log' := log.(expired := log.expired + {n});
            Partition(c, b', log') && Recorded(b') && Unused(b', log') && Karn(log')
  {
  }

  lemma ExpireAccounted(c: Config, b: Books, log: Log, n: nat, now: real, w: real)
    requires Accounted(c, b, log) && n in b.awaiting
    ensures Accounted(c, BooksStep(c, b, Expire(n, now, w)), Logged(c, b, log, Expire(n, now, w)))
  {
    var b' := Expired(c, b, n, now);
    assert LostOne(b, b', n, now);
    ExpirePartition(c, b, b', log, n, now);
    ExpireTimed(b, b', log, n, now);
    ExpireHistory(b, b', log, n, now);
  }

  // ----- whole runs -----

  lemma ActiveAccounted(c: Config, b: Books, log: Log, on: bool, now: real)
    requires Accounted(c, b, log)
    ensures Accounted(c, BooksStep(c, b, SetActive(on, now)), Logged(c, b, log, SetActive(on, now)))
  {
    var b' := b.(active := on);
    forall n | n in b'.full
      ensures TimedAt(b', log.sends, n)
    {
      assert TimedAt(b, log.sends, n);
    }
  }

  lemma StepAccounted(c: Config, b: Books, log: Log, e: Event)
    requires Accounted(c, b, log) && Fits(c, b, e)
    ensures Accounted(c, BooksStep(c, b, e), Logged(c, b, log, e))
  {
    match e
    case Send(now) => SendAccounted(c, b, log, now);
    case Data(n, marked, now, w) => DataAccounted(c, b, log, n, marked, now, w);
    case Expire(n, now, w) => ExpireAccounted(c, b, log, n, now, w);
    case SetActive(on, now) => ActiveAccounted(c, b, log, on, now);
  }

  /** After every run, as long as the counter stays below the sentinel. */
  lemma {:induction false} NoNumberLost(c: Config, estimate: real, es: seq<Event>, k: nat)
    requires c.start <= SENTINEL && k <= |es|
    requires RunFits(c, Initial(c, estimate), es, k)
    ensures Accounted(c, After(c, Initial(c, estimate), es, k).books, LogAfter(c, Initial(c, estimate), es, k))
  {
    if k == 0 {
      InitiallyAccounted(c, estimate);
    } else {
      NoNumberLost(c, estimate, es, k - 1);
      var s := Initial(c, estimate);
      StepAccounted(c, After(c, s, es, k - 1).books, LogAfter(c, s, es, k - 1), es[k - 1]);
    }
  }

  /** Sending keeps the books exactly when it does not use up the last number. */
  lemma LastNumberIsLost(c: Config, b: Books, log: Log, now: real)
    requires Accounted(c, b, log)
    ensures Accounted(c, BooksStep(c, b, Send(now)), Logged(c, b, log, Send(now))) <==> !(Fresh(c, b) && b.next == SENTINEL)
  {
    if Fresh(c, b) && b.next == SENTINEL {
      assert SENTINEL in Sending(c, b, now).awaiting;
    } else {
      SendAccounted(c, b, log, now);
    }
  }

  // ----- the multiplier -----

  /** A timeout backs off, a measurement resets, and nothing else touches the multiplier. */
  lemma MultiplierStep(c: Config, b: Books, e: Event)
    ensures BooksStep(c, b, e).rtt.multiplier ==
            if e.Expire? then BackedOff(c.rtt, b.rtt.multiplier)
            else if e.Data? && Measures(b, e.number % WORD32) then 1
            else b.rtt.multiplier
  {
  }

  /** How many timeouts there were since the last measurement. */
  ghost function Backoffs(c: Config, s: State, es: seq<Event>, k: nat): nat
    requires k <= |es|
  {
    if k == 0 then 0
    else if es[k - 1].Expire? then Backoffs(c, s, es, k - 1) + 1
    else if es[k - 1].Data? && Measures(After(c, s, es, k - 1).books, es[k - 1].number % WORD32) then 0
    else Backoffs(c, s, es, k - 1)
  }

  /** In every run the multiplier is one, doubled for each timeout since the last measurement up to the maximum. */
  lemma {:induction false} MultiplierInRuns(c: Config, estimate: real, es: seq<Event>, k: nat)
    requires k <= |es| && c.rtt.maxMultiplier >= 1
    ensures var n, m := Backoffs(c, Initial(c, estimate), es, k), After(c, Initial(c, estimate), es, k).books.rtt.multiplier;
            && m == BackedOffTimes(c.rtt, 1, n)
            && m == if Doubled(1, n) < c.rtt.maxMultiplier then Doubled(1, n) else c.rtt.maxMultiplier
  {
    BackoffDoubles(c.rtt, 1, Backoffs(c, Initial(c, estimate), es, k));
    if k == 0 {
    } else {
      MultiplierInRuns(c, estimate, es, k - 1);
      MultiplierStep(c, After(c, Initial(c, estimate), es, k - 1).books, es[k - 1]);
    }
  }

  // ----- which number is sent -----

  /** The counter does not get beyond the end, unless it starts there. */
  predicate WithinEnd(c: Config, b: Books)
  {
    c.seqMax != SENTINEL ==> b.next <= c.seqMax || b.next == c.start
  }

  lemma {:induction false} EndInRuns(c: Config, estimate: real, es: seq<Event>, k: nat)
    requires c.start <= SENTINEL && k <= |es| && RunFits(c, Initial(c, estimate), es, k)
    ensures WithinEnd(c, After(c, Initial(c, estimate), es, k).books)
  {
    if k == 0 {
    } else {
      EndInRuns(c, estimate, es, k - 1);
      NextStep(c, After(c, Initial(c, estimate), es, k - 1).books, es[k - 1]);
    }
  }

  /** Only sending a number for the first time moves the counter, by one. */
  lemma NextStep(c: Config, b: Books, e: Event)
    requires Fits(c, b, e)
    ensures BooksStep(c, b, e).next == b.next + if e.Send? && Fresh(c, b) then 1 else 0
  {
  }

  /** What a send event picks, in terms of where the numbers are: the least of those to be sent again, if there are any; otherwise
      the next one, if it is below the end; otherwise nothing. */
  lemma SendPicks(c: Config, b: Books, log: Log)
    requires Partition(c, b, log) && b.active
    ensures b.again != {} ==> Choice(c, b).Some? && Choice(c, b).value in b.again
    ensures b.again != {} ==> forall n :: n in b.again ==> Choice(c, b).value <= n
    ensures b.again == {} && (c.seqMax == SENTINEL || b.next < c.seqMax) ==> Choice(c, b) == Some(b.next)
    ensures b.again == {} && c.seqMax != SENTINEL && b.next >= c.seqMax ==> Choice(c, b) == None
  {
    if b.again != {} {
      assert First(b.again) in b.again;
    }
  }

  /** A new number is sent only when every number up to the counter is delivered or awaited: those to be sent again come first. */
  lemma AgainGoesFirst(c: Config, estimate: real, es: seq<Event>, k: nat)
    requires c.start <= SENTINEL && k <= |es| && RunFits(c, Initial(c, estimate), es, k)
    ensures var b, log := After(c, Initial(c, estimate), es, k).books, LogAfter(c, Initial(c, estimate), es, k);
            && (Choice(c, b).Some? ==> Choice(c, b).value in b.again || Choice(c, b).value == b.next)
            && (Choice(c, b) == Some(b.next) ==> forall n :: c.start <= n < b.next ==> n in b.awaiting || n in log.delivered)
  {
    var b, log := After(c, Initial(c, estimate), es, k).books, LogAfter(c, Initial(c, estimate), es, k);
    NoNumberLost(c, estimate, es, k);
    if b.active {
      SendPicks(c, b, log);
    }
  }

  ghost predicate NumbersBelow(sends: seq<(nat, real)>, n: nat)
  {
    forall i :: 0 <= i < |sends| ==> sends[i].0 < n
  }

  /** No number at or above the end is ever sent. */
  lemma {:induction false} SentBelowEnd(c: Config, estimate: real, es: seq<Event>, k: nat)
    requires c.start <= SENTINEL && k <= |es| && RunFits(c, Initial(c, estimate), es, k) && c.seqMax != SENTINEL
    ensures NumbersBelow(LogAfter(c, Initial(c, estimate), es, k).sends, c.seqMax)
  {
    if k == 0 {
    } else {
      SentBelowEnd(c, estimate, es, k - 1);
      var b, log := After(c, Initial(c, estimate), es, k - 1).books, LogAfter(c, Initial(c, estimate), es, k - 1);
      assert LogAfter(c, Initial(c, estimate), es, k) == Logged(c, b, log, es[k - 1]);
      NoNumberLost(c, estimate, es, k - 1);
      EndInRuns(c, estimate, es, k - 1);
      ChoiceBelowEnd(c, b, log);
      SendsLogged(c, b, log, es[k - 1]);
    }
  }

  lemma SendsLogged(c: Config, b: Books, log: Log, e: Event)
    ensures Logged(c, b, log, e).sends ==
            if e.Send? && Choice(c, b).Some? then log.sends + [(Choice(c, b).value, e.now)] else log.sends
  {
  }

  lemma ChoiceBelowEnd(c: Config, b: Books, log: Log)
    requires Partition(c, b, log) && WithinEnd(c, b) && c.seqMax != SENTINEL
    ensures Choice(c, b).Some? ==> Choice(c, b).value < c.seqMax
  {
    if b.active {
      SendPicks(c, b, log);
      if b.again != {} {
        assert c.start <= Choice(c, b).value < b.next;
      }
    }
  }

  // ----- the estimate -----

  function Values(samples: seq<Sample>): seq<real>
  {
    if samples == [] then []
    else
      var k := |samples| - 1;
      Values(samples[..k]) + [samples[k].rtt]
  }

  /** The estimator has seen exactly the logged samples. */
  ghost predicate Follows(p: Params, r: Rtt, initial: Rtt, samples: seq<Sample>)
  {
    Same(MeasuredAll(p, initial, Values(samples)), r)
  }

  /** The same measurements. */
  predicate Same(r: Rtt, q: Rtt)
  {
    r.estimate == q.estimate && r.variance == q.variance && r.nSamples == q.nSamples
  }

  lemma MeasuredSame(p: Params, r: Rtt, q: Rtt, m: real)
    requires Same(r, q)
    ensures Same(Measured(p, r, m), Measured(p, q, m))
  {
  }

  lemma MeasuredFollows(p: Params, r: Rtt, initial: Rtt, samples: seq<Sample>, m: Sample)
    requires Follows(p, r, initial, samples)
    ensures Follows(p, Measured(p, r, m.rtt), initial, samples + [m])
  {
    assert (samples + [m])[..|samples|] == samples;
    var ms := Values(samples);
    assert (ms + [m.rtt])[..|ms|] == ms;
    MeasuredSame(p, MeasuredAll(p, initial, ms), r, m.rtt);
  }

  lemma AckedSame(p: Params, r: Rtt, n: nat, now: real)
    ensures var i := FindSent(r.history, n);
            Same(Acked(p, r, n, now),
                 if i < |r.history| && !r.history[i].retx then Measured(p, r, now - r.history[i].time) else r)
  {
  }

  lemma FollowsSame(p: Params, r: Rtt, q: Rtt, initial: Rtt, samples: seq<Sample>)
    requires Follows(p, r, initial, samples) && Same(r, q)
    ensures Follows(p, q, initial, samples)
  {
  }

  lemma DataFollows(c: Config, b: Books, log: Log, initial: Rtt, e: Event)
    requires e.Data? && Follows(c.rtt, b.rtt, initial, log.samples)
    ensures Follows(c.rtt, BooksStep(c, b, e).rtt, initial, Logged(c, b, log, e).samples)
  {
    var n := e.number % WORD32;
    if b.active {
      AckedSame(c.rtt, b.rtt, n, e.now);
      if Measures(b, n) {
        var m := Sample(n, e.now - b.rtt.history[FindSent(b.rtt.history, n)].time, e.now);
        MeasuredFollows(c.rtt, b.rtt, initial, log.samples, m);
        FollowsSame(c.rtt, Measured(c.rtt, b.rtt, m.rtt), BooksStep(c, b, e).rtt, initial, log.samples + [m]);
      } else {
        FollowsSame(c.rtt, b.rtt, BooksStep(c, b, e).rtt, initial, log.samples);
      }
    }
  }

  lemma StepFollows(c: Config, b: Books, log: Log, initial: Rtt, e: Event)
    requires Follows(c.rtt, b.rtt, initial, log.samples)
    ensures Follows(c.rtt, BooksStep(c, b, e).rtt, initial, Logged(c, b, log, e).samples)
  {
    if e.Data? {
      DataFollows(c, b, log, initial, e);
    } else {
      assert Same(b.rtt, BooksStep(c, b, e).rtt);
      FollowsSame(c.rtt, b.rtt, BooksStep(c, b, e).rtt, initial, log.samples);
    }
  }

  lemma {:induction false} RunFollows(c: Config, estimate: real, es: seq<Event>, k: nat)
    requires k <= |es| && 1 <= c.rtt.maxMultiplier
    ensures var s := Initial(c, estimate);
            && Follows(c.rtt, After(c, s, es, k).books.rtt, s.books.rtt, LogAfter(c, s, es, k).samples)
            && 1 <= After(c, s, es, k).books.rtt.multiplier <= c.rtt.maxMultiplier
  {
    if k == 0 {
    } else {
      var s := Initial(c, estimate);
      RunFollows(c, estimate, es, k - 1);
      StepFollows(c, After(c, s, es, k - 1).books, LogAfter(c, s, es, k - 1), s.books.rtt, es[k - 1]);
      MultiplierStep(c, After(c, s, es, k - 1).books, es[k - 1]);
    }
  }

  /** Time does not run backwards. */
  ghost predicate Clocked(es: seq<Event>)
  {
    forall i, j :: 0 <= i < j < |es| ==> es[i].now <= es[j].now
  }

  ghost predicate SentBy(log: Log, t: real)
  {
    forall i :: 0 <= i < |log.sends| ==> log.sends[i].1 <= t
  }

  lemma {:induction false} TimesBy(sends: seq<(nat, real)>, n: nat, t: real)
    requires forall i :: 0 <= i < |sends| ==> sends[i].1 <= t
    ensures forall i :: 0 <= i < |Times(sends, n)| ==> Times(sends, n)[i] <= t
  {
    if sends == [] {
    } else {
      TimesBy(sends[..|sends| - 1], n, t);
    }
  }

  lemma {:induction false} NothingSentLater(c: Config, s: State, es: seq<Event>, k: nat)
    requires k < |es| && Clocked(es)
    ensures SentBy(LogAfter(c, s, es, k), es[k].now)
  {
    if k == 0 {
    } else {
      NothingSentLater(c, s, es, k - 1);
    }
  }

  lemma HistoryInRuns(c: Config, estimate: real, es: seq<Event>, k: nat)
    requires c.start <= SENTINEL && k <= |es| && RunFits(c, Initial(c, estimate), es, k)
    ensures HistoryRight(After(c, Initial(c, estimate), es, k).books, LogAfter(c, Initial(c, estimate), es, k))
  {
    NoNumberLost(c, estimate, es, k);
  }

  ghost predicate NonNegative(samples: seq<Sample>)
  {
    forall i :: 0 <= i < |samples| ==> samples[i].rtt >= 0.0
  }

  lemma StepNonNegative(c: Config, b: Books, log: Log, e: Event)
    requires NonNegative(log.samples) && HistoryRight(b, log) && SentBy(log, e.now)
    ensures NonNegative(Logged(c, b, log, e).samples)
  {
    if e.Data? && Measures(b, e.number % WORD32) {
      var x := b.rtt.history[FindSent(b.rtt.history, e.number % WORD32)];
      assert x in b.rtt.history && EntryRight(x, log);
      TimesBy(log.sends, x.number, e.now);
    }
  }

  lemma NextNonNegative(c: Config, s: State, es: seq<Event>, k: nat)
    requires k < |es| && NonNegative(LogAfter(c, s, es, k).samples) && SentBy(LogAfter(c, s, es, k), es[k].now)
    requires HistoryRight(After(c, s, es, k).books, LogAfter(c, s, es, k))
    ensures NonNegative(LogAfter(c, s, es, k + 1).samples)
  {
    StepNonNegative(c, After(c, s, es, k).books, LogAfter(c, s, es, k), es[k]);
  }

  /** A sample is never negative. */
  lemma {:induction false} SamplesNonNegative(c: Config, estimate: real, es: seq<Event>, k: nat)
    requires c.start <= SENTINEL && k <= |es| && Clocked(es) && RunFits(c, Initial(c, estimate), es, k)
    ensures NonNegative(LogAfter(c, Initial(c, estimate), es, k).samples)
  {
    if k == 0 {
    } else {
      SamplesNonNegative(c, estimate, es, k - 1);
      HistoryInRuns(c, estimate, es, k - 1);
      NothingSentLater(c, Initial(c, estimate), es, k - 1);
      NextNonNegative(c, Initial(c, estimate), es, k - 1);
    }
  }

  lemma {:induction false} ValuesAre(samples: seq<Sample>)
    ensures |Values(samples)| == |samples| && forall i :: 0 <= i < |samples| ==> Values(samples)[i] == samples[i].rtt
  {
    if samples == [] {
    } else {
      ValuesAre(samples[..|samples| - 1]);
    }
  }

  lemma WithinSame(r: Rtt, q: Rtt, ms: seq<real>)
    requires Within(r, ms) && Same(r, q)
    ensures Within(q, ms)
  {
  }

  lemma FollowsBounded(p: Params, r: Rtt, initial: Rtt, samples: seq<Sample>)
    requires Follows(p, r, initial, samples) && NonNegative(samples) && initial.nSamples == 0
    requires 0.0 < p.gain < 1.0 && 0.0 < p.gain2 < 1.0 && 0 < |samples| < WORD32
    ensures Within(r, Values(samples))
  {
    ValuesAre(samples);
    EstimateBounded(p, initial, Values(samples));
    WithinSame(MeasuredAll(p, initial, Values(samples)), r, Values(samples));
  }

  /** In every run the estimate stays within the measured round trips, the deviation within half the first one or their
      spread, and the timeout within its limits. */
  lemma EstimateInRuns(c: Config, estimate: real, es: seq<Event>, k: nat)
    requires c.start <= SENTINEL && k <= |es| && Clocked(es) && RunFits(c, Initial(c, estimate), es, k)
    requires 0.0 < c.rtt.gain < 1.0 && 0.0 < c.rtt.gain2 < 1.0 && 1 <= c.rtt.maxMultiplier && 0.0 <= c.rtt.minRto
    requires 0 < |LogAfter(c, Initial(c, estimate), es, k).samples| < WORD32
    ensures var r := After(c, Initial(c, estimate), es, k).books.rtt;
            var ms := Values(LogAfter(c, Initial(c, estimate), es, k).samples);
            && Within(r, ms)
            && Min(c.rtt.minRto, c.rtt.maxRto) <= RetransmitTimeout(c.rtt, r) <= c.rtt.maxRto
  {
    var s := Initial(c, estimate);
    var r := After(c, s, es, k).books.rtt;
    RunFollows(c, estimate, es, k);
    SamplesNonNegative(c, estimate, es, k);
    FollowsBounded(c.rtt, r, s.books.rtt, LogAfter(c, s, es, k).samples);
    TimeoutBounded(c.rtt, r);
  }
}
