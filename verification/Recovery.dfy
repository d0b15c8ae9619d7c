/** Conservative window adaptation: after a decrease, the window is decreased again only when Data has come for an
    Interest first sent after that decrease. */
module Recovery {
  import opened Routes
  import opened Estimator
  import opened ConsumerModel
  import opened Accounting

  /** The window fields when WindowDecrease is called. */
  function AtDecrease(v: Win, e: Event): Win
  {
    if e.Data? then Heard(v, e.number) else v
  }

  /** The event makes the window shrink and moves the recovery point. */
  predicate Decreases(c: Config, s: State, e: Event)
  {
    && c.kind == Pcon && (e.Expire? || (e.Data? && e.marked && c.react))
    && Reacts(c, AtDecrease(s.win, e))
  }

  /** Data only comes for numbers that were sent. */
  ghost predicate Answers(c: Config, s: State, es: seq<Event>, k: nat)
    requires k <= |es|
  {
    k > 0 ==> Answers(c, s, es, k - 1) && (es[k - 1].Data? ==> c.start <= es[k - 1].number < After(c, s, es, k - 1).books.next)
  }

  lemma {:induction false} AnswersAt(c: Config, s: State, es: seq<Event>, k: nat, d: nat)
    requires d < k <= |es| && Answers(c, s, es, k) && es[d].Data?
    ensures c.start <= es[d].number < After(c, s, es, d).books.next
  {
    if d < k - 1 {
      AnswersAt(c, s, es, k - 1, d);
    }
  }

  lemma {:induction false} FitsAt(c: Config, s: State, es: seq<Event>, k: nat, d: nat)
    requires d < k <= |es| && RunFits(c, s, es, k)
    ensures RunFits(c, s, es, d) && Fits(c, After(c, s, es, d).books, es[d])
  {
    if d < k - 1 {
      FitsAt(c, s, es, k - 1, d);
    }
  }

  // ----- the counter -----

  lemma {:induction false} NextGrows(c: Config, s: State, es: seq<Event>, k: nat, i: nat)
    requires i <= k <= |es| && RunFits(c, s, es, k)
    ensures After(c, s, es, i).books.next <= After(c, s, es, k).books.next
  {
    if i < k {
      NextGrows(c, s, es, k - 1, i);
      NextStep(c, After(c, s, es, k - 1).books, es[k - 1]);
    }
  }

  /** A number the counter has passed between two points of the run was sent for the first time between them. */
  lemma {:induction false} FirstSent(c: Config, s: State, es: seq<Event>, i: nat, k: nat, n: nat) returns (m: nat)
    requires i <= k <= |es| && RunFits(c, s, es, k)
    requires After(c, s, es, i).books.next <= n < After(c, s, es, k).books.next
    ensures i <= m < k && es[m].Send? && Fresh(c, After(c, s, es, m).books) && After(c, s, es, m).books.next == n
  {
    NextStep(c, After(c, s, es, k - 1).books, es[k - 1]);
    if n < After(c, s, es, k - 1).books.next {
      m := FirstSent(c, s, es, i, k - 1, n);
    } else {
      m := k - 1;
    }
  }

  // ----- the highest number received -----

  /** Below the counter, unless nothing has been sent. */
  predicate HighOk(c: Config, next: nat, v: Win)
  {
    v.highData < next || (v.highData == 0 && next == c.start)
  }

  lemma HighStep(c: Config, s: State, e: Event)
    requires c.start <= s.books.next <= SENTINEL && Fits(c, s.books, e) && HighOk(c, s.books.next, s.win)
    requires e.Data? ==> c.start <= e.number < s.books.next
    ensures HighOk(c, Step(c, s, e).books.next, Step(c, s, e).win)
    ensures Step(c, s, e).win.highData == s.win.highData || (e.Data? && Step(c, s, e).win.highData == e.number)
  {
    NextStep(c, s.books, e);
  }

  lemma {:induction false} HighInRuns(c: Config, estimate: real, es: seq<Event>, k: nat)
    requires c.start <= SENTINEL && k <= |es|
    requires RunFits(c, Initial(c, estimate), es, k) && Answers(c, Initial(c, estimate), es, k)
    ensures var s := After(c, Initial(c, estimate), es, k);
            c.start <= s.books.next <= SENTINEL && HighOk(c, s.books.next, s.win)
  {
    if k == 0 {
    } else {
      HighInRuns(c, estimate, es, k - 1);
      var s := After(c, Initial(c, estimate), es, k - 1);
      HighStep(c, s, es[k - 1]);
      NextStep(c, s.books, es[k - 1]);
    }
  }

  /** The highest number received is one that was received. */
  lemma {:induction false} HighReceived(c: Config, estimate: real, es: seq<Event>, k: nat) returns (d: nat)
    requires c.start <= SENTINEL && k <= |es|
    requires RunFits(c, Initial(c, estimate), es, k) && Answers(c, Initial(c, estimate), es, k)
    requires After(c, Initial(c, estimate), es, k).win.highData > 0
    ensures d < k && es[d].Data? && es[d].number == After(c, Initial(c, estimate), es, k).win.highData
  {
    var s := After(c, Initial(c, estimate), es, k - 1);
    HighInRuns(c, estimate, es, k - 1);
    HighStep(c, s, es[k - 1]);
    if s.win.highData == After(c, Initial(c, estimate), es, k).win.highData {
      d := HighReceived(c, estimate, es, k - 1);
    } else {
      d := k - 1;
    }
  }

  lemma AheadStep(c: Config, s: State, log: Log, e: Event)
    requires Partition(c, s.books, log) && HighOk(c, s.books.next, s.win) && Enabled(s.books, e)
    requires e.Expire? || (e.Data? && c.start <= e.number < s.books.next)
    ensures var v := AtDecrease(s.win, e);
            v.highData < s.books.next && Ahead(s.books.next, v) == s.books.next - v.highData > 0
  {
    if e.Expire? {
      assert c.start <= e.number < s.books.next;
    }
  }

  /** The assertion in WindowDecrease: the counter is ahead of the highest number received, and the unsigned difference is
      the true one. */
  lemma AheadIsPositive(c: Config, estimate: real, es: seq<Event>, k: nat)
    requires c.start <= SENTINEL && k < |es| && Decreases(c, After(c, Initial(c, estimate), es, k), es[k])
    requires RunFits(c, Initial(c, estimate), es, k + 1) && Answers(c, Initial(c, estimate), es, k + 1)
    ensures var s := After(c, Initial(c, estimate), es, k);
            var v := AtDecrease(s.win, es[k]);
            v.highData < s.books.next && Ahead(s.books.next, v) == s.books.next - v.highData > 0
  {
    HighInRuns(c, estimate, es, k);
    PartitionInRuns(c, estimate, es, k);
    AheadStep(c, After(c, Initial(c, estimate), es, k), LogAfter(c, Initial(c, estimate), es, k), es[k]);
  }

  lemma PartitionInRuns(c: Config, estimate: real, es: seq<Event>, k: nat)
    requires c.start <= SENTINEL && k <= |es| && RunFits(c, Initial(c, estimate), es, k)
    ensures Partition(c, After(c, Initial(c, estimate), es, k).books, LogAfter(c, Initial(c, estimate), es, k))
  {
    NoNumberLost(c, estimate, es, k);
  }

  // ----- when the difference is zero -----

  /** The number kept from the Data of the first `k` events: the highest, as far as numbers fit in 32 bits. */
  function Kept(es: seq<Event>, k: nat): nat
    requires k <= |es|
  {
    if k == 0 then 0
    else
      var h := Kept(es, k - 1);
      if es[k - 1].Data? && h < es[k - 1].number then es[k - 1].number % WORD32 else h
  }

  lemma {:induction false} KeptInRuns(c: Config, estimate: real, es: seq<Event>, k: nat)
    requires c.kind == Pcon && k <= |es|
    ensures After(c, Initial(c, estimate), es, k).win.highData == Kept(es, k)
  {
    if k == 0 {
    } else {
      KeptInRuns(c, estimate, es, k - 1);
    }
  }

  lemma {:induction false} KeptFits(es: seq<Event>, k: nat)
    requires k <= |es|
    ensures Kept(es, k) <= SENTINEL
  {
    if k == 0 {
    } else {
      KeptFits(es, k - 1);
    }
  }

  /** Every number received in the first `k` events fits in 32 bits. */
  ghost predicate Narrow(es: seq<Event>, k: nat)
    requires k <= |es|
  {
    forall d :: 0 <= d < k && es[d].Data? ==> es[d].number <= SENTINEL
  }

  /** `n` is the highest number received in the first `k` events. */
  ghost predicate Highest(es: seq<Event>, k: nat, n: nat)
    requires k <= |es|
  {
    && (exists d :: 0 <= d < k && es[d].Data? && es[d].number == n)
    && (forall d :: 0 <= d < k && es[d].Data? ==> es[d].number <= n)
  }

  lemma {:induction false} KeptIsHighest(es: seq<Event>, k: nat)
    requires k <= |es| && Narrow(es, k)
    ensures if exists d :: 0 <= d < k && es[d].Data? then Highest(es, k, Kept(es, k)) else Kept(es, k) == 0
  {
    if k == 0 {
    } else {
      KeptIsHighest(es, k - 1);
    }
  }

  lemma ZeroAhead(next: nat, v: Win)
    requires next <= SENTINEL && v.highData <= SENTINEL
    ensures Ahead(next, v) == 0 <==> v.highData == next
  {
  }

  lemma KeptAtDecrease(c: Config, estimate: real, es: seq<Event>, k: nat)
    requires c.kind == Pcon && k < |es|
    ensures AtDecrease(After(c, Initial(c, estimate), es, k).win, es[k]).highData == Kept(es, k + 1)
  {
    KeptInRuns(c, estimate, es, k);
  }

  lemma SomethingSent(c: Config, b: Books, log: Log, e: Event)
    requires Partition(c, b, log) && Enabled(b, e) && e.Expire?
    ensures b.next > 0
  {
    assert c.start <= e.number < b.next;
  }

  lemma KeptEquals(es: seq<Event>, k: nat, n: nat)
    requires k < |es| && Narrow(es, k + 1) && (es[k].Data? || n > 0)
    ensures Kept(es, k + 1) == n <==> Highest(es, k + 1, n)
  {
    KeptIsHighest(es, k + 1);
  }

  lemma AheadKept(c: Config, estimate: real, es: seq<Event>, k: nat)
    requires c.kind == Pcon && c.start <= SENTINEL && k < |es| && RunFits(c, Initial(c, estimate), es, k)
    ensures var s := After(c, Initial(c, estimate), es, k);
            Ahead(s.books.next, AtDecrease(s.win, es[k])) == 0 <==> Kept(es, k + 1) == s.books.next
  {
    var s := After(c, Initial(c, estimate), es, k);
    KeptAtDecrease(c, estimate, es, k);
    KeptFits(es, k + 1);
    PartitionInRuns(c, estimate, es, k);
    ZeroAhead(s.books.next, AtDecrease(s.win, es[k]));
  }

  lemma KeptIsNext(c: Config, estimate: real, es: seq<Event>, k: nat)
    requires c.start <= SENTINEL && k < |es| && RunFits(c, Initial(c, estimate), es, k + 1)
    requires (es[k].Data? || es[k].Expire?) && Narrow(es, k + 1)
    ensures var next := After(c, Initial(c, estimate), es, k).books.next;
            Kept(es, k + 1) == next <==> Highest(es, k + 1, next)
  {
    var b := After(c, Initial(c, estimate), es, k).books;
    if es[k].Expire? {
      PartitionInRuns(c, estimate, es, k);
      SomethingSent(c, b, LogAfter(c, Initial(c, estimate), es, k), es[k]);
    }
    KeptEquals(es, k, b.next);
  }

  /** The assertion in WindowDecrease, for any Data whatsoever: at every decrease in every run, the difference is zero
      exactly if the number kept from the Data so far is the counter, that is, if the number to be sent next is the highest
      one received so far. */
  lemma AheadExact(c: Config, estimate: real, es: seq<Event>, k: nat)
    requires c.start <= SENTINEL && k < |es| && RunFits(c, Initial(c, estimate), es, k + 1)
    requires Decreases(c, After(c, Initial(c, estimate), es, k), es[k])
    ensures var s := After(c, Initial(c, estimate), es, k);
            && (Ahead(s.books.next, AtDecrease(s.win, es[k])) == 0 <==> Kept(es, k + 1) == s.books.next)
            && (Narrow(es, k + 1) ==>
                  (Ahead(s.books.next, AtDecrease(s.win, es[k])) == 0 <==> Highest(es, k + 1, s.books.next)))
  {
    AheadKept(c, estimate, es, k);
    if Narrow(es, k + 1) {
      KeptIsNext(c, estimate, es, k);
    }
  }

  /** A run in which the difference is zero at a timeout: Data for a number not sent yet, which the counter then reaches. */
  lemma AheadIsZero(c: Config, estimate: real, w: real)
    requires c.kind == Pcon && c.start == 0 && c.seqMax == SENTINEL
    ensures var es := [SetActive(true, 0.0), Send(0.0), Data(2, false, 0.0, w), Send(0.0), Expire(0, 1.0, w)];
            && RunFits(c, Initial(c, estimate), es, 5)
            && var s := After(c, Initial(c, estimate), es, 4);
               Decreases(c, s, es[4]) && Ahead(s.books.next, AtDecrease(s.win, es[4])) == 0
  {
    var es := [SetActive(true, 0.0), Send(0.0), Data(2, false, 0.0, w), Send(0.0), Expire(0, 1.0, w)];
    var s0 := Initial(c, estimate);
    var s1 := Step(c, s0, es[0]);
    assert s1.books.active && s1.books.next == 0 && s1.books.again == {} && s1.win == s0.win;
    var s2 := Step(c, s1, es[1]);
    assert Choice(c, s1.books) == Some(0);
    assert s2.books.active && s2.books.next == 1 && s2.books.again == {} && 0 in s2.books.awaiting;
    var s3 := Step(c, s2, es[2]);
    assert s3.books.active && s3.books.next == 1 && s3.books.again == {} && 0 in s3.books.awaiting;
    assert s3.win.highData == 2 && s3.win.recPoint == 0.0;
    var s4 := Step(c, s3, es[3]);
    assert Choice(c, s3.books) == Some(1);
    assert s4.books.next == 2 && 0 in s4.books.awaiting && s4.win.highData == 2 && s4.win.recPoint == 0.0;
    assert After(c, s0, es, 0) == s0;
    assert After(c, s0, es, 1) == s1;
    assert After(c, s0, es, 2) == s2;
    assert After(c, s0, es, 3) == s3;
    assert After(c, s0, es, 4) == s4;
    assert RunFits(c, s0, es, 1);
    assert RunFits(c, s0, es, 3);
  }

  // ----- the recovery point -----

  /** A decrease puts the recovery point at or above the counter; nothing else moves it. */
  lemma RecPointStep(c: Config, s: State, e: Event)
    requires c.suppress >= 0.0
    ensures Step(c, s, e).win.recPoint >=
            if Decreases(c, s, e) then s.books.next as real else s.win.recPoint
  {
    ScaledNonNegative(c.suppress, Ahead(s.books.next, AtDecrease(s.win, e)) as real);
  }

  lemma RecPointKeeps(c: Config, s: State, e: Event, p: real)
    requires c.suppress >= 0.0 && s.win.recPoint >= p && s.books.next as real >= p
    ensures Step(c, s, e).win.recPoint >= p
  {
    RecPointStep(c, s, e);
  }

  lemma {:induction false} RecPointStays(c: Config, s: State, es: seq<Event>, i: nat, k: nat)
    requires i < k <= |es| && c.suppress >= 0.0 && RunFits(c, s, es, k) && Decreases(c, After(c, s, es, i), es[i])
    ensures After(c, s, es, k).win.recPoint >= After(c, s, es, i).books.next as real
  {
    if i < k - 1 {
      RecPointStays(c, s, es, i, k - 1);
      NextGrows(c, s, es, k - 1, i);
      RecPointKeeps(c, After(c, s, es, k - 1), es[k - 1], After(c, s, es, i).books.next as real);
    } else {
      RecPointStep(c, After(c, s, es, i), es[i]);
    }
  }

  /** The number that lets a decrease through was received by then. */
  lemma HighAtDecrease(c: Config, estimate: real, es: seq<Event>, j: nat) returns (d: nat)
    requires c.start <= SENTINEL && j < |es|
    requires RunFits(c, Initial(c, estimate), es, j) && Answers(c, Initial(c, estimate), es, j + 1)
    requires AtDecrease(After(c, Initial(c, estimate), es, j).win, es[j]).highData > 0
    ensures d <= j && es[d].Data? && es[d].number == AtDecrease(After(c, Initial(c, estimate), es, j).win, es[j]).highData
  {
    var v := After(c, Initial(c, estimate), es, j).win;
    HighInRuns(c, estimate, es, j);
    if AtDecrease(v, es[j]).highData == v.highData {
      d := HighReceived(c, estimate, es, j);
    } else {
      d := j;
    }
  }

  /** A number above the counter of an earlier point, received later, was sent for the first time in between. */
  lemma SentAfter(c: Config, s: State, es: seq<Event>, i: nat, d: nat, k: nat) returns (m: nat)
    requires i < k && d < k <= |es| && RunFits(c, s, es, k) && Answers(c, s, es, k)
    requires es[d].Data? && !es[i].Send? && es[d].number > After(c, s, es, i).books.next
    ensures i < m < d && es[m].Send? && Fresh(c, After(c, s, es, m).books) && After(c, s, es, m).books.next == es[d].number
  {
    AnswersAt(c, s, es, k, d);
    FitsAt(c, s, es, k, d);
    if d <= i {
      FitsAt(c, s, es, k, i);
      NextGrows(c, s, es, i, d);
    }
    m := FirstSent(c, s, es, i, d, es[d].number);
  }

  /** Between two decreases an Interest was sent for the first time, and its Data came no later than the second. */
  lemma OneDecreasePerRoundTrip(c: Config, estimate: real, es: seq<Event>, i: nat, j: nat) returns (m: nat, d: nat)
    requires c.useCwa && c.suppress >= 0.0 && c.start <= SENTINEL && i < j < |es|
    requires RunFits(c, Initial(c, estimate), es, j + 1) && Answers(c, Initial(c, estimate), es, j + 1)
    requires Decreases(c, After(c, Initial(c, estimate), es, i), es[i])
    requires Decreases(c, After(c, Initial(c, estimate), es, j), es[j])
    ensures i < m < d <= j && es[m].Send? && es[d].Data?
    ensures Fresh(c, After(c, Initial(c, estimate), es, m).books)
    ensures After(c, Initial(c, estimate), es, m).books.next == es[d].number
  {
    RecPointStays(c, Initial(c, estimate), es, i, j);
    d := HighAtDecrease(c, estimate, es, j);
    m := SentAfter(c, Initial(c, estimate), es, i, d, j + 1);
  }

  // ----- how far ahead the next decrease is -----

  lemma {:induction false} AnswersBefore(c: Config, s: State, es: seq<Event>, k: nat, i: nat)
    requires i <= k <= |es| && Answers(c, s, es, k)
    ensures Answers(c, s, es, i)
  {
    if i == k {
    } else {
      AnswersBefore(c, s, es, k - 1, i);
    }
  }

  lemma {:induction false} FitsBefore(c: Config, s: State, es: seq<Event>, k: nat, i: nat)
    requires i <= k <= |es| && RunFits(c, s, es, k)
    ensures RunFits(c, s, es, i)
  {
    if i == k {
    } else {
      FitsBefore(c, s, es, k - 1, i);
    }
  }

  /** A decrease puts the recovery point the suppression factor times the true difference beyond the counter. */
  lemma RecPointIs(c: Config, estimate: real, es: seq<Event>, i: nat)
    requires c.start <= SENTINEL && i < |es| && Decreases(c, After(c, Initial(c, estimate), es, i), es[i])
    requires RunFits(c, Initial(c, estimate), es, i + 1) && Answers(c, Initial(c, estimate), es, i + 1)
    ensures var s := After(c, Initial(c, estimate), es, i);
            var ahead := s.books.next - AtDecrease(s.win, es[i]).highData;
            && ahead > 0 && (c.suppress >= 0.0 ==> Scaled(c.suppress, ahead as real) >= 0.0)
            && After(c, Initial(c, estimate), es, i + 1).win.recPoint == s.books.next as real + Scaled(c.suppress, ahead as real)
  {
    AheadIsPositive(c, estimate, es, i);
    var s := After(c, Initial(c, estimate), es, i);
    RecPointMoves(c, s, es[i]);
    if c.suppress >= 0.0 {
      ScaledNonNegative(c.suppress, (s.books.next - AtDecrease(s.win, es[i]).highData) as real);
    }
  }

  lemma RecPointMoves(c: Config, s: State, e: Event)
    ensures Step(c, s, e).win.recPoint ==
            if Decreases(c, s, e) then s.books.next as real + Scaled(c.suppress, Ahead(s.books.next, AtDecrease(s.win, e)) as real)
            else s.win.recPoint
  {
  }

  /** With conservative adaptation the recovery point never goes back. */
  lemma RecPointGrowsStep(c: Config, estimate: real, es: seq<Event>, k: nat)
    requires c.useCwa && c.suppress >= 0.0 && c.start <= SENTINEL && k < |es|
    requires RunFits(c, Initial(c, estimate), es, k + 1) && Answers(c, Initial(c, estimate), es, k + 1)
    ensures After(c, Initial(c, estimate), es, k).win.recPoint <= After(c, Initial(c, estimate), es, k + 1).win.recPoint
  {
    var s := After(c, Initial(c, estimate), es, k);
    RecPointMoves(c, s, es[k]);
    if Decreases(c, s, es[k]) {
      AheadIsPositive(c, estimate, es, k);
      RecPointIs(c, estimate, es, k);
    }
  }

  lemma {:induction false} RecPointGrows(c: Config, estimate: real, es: seq<Event>, i: nat, k: nat)
    requires c.useCwa && c.suppress >= 0.0 && c.start <= SENTINEL && i <= k <= |es|
    requires RunFits(c, Initial(c, estimate), es, k) && Answers(c, Initial(c, estimate), es, k)
    ensures After(c, Initial(c, estimate), es, i).win.recPoint <= After(c, Initial(c, estimate), es, k).win.recPoint
  {
    if i == k {
    } else {
      RecPointGrows(c, estimate, es, i, k - 1);
      RecPointGrowsStep(c, estimate, es, k - 1);
    }
  }

  lemma BeyondFirst(c: Config, estimate: real, es: seq<Event>, i: nat, j: nat)
    requires c.useCwa && c.suppress >= 0.0 && c.start <= SENTINEL && i < j < |es|
    requires RunFits(c, Initial(c, estimate), es, j) && Answers(c, Initial(c, estimate), es, j)
    requires Decreases(c, After(c, Initial(c, estimate), es, i), es[i])
    ensures var s := After(c, Initial(c, estimate), es, i);
            var ahead := s.books.next - AtDecrease(s.win, es[i]).highData;
            && ahead > 0 && Scaled(c.suppress, ahead as real) >= 0.0
            && After(c, Initial(c, estimate), es, j).win.recPoint >= s.books.next as real + Scaled(c.suppress, ahead as real)
  {
    FitsBefore(c, Initial(c, estimate), es, j, i + 1);
    AnswersBefore(c, Initial(c, estimate), es, j, i + 1);
    RecPointIs(c, estimate, es, i);
    RecPointGrows(c, estimate, es, i + 1, j);
  }

  /** Between two decreases Data came for a number beyond the counter of the first by more than the suppression factor times how
      far that counter was ahead of the highest number received then. */
  lemma NextDecreaseIsBeyond(c: Config, estimate: real, es: seq<Event>, i: nat, j: nat) returns (d: nat)
    requires c.useCwa && c.suppress >= 0.0 && c.start <= SENTINEL && i < j < |es|
    requires RunFits(c, Initial(c, estimate), es, j + 1) && Answers(c, Initial(c, estimate), es, j + 1)
    requires Decreases(c, After(c, Initial(c, estimate), es, i), es[i])
    requires Decreases(c, After(c, Initial(c, estimate), es, j), es[j])
    ensures i < d <= j && es[d].Data?
    ensures var s := After(c, Initial(c, estimate), es, i);
            var ahead := s.books.next - AtDecrease(s.win, es[i]).highData;
            ahead > 0 && es[d].number as real > s.books.next as real + Scaled(c.suppress, ahead as real)
  {
    BeyondFirst(c, estimate, es, i, j);
    HighIsBeyond(c, After(c, Initial(c, estimate), es, j), es[j]);
    d := HighAtDecrease(c, estimate, es, j);
    var m := SentAfter(c, Initial(c, estimate), es, i, d, j + 1);
  }

  lemma HighIsBeyond(c: Config, s: State, e: Event)
    requires c.useCwa && Decreases(c, s, e)
    ensures AtDecrease(s.win, e).highData as real > s.win.recPoint
  {
  }
}
