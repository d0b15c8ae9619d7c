/** The consumers that request numbered packets: which numbers are out, which are to be sent again, what is recorded
    about them, and the congestion window. */
module ConsumerModel {
  import opened Routes
  import opened Estimator

  /** Which class handles the events: the common base, ConsumerWindow or ConsumerPcon. */
  datatype Kind = Base | Window | Pcon

  /** What the attributes set.  `aimd` tells whether the window algorithm is AIMD; for BIC and CUBIC the new window is an
      input of the event. */
  datatype Config = Config(
    kind: Kind, start: nat, seqMax: nat, initialWindow: nat, initialWindowOnTimeout: bool,
    aimd: bool, beta: real, suppress: real, react: bool, useCwa: bool, rtt: Params)

  /** The fields of the base class.  `next` is m_seq, `awaiting` is m_seqTimeouts and `again` is m_retxSeqs. */
  datatype Books = Books(
    active: bool, next: nat, awaiting: map<nat, real>, full: map<nat, real>, last: map<nat, real>, counts: map<nat, nat>,
    again: set<nat>, rtt: Rtt)

  /** The fields of the window classes.  No slow-start threshold stands for the largest floating-point number. */
  datatype Win = Win(size: real, inFlight: nat, ssthresh: Option<real>, highData: nat, recPoint: real)

  datatype State = State(books: Books, win: Win)

  /** The largest 32-bit number, which stands for no number. */
  const SENTINEL := 0xFFFF_FFFF

  /** `w` is the window the BIC or CUBIC curve gives. */
  datatype Event =
    | Send(now: real)
    | Data(number: nat, marked: bool, now: real, w: real)
    | Expire(number: nat, now: real, w: real)
    | SetActive(on: bool, now: real)

  function InitialBooks(c: Config, estimate: real): Books
  {
    Books(false, c.start, map[], map[], map[], map[], {}, Rtt([], estimate, 0.0, 0, 1))
  }

  function Initial(c: Config, estimate: real): State
  {
    State(InitialBooks(c, estimate), Win(c.initialWindow as real, 0, None, 0, 0.0))
  }

  // ----- sending -----

  lemma {:induction false} LeastOf(s: set<nat>) returns (m: nat)
    requires s != {}
    ensures m in s && forall x :: x in s ==> m <= x
  {
    m :| m in s;
    var rest := s - {m};
    assert s == rest + {m};
    if rest == {} {
    } else {
      var k := LeastOf(rest);
      m := if m < k then m else k;
    }
  }

  lemma LeastExists(s: set<nat>)
    requires s != {}
    ensures exists m :: m in s && forall x :: x in s ==> m <= x
  {
    var m := LeastOf(s);
  }

  /** The first of an ordered set. */
  ghost function First(s: set<nat>): (m: nat)
    requires s != {}
    ensures m in s && forall x :: x in s ==> m <= x
  {
    LeastExists(s);
    var m :| m in s && forall x :: x in s ==> m <= x;
    m
  }

  /** The number to send again, or the sentinel. */
  ghost function Queued(b: Books): nat
  {
    if b.again == {} then SENTINEL else First(b.again)
  }

  /** Whether a number not used before is sent. */
  ghost predicate Fresh(c: Config, b: Books)
  {
    b.active && Queued(b) == SENTINEL && (c.seqMax != SENTINEL ==> b.next < c.seqMax)
  }

  /** The number that is sent, if any. */
  ghost function Choice(c: Config, b: Books): Option<nat>
  {
    if !b.active then None
    else if Queued(b) != SENTINEL then Some(Queued(b))
    else if Fresh(c, b) then Some(b.next)
    else None
  }

  /** multi_index_container::insert keeps an element that is there. */
  function Inserted(m: map<nat, real>, n: nat, now: real): map<nat, real>
  {
    if n in m then m else m[n := now]
  }

  /** WillSendOutInterest of the base class. */
  function NotedAsSent(b: Books, n: nat, now: real): Books
  {
    b.(awaiting := Inserted(b.awaiting, n, now), full := Inserted(b.full, n, now), last := b.last[n := now],
       counts := b.counts[n := ((if n in b.counts then b.counts[n] else 0) + 1) % WORD32],
       rtt := b.rtt.(history := Noted(b.rtt.history, n, now)))
  }

  /** The books when the number to send has been picked. */
  ghost function Picked(c: Config, b: Books): Books
  {
    b.(again := if b.again == {} then {} else b.again - {First(b.again)},
       next := if Fresh(c, b) then (b.next + 1) % WORD32 else b.next)
  }

  ghost function Sending(c: Config, b: Books, now: real): Books
  {
    if !b.active then b
    else if Choice(c, b).None? then Picked(c, b)
    else NotedAsSent(Picked(c, b), Choice(c, b).value, now)
  }

  // ----- Data -----

  /** OnData of the base class, which keeps 32 bits of the number. */
  function Received(c: Config, b: Books, number: nat, now: real): Books
  {
    var n := number % WORD32;
    if !b.active then b
    else b.(counts := b.counts - {n}, full := b.full - {n}, last := b.last - {n}, awaiting := b.awaiting - {n},
            again := b.again - {n}, rtt := Acked(c.rtt, b.rtt, n, now))
  }

  // ----- timeouts -----

  /** The entry leaves m_seqTimeouts, then OnTimeout of the base class. */
  function Expired(c: Config, b: Books, n: nat, now: real): Books
  {
    b.(awaiting := b.awaiting - {n}, again := b.again + {n},
       rtt := b.rtt.(multiplier := BackedOff(c.rtt, b.rtt.multiplier), history := Noted(b.rtt.history, n, now)))
  }

  // ----- the window -----

  function OneLess(k: nat): nat
  {
    if k > 0 then k - 1 else 0
  }

  /** Dividing by a window of zero, which gives no real number, is left to `w` too. */
  function Increased(c: Config, v: Win, w: real): Win
  {
    if !c.aimd then v.(size := w)
    else if v.ssthresh.None? || v.size < v.ssthresh.value then v.(size := v.size + 1.0)
    else v.(size := if v.size == 0.0 then w else v.size + 1.0 / v.size)
  }

  /** Whether the decrease is not suppressed. */
  predicate Reacts(c: Config, v: Win)
  {
    !c.useCwa || v.highData as real > v.recPoint
  }

  /** m_seq - m_highData, on unsigned 32-bit numbers. */
  function Ahead(next: nat, v: Win): nat
  {
    (next - v.highData) % WORD32
  }

  function RecoveryPoint(c: Config, next: nat, ahead: nat): real
  {
    next as real + Scaled(c.suppress, ahead as real)
  }

  function Reduced(c: Config, size: real, w: real): real
  {
    if c.aimd then Scaled(size, c.beta) else w
  }

  function Decreased(c: Config, next: nat, v: Win, w: real): Win
  {
    if !Reacts(c, v) then v
    else
      var reduced := Reduced(c, v.size, w);
      v.(recPoint := RecoveryPoint(c, next, Ahead(next, v)),
         ssthresh := if c.aimd then Some(reduced) else v.ssthresh,
         size := Max(reduced, c.initialWindow as real))
  }

  /** The highest number received, kept in 32 bits. */
  function Heard(v: Win, number: nat): Win
  {
    v.(highData := if v.highData < number then number % WORD32 else v.highData)
  }

  /** What OnData of the window classes does besides the base class. */
  function WindowOnData(c: Config, next: nat, v: Win, number: nat, marked: bool, w: real): Win
  {
    match c.kind
    case Base => v
    case Window => v.(size := v.size + 1.0, inFlight := OneLess(v.inFlight))
    case Pcon =>
      var h := Heard(v, number);
      var v' := if !marked then Increased(c, h, w) else if c.react then Decreased(c, next, h, w) else h;
      v'.(inFlight := OneLess(v'.inFlight))
  }

  /** What OnTimeout of the window classes does besides the base class. */
  function WindowOnTimeout(c: Config, next: nat, v: Win, w: real): Win
  {
    match c.kind
    case Base => v
    case Window =>
      v.(inFlight := OneLess(v.inFlight), size := if c.initialWindowOnTimeout then c.initialWindow as real else v.size)
    case Pcon =>
      var v' := Decreased(c, next, v, w);
      v'.(inFlight := OneLess(v'.inFlight))
  }

  function WindowOnSend(c: Config, v: Win): Win
  {
    if c.kind == Base then v else v.(inFlight := (v.inFlight + 1) % WORD32)
  }

  // ----- runs -----

  /** Timeouts only happen to numbers that are awaited. */
  predicate Enabled(b: Books, e: Event)
  {
    e.Expire? ==> e.number in b.awaiting
  }

  ghost function BooksStep(c: Config, b: Books, e: Event): Books
  {
    match e
    case Send(now) => Sending(c, b, now)
    case Data(n, _, now, _) => Received(c, b, n, now)
    case Expire(n, now, _) => Expired(c, b, n, now)
    case SetActive(on, _) => b.(active := on)
  }

  ghost function WindowStep(c: Config, s: State, e: Event): Win
  {
    match e
    case Send(_) => if Choice(c, s.books).None? then s.win else WindowOnSend(c, s.win)
    case Data(n, marked, _, w) => WindowOnData(c, s.books.next, s.win, n, marked, w)
    case Expire(_, _, w) => WindowOnTimeout(c, s.books.next, s.win, w)
    case SetActive(_, _) => s.win
  }

  ghost function Step(c: Config, s: State, e: Event): State
  {
    State(BooksStep(c, s.books, e), WindowStep(c, s, e))
  }

  /** The state after the first `k` events. */
  ghost function After(c: Config, s: State, es: seq<Event>, k: nat): State
    requires k <= |es|
  {
    if k == 0 then s else Step(c, After(c, s, es, k - 1), es[k - 1])
  }

  /** The event can happen now, and does not take the counter beyond the sentinel. */
  ghost predicate Fits(c: Config, b: Books, e: Event)
  {
    Enabled(b, e) && (e.Send? && Fresh(c, b) ==> b.next < SENTINEL)
  }

  /** Each of the first `k` events fits when it happens. */
  ghost predicate RunFits(c: Config, s: State, es: seq<Event>, k: nat)
    requires k <= |es|
  {
    k > 0 ==> RunFits(c, s, es, k - 1) && Fits(c, After(c, s, es, k - 1).books, es[k - 1])
  }
}
