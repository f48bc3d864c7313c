/**
 Runs in which every call succeeds, and which show what the theorems about the queue do not promise:
 a message delivered more often than the limit allows, because a scan lists 200 pending messages and one
 that it does not list is claimed whatever its count; and a message that fails, is redelivered and
 acknowledged, as Handler needs it to show how a record is lost.
 */
module QueueRuns {
  import opened Stream
  import opened Queue
  import opened Redelivery
  import opened Consumer

  /** A call that succeeds. */
  predicate Succeeds(e: Event) {
    match e
    case Read(_, received) => received
    case AckBatch(_, how) => how == Both
    case Scan(ok) => ok
    case Drop(how) => how == Both
    case ClaimStale(ok, received) => ok && received
    case _ => true
  }

  // ---------- one tick ----------

  const TICK: seq<Event> := [Scan(true), Drop(Both), ClaimStale(true, true)]

  function Scanned(c: Config, s: State): State { s.(reclaimer := Dropping(s.now, Dead(s.q, c.maxRetries))) }

  function Dropped(c: Config, s: State): State {
    AckStep(s, Dead(s.q, c.maxRetries), Both, _ => Acked(CountReached)).(reclaimer := Claiming(s.now))
  }

  function Ticked(c: Config, s: State): State { ClaimStep(c, Dropped(c, s), true) }

  /** A tick of the reclaimer whose calls all succeed. */
  lemma {:induction false} TickIsARun(c: Config, s: State)
    requires c.maxRetries >= 1 && s.reclaimer.Resting? && RECLAIM_WORKER !in s.batches && !s.cancelled
    ensures Run(c, s, TICK, Ticked(c, s))
  {
    hide Run;
    var s1, s2, t := Scanned(c, s), Dropped(c, s), Ticked(c, s);
    assert Next(c, s, Scan(true)) == s1;
    assert Next(c, s1, Drop(Both)) == s2;
    assert Next(c, s2, ClaimStale(true, true)) == t;
    assert [ClaimStale(true, true)] + [] == [ClaimStale(true, true)];
    assert [Drop(Both)] + [ClaimStale(true, true)] == [Drop(Both), ClaimStale(true, true)];
    assert [Scan(true)] + [Drop(Both), ClaimStale(true, true)] == TICK;
    RunNothing(c, t);
    RunFirst(c, s2, ClaimStale(true, true), [], t);
    RunFirst(c, s1, Drop(Both), [ClaimStale(true, true)], t);
    RunFirst(c, s, Scan(true), [Drop(Both), ClaimStale(true, true)], t);
  }

  /**
   A tick delivers a message at its limit once more exactly when 200 pending messages stand before it, so that
   the scan does not list it, and the claim takes it behind the drop: it is idle, fewer idle messages stand before
   it than a claim takes, and fewer pending ones than it looks at.
   */
  lemma {:induction false} TickPassesTheLimit(c: Config, s: State, m: nat)
    requires c.maxRetries >= 1 && Ledger(c, s) && m in s.q.pel && m in s.q.stored && s.q.pel[m].count == c.maxRetries
    ensures var t, q := Ticked(c, s), Dropped(c, s).q;
            m in t.h.deliveries && t.h.deliveries[m] > c.maxRetries <==>
              && |Ahead(s.q, m)| >= 200
              && Idle(s.q, m, s.now) && |IdleAhead(q, m, s.now)| < c.batchSize && |Ahead(q, m)| < 10 * c.batchSize
  {
    LedgerParts(c, s);
    ScanFindsExactly(s.q, c.maxRetries, m);
    ClaimClaims(c, Dropped(c, s), true);
    ClaimTakesExactly(Dropped(c, s).q, c.batchSize, s.now, m);
    hide Ledger, Dead, ClaimIDs, ClaimStep, Ahead, IdleAhead, FatesOK, WorkOK, RecordFates;
  }

  // ---------- a run ----------

  /** The ids below a bound. */
  function Below(k: nat): (ids: set<nat>)
    ensures |ids| == k && forall j :: j in ids <==> 0 <= j < k
  {
    if k == 0 then {} else Below(k - 1) + {k - 1}
  }

  /** The first n messages have been sent, read, and failed by the handler. */
  function Waiting(data: string, n: nat): State {
    State(
      Stream(n, map id | id in Below(n) :: Payload(data), n, map id | id in Below(n) :: Delivery(1, 0)),
      0, false, map[], Resting,
      History(seq(n, _ => Payload(data)), map[], map id | id in Below(n) :: 1, {}))
  }

  /** One more message is sent, read and failed by the handler, and the empty acknowledgement succeeds. */
  function Failing(data: string, n: nat): seq<Event> {
    [Enqueue(Payload(data), 0)] + ([Read(0, true)] + ([Start(0)] +
      ([Finish(0, Message(n, Payload(data)), ReturnedError)] + ([AckBatch(0, Both)] + []))))
  }

  function Sent(data: string, n: nat): State {
    var s, added := Waiting(data, n), Waiting(data, n + 1);
    s.(q := s.q.(next := n + 1, stored := added.q.stored), h := s.h.(sent := added.h.sent))
  }

  function Held(data: string, n: nat, todo: seq<Message>, running: set<Message>): State {
    Waiting(data, n + 1).(batches := map[0 := Batch(todo, running, {})])
  }

  lemma SendsOne(c: Config, data: string, n: nat)
    ensures Enabled(c, Waiting(data, n), Enqueue(Payload(data), 0))
    ensures Next(c, Waiting(data, n), Enqueue(Payload(data), 0)) == Sent(data, n)
  {
    var s := Waiting(data, n);
    var t := EnqueueStep(s, Payload(data), 0);
    assert t.q.stored == Sent(data, n).q.stored;
    assert t.h.fates == map[];
    assert t.h.sent == Sent(data, n).h.sent;
  }

  lemma OneUnread(data: string, n: nat, k: nat)
    requires k >= 1
    ensures UnreadIDs(Sent(data, n).q, k) == [n]
  {
    var ids := Sent(data, n).q.stored.Keys;
    assert Ascending(ids, n + 1, n + 1) == [];
    assert Ascending(ids, n, n + 1) == [n];
  }

  lemma ReadsOne(c: Config, data: string, n: nat)
    requires c.batchSize >= 1
    ensures Enabled(c, Sent(data, n), Read(0, true))
    ensures Next(c, Sent(data, n), Read(0, true)) == Held(data, n, [Message(n, Payload(data))], {})
  {
    var s := Sent(data, n);
    OneUnread(data, n, c.batchSize);
    SentIs(data, n);
    GroupReadsOne(data, n, c.batchSize);
    hide UnreadIDs, ReadGroup, FirstDelivery, Waiting, Sent;
    assert Messages(s.q, [n]) == [Message(n, Payload(data))] by { assert [n][1..] == []; }
    assert map[][0 := Batch(Messages(s.q, [n]), {}, {})] == map[0 := Batch([Message(n, Payload(data))], {}, {})];
  }

  lemma SentIs(data: string, n: nat)
    ensures var s, t := Sent(data, n), Waiting(data, n + 1);
            && s.q.stored == t.q.stored && n in s.q.stored && s.q.stored[n] == Payload(data)
            && s.now == 0 && !s.cancelled && s.batches == map[]
            && t == s.(q := t.q, h := s.h.(deliveries := t.h.deliveries)) && t.q == s.q.(cursor := n + 1, pel := t.q.pel)
  {
  }

  lemma GroupReadsOne(data: string, n: nat, k: nat)
    requires k >= 1
    ensures var s, t := Sent(data, n), Waiting(data, n + 1);
            ReadGroup(s.q, k, 0) == t.q && FirstDelivery(s.h.deliveries, [n]) == t.h.deliveries
  {
    var s, t := Sent(data, n), Waiting(data, n + 1);
    OneUnread(data, n, k);
    hide UnreadIDs;
    assert ReadGroup(s.q, k, 0).pel == t.q.pel;
    assert FirstDelivery(s.h.deliveries, [n]) == t.h.deliveries;
  }

  lemma {:induction false} FailsOne(c: Config, data: string, n: nat)
    requires c.batchSize >= 1
    ensures Run(c, Waiting(data, n), Failing(data, n), Waiting(data, n + 1))
  {
    var m := Message(n, Payload(data));
    SendsOne(c, data, n);
    ReadsOne(c, data, n);
    HandlesOne(c, data, n, m);
    var s, t := Waiting(data, n), Waiting(data, n + 1);
    hide Run, Next, Enabled, Waiting, Sent, Held;
    RunNothing(c, t);
    RunFirst(c, Held(data, n, [], {}), AckBatch(0, Both), [], t);
    RunFirst(c, Held(data, n, [], {m}), Finish(0, m, ReturnedError), [AckBatch(0, Both)] + [], t);
    RunFirst(c, Held(data, n, [m], {}), Start(0), [Finish(0, m, ReturnedError)] + ([AckBatch(0, Both)] + []), t);
    RunFirst(c, Sent(data, n), Read(0, true), [Start(0)] + ([Finish(0, m, ReturnedError)] + ([AckBatch(0, Both)] + [])), t);
    RunFirst(c, s, Enqueue(Payload(data), 0),
             [Read(0, true)] + ([Start(0)] + ([Finish(0, m, ReturnedError)] + ([AckBatch(0, Both)] + []))), t);
  }

  lemma HandlesOne(c: Config, data: string, n: nat, m: Message)
    requires m == Message(n, Payload(data))
    ensures Enabled(c, Held(data, n, [m], {}), Start(0))
    ensures Next(c, Held(data, n, [m], {}), Start(0)) == Held(data, n, [], {m})
    ensures Enabled(c, Held(data, n, [], {m}), Finish(0, m, ReturnedError))
    ensures Next(c, Held(data, n, [], {m}), Finish(0, m, ReturnedError)) == Held(data, n, [], {})
    ensures Enabled(c, Held(data, n, [], {}), AckBatch(0, Both))
    ensures Next(c, Held(data, n, [], {}), AckBatch(0, Both)) == Waiting(data, n + 1)
  {
    hide Waiting, AckFate;
    assert [m][1..] == [];
    assert {} + {m} == {m} && {m} - {m} == {};
    assert map[0 := Batch([], {}, {})] - {0} == map[];
    AcknowledgesNothing(Held(data, n, [], {}), AckFate(Held(data, n, [], {}).h.sent));
    NothingHeld(data, n);
  }

  lemma NothingHeld(data: string, n: nat)
    ensures var s := Waiting(data, n + 1); s.batches == map[] && s.h.nils == {} && !s.cancelled
  {
  }

  lemma AcknowledgesNothing(s: State, fate: nat -> Fate)
    ensures AckStep(s, {}, Both, fate) == s
  {
    assert s.q.pel - {} == s.q.pel && s.q.stored - {} == s.q.stored;
    assert RecordFates(s.h.fates, {}, fate) == s.h.fates;
  }

  function Failures(data: string, n: nat): seq<Event> { if n == 0 then [] else Failures(data, n - 1) + Failing(data, n - 1) }

  lemma {:induction false} AllFail(c: Config, data: string, n: nat)
    requires c.batchSize >= 1
    ensures Run(c, INITIAL, Failures(data, n), Waiting(data, n))
    ensures forall e | e in Failures(data, n) :: Succeeds(e)
  {
    if n == 0 {
      assert INITIAL == Waiting(data, 0) by { FirstState(data); }
      RunNothing(c, INITIAL);
    } else {
      AllFail(c, data, n - 1);
      FailsOne(c, data, n - 1);
      hide Run, Waiting;
      RunConcat(c, INITIAL, Failures(data, n - 1), Waiting(data, n - 1), Failing(data, n - 1), Waiting(data, n));
    }
  }

  lemma FirstState(data: string)
    ensures INITIAL == Waiting(data, 0)
  {
    var s := Waiting(data, 0);
    assert s.q.stored == map[] && s.q.pel == map[] && s.h.sent == [] && s.h.deliveries == map[];
  }

  /** A minute later. */
  function Stale(data: string, n: nat): State { Waiting(data, n).(now := IDLE_SECONDS) }

  function OverrunEvents(data: string, n: nat): seq<Event> { Failures(data, n) + ([Pass(IDLE_SECONDS)] + TICK) }

  /** With one delivery allowed and more than 200 messages failed, the scan finds the first 200. */
  lemma ScanFindsTheFirst(c: Config, data: string, n: nat, id: nat)
    requires c.maxRetries == 1 && n > SCAN_LIMIT
    ensures id in Dead(Stale(data, n).q, 1) <==> id < SCAN_LIMIT
  {
    var q := Stale(data, n).q;
    ScanFindsExactly(q, 1, id);
    assert id < n ==> Ahead(q, id) == Below(id);
  }

  /** Then the first message that the scan did not list is the first one pending. */
  lemma TheNextIsFirst(c: Config, data: string, n: nat)
    requires c.maxRetries == 1 && c.batchSize >= 1 && n > SCAN_LIMIT
    ensures var q := Dropped(c, Stale(data, n)).q; IsFirst(q, SCAN_LIMIT) && Idle(q, SCAN_LIMIT, IDLE_SECONDS)
  {
    var m := SCAN_LIMIT;
    var s := Stale(data, n);
    var q := Dropped(c, s).q;
    forall id: nat ensures id in q.pel <==> m <= id < n { ScanFindsTheFirst(c, data, n, id); }
    assert forall id | id in q.pel :: q.pel[id] == Delivery(1, 0);
  }

  lemma AllIdle(c: Config, data: string, n: nat, id: nat)
    requires id < n
    ensures Idle(Stale(data, n).q, id, IDLE_SECONDS) && Stale(data, n).now == IDLE_SECONDS
  {
  }

  lemma StaleTickPasses(c: Config, data: string, n: nat, m: nat)
    requires c.maxRetries == 1 && c.batchSize >= 1 && n > m == SCAN_LIMIT && Ledger(c, Stale(data, n))
    ensures var t := Ticked(c, Stale(data, n)); m in t.h.deliveries && t.h.deliveries[m] > c.maxRetries
  {
    hide *;
    var s := Stale(data, n);
    StaleIs(c, data, n);
    TheNextIsFirst(c, data, n);
    NothingAhead(Dropped(c, s).q, m, IDLE_SECONDS);
    ScanFindsTheFirst(c, data, n, m);
    assert Idle(s.q, m, s.now) by { AllIdle(c, data, n, m); }
    ScanFindsExactly(s.q, 1, m);
    TickPassesTheLimit(c, s, m);
  }

  lemma StaleKeeps(c: Config, data: string, n: nat)
    requires c.batchSize >= 1
    ensures Ledger(c, Stale(data, n))
  {
    hide *;
    InitialIsCapped(c);
    AllFail(c, data, n);
    RunKeeps(c, INITIAL, Failures(data, n), Waiting(data, n));
    PassKeeps(c, Waiting(data, n), IDLE_SECONDS);
    StaleIs(c, data, n);
  }

  /**
   With one delivery allowed, any batch size and any number of messages above 200, there is a run in which
   every call succeeds and message 200 is delivered twice.
   */
  lemma {:induction false} LimitIsPassed(c: Config, data: string, n: nat) returns (t: State)
    requires c.maxRetries == 1 && c.batchSize >= 1 && n > 200
    ensures Run(c, INITIAL, OverrunEvents(data, n), t) && forall e | e in OverrunEvents(data, n) :: Succeeds(e)
    ensures 200 in t.h.deliveries && t.h.deliveries[200] > c.maxRetries
  {
    hide Run, Next, Enabled, Waiting, Stale, Ticked, Failures, Ledger;
    var s0, s := Waiting(data, n), Stale(data, n);
    t := Ticked(c, s);
    AllFail(c, data, n);
    StaleIs(c, data, n);
    TickIsARun(c, s);
    StaleKeeps(c, data, n);
    StaleTickPasses(c, data, n, SCAN_LIMIT);
    RunFirst(c, s0, Pass(IDLE_SECONDS), TICK, t);
    RunConcat(c, INITIAL, Failures(data, n), s0, [Pass(IDLE_SECONDS)] + TICK, t);
  }

  lemma PassKeeps(c: Config, s: State, d: nat)
    requires Ledger(c, s)
    ensures Ledger(c, s.(now := s.now + d))
  {
    StepKeepsTheLedger(c, s, Pass(d));
  }

  lemma StaleIs(c: Config, data: string, n: nat)
    ensures var s0, s := Waiting(data, n), Stale(data, n);
            && Enabled(c, s0, Pass(IDLE_SECONDS)) && Next(c, s0, Pass(IDLE_SECONDS)) == s == s0.(now := s0.now + IDLE_SECONDS)
            && s.now == IDLE_SECONDS && s.reclaimer.Resting? && s.batches == map[] && !s.cancelled
            && s.q.pel.Keys == Below(n) == s.q.stored.Keys && s.q.cursor == n
            && forall id | id in s.q.pel :: s.q.pel[id] == Delivery(1, 0)
  {
  }

  // ---------- redelivered and acknowledged ----------

  /** A successful tick; without a limit nothing is dropped. */
  function TickEvents(c: Config): seq<Event> { if c.maxRetries <= 0 then [Scan(true)] + [ClaimStale(true, true)] else TICK }

  /** A message fails, is claimed a minute later, answered nil and acknowledged. */
  function RedeliveryEvents(c: Config, data: string): seq<Event> {
    Failures(data, 1) + ([Pass(IDLE_SECONDS)] +
      (TickEvents(c) + BatchEvents(RECLAIM_WORKER, [Message(0, Payload(data))], [ReturnedNil], [0], Both)))
  }

  /** Behind the scan and the drop of a tick that finds nothing at its limit. */
  function Rescanned(data: string): State { Stale(data, 1).(reclaimer := Claiming(IDLE_SECONDS)) }

  lemma OneIsClaimed(c: Config, data: string)
    requires c.batchSize >= 1
    ensures ClaimIDs(Stale(data, 1).q, c.batchSize, IDLE_SECONDS) == [0]
    ensures Messages(Stale(data, 1).q, [0]) == [Message(0, Payload(data))]
  {
    var q := Stale(data, 1).q;
    FirstIsClaimed(q, c.batchSize, 0, IDLE_SECONDS);
    SmallestIs(IdleSet(q, c.batchSize, IDLE_SECONDS), 0, q.cursor, c.batchSize);
    assert [0][1..] == [];
    hide Smallest;
    assert forall id | id in IdleSet(q, c.batchSize, IDLE_SECONDS) :: id < 1;
  }

  /** A message delivered once is not at a limit of two or more. */
  lemma NoneIsDead(c: Config, data: string)
    requires c.maxRetries >= 2
    ensures Dead(Stale(data, 1).q, c.maxRetries) == {} && Dropped(c, Stale(data, 1)) == Rescanned(data)
  {
    var s := Stale(data, 1);
    assert Dead(s.q, c.maxRetries) == {} by { hide PendingIDs; }
    hide Dead, AckStep;
    AcknowledgesNothing(s, _ => Acked(CountReached));
  }

  /** Up to its claim a tick gets to the same state with a limit of two or more and without one. */
  lemma {:induction false} TickClaims(c: Config, data: string)
    requires c.batchSize >= 1 && c.maxRetries != 1
    ensures Run(c, Stale(data, 1), TickEvents(c), ClaimStep(c, Rescanned(data), true))
  {
    StaleIs(c, data, 1);
    hide Run, ClaimStep, Dropped, Dead, Stale, Waiting;
    if c.maxRetries >= 2 {
      NoneIsDead(c, data);
      TickIsARun(c, Stale(data, 1));
    } else {
      ClaimsWithoutLimit(c, Stale(data, 1));
    }
  }

  lemma ClaimsWithoutLimit(c: Config, s: State)
    requires c.maxRetries <= 0 && s.reclaimer.Resting? && RECLAIM_WORKER !in s.batches && !s.cancelled
    ensures Run(c, s, [Scan(true)] + [ClaimStale(true, true)], ClaimStep(c, s.(reclaimer := Claiming(s.now)), true))
  {
    var s1 := s.(reclaimer := Claiming(s.now));
    var t := ClaimStep(c, s1, true);
    hide ClaimStep;
    assert Next(c, s, Scan(true)) == s1;
    assert Next(c, s1, ClaimStale(true, true)) == t;
    hide Run, Next;
    RunNothing(c, t);
    RunFirst(c, s1, ClaimStale(true, true), [], t);
    assert [ClaimStale(true, true)] + [] == [ClaimStale(true, true)];
    RunFirst(c, s, Scan(true), [ClaimStale(true, true)], t);
  }

  lemma ClaimsOne(c: Config, data: string)
    requires c.batchSize >= 1
    ensures var t := ClaimStep(c, Rescanned(data), true);
            && t.batches == map[RECLAIM_WORKER := Batch([Message(0, Payload(data))], {}, {})] && !t.cancelled
            && t.h.fates == map[] && t.h.sent == [Payload(data)]
  {
    OneIsClaimed(c, data);
    hide ClaimIDs, Claim, Messages;
  }

  lemma {:induction false} RedeliveredAndAcknowledged(c: Config, data: string) returns (t: State)
    requires c.batchSize >= 1 && c.maxRetries != 1
    ensures Run(c, INITIAL, RedeliveryEvents(c, data), t)
    ensures t.h.sent == [Payload(data)] && 0 in t.h.fates && t.h.fates[0] == Acked(HandlerReturnedNil)
    ensures forall e | e in RedeliveryEvents(c, data) :: Succeeds(e) && (e.Finish? ==> e.m == Message(0, Payload(data)))
  {
    hide Run, Next, Enabled, Waiting, Stale, Failures, BatchEvents, TickEvents, ClaimStep, AckSet, RecordFates;
    var m := Message(0, Payload(data));
    var last := BatchEvents(RECLAIM_WORKER, [m], [ReturnedNil], [0], Both);
    var s0, s, s2 := Waiting(data, 1), Stale(data, 1), ClaimStep(c, Rescanned(data), true);
    AllFail(c, data, 1);
    StaleIs(c, data, 1);
    TickClaims(c, data);
    ClaimsOne(c, data);
    t := BatchIsARun(c, s2, RECLAIM_WORKER, [m], [ReturnedNil], [0], Both);
    OneIsAcknowledged(m, s2.h.fates, s2.h.sent);
    RunConcat(c, s, TickEvents(c), s2, last, t);
    RunFirst(c, s0, Pass(IDLE_SECONDS), TickEvents(c) + last, t);
    RunConcat(c, INITIAL, Failures(data, 1), s0, [Pass(IDLE_SECONDS)] + (TickEvents(c) + last), t);
    RedeliveryEventsAre(c, data);
  }

  lemma OneIsAcknowledged(m: Message, fates: map<nat, Fate>, sent: seq<Body>)
    requires sent == [m.body] && m.id == 0 && m.body.Payload? && fates == map[]
    ensures AckSet([m][..1], [ReturnedNil]) == {0}
    ensures 0 in RecordFates(fates, {0}, AckFate(sent))
    ensures RecordFates(fates, {0}, AckFate(sent))[0] == Acked(HandlerReturnedNil)
  {
    assert [m][..1] == [m];
    assert Done([m][0].body, [ReturnedNil][0]);
  }

  /** Events that succeed, and whose handled message is m. */
  predicate About(es: seq<Event>, m: Message) { forall e | e in es :: Succeeds(e) && (e.Finish? ==> e.m == m) }

  lemma BothAbout(a: seq<Event>, b: seq<Event>, m: Message)
    requires About(a, m) && About(b, m)
    ensures About(a + b, m)
  {
  }

  lemma FailingIsAbout(data: string)
    ensures About(Failures(data, 1), Message(0, Payload(data)))
  {
    assert Failures(data, 0) == [];
    assert Failures(data, 1) == Failing(data, 0);
  }

  lemma BatchIsAbout(w: int, m: Message)
    ensures About(BatchEvents(w, [m], [ReturnedNil], [0], Both), m)
  {
    assert StartEvents(w, 1) == [Start(w)] by { assert StartEvents(w, 0) == []; }
    assert FinishEvents(w, [m], [ReturnedNil], [0]) == [Finish(w, m, ReturnedNil)] by { assert [0][1..] == []; }
  }

  lemma RedeliveryEventsAre(c: Config, data: string)
    ensures forall e | e in RedeliveryEvents(c, data) :: Succeeds(e) && (e.Finish? ==> e.m == Message(0, Payload(data)))
  {
    var m := Message(0, Payload(data));
    FailingIsAbout(data);
    BatchIsAbout(RECLAIM_WORKER, m);
    hide Failures, BatchEvents;
    var last := BatchEvents(RECLAIM_WORKER, [m], [ReturnedNil], [0], Both);
    assert About([Pass(IDLE_SECONDS)], m) && About(TickEvents(c), m);
    assert About(RedeliveryEvents(c, data), m) by {
      hide About, TickEvents;
      BothAbout(TickEvents(c), last, m);
      BothAbout([Pass(IDLE_SECONDS)], TickEvents(c) + last, m);
      BothAbout(Failures(data, 1), [Pass(IDLE_SECONDS)] + (TickEvents(c) + last), m);
    }
  }
}
