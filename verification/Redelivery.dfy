/**
 Bounds on redelivery.  With the reclaimer's calls succeeding, a limit of at least one and scans that see
 every message at its limit, no message is delivered more often than the limit (DeliveriesAreBounded);
 ScanFindsExactly says what a scan sees, and module QueueRuns has a run of successful calls in which one
 does not see enough.  In every run, whatever fails and however much is pending, a message that keeps
 failing is gone after a bounded number of successful rounds of the reclaimer (StuckMessageLeaves).
 */
module Redelivery {
  import opened Stream
  import opened Queue

  predicate AtLimit(c: Config, q: Stream, id: nat)
    requires id in q.pel
  {
    q.pel[id].count >= c.maxRetries
  }

  /** The pending messages before one. */
  function Ahead(q: Stream, id: nat): set<nat> { set j | j in q.pel && j < id }

  /** No message at its limit stands behind more pending messages than a scan lists. */
  ghost predicate Seen(c: Config, q: Stream) {
    forall id | id in q.pel && AtLimit(c, q, id) :: |Ahead(q, id)| < 200
  }

  /** The calls of the reclaimer succeed and its scan sees every message at its limit. */
  ghost predicate Smooth(c: Config, s: State, e: Event) {
    match e
    case Scan(ok) => ok && Seen(c, s.q)
    case Drop(how) => how != Nothing
    case _ => true
  }

  ghost predicate SmoothRun(c: Config, s: State, es: seq<Event>, t: State)
    decreases |es|
  {
    if es == [] then s == t
    else Enabled(c, s, es[0]) && Smooth(c, s, es[0]) && SmoothRun(c, Next(c, s, es[0]), es[1..], t)
  }

  // ---------- the invariant ----------

  predicate CountsCapped(c: Config, s: State) {
    && (forall id | id in s.q.pel :: s.q.pel[id].count <= c.maxRetries)
    && (forall id | id in s.h.deliveries :: s.h.deliveries[id] <= c.maxRetries)
  }

  /** Between scan and claim, a message at its limit is about to be dropped or was delivered after the scan. */
  predicate ReclaimerCapped(c: Config, s: State) {
    match s.reclaimer
    case Resting => true
    case Dropping(at, dead) =>
      at <= s.now && forall id | id in s.q.pel && AtLimit(c, s.q, id) :: id in dead || s.q.pel[id].at >= at
    case Claiming(at) =>
      at <= s.now && forall id | id in s.q.pel && AtLimit(c, s.q, id) :: s.q.pel[id].at >= at
  }

  predicate Capped(c: Config, s: State) { CountsCapped(c, s) && ReclaimerCapped(c, s) }

  // ---------- the scan ----------

  function Elements(r: seq<nat>): set<nat> { set i | i in r }

  lemma AscendingCount(r: seq<nat>)
    requires forall i, j | 0 <= i < j < |r| :: r[i] < r[j]
    ensures |Elements(r)| == |r|
  {
    if r == [] {
    } else {
      var front, last := r[..|r| - 1], r[|r| - 1];
      AscendingCount(front);
      assert r == front + [last];
      assert last !in front;
      assert Elements(r) == Elements(front) + {last};
    }
  }

  lemma SubsetCount(a: set<nat>, b: set<nat>)
    requires a <= b
    ensures |a| <= |b|
  {
    if a != {} {
      var x :| x in a;
      SubsetCount(a - {x}, b - {x});
    }
  }

  /** The elements of a set from lo up to an id. */
  function Under(ids: set<nat>, lo: nat, id: nat): set<nat> { set j | j in ids && lo <= j < id }

  /** A listing holds an element exactly when fewer elements come before it than it has room for. */
  lemma {:induction false} SmallestExactly(ids: set<nat>, lo: nat, hi: nat, k: nat, id: nat)
    ensures id in Smallest(ids, lo, hi, k) <==> id in ids && lo <= id < hi && |Under(ids, lo, id)| < k
  {
    var r := Smallest(ids, lo, hi, k);
    SmallestIs(ids, lo, hi, k);
    hide Smallest;
    AscendingCount(r);
    if id in r {
      var i :| 0 <= i < |r| && r[i] == id;
      assert Under(ids, lo, id) + {id} <= Elements(r);
      SubsetCount(Under(ids, lo, id) + {id}, Elements(r));
    } else if id in ids && lo <= id < hi {
      assert forall j | j in r :: j in ids && lo <= j < id;
      SubsetCount(Elements(r), Under(ids, lo, id));
    }
  }

  lemma PendingExactly(q: Stream, k: nat, id: nat)
    requires forall j | j in q.pel :: j < q.cursor
    ensures id in PendingIDs(q, k) <==> id in q.pel && |Ahead(q, id)| < k
  {
    SmallestExactly(q.pel.Keys, 0, q.cursor, k, id);
    assert Under(q.pel.Keys, 0, id) == Ahead(q, id);
    hide Smallest;
  }

  /** A scan finds a message exactly when it is pending at its limit with fewer pending messages before it
      than a scan lists. */
  lemma {:induction false} ScanFindsExactly(q: Stream, maxRetries: int, id: nat)
    requires forall j | j in q.pel :: j < q.cursor
    ensures id in Dead(q, maxRetries) <==>
              id in q.pel && q.pel[id].count >= maxRetries && |Ahead(q, id)| < 200
  {
    hide PendingIDs;
    PendingExactly(q, SCAN_LIMIT, id);
  }

  predicate Idle(q: Stream, id: nat, now: nat) { id in q.pel && q.pel[id].at + 60 <= now }

  /** The idle messages before one. */
  function IdleAhead(q: Stream, id: nat, now: nat): set<nat> { set j | j in q.pel && j < id && Idle(q, j, now) }

  /** A claim takes a message exactly when it is idle, fewer idle messages stand before it than a claim takes, and
      fewer pending ones than it looks at. */
  lemma {:induction false} ClaimTakesExactly(q: Stream, k: nat, now: nat, id: nat)
    requires forall j | j in q.pel :: j < q.cursor
    ensures id in ClaimIDs(q, k, now) <==> Idle(q, id, now) && |IdleAhead(q, id, now)| < k && |Ahead(q, id)| < 10 * k
  {
    SmallestExactly(IdleSet(q, k, now), 0, q.cursor, k, id);
    hide Smallest, PendingIDs, Under;
    PendingExactly(q, 10 * k, id);
    if id in q.pel && |Ahead(q, id)| < 10 * k { IdleAheadIs(q, k, now, id); }
  }

  lemma IdleAheadIs(q: Stream, k: nat, now: nat, id: nat)
    requires (forall j | j in q.pel :: j < q.cursor) && |Ahead(q, id)| < 10 * k
    ensures Under(IdleSet(q, k, now), 0, id) == IdleAhead(q, id, now)
  {
    hide PendingIDs, Ahead;
    forall j | j in q.pel && j < id ensures j in PendingIDs(q, 10 * k) {
      PendingExactly(q, 10 * k, j);
      SubsetCount(Ahead(q, j), Ahead(q, id)) by { AheadGrows(q, j, id); }
    }
  }

  lemma AheadGrows(q: Stream, j: nat, id: nat)
    requires j < id
    ensures Ahead(q, j) <= Ahead(q, id)
  {
  }

  /** In particular a scan of at most as many pending messages as it lists finds all of them. */
  lemma ShortListsAreSeen(c: Config, q: Stream)
    requires |q.pel| <= 200
    ensures Seen(c, q)
  {
    forall id | id in q.pel && AtLimit(c, q, id) ensures |Ahead(q, id)| < 200 {
      assert Ahead(q, id) + {id} <= q.pel.Keys;
      SubsetCount(Ahead(q, id) + {id}, q.pel.Keys);
      assert |q.pel.Keys| == |q.pel|;
    }
  }

  // ---------- every step keeps the cap ----------

  lemma ReadCaps(c: Config, s: State, w: int, received: bool)
    requires c.maxRetries >= 1 && Capped(c, s) && StreamOK(s)
    ensures Capped(c, ReadStep(c, s, w, received))
  {
    var ids := UnreadIDs(s.q, c.batchSize);
    hide Messages, UnreadIDs;
  }

  lemma AckCaps(c: Config, s: State, ids: set<nat>, how: Reached, fate: nat -> Fate)
    requires Capped(c, s)
    ensures Capped(c, AckStep(s, ids, how, fate))
  {
    hide RecordFates;
  }

  lemma ScanCaps(c: Config, s: State)
    requires c.maxRetries >= 1 && Capped(c, s) && StreamOK(s) && Seen(c, s.q)
    requires Enabled(c, s, Scan(true))
    ensures Capped(c, Next(c, s, Scan(true)))
  {
    hide Dead, Ahead;
    forall id | id in s.q.pel && AtLimit(c, s.q, id) ensures id in Dead(s.q, c.maxRetries) {
      ScanFindsExactly(s.q, c.maxRetries, id);
    }
  }

  lemma DropCaps(c: Config, s: State, how: Reached)
    requires Capped(c, s) && s.reclaimer.Dropping? && how != Nothing
    ensures Capped(c, Next(c, s, Drop(how)))
  {
    hide RecordFates;
  }

  /** Nothing at its limit is idle for a minute when the claim comes within the deadlines of its tick. */
  lemma ClaimedAreBelow(c: Config, s: State, id: nat)
    requires Capped(c, s) && s.reclaimer.Claiming? && s.now <= s.reclaimer.at + TICK_SECONDS
    requires id in ClaimIDs(s.q, c.batchSize, s.now)
    ensures id in s.q.pel && s.q.pel[id].count < c.maxRetries
  {
    SmallestIs(IdleSet(s.q, c.batchSize, s.now), 0, s.q.cursor, c.batchSize);
    hide Smallest;
    assert id in IdleSet(s.q, c.batchSize, s.now);
  }

  lemma ClaimCaps(c: Config, s: State, received: bool)
    requires c.maxRetries >= 1 && Capped(c, s) && CountsOK(s)
    requires s.reclaimer.Claiming? && s.now <= s.reclaimer.at + TICK_SECONDS
    ensures Capped(c, ClaimStep(c, s, received))
  {
    var t := ClaimStep(c, s, received);
    var ids := ClaimIDs(s.q, c.batchSize, s.now);
    ClaimClaims(c, s, received);
    hide ClaimIDs, Messages, Claim;
    forall id | id in ids ensures id in s.q.pel && s.q.pel[id].count < c.maxRetries { ClaimedAreBelow(c, s, id); }
  }

  /** Steps that change neither the counts nor the round. */
  lemma SameCaps(c: Config, s: State, t: State)
    requires Capped(c, s) && t.q.pel == s.q.pel && t.h.deliveries == s.h.deliveries && s.now <= t.now
    requires t.reclaimer == s.reclaimer || t.reclaimer == Resting
    ensures Capped(c, t)
  {
  }

  lemma AckBatchCaps(c: Config, s: State, w: int, how: Reached)
    requires Capped(c, s) && Enabled(c, s, AckBatch(w, how))
    ensures Capped(c, Next(c, s, AckBatch(w, how)))
  {
    var t := AckStep(s, s.batches[w].acks, how, AckFate(s.h.sent));
    AckCaps(c, s, s.batches[w].acks, how, AckFate(s.h.sent));
    hide AckStep, Capped;
    SameCaps(c, t, t.(batches := s.batches - {w}));
    AckBatchIs(c, s, w, how);
  }

  lemma AckBatchIs(c: Config, s: State, w: int, how: Reached)
    requires Enabled(c, s, AckBatch(w, how))
    ensures Next(c, s, AckBatch(w, how)) == AckStep(s, s.batches[w].acks, how, AckFate(s.h.sent)).(batches := s.batches - {w})
  {
    hide AckStep, AckFate;
  }

  lemma StepCaps(c: Config, s: State, e: Event)
    requires c.maxRetries >= 1 && Ledger(c, s) && Capped(c, s) && Enabled(c, s, e) && Smooth(c, s, e)
    ensures Capped(c, Next(c, s, e))
  {
    LedgerParts(c, s);
    hide Ledger, StreamOK, CountsOK, FatesOK, WorkOK, CutAllowed, Seen, Dead, ReadStep, ClaimStep, AckStep, AckFate, Capped;
    match e {
      case Read(w, received) => ReadCaps(c, s, w, received);
      case AckBatch(w, how) => AckBatchCaps(c, s, w, how);
      case Scan(ok) => ScanCaps(c, s);
      case Drop(how) => DropCaps(c, s, how);
      case ClaimStale(ok, received) => ClaimStaleCaps(c, s, ok, received);
      case _ => QuietCaps(c, s, e);
    }
  }

  lemma ClaimStaleCaps(c: Config, s: State, ok: bool, received: bool)
    requires c.maxRetries >= 1 && CountsOK(s) && Capped(c, s) && Enabled(c, s, ClaimStale(ok, received))
    ensures Capped(c, Next(c, s, ClaimStale(ok, received)))
  {
    hide CountsOK, ClaimStep, Capped;
    if ok { ClaimCaps(c, s, received); } else { SameCaps(c, s, s.(reclaimer := Resting)); }
  }

  lemma QuietCaps(c: Config, s: State, e: Event)
    requires Capped(c, s) && Enabled(c, s, e)
    requires e.Pass? || e.Cancel? || e.Enqueue? || e.Start? || e.Break? || e.Finish?
    ensures Capped(c, Next(c, s, e))
  {
    hide CutAllowed, Capped, RecordFates, Done;
    SameCaps(c, s, Next(c, s, e));
  }

  lemma {:induction false} RunCaps(c: Config, s: State, es: seq<Event>, t: State)
    requires c.maxRetries >= 1 && Ledger(c, s) && Capped(c, s) && SmoothRun(c, s, es, t)
    ensures Ledger(c, t) && Capped(c, t)
    decreases |es|
  {
    if es != [] {
      StepKeepsTheLedger(c, s, es[0]);
      StepCaps(c, s, es[0]);
      hide Ledger, Capped, Next;
      RunCaps(c, Next(c, s, es[0]), es[1..], t);
    }
  }

  /** No message is ever delivered more often than the limit. */
  lemma DeliveriesAreBounded(c: Config, es: seq<Event>, t: State, id: nat)
    requires c.maxRetries >= 1 && SmoothRun(c, INITIAL, es, t)
    ensures id in t.h.deliveries ==> t.h.deliveries[id] <= c.maxRetries
  {
    RunCaps(c, INITIAL, es, t);
  }

  // ---------- termination ----------

  /** What one pending entry can still take: the deliveries below its limit and its removal. */
  function Share(q: Stream, limit: int, id: nat): nat {
    if id !in q.pel then 0 else if q.pel[id].count < limit then limit + 1 - q.pel[id].count else 1
  }

  /** What the pending entries up to m can still take. */
  function Left(q: Stream, limit: int, m: nat): nat {
    Share(q, limit, m) + if m == 0 then 0 else Left(q, limit, m - 1)
  }

  lemma {:induction false} LeftShrinks(p: Stream, q: Stream, limit: int, m: nat)
    requires forall id | 0 <= id <= m :: Share(q, limit, id) <= Share(p, limit, id)
    ensures Left(q, limit, m) <= Left(p, limit, m)
    ensures forall id | 0 <= id <= m && Share(q, limit, id) < Share(p, limit, id) :: Left(q, limit, m) < Left(p, limit, m)
  {
    hide Share;
    if m > 0 { LeftShrinks(p, q, limit, m - 1); }
  }

  /** A tick hits m when its claim looks at m and finds it idle. */
  predicate Hit(c: Config, s: State, e: Event, m: nat) { e.ClaimStale? && e.ok && m in IdleSet(s.q, c.batchSize, s.now) }

  function Hits(c: Config, s: State, es: seq<Event>, m: nat): nat
    decreases |es|
  {
    if es == [] || !Enabled(c, s, es[0]) then 0
    else (if Hit(c, s, es[0], m) then 1 else 0) + Hits(c, Next(c, s, es[0]), es[1..], m)
  }

  lemma ClaimTakes(c: Config, s: State, received: bool, id: nat)
    requires Capped(c, s) && s.reclaimer.Claiming? && s.now <= s.reclaimer.at + TICK_SECONDS
    ensures var t := ClaimStep(c, s, received);
            var ids := ClaimIDs(s.q, c.batchSize, s.now);
            if id in ids then Share(t.q, c.maxRetries, id) < Share(s.q, c.maxRetries, id)
            else Share(t.q, c.maxRetries, id) == Share(s.q, c.maxRetries, id)
  {
    ClaimClaims(c, s, received);
    var ids := ClaimIDs(s.q, c.batchSize, s.now);
    hide ClaimStep, ClaimIDs, Messages;
    if id in ids { ClaimedAreBelow(c, s, id); }
  }

  /** A hit claims m or an entry before it. */
  lemma HitClaims(c: Config, s: State, m: nat) returns (j: nat)
    requires c.batchSize >= 1 && StreamOK(s) && m in IdleSet(s.q, c.batchSize, s.now)
    ensures j <= m && j in ClaimIDs(s.q, c.batchSize, s.now)
  {
    var ids := ClaimIDs(s.q, c.batchSize, s.now);
    SmallestIs(IdleSet(s.q, c.batchSize, s.now), 0, s.q.cursor, c.batchSize);
    hide Smallest;
    if m in ids { j := m; } else { j := ids[0]; }
  }

  lemma HitTakes(c: Config, s: State, received: bool, m: nat)
    requires c.batchSize >= 1 && StreamOK(s) && Capped(c, s) && m in IdleSet(s.q, c.batchSize, s.now)
    requires s.reclaimer.Claiming? && s.now <= s.reclaimer.at + TICK_SECONDS
    ensures Left(ClaimStep(c, s, received).q, c.maxRetries, m) < Left(s.q, c.maxRetries, m)
  {
    var j := HitClaims(c, s, m);
    hide ClaimStep, Left, Share, ClaimIDs;
    forall id | 0 <= id <= m
      ensures Share(ClaimStep(c, s, received).q, c.maxRetries, id) <= Share(s.q, c.maxRetries, id)
    {
      ClaimTakes(c, s, received, id);
    }
    ClaimTakes(c, s, received, j);
    LeftShrinks(s.q, ClaimStep(c, s, received).q, c.maxRetries, m);
  }

  lemma ClaimTakesAtMost(c: Config, s: State, received: bool, m: nat)
    requires Capped(c, s) && s.reclaimer.Claiming? && s.now <= s.reclaimer.at + TICK_SECONDS
    ensures Left(ClaimStep(c, s, received).q, c.maxRetries, m) <= Left(s.q, c.maxRetries, m)
  {
    hide ClaimStep, Left, Share, ClaimIDs;
    forall id | 0 <= id <= m
      ensures Share(ClaimStep(c, s, received).q, c.maxRetries, id) <= Share(s.q, c.maxRetries, id)
    {
      ClaimTakes(c, s, received, id);
    }
    LeftShrinks(s.q, ClaimStep(c, s, received).q, c.maxRetries, m);
  }

  /** What a step other than a claim does to the pending list: entries leave, and new ones come behind the others. */
  ghost predicate Quiet(s: State, t: State) {
    && (forall id | id in t.q.pel ::
          (id in s.q.pel && t.q.pel[id] == s.q.pel[id]) || (id >= s.q.cursor && t.q.pel[id].at == s.now))
    && s.q.cursor <= t.q.cursor
  }

  predicate IsClaim(e: Event) { e.ClaimStale? && e.ok }

  lemma ReadIsQuiet(c: Config, s: State, w: int, received: bool)
    requires StreamOK(s)
    ensures Quiet(s, ReadStep(c, s, w, received))
  {
    if UnreadIDs(s.q, c.batchSize) != [] { UnreadIs(s.q, c.batchSize); }
    hide UnreadIDs, Messages, FirstDelivery;
  }

  lemma AckIsQuiet(s: State, ids: set<nat>, how: Reached, fate: nat -> Fate)
    ensures Quiet(s, AckStep(s, ids, how, fate))
  {
    hide RecordFates;
  }

  /** Entries that stay as they are. */
  lemma SameIsQuiet(s: State, t: State)
    requires t.q.pel == s.q.pel && t.q.cursor == s.q.cursor
    ensures Quiet(s, t)
  {
  }

  lemma StepIsQuiet(c: Config, s: State, e: Event)
    requires StreamOK(s) && Enabled(c, s, e) && !IsClaim(e)
    ensures Quiet(s, Next(c, s, e))
  {
    hide ReadStep, AckStep, ClaimStep, StreamOK, Dead, AckFate;
    match e {
      case Read(w, received) => ReadIsQuiet(c, s, w, received);
      case AckBatch(w, how) =>
        AckIsQuiet(s, s.batches[w].acks, how, AckFate(s.h.sent));
        QuietOf(s, AckStep(s, s.batches[w].acks, how, AckFate(s.h.sent)), Next(c, s, e));
      case Drop(how) =>
        AckIsQuiet(s, s.reclaimer.dead, how, _ => Acked(CountReached));
        QuietOf(s, AckStep(s, s.reclaimer.dead, how, _ => Acked(CountReached)), Next(c, s, e));
      case _ => SameIsQuiet(s, Next(c, s, e));
    }
  }

  lemma QuietOf(s: State, t: State, u: State)
    requires Quiet(s, t) && u.q == t.q
    ensures Quiet(s, u)
  {
  }

  lemma QuietTakes(c: Config, s: State, t: State, m: nat)
    requires Quiet(s, t) && m < s.q.cursor
    ensures Left(t.q, c.maxRetries, m) <= Left(s.q, c.maxRetries, m)
    ensures forall i | i <= m && i in s.q.pel && i !in t.q.pel :: Left(t.q, c.maxRetries, m) < Left(s.q, c.maxRetries, m)
  {
    LeftShrinks(s.q, t.q, c.maxRetries, m);
  }

  /** A delivered message's share never grows but by claims. */
  lemma {:induction false} OtherStepsTakeNothing(c: Config, s: State, e: Event, m: nat)
    requires StreamOK(s) && Enabled(c, s, e) && m < s.q.cursor && !IsClaim(e)
    ensures Left(Next(c, s, e).q, c.maxRetries, m) <= Left(s.q, c.maxRetries, m)
    ensures m < Next(c, s, e).q.cursor
  {
    hide *;
    StepIsQuiet(c, s, e);
    QuietTakes(c, s, Next(c, s, e), m);
    CursorGrows(c, s, e);
  }

  lemma CursorGrows(c: Config, s: State, e: Event)
    requires StreamOK(s) && Enabled(c, s, e)
    ensures s.q.cursor <= Next(c, s, e).q.cursor
  {
    match e {
      case Read(w, _) =>
        if UnreadIDs(s.q, c.batchSize) != [] { UnreadIs(s.q, c.batchSize); }
        hide UnreadIDs, Messages;
      case ClaimStale(ok, received) => if ok { ClaimClaims(c, s, received); } hide ClaimIDs, Claim;
      case _ =>
    }
  }

  /** Every claim that looks at m and finds it idle uses up part of a bound that nothing raises. */
  lemma {:induction false} HitsAreBounded(c: Config, s: State, es: seq<Event>, t: State, m: nat)
    requires c.maxRetries >= 1 && c.batchSize >= 1 && m < s.q.cursor
    requires Ledger(c, s) && Capped(c, s) && SmoothRun(c, s, es, t)
    ensures Hits(c, s, es, m) + Left(t.q, c.maxRetries, m) <= Left(s.q, c.maxRetries, m)
    decreases |es|
  {
    if es != [] {
      var e := es[0];
      var s' := Next(c, s, e);
      StepKeepsTheLedger(c, s, e);
      StepCaps(c, s, e);
      LedgerParts(c, s);
      OneStepTakes(c, s, e, m);
      hide Ledger, Capped, Left, Next, Enabled, Hit;
      HitsAreBounded(c, s', es[1..], t, m);
    }
  }

  lemma OneStepTakes(c: Config, s: State, e: Event, m: nat)
    requires c.batchSize >= 1 && m < s.q.cursor && StreamOK(s) && Capped(c, s) && Enabled(c, s, e)
    ensures (if Hit(c, s, e, m) then 1 else 0) + Left(Next(c, s, e).q, c.maxRetries, m) <= Left(s.q, c.maxRetries, m)
    ensures m < Next(c, s, e).q.cursor
  {
    hide Left, ClaimStep, IdleSet, Capped;
    CursorGrows(c, s, e);
    if e.ClaimStale? && e.ok {
      ClaimTakesAtMost(c, s, e.received, m);
      if Hit(c, s, e, m) { HitTakes(c, s, e.received, m); }
    } else {
      OtherStepsTakeNothing(c, s, e, m);
    }
  }

  /** The bound itself: one more than the limit for every entry up to m. */
  lemma LeftIsBounded(q: Stream, limit: nat, m: nat)
    ensures Left(q, limit, m) <= (m + 1) * (limit + 1)
  {
    if m > 0 { LeftIsBounded(q, limit, m - 1); }
  }

  // ---------- rounds ----------

  predicate IsFirst(q: Stream, j: nat) { j in q.pel && forall i | i in q.pel :: j <= i }

  lemma FirstUpTo(q: Stream, m: nat) returns (j: nat)
    requires m in q.pel
    ensures IsFirst(q, j) && j <= m
  {
    if i: nat :| i in q.pel && i < m {
      j := FirstUpTo(q, i);
    } else {
      j := m;
    }
  }

  lemma NothingAhead(q: Stream, j: nat, now: nat)
    requires IsFirst(q, j)
    ensures Ahead(q, j) == {} && IdleAhead(q, j, now) == {}
  {
  }

  /** The first pending message is claimed when it is idle, whatever stands behind it. */
  lemma FirstIsClaimed(q: Stream, k: nat, j: nat, now: nat)
    requires k >= 1 && IsFirst(q, j) && Idle(q, j, now) && forall id | id in q.pel :: id < q.cursor
    ensures j in ClaimIDs(q, k, now)
  {
    NothingAhead(q, j, now);
    ClaimTakesExactly(q, k, now, j);
    hide ClaimIDs;
  }

  /** Whether the round that an event belongs to has succeeded so far: its scan and its drop got through. */
  predicate Goes(good: bool, e: Event) {
    match e
    case Scan(ok) => ok
    case Drop(how) => good && how != Nothing
    case _ => good
  }

  /** A claim that succeeds when the first pending message was last delivered a minute ago. */
  predicate ClaimsStale(s: State, e: Event) {
    e.ClaimStale? && e.ok && forall j | j in s.q.pel && IsFirst(s.q, j) :: Idle(s.q, j, s.now)
  }

  /** The successful rounds of the reclaimer in a run: scan, drop and claim got through, and the claim found the
      first pending message idle. */
  function Rounds(c: Config, s: State, es: seq<Event>, good: bool): nat
    decreases |es|
  {
    if es == [] || !Enabled(c, s, es[0]) then 0
    else (if good && ClaimsStale(s, es[0]) then 1 else 0) + Rounds(c, Next(c, s, es[0]), es[1..], Goes(good, es[0]))
  }

  /** The scan of a round was not later than now. */
  predicate OnTime(s: State) { !s.reclaimer.Resting? ==> s.reclaimer.at <= s.now }

  /** In a round, the first pending message is below its limit, about to be dropped, or was delivered after the scan. */
  predicate Settled(c: Config, s: State, j: nat)
    requires j in s.q.pel
  {
    match s.reclaimer
    case Resting => true
    case Dropping(at, dead) => AtLimit(c, s.q, j) ==> j in dead || s.q.pel[j].at >= at
    case Claiming(at) => AtLimit(c, s.q, j) ==> s.q.pel[j].at >= at
  }

  predicate Clear(c: Config, s: State) { forall j | j in s.q.pel && IsFirst(s.q, j) :: Settled(c, s, j) }

  /** A round may end without using up a share when the messages before the first one left while it went on:
      this is owed to the share that they used up. */
  function Owed(c: Config, s: State, good: bool): nat { if good && !Clear(c, s) then 1 else 0 }

  /** The first pending message of the new state was the first of the old one, or one before it left, or it was
      delivered in this step. */
  lemma FirstMoves(s: State, t: State, j: nat)
    requires StreamOK(s) && Quiet(s, t) && IsFirst(t.q, j)
    ensures (IsFirst(s.q, j) && t.q.pel[j] == s.q.pel[j])
         || (exists i :: i < j && i in s.q.pel && i !in t.q.pel)
         || t.q.pel[j].at == s.now
  {
  }

  /** The round is as it was, or its drop has removed what was to be dropped. */
  predicate SameRound(s: State, t: State) {
    || t.reclaimer == s.reclaimer
    || (s.reclaimer.Dropping? && t.reclaimer == Claiming(s.reclaimer.at) && forall id | id in s.reclaimer.dead :: id !in t.q.pel)
  }

  lemma StaysSettled(c: Config, s: State, t: State, j: nat)
    requires SameRound(s, t) && OnTime(s) && j in t.q.pel
    requires (j in s.q.pel && t.q.pel[j] == s.q.pel[j] && Settled(c, s, j)) || t.q.pel[j].at == s.now
    ensures Settled(c, t, j)
  {
  }

  /** A step that keeps the round, or the drop of one, owes no more than what it uses up. */
  lemma {:induction false} RoundGoesOn(c: Config, s: State, t: State, good: bool, m: nat)
    requires StreamOK(s) && Quiet(s, t) && OnTime(s) && SameRound(s, t) && m < s.q.cursor && m in t.q.pel
    ensures Left(t.q, c.maxRetries, m) + Owed(c, t, good) <= Left(s.q, c.maxRetries, m) + Owed(c, s, good)
  {
    QuietTakes(c, s, t, m);
    hide Left, Quiet, StreamOK, Settled, SameRound, OnTime;
    if Clear(c, s) && !Clear(c, t) {
      var j :| j in t.q.pel && IsFirst(t.q, j) && !Settled(c, t, j);
      FirstMoves(s, t, j);
      if (IsFirst(s.q, j) && t.q.pel[j] == s.q.pel[j]) || t.q.pel[j].at == s.now {
        StaysSettled(c, s, t, j);
      }
      assert j <= m;
    }
  }

  lemma ClaimNeverGives(c: Config, s: State, received: bool, id: nat)
    ensures var t := ClaimStep(c, s, received);
            && Share(t.q, c.maxRetries, id) <= Share(s.q, c.maxRetries, id)
            && (id in ClaimIDs(s.q, c.batchSize, s.now) && s.q.pel[id].count < c.maxRetries ==>
                  Share(t.q, c.maxRetries, id) < Share(s.q, c.maxRetries, id))
  {
    ClaimClaims(c, s, received);
    hide ClaimStep, ClaimIDs, Messages;
  }

  lemma {:induction false} ClaimShrinks(c: Config, s: State, received: bool, m: nat)
    ensures var t := ClaimStep(c, s, received);
            && Left(t.q, c.maxRetries, m) <= Left(s.q, c.maxRetries, m)
            && forall j | j <= m && j in ClaimIDs(s.q, c.batchSize, s.now) && s.q.pel[j].count < c.maxRetries ::
                 Left(t.q, c.maxRetries, m) < Left(s.q, c.maxRetries, m)
  {
    var t := ClaimStep(c, s, received);
    ClaimedArePending(s.q, c.batchSize, s.now);
    forall id: nat
      ensures Share(t.q, c.maxRetries, id) <= Share(s.q, c.maxRetries, id)
      ensures id in ClaimIDs(s.q, c.batchSize, s.now) && s.q.pel[id].count < c.maxRetries ==>
                Share(t.q, c.maxRetries, id) < Share(s.q, c.maxRetries, id)
    {
      ClaimNeverGives(c, s, received, id);
    }
    hide ClaimStep, Left, Share, ClaimIDs;
    LeftShrinks(s.q, t.q, c.maxRetries, m);
  }

  /** In a round whose claim is in time, a first message that is idle and settled is below its limit. */
  lemma FirstIsBelow(c: Config, s: State, j: nat)
    requires s.reclaimer.Claiming? && s.now <= s.reclaimer.at + TICK_SECONDS && Idle(s.q, j, s.now) && Settled(c, s, j)
    ensures s.q.pel[j].count < c.maxRetries
  {
  }

  lemma ClaimIsInTime(c: Config, s: State, e: Event)
    requires Enabled(c, s, e) && IsClaim(e)
    ensures s.reclaimer.Claiming? && s.now <= s.reclaimer.at + TICK_SECONDS
    ensures Next(c, s, e) == ClaimStep(c, s, e.received) && Next(c, s, e).reclaimer.Resting?
  {
    hide ClaimIDs, Messages, Claim;
  }

  /** A claim pays for its round: the first message was below its limit, or the round was owed. */
  lemma {:induction false} ClaimPays(c: Config, s: State, e: Event, good: bool, m: nat)
    requires c.batchSize >= 1 && (forall id | id in s.q.pel :: id < s.q.cursor) && Enabled(c, s, e) && IsClaim(e) && m in s.q.pel
    ensures (if good && ClaimsStale(s, e) then 1 else 0) + Left(Next(c, s, e).q, c.maxRetries, m) <=
              Left(s.q, c.maxRetries, m) + Owed(c, s, good)
    ensures Clear(c, Next(c, s, e))
  {
    ClaimIsInTime(c, s, e);
    ClaimShrinks(c, s, e.received, m);
    hide Next, Enabled, ClaimStep, Left, ClaimIDs, Idle;
    if good && ClaimsStale(s, e) && Clear(c, s) {
      var j := FirstUpTo(s.q, m);
      FirstIsClaimed(s.q, c.batchSize, j, s.now);
      FirstIsBelow(c, s, j);
    }
  }

  /** The scan lists the first pending message whatever stands behind it. */
  lemma {:induction false} ScanSettles(c: Config, s: State)
    requires c.maxRetries >= 1 && StreamOK(s) && Enabled(c, s, Scan(true))
    ensures Clear(c, Next(c, s, Scan(true)))
  {
    var t := Next(c, s, Scan(true));
    hide Dead, Ahead;
    forall j | IsFirst(t.q, j) ensures Settled(c, t, j) {
      assert Ahead(s.q, j) == {} by { NothingAhead(s.q, j, s.now); }
      ScanFindsExactly(s.q, c.maxRetries, j);
    }
  }

  lemma ScanMoves(c: Config, s: State, ok: bool)
    requires Enabled(c, s, Scan(ok))
    ensures Next(c, s, Scan(ok)).q == s.q && OnTime(Next(c, s, Scan(ok)))
  {
    hide Dead;
  }

  /** A round that could not claim ends without a trace. */
  lemma ClaimFails(c: Config, s: State, e: Event)
    requires Enabled(c, s, e) && e.ClaimStale? && !e.ok
    ensures var t := Next(c, s, e); t.q == s.q && OnTime(t) && Clear(c, t)
  {
  }

  lemma DropMoves(c: Config, s: State, how: Reached)
    requires Enabled(c, s, Drop(how))
    ensures var t := Next(c, s, Drop(how));
            && t.reclaimer == Claiming(s.reclaimer.at) && t.now == s.now
            && (how != Nothing ==> forall id | id in s.reclaimer.dead :: id !in t.q.pel)
  {
    hide RecordFates;
  }

  lemma OthersKeepTheRound(c: Config, s: State, e: Event)
    requires Enabled(c, s, e) && !e.Scan? && !e.Drop? && !e.ClaimStale?
    ensures Next(c, s, e).reclaimer == s.reclaimer && s.now <= Next(c, s, e).now
  {
    hide RecordFates, ReadGroup, Messages, UnreadIDs, Acknowledge, Add, FirstDelivery;
  }

  lemma StaysOnTime(c: Config, s: State, e: Event)
    requires OnTime(s) && Enabled(c, s, e)
    ensures OnTime(Next(c, s, e))
  {
    hide Next, Enabled;
    match e {
      case Scan(ok) => ScanMoves(c, s, ok);
      case Drop(how) =>
        DropIsEnabled(c, s, how);
        DropMoves(c, s, how);
      case ClaimStale(ok, received) => ClaimEnds(c, s, e);
      case _ => OthersKeepTheRound(c, s, e);
    }
  }

  lemma ClaimEnds(c: Config, s: State, e: Event)
    requires Enabled(c, s, e) && e.ClaimStale?
    ensures Next(c, s, e).reclaimer.Resting?
  {
    hide Messages, Claim, ClaimIDs;
  }

  lemma PendingIsBelow(s: State)
    requires StreamOK(s)
    ensures forall id | id in s.q.pel :: id < s.q.cursor
  {
  }

  /** Every step: a round that succeeds uses up a share or was owed, and what is owed is used up beside it. */
  lemma {:induction false} RoundsTake(c: Config, s: State, e: Event, good: bool, m: nat)
    requires c.maxRetries >= 1 && c.batchSize >= 1 && StreamOK(s) && OnTime(s) && Enabled(c, s, e)
    requires m < s.q.cursor && m in Next(c, s, e).q.pel && m in s.q.pel
    ensures (if good && ClaimsStale(s, e) then 1 else 0)
              + Left(Next(c, s, e).q, c.maxRetries, m) + Owed(c, Next(c, s, e), Goes(good, e))
              <= Left(s.q, c.maxRetries, m) + Owed(c, s, good)
  {
    var t := Next(c, s, e);
    hide Left, StreamOK, Clear, Next, Enabled, Quiet;
    if IsClaim(e) {
      assert forall id | id in s.q.pel :: id < s.q.cursor by { PendingIsBelow(s); }
      ClaimPays(c, s, e, good, m);
    } else if e.ClaimStale? {
      ClaimFails(c, s, e);
    } else if e.Scan? {
      ScanMoves(c, s, e.ok);
      if e.ok { ScanSettles(c, s); }
    } else {
      StepIsQuiet(c, s, e);
      if e.Drop? {
        DropMoves(c, s, e.how);
        if e.how == Nothing {
          QuietTakes(c, s, t, m);
        } else {
          assert s.reclaimer.Dropping? by { DropIsEnabled(c, s, e.how); }
          RoundGoesOn(c, s, t, good, m);
        }
      } else {
        OthersKeepTheRound(c, s, e);
        RoundGoesOn(c, s, t, good, m);
      }
    }
  }

  lemma DropIsEnabled(c: Config, s: State, how: Reached)
    requires Enabled(c, s, Drop(how))
    ensures s.reclaimer.Dropping?
  {
  }

  /** A delivered message that left the pending list does not come back. */
  lemma StaysOut(c: Config, s: State, e: Event, m: nat)
    requires StreamOK(s) && Enabled(c, s, e) && m < s.q.cursor && m !in s.q.pel
    ensures m !in Next(c, s, e).q.pel
  {
    if IsClaim(e) {
      ClaimClaims(c, s, e.received);
      hide ClaimIDs, Claim, Messages;
    } else {
      StepIsQuiet(c, s, e);
      hide Next, Enabled, StreamOK;
    }
  }

  lemma {:induction false} StaysOutForGood(c: Config, s: State, es: seq<Event>, t: State, m: nat)
    requires Ledger(c, s) && Run(c, s, es, t) && m < s.q.cursor && m !in s.q.pel
    ensures m !in t.q.pel
    decreases |es|
  {
    if es != [] {
      StepKeepsTheLedger(c, s, es[0]);
      LedgerParts(c, s);
      CursorGrows(c, s, es[0]);
      StaysOut(c, s, es[0], m);
      hide Ledger, Next, Enabled, StreamOK, CountsOK, FatesOK, WorkOK;
      StaysOutForGood(c, Next(c, s, es[0]), es[1..], t, m);
    }
  }

  lemma {:induction false} RoundsAreBounded(c: Config, s: State, es: seq<Event>, t: State, good: bool, m: nat)
    requires c.maxRetries >= 1 && c.batchSize >= 1 && m < s.q.cursor && Ledger(c, s) && OnTime(s)
    requires Run(c, s, es, t) && m in t.q.pel
    ensures m in s.q.pel
    ensures Rounds(c, s, es, good) + Left(t.q, c.maxRetries, m) <= Left(s.q, c.maxRetries, m) + Owed(c, s, good)
    decreases |es|
  {
    if es != [] {
      var e := es[0];
      var s' := Next(c, s, e);
      if m !in s.q.pel { StaysOutForGood(c, s, es, t, m); }
      StepKeepsTheLedger(c, s, e);
      LedgerParts(c, s);
      CursorGrows(c, s, e);
      StaysOnTime(c, s, e);
      hide Ledger, Left, Next, Enabled, Owed, Goes, OnTime, ClaimsStale, StreamOK, CountsOK, FatesOK, WorkOK;
      RoundsAreBounded(c, s', es[1..], t, Goes(good, e), m);
      RoundsTake(c, s, e, good, m);
    }
  }

  lemma NothingLeft(q: Stream, limit: nat, m: nat)
    requires Left(q, limit, m) == 0
    ensures m !in q.pel
  {
  }

  /**
   A delivered message leaves the pending list.  In any run, with calls failing, messages arriving and workers
   stopping anywhere, once more rounds of the reclaimer have succeeded than a number that depends on the message's
   id and the limit alone, the message is not pending.
   */
  lemma {:induction false} StuckMessageLeaves(c: Config, before: seq<Event>, s: State, es: seq<Event>, t: State, m: nat)
    requires c.maxRetries >= 1 && c.batchSize >= 1 && m < s.q.cursor
    requires Run(c, INITIAL, before, s) && Run(c, s, es, t)
    requires Rounds(c, s, es, false) >= (m + 1) * (c.maxRetries + 1)
    ensures m !in t.q.pel
  {
    InitialIsCapped(c);
    hide *;
    RunKeeps(c, INITIAL, before, s);
    RunIsOnTime(c, INITIAL, before, s);
    if m in t.q.pel {
      RoundsAreBounded(c, s, es, t, false, m);
      NothingOwed(c, s);
      LeftIsBounded(s.q, c.maxRetries, m);
      NothingLeft(t.q, c.maxRetries, m);
    }
  }

  lemma NothingOwed(c: Config, s: State)
    ensures Owed(c, s, false) == 0
  {
  }

  lemma {:induction false} RunIsOnTime(c: Config, s: State, es: seq<Event>, t: State)
    requires OnTime(s) && Run(c, s, es, t)
    ensures OnTime(t)
    decreases |es|
  {
    if es != [] {
      StaysOnTime(c, s, es[0]);
      hide Next, Enabled, OnTime;
      RunIsOnTime(c, Next(c, s, es[0]), es[1..], t);
    }
  }

  lemma InitialIsCapped(c: Config)
    ensures Ledger(c, INITIAL) && Capped(c, INITIAL) && OnTime(INITIAL)
  {
  }
}
