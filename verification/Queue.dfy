/**
 The stream consumer as a step machine: enqueueing, group reads, concurrent handling of a batch, batch
 acknowledgement, and the reclaimer's scan, drop and claim, in any interleaving and with cancellation
 and lost calls at any point.

 RunsKeepTheLedger accounts for every enqueued message in every reachable state.
 */
module Queue {
  import opened Stream

  datatype Config = Config(batchSize: nat, maxRetries: int, maxLen: int)

  datatype Handled = ReturnedNil | ReturnedError | Panicked

  datatype Reason = HandlerReturnedNil | BadDataField | CountReached

  datatype Fate = Acked(reason: Reason) | Trimmed

  /** A batch in the hands of one worker: not yet started, being handled, and to be acknowledged. */
  datatype Batch = Batch(todo: seq<Message>, running: set<Message>, acks: set<nat>)

  /** The reclaimer between the calls of one tick; at is the time of its scan. */
  datatype Reclaimer = Resting | Dropping(at: nat, dead: set<nat>) | Claiming(at: nat)

  /** What happened, for stating properties: every body sent, every fate, deliveries per message, and the
      messages for which the handler returned nil. */
  datatype History = History(sent: seq<Body>, fates: map<nat, Fate>, deliveries: map<nat, nat>, nils: set<nat>)

  datatype State = State(q: Stream, now: nat, cancelled: bool, batches: map<int, Batch>, reclaimer: Reclaimer, h: History)

  const INITIAL: State := State(EMPTY, 0, false, map[], Resting, History([], map[], map[], {}))

  /** The batch of the reclaimer is processed under this worker id. */
  const RECLAIM_WORKER: int := -1

  const SCAN_LIMIT: nat := 200

  /** The scan, the drop and the claim carry deadlines of ten, five and ten seconds. */
  const TICK_SECONDS: nat := 25

  /** A call may fail without effect (ok is false), and one that took effect may lose its reply (received is
      false); how far an acknowledgement got is its own parameter. */
  datatype Event =
    | Pass(seconds: nat)
    | Cancel
    | Enqueue(body: Body, bound: nat)
    | Read(worker: int, received: bool)
    | Start(worker: int)
    | Break(worker: int)
    | Finish(worker: int, m: Message, result: Handled)
    | AckBatch(worker: int, how: Reached)
    | Scan(ok: bool)
    | Drop(how: Reached)
    | ClaimStale(ok: bool, received: bool)

  // ---------- steps ----------

  /** A message without a usable data field is acknowledged without calling the handler. */
  predicate Done(body: Body, result: Handled) { body.Payload? ==> result == ReturnedNil }

  function RecordFates(fates: map<nat, Fate>, ids: set<nat>, fate: nat -> Fate): map<nat, Fate> {
    map id | id in fates.Keys + ids :: if id in fates then fates[id] else fate(id)
  }

  function AckFate(sent: seq<Body>): nat -> Fate {
    (id: nat) => if id < |sent| && !sent[id].Payload? then Acked(BadDataField) else Acked(HandlerReturnedNil)
  }

  /** The ids a scan finds at or over the limit, among the first entries of the pending list. */
  function Dead(q: Stream, maxRetries: int): set<nat> {
    set id | id in PendingIDs(q, SCAN_LIMIT) && id in q.pel && q.pel[id].count >= maxRetries
  }

  predicate Enabled(c: Config, s: State, e: Event) {
    match e
    case Pass(_) => true
    case Cancel => true
    case Enqueue(_, bound) => CutAllowed(s.q, bound, c.maxLen)
    case Read(w, _) => !s.cancelled && w >= 0 && w !in s.batches
    case Start(w) => !s.cancelled && w in s.batches && s.batches[w].todo != []
    case Break(w) => s.cancelled && w in s.batches
    case Finish(w, m, result) => w in s.batches && m in s.batches[w].running
    case AckBatch(w, _) => w in s.batches && s.batches[w].todo == [] && s.batches[w].running == {}
    case Scan(ok) => s.reclaimer.Resting? && RECLAIM_WORKER !in s.batches && (ok ==> !s.cancelled)
    case Drop(_) => s.reclaimer.Dropping?
    case ClaimStale(ok, _) => s.reclaimer.Claiming? && (ok ==> !s.cancelled && s.now <= s.reclaimer.at + TICK_SECONDS)
  }

  function EnqueueStep(s: State, body: Body, bound: nat): State {
    var q := Add(s.q, body, bound);
    var cut := set id | id in s.q.stored && id !in q.stored;
    s.(q := q, h := s.h.(sent := s.h.sent + [body], fates := RecordFates(s.h.fates, cut, _ => Trimmed)))
  }

  function FirstDelivery(deliveries: map<nat, nat>, ids: seq<nat>): map<nat, nat> {
    map id | id in deliveries.Keys + (set i | i in ids) :: if id in ids then 1 else deliveries[id]
  }

  function ReadStep(c: Config, s: State, w: int, received: bool): State {
    var ids := UnreadIDs(s.q, c.batchSize);
    if ids == [] then s
    else s.(q := ReadGroup(s.q, c.batchSize, s.now),
            batches := if received then s.batches[w := Batch(Messages(s.q, ids), {}, {})] else s.batches,
            h := s.h.(deliveries := FirstDelivery(s.h.deliveries, ids)))
  }

  function FinishStep(s: State, w: int, m: Message, result: Handled): State
    requires w in s.batches
  {
    var b := s.batches[w];
    s.(batches := s.batches[w := b.(running := b.running - {m}, acks := if Done(m.body, result) then b.acks + {m.id} else b.acks)],
       h := if m.body.Payload? && result == ReturnedNil then s.h.(nils := s.h.nils + {m.id}) else s.h)
  }

  function AckStep(s: State, ids: set<nat>, how: Reached, fate: nat -> Fate): State {
    s.(q := Acknowledge(s.q, ids, how),
       h := if how == Nothing then s.h else s.h.(fates := RecordFates(s.h.fates, ids, fate)))
  }

  /** How often each message has been delivered behind a claim of these. */
  function MoreDeliveries(deliveries: map<nat, nat>, ids: seq<nat>, stored: map<nat, Body>): map<nat, nat> {
    map id | id in deliveries :: if id in ids && id in stored then deliveries[id] + 1 else deliveries[id]
  }

  function ClaimStep(c: Config, s: State, received: bool): State {
    var ids := ClaimIDs(s.q, c.batchSize, s.now);
    var ms := Messages(s.q, ids);
    s.(q := Claim(s.q, c.batchSize, s.now),
       batches := if ms == [] || !received then s.batches else s.batches[RECLAIM_WORKER := Batch(ms, {}, {})],
       reclaimer := Resting,
       h := s.h.(deliveries := MoreDeliveries(s.h.deliveries, ids, s.q.stored)))
  }

  function Next(c: Config, s: State, e: Event): State
    requires Enabled(c, s, e)
  {
    match e
    case Pass(d) => s.(now := s.now + d)
    case Cancel => s.(cancelled := true)
    case Enqueue(body, bound) => EnqueueStep(s, body, bound)
    case Read(w, received) => ReadStep(c, s, w, received)
    case Start(w) =>
      var b := s.batches[w];
      s.(batches := s.batches[w := b.(todo := b.todo[1..], running := b.running + {b.todo[0]})])
    case Break(w) => s.(batches := s.batches[w := s.batches[w].(todo := [])])
    case Finish(w, m, result) => FinishStep(s, w, m, result)
    case AckBatch(w, how) =>
      AckStep(s, s.batches[w].acks, how, AckFate(s.h.sent)).(batches := s.batches - {w})
    case Scan(ok) =>
      if c.maxRetries <= 0 || !ok then s.(reclaimer := Claiming(s.now))
      else s.(reclaimer := Dropping(s.now, Dead(s.q, c.maxRetries)))
    case Drop(how) =>
      AckStep(s, s.reclaimer.dead, how, _ => Acked(CountReached)).(reclaimer := Claiming(s.reclaimer.at))
    case ClaimStale(ok, received) => if ok then ClaimStep(c, s, received) else s.(reclaimer := Resting)
  }

  /** The state after a list of events, if each was enabled in its turn. */
  ghost predicate Run(c: Config, s: State, es: seq<Event>, t: State)
    decreases |es|
  {
    if es == [] then s == t else Enabled(c, s, es[0]) && Run(c, Next(c, s, es[0]), es[1..], t)
  }

  lemma RunConcat(c: Config, s: State, a: seq<Event>, t: State, b: seq<Event>, u: State)
    requires Run(c, s, a, t) && Run(c, t, b, u)
    ensures Run(c, s, a + b, u)
    decreases |a|
  {
    if a == [] {
      assert a + b == b;
    } else {
      hide Next, Enabled;
      assert (a + b)[0] == a[0] && (a + b)[1..] == a[1..] + b;
      RunConcat(c, Next(c, s, a[0]), a[1..], t, b, u);
    }
  }

  lemma RunFirst(c: Config, s: State, e: Event, es: seq<Event>, t: State)
    requires Enabled(c, s, e) && Run(c, Next(c, s, e), es, t)
    ensures Run(c, s, [e] + es, t)
  {
    hide Next, Enabled;
    assert ([e] + es)[1..] == es;
  }

  lemma RunNothing(c: Config, s: State)
    ensures Run(c, s, [], s)
  {
  }

  // ---------- the ledger ----------

  predicate Unread(s: State, id: nat) { id in s.q.stored && id >= s.q.cursor }

  predicate Pending(s: State, id: nat) { id in s.q.stored && id in s.q.pel }

  predicate Gone(s: State, id: nat) { id in s.h.fates }

  predicate ExactlyOne(s: State, id: nat) {
    && (Unread(s, id) || Pending(s, id) || Gone(s, id))
    && !(Unread(s, id) && Pending(s, id)) && !(Unread(s, id) && Gone(s, id)) && !(Pending(s, id) && Gone(s, id))
  }

  /** Why a message was removed. */
  predicate Justified(c: Config, h: History, id: nat)
    requires id in h.fates && id < |h.sent|
  {
    match h.fates[id]
    case Trimmed => true
    case Acked(HandlerReturnedNil) => id in h.nils
    case Acked(BadDataField) => !h.sent[id].Payload?
    case Acked(CountReached) => c.maxRetries > 0 && id in h.deliveries && h.deliveries[id] >= c.maxRetries
  }

  predicate MessageOK(s: State, m: Message) { m.id < s.q.cursor && m.id < |s.h.sent| && s.h.sent[m.id] == m.body }

  predicate AckOK(s: State, id: nat) {
    id < s.q.cursor && id < |s.h.sent| && (s.h.sent[id].Payload? ==> id in s.h.nils)
  }

  predicate BatchOK(s: State, b: Batch) {
    && (forall m | m in b.todo :: MessageOK(s, m))
    && (forall m | m in b.running :: MessageOK(s, m))
    && (forall id | id in b.acks :: AckOK(s, id))
  }

  predicate DeadOK(c: Config, s: State, id: nat) {
    id < s.q.cursor && c.maxRetries > 0 && id in s.h.deliveries && s.h.deliveries[id] >= c.maxRetries
  }

  predicate StreamOK(s: State) {
    && s.q.cursor <= s.q.next == |s.h.sent|
    && (forall id | id in s.q.stored :: id < s.q.next && s.q.stored[id] == s.h.sent[id])
    && (forall id | id in s.q.pel :: id < s.q.cursor)
    && (forall id | id in s.h.fates :: id < s.q.next)
  }

  predicate CountsOK(s: State) {
    && (forall id | id in s.q.pel :: id in s.h.deliveries && s.h.deliveries[id] == s.q.pel[id].count)
    && (forall id | id in s.h.deliveries :: id < s.q.cursor)
  }

  predicate FatesOK(c: Config, s: State) {
    && (forall id | id in s.h.fates :: id < |s.h.sent| && Justified(c, s.h, id))
    && (forall id | id in s.q.pel && id !in s.q.stored :: id in s.h.fates && s.h.fates[id] == Trimmed)
  }

  predicate WorkOK(c: Config, s: State) {
    && (forall w | w in s.batches :: BatchOK(s, s.batches[w]))
    && (s.reclaimer.Dropping? ==> forall id | id in s.reclaimer.dead :: DeadOK(c, s, id))
  }

  predicate Ledger(c: Config, s: State) {
    && StreamOK(s)
    && CountsOK(s)
    && FatesOK(c, s)
    && WorkOK(c, s)
    && (forall id | 0 <= id < s.q.next :: ExactlyOne(s, id))
  }

  /** The cursor, the messages sent, the handler's successes and the delivery counts only grow. */
  predicate Grows(s: State, t: State) {
    && s.q.cursor <= t.q.cursor
    && s.h.sent <= t.h.sent
    && s.h.nils <= t.h.nils
    && (forall id | id in s.h.deliveries :: id in t.h.deliveries && s.h.deliveries[id] <= t.h.deliveries[id])
  }

  lemma BatchKept(s: State, t: State, b: Batch)
    requires Grows(s, t) && BatchOK(s, b)
    ensures BatchOK(t, b)
  {
  }

  /** The fates recorded before keep their reasons. */
  lemma JustifiedKept(c: Config, s: State, t: State, id: nat)
    requires Grows(s, t) && id in s.h.fates && id in t.h.fates && s.h.fates[id] == t.h.fates[id]
    requires id < |s.h.sent| && Justified(c, s.h, id)
    ensures id < |t.h.sent| && Justified(c, t.h, id)
  {
  }

  lemma WorkKept(c: Config, s: State, t: State)
    requires Grows(s, t) && WorkOK(c, s) && t.batches.Keys <= s.batches.Keys
    requires forall w | w in t.batches :: t.batches[w] == s.batches[w]
    requires t.reclaimer.Dropping? ==> t.reclaimer == s.reclaimer
    ensures WorkOK(c, t)
  {
    hide BatchOK;
    forall w | w in t.batches ensures BatchOK(t, t.batches[w]) { BatchKept(s, t, t.batches[w]); }
  }

  // ---------- every step keeps the ledger ----------

  lemma {:induction false} EnqueueKeeps(c: Config, s: State, body: Body, bound: nat)
    requires Ledger(c, s) && CutAllowed(s.q, bound, c.maxLen)
    ensures Ledger(c, EnqueueStep(s, body, bound))
  {
    var t := EnqueueStep(s, body, bound);
    LedgerParts(c, s);
    CutBelow(s.q, bound, c.maxLen);
    hide Ledger, CutAllowed;
    EnqueueMoves(s, body, bound);
    EnqueueFates(c, s, body, bound);
    hide EnqueueStep, StreamOK, CountsOK, FatesOK, ExactlyOne;
    WorkKept(c, s, t);
    LedgerWhole(c, t);
  }

  lemma EnqueueMoves(s: State, body: Body, bound: nat)
    requires StreamOK(s) && CountsOK(s) && bound <= s.q.next
    requires forall id | 0 <= id < s.q.next :: ExactlyOne(s, id)
    ensures var t := EnqueueStep(s, body, bound);
            && StreamOK(t) && CountsOK(t) && Grows(s, t) && t.batches == s.batches && t.reclaimer == s.reclaimer
            && forall id | 0 <= id < t.q.next :: ExactlyOne(t, id)
  {
    var t := EnqueueStep(s, body, bound);
    forall id | 0 <= id < t.q.next ensures ExactlyOne(t, id) { assert id < s.q.next ==> ExactlyOne(s, id); }
  }

  lemma EnqueueFates(c: Config, s: State, body: Body, bound: nat)
    requires StreamOK(s) && FatesOK(c, s) && Grows(s, EnqueueStep(s, body, bound))
    requires forall id | 0 <= id < s.q.next :: ExactlyOne(s, id)
    ensures FatesOK(c, EnqueueStep(s, body, bound))
  {
    var t := EnqueueStep(s, body, bound);
    hide Justified;
    forall id | id in t.q.pel && id !in t.q.stored ensures id in t.h.fates && t.h.fates[id] == Trimmed {
      assert ExactlyOne(s, id);
    }
    forall id | id in t.h.fates ensures id < |t.h.sent| && Justified(c, t.h, id) {
      if id in s.h.fates { JustifiedKept(c, s, t, id); } else { TrimmedIsJustified(c, t.h, id); }
    }
  }

  lemma CutBelow(q: Stream, bound: nat, maxLen: int)
    requires CutAllowed(q, bound, maxLen)
    ensures bound <= q.next
  {
  }

  lemma TrimmedIsJustified(c: Config, h: History, id: nat)
    requires id in h.fates && id < |h.sent| && h.fates[id] == Trimmed
    ensures Justified(c, h, id)
  {
  }

  lemma MessagesOK(q: Stream, ids: seq<nat>, s: State)
    requires forall id | id in ids :: id < s.q.cursor
    requires forall id | id in q.stored :: id < |s.h.sent| && q.stored[id] == s.h.sent[id]
    ensures forall m | m in Messages(q, ids) :: MessageOK(s, m)
  {
  }

  /** What a group read changes: nothing, or the cursor passes the messages read, which become pending. */
  ghost predicate Reads(s: State, t: State, ids: seq<nat>) {
    && ids != []
    && (forall id | id in ids :: s.q.cursor <= id < t.q.cursor && id in s.q.stored)
    && (forall id | id in s.q.stored && s.q.cursor <= id < t.q.cursor :: id in ids)
    && s.q.cursor <= t.q.cursor <= s.q.next
    && t.q == s.q.(cursor := t.q.cursor, pel := t.q.pel)
    && t.q.pel.Keys == s.q.pel.Keys + (set i | i in ids)
    && t.h == s.h.(deliveries := t.h.deliveries)
    && t.h.deliveries.Keys == s.h.deliveries.Keys + (set i | i in ids)
    && (forall id | id in ids :: t.q.pel[id].count == 1 == t.h.deliveries[id])
    && (forall id | id in s.q.pel && id !in ids :: t.q.pel[id] == s.q.pel[id])
    && (forall id | id in s.h.deliveries && id !in ids :: t.h.deliveries[id] == s.h.deliveries[id])
  }

  lemma UnreadIs(q: Stream, k: nat)
    requires UnreadIDs(q, k) != []
    ensures var ids := UnreadIDs(q, k);
            var top := ids[|ids| - 1];
            && q.cursor <= top < q.next
            && (forall id | id in ids :: q.cursor <= id <= top && id in q.stored)
            && (forall id | id in q.stored && q.cursor <= id <= top :: id in ids)
  {
    var ids := UnreadIDs(q, k);
    var top := ids[|ids| - 1];
    SmallestIs(q.stored.Keys, q.cursor, q.next, k);
    hide Smallest;
    forall id | id in ids ensures q.cursor <= id <= top && id in q.stored {
      var i :| 0 <= i < |ids| && ids[i] == id;
    }
    forall id | id in q.stored && q.cursor <= id <= top ensures id in ids {
      assert id in q.stored.Keys;
    }
  }

  lemma ReadGroupIs(q: Stream, k: nat, now: nat)
    requires UnreadIDs(q, k) != []
    ensures var ids, r := UnreadIDs(q, k), ReadGroup(q, k, now);
            && r == q.(cursor := ids[|ids| - 1] + 1, pel := r.pel)
            && r.pel.Keys == q.pel.Keys + (set i | i in ids)
            && (forall id | id in ids :: r.pel[id].count == 1)
            && (forall id | id in q.pel && id !in ids :: r.pel[id] == q.pel[id])
  {
    hide UnreadIDs;
  }

  lemma FirstDeliveryIs(deliveries: map<nat, nat>, ids: seq<nat>)
    ensures var r := FirstDelivery(deliveries, ids);
            && r.Keys == deliveries.Keys + (set i | i in ids)
            && (forall id | id in ids :: r[id] == 1)
            && (forall id | id in deliveries && id !in ids :: r[id] == deliveries[id])
  {
  }

  lemma ReadStepIs(c: Config, s: State, w: int, received: bool)
    requires UnreadIDs(s.q, c.batchSize) != []
    ensures var t := ReadStep(c, s, w, received);
            && t.q == ReadGroup(s.q, c.batchSize, s.now)
            && t.h == s.h.(deliveries := FirstDelivery(s.h.deliveries, UnreadIDs(s.q, c.batchSize)))
  {
    hide UnreadIDs, ReadGroup, FirstDelivery, Messages;
  }

  lemma MakeReads(s: State, t: State, ids: seq<nat>, top: nat, d: map<nat, nat>)
    requires ids != [] && s.q.cursor <= top < s.q.next
    requires forall id | id in ids :: s.q.cursor <= id <= top && id in s.q.stored
    requires forall id | id in s.q.stored && s.q.cursor <= id <= top :: id in ids
    requires t.q == s.q.(cursor := top + 1, pel := t.q.pel) && t.q.pel.Keys == s.q.pel.Keys + (set i | i in ids)
    requires forall id | id in ids :: t.q.pel[id].count == 1
    requires forall id | id in s.q.pel && id !in ids :: t.q.pel[id] == s.q.pel[id]
    requires t.h == s.h.(deliveries := d) && d.Keys == s.h.deliveries.Keys + (set i | i in ids)
    requires forall id | id in ids :: d[id] == 1
    requires forall id | id in s.h.deliveries && id !in ids :: d[id] == s.h.deliveries[id]
    ensures Reads(s, t, ids)
  {
  }

  lemma ReadReads(c: Config, s: State, w: int, received: bool)
    requires UnreadIDs(s.q, c.batchSize) != []
    ensures Reads(s, ReadStep(c, s, w, received), UnreadIDs(s.q, c.batchSize))
  {
    hide *;
    var ids := UnreadIDs(s.q, c.batchSize);
    ReadStepIs(c, s, w, received);
    UnreadIs(s.q, c.batchSize);
    ReadGroupIs(s.q, c.batchSize, s.now);
    FirstDeliveryIs(s.h.deliveries, ids);
    MakeReads(s, ReadStep(c, s, w, received), ids, ids[|ids| - 1], FirstDelivery(s.h.deliveries, ids));
  }

  lemma ReadsKeep(c: Config, s: State, t: State, ids: seq<nat>)
    requires StreamOK(s) && CountsOK(s) && FatesOK(c, s) && Reads(s, t, ids)
    ensures StreamOK(t) && CountsOK(t) && Grows(s, t) && FatesOK(c, t)
  {
    hide Justified;
    assert forall id | id in ids :: id !in s.h.deliveries;
    assert Grows(s, t);
    forall id | id in t.h.fates ensures id < |t.h.sent| && Justified(c, t.h, id) { JustifiedKept(c, s, t, id); }
  }

  lemma ReadsExactlyOne(s: State, t: State, ids: seq<nat>, id: nat)
    requires StreamOK(s) && CountsOK(s) && Reads(s, t, ids) && ExactlyOne(s, id)
    ensures ExactlyOne(t, id)
  {
  }

  lemma {:induction false} ReadKeeps(c: Config, s: State, w: int, received: bool)
    requires Ledger(c, s)
    ensures Ledger(c, ReadStep(c, s, w, received))
  {
    var t := ReadStep(c, s, w, received);
    var ids := UnreadIDs(s.q, c.batchSize);
    if ids != [] {
      ReadReads(c, s, w, received);
      ReadsKeep(c, s, t, ids);
      ReadWork(c, s, w, received);
      hide *;
      hide ReadStep, UnreadIDs, Reads;
      LedgerParts(c, s);
      forall id | 0 <= id < t.q.next ensures ExactlyOne(t, id) { ReadsExactlyOne(s, t, ids, id); }
      LedgerWhole(c, t);
    }
  }

  lemma LedgerParts(c: Config, s: State)
    requires Ledger(c, s)
    ensures StreamOK(s) && CountsOK(s) && FatesOK(c, s) && WorkOK(c, s)
    ensures forall id | 0 <= id < s.q.next :: ExactlyOne(s, id)
  {
  }

  lemma {:induction false} ReadWork(c: Config, s: State, w: int, received: bool)
    requires StreamOK(s) && WorkOK(c, s) && UnreadIDs(s.q, c.batchSize) != []
    requires Grows(s, ReadStep(c, s, w, received)) && Reads(s, ReadStep(c, s, w, received), UnreadIDs(s.q, c.batchSize))
    ensures WorkOK(c, ReadStep(c, s, w, received))
  {
    var t := ReadStep(c, s, w, received);
    var ids := UnreadIDs(s.q, c.batchSize);
    MessagesOK(s.q, ids, t);
    ReadBatchOK(t, Messages(s.q, ids));
    hide BatchOK, Messages, UnreadIDs, Smallest;
    forall v | v in t.batches ensures BatchOK(t, t.batches[v]) {
      if v in s.batches && t.batches[v] == s.batches[v] { BatchKept(s, t, s.batches[v]); }
    }
  }

  lemma ReadBatchOK(s: State, ms: seq<Message>)
    requires forall m | m in ms :: MessageOK(s, m)
    ensures BatchOK(s, Batch(ms, {}, {}))
  {
  }

  /** Acknowledging delivered messages, each for a reason that holds. */
  lemma AckKeeps(c: Config, s: State, ids: set<nat>, how: Reached, fate: nat -> Fate)
    requires Ledger(c, s)
    requires forall id | id in ids :: id < s.q.cursor && Justified(c, s.h.(fates := map[id := fate(id)]), id)
    ensures Ledger(c, AckStep(s, ids, how, fate))
  {
    var t := AckStep(s, ids, how, fate);
    if how != Nothing {
      LedgerParts(c, s);
      hide Ledger;
      AckMoves(c, s, ids, how, fate);
      AckFates(c, s, ids, how, fate);
      hide AckStep, StreamOK, CountsOK, FatesOK, ExactlyOne;
      WorkKept(c, s, t);
      LedgerWhole(c, t);
    }
  }

  lemma AckMoves(c: Config, s: State, ids: set<nat>, how: Reached, fate: nat -> Fate)
    requires StreamOK(s) && CountsOK(s) && how != Nothing
    requires forall id | 0 <= id < s.q.next :: ExactlyOne(s, id)
    requires forall id | id in ids :: id < s.q.cursor
    ensures var t := AckStep(s, ids, how, fate);
            && StreamOK(t) && CountsOK(t) && Grows(s, t) && t.batches == s.batches && t.reclaimer == s.reclaimer
            && forall id | 0 <= id < t.q.next :: ExactlyOne(t, id)
  {
    var t := AckStep(s, ids, how, fate);
    forall id | 0 <= id < t.q.next ensures ExactlyOne(t, id) { assert ExactlyOne(s, id); }
  }

  lemma AckFates(c: Config, s: State, ids: set<nat>, how: Reached, fate: nat -> Fate)
    requires StreamOK(s) && FatesOK(c, s) && how != Nothing
    requires forall id | id in ids :: id < s.q.cursor && Justified(c, s.h.(fates := map[id := fate(id)]), id)
    ensures FatesOK(c, AckStep(s, ids, how, fate))
  {
    var t := AckStep(s, ids, how, fate);
    forall id | id in t.h.fates ensures id < |t.h.sent| && Justified(c, t.h, id) {
      if id in s.h.fates { JustifiedKept(c, s, t, id); }
    }
  }

  /** What a claim changes: stored messages count one more delivery, the others leave the pending list. */
  ghost predicate Claims(s: State, t: State, ids: seq<nat>) {
    && (forall id | id in ids :: id in s.q.pel)
    && t.q == s.q.(pel := t.q.pel)
    && t.h == s.h.(deliveries := t.h.deliveries)
    && t.h.deliveries.Keys == s.h.deliveries.Keys
    && (forall id :: id in t.q.pel <==> id in s.q.pel && (id in ids ==> id in s.q.stored))
    && (forall id | id in t.q.pel :: t.q.pel[id].count == s.q.pel[id].count + if id in ids then 1 else 0)
    && (forall id | id in t.h.deliveries ::
          t.h.deliveries[id] == s.h.deliveries[id] + if id in ids && id in s.q.stored then 1 else 0)
  }

  lemma ClaimedArePending(q: Stream, k: nat, now: nat)
    ensures forall id | id in ClaimIDs(q, k, now) :: id in q.pel
  {
    SmallestIs(IdleSet(q, k, now), 0, q.cursor, k);
    var ids := ClaimIDs(q, k, now);
    hide Smallest, PendingIDs;
    forall id | id in ids ensures id in q.pel { assert id in IdleSet(q, k, now); }
  }

  lemma ClaimIs(q: Stream, k: nat, now: nat)
    ensures var ids, r := ClaimIDs(q, k, now), Claim(q, k, now);
            && r == q.(pel := r.pel)
            && (forall id :: id in r.pel <==> id in q.pel && (id in ids ==> id in q.stored))
            && (forall id | id in r.pel :: r.pel[id].count == q.pel[id].count + if id in ids then 1 else 0)
  {
    hide ClaimIDs;
  }

  lemma ClaimStepIs(c: Config, s: State, received: bool)
    ensures var t := ClaimStep(c, s, received);
            && t.q == Claim(s.q, c.batchSize, s.now)
            && t.h == s.h.(deliveries := MoreDeliveries(s.h.deliveries, ClaimIDs(s.q, c.batchSize, s.now), s.q.stored))
  {
    hide ClaimIDs, Claim, Messages, MoreDeliveries;
  }

  lemma ClaimClaims(c: Config, s: State, received: bool)
    ensures Claims(s, ClaimStep(c, s, received), ClaimIDs(s.q, c.batchSize, s.now))
  {
    ClaimedArePending(s.q, c.batchSize, s.now);
    ClaimIs(s.q, c.batchSize, s.now);
    ClaimStepIs(c, s, received);
    hide ClaimStep, Claim, ClaimIDs;
  }

  lemma ClaimsKeep(c: Config, s: State, t: State, ids: seq<nat>)
    requires StreamOK(s) && CountsOK(s) && FatesOK(c, s) && Claims(s, t, ids)
    ensures StreamOK(t) && CountsOK(t) && Grows(s, t) && FatesOK(c, t)
  {
    hide Justified;
    assert Grows(s, t);
    forall id | id in t.h.fates ensures id < |t.h.sent| && Justified(c, t.h, id) { JustifiedKept(c, s, t, id); }
  }

  lemma ClaimsExactlyOne(s: State, t: State, ids: seq<nat>, id: nat)
    requires Claims(s, t, ids) && ExactlyOne(s, id)
    ensures ExactlyOne(t, id)
  {
  }

  lemma ClaimWork(c: Config, s: State, received: bool)
    requires StreamOK(s) && WorkOK(c, s) && Grows(s, ClaimStep(c, s, received))
    requires Claims(s, ClaimStep(c, s, received), ClaimIDs(s.q, c.batchSize, s.now))
    ensures WorkOK(c, ClaimStep(c, s, received))
  {
    var t := ClaimStep(c, s, received);
    var ids := ClaimIDs(s.q, c.batchSize, s.now);
    MessagesOK(s.q, ids, t);
    ReadBatchOK(t, Messages(s.q, ids));
    hide BatchOK, Messages, ClaimIDs, Smallest;
    forall v | v in t.batches ensures BatchOK(t, t.batches[v]) {
      if v in s.batches && t.batches[v] == s.batches[v] { BatchKept(s, t, s.batches[v]); }
    }
  }

  lemma ClaimKeeps(c: Config, s: State, received: bool)
    requires Ledger(c, s)
    ensures Ledger(c, ClaimStep(c, s, received))
  {
    var t := ClaimStep(c, s, received);
    var ids := ClaimIDs(s.q, c.batchSize, s.now);
    ClaimClaims(c, s, received);
    hide *;
    hide ClaimStep, ClaimIDs, Claims;
    LedgerParts(c, s);
    ClaimsKeep(c, s, t, ids);
    ClaimWork(c, s, received);
    forall id | 0 <= id < t.q.next ensures ExactlyOne(t, id) {
      assert t.q.next == s.q.next by { ClaimNext(s, t, ids); }
      ClaimsExactlyOne(s, t, ids, id);
    }
    LedgerWhole(c, t);
  }

  lemma ClaimNext(s: State, t: State, ids: seq<nat>)
    requires Claims(s, t, ids)
    ensures t.q.next == s.q.next
  {
  }

  lemma LedgerWhole(c: Config, s: State)
    requires StreamOK(s) && CountsOK(s) && FatesOK(c, s) && WorkOK(c, s)
    requires forall id | 0 <= id < s.q.next :: ExactlyOne(s, id)
    ensures Ledger(c, s)
  {
  }

  /** Steps that only move messages inside batches, or move the reclaimer. */
  lemma LocalStepKeeps(c: Config, s: State, t: State)
    requires Ledger(c, s) && s.q == t.q && WorkOK(c, t)
    requires t.h == s.h.(nils := t.h.nils) && s.h.nils <= t.h.nils
    ensures Ledger(c, t)
  {
    hide BatchOK;
    forall id | id in t.h.fates ensures id < |t.h.sent| && Justified(c, t.h, id) { JustifiedKept(c, s, t, id); }
    forall id | 0 <= id < t.q.next ensures ExactlyOne(t, id) { assert ExactlyOne(s, id); }
  }

  lemma FinishKeeps(c: Config, s: State, w: int, m: Message, result: Handled)
    requires Ledger(c, s) && w in s.batches && m in s.batches[w].running
    ensures Ledger(c, FinishStep(s, w, m, result))
  {
    var t := FinishStep(s, w, m, result);
    assert WorkOK(c, t) by {
      assert MessageOK(s, m);
      forall v | v in t.batches ensures BatchOK(t, t.batches[v]) {
        if v != w { BatchKept(s, t, s.batches[v]); }
      }
    }
    LocalStepKeeps(c, s, t);
  }

  lemma ScanKeeps(c: Config, s: State, ok: bool)
    requires Ledger(c, s) && Enabled(c, s, Scan(ok))
    ensures Ledger(c, Next(c, s, Scan(ok)))
  {
    var t := Next(c, s, Scan(ok));
    hide BatchOK, PendingIDs;
    assert WorkOK(c, t);
    LocalStepKeeps(c, s, t);
  }

  lemma AckBatchKeeps(c: Config, s: State, w: int, how: Reached)
    requires Ledger(c, s) && w in s.batches
    ensures Ledger(c, AckStep(s, s.batches[w].acks, how, AckFate(s.h.sent)).(batches := s.batches - {w}))
  {
    var t := AckStep(s, s.batches[w].acks, how, AckFate(s.h.sent));
    assert BatchOK(s, s.batches[w]);
    assert forall id | id in s.batches[w].acks :: AckOK(s, id);
    AckKeeps(c, s, s.batches[w].acks, how, AckFate(s.h.sent));
    assert t.batches == s.batches;
    hide Ledger;
    BatchGone(c, t, w);
  }

  lemma DropKeeps(c: Config, s: State, how: Reached)
    requires Ledger(c, s) && s.reclaimer.Dropping?
    ensures Ledger(c, AckStep(s, s.reclaimer.dead, how, _ => Acked(CountReached)).(reclaimer := Claiming(s.reclaimer.at)))
  {
    assert forall id | id in s.reclaimer.dead :: DeadOK(c, s, id);
    AckKeeps(c, s, s.reclaimer.dead, how, _ => Acked(CountReached));
    hide Ledger;
    ReclaimerMoves(c, AckStep(s, s.reclaimer.dead, how, _ => Acked(CountReached)), Claiming(s.reclaimer.at));
  }

  lemma TimeKeeps(c: Config, s: State, now: nat, cancelled: bool)
    requires Ledger(c, s)
    ensures Ledger(c, s.(now := now)) && Ledger(c, s.(cancelled := cancelled))
  {
    WorkKept(c, s, s.(now := now));
    WorkKept(c, s, s.(cancelled := cancelled));
    LocalStepKeeps(c, s, s.(now := now));
    LocalStepKeeps(c, s, s.(cancelled := cancelled));
  }

  lemma StepKeepsTheLedger(c: Config, s: State, e: Event)
    requires Ledger(c, s) && Enabled(c, s, e)
    ensures Ledger(c, Next(c, s, e))
  {
    hide Ledger, EnqueueStep, ReadStep, FinishStep, AckStep, ClaimStep, Dead, CutAllowed, AckFate;
    match e {
      case Enqueue(body, bound) => EnqueueKeeps(c, s, body, bound);
      case Read(w, received) => ReadKeeps(c, s, w, received);
      case Finish(w, m, result) => FinishKeeps(c, s, w, m, result);
      case AckBatch(w, how) => AckBatchKeeps(c, s, w, how);
      case Drop(how) => DropKeeps(c, s, how);
      case ClaimStale(ok, received) => if ok { ClaimKeeps(c, s, received); } else { ReclaimerMoves(c, s, Resting); }
      case Scan(ok) => ScanKeeps(c, s, ok);
      case Pass(d) => TimeKeeps(c, s, s.now + d, true);
      case Cancel => TimeKeeps(c, s, s.now, true);
      case Start(w) => StartKeeps(c, s, w);
      case Break(w) => BreakKeeps(c, s, w);
    }
  }

  lemma StartKeeps(c: Config, s: State, w: int)
    requires Ledger(c, s) && w in s.batches && s.batches[w].todo != []
    ensures var b := s.batches[w];
            Ledger(c, s.(batches := s.batches[w := b.(todo := b.todo[1..], running := b.running + {b.todo[0]})]))
  {
    var b := s.batches[w];
    var b' := b.(todo := b.todo[1..], running := b.running + {b.todo[0]});
    assert BatchOK(s, b);
    assert BatchOK(s, b');
    BatchMoves(c, s, w, b');
  }

  lemma BreakKeeps(c: Config, s: State, w: int)
    requires Ledger(c, s) && w in s.batches
    ensures Ledger(c, s.(batches := s.batches[w := s.batches[w].(todo := [])]))
  {
    assert BatchOK(s, s.batches[w]);
    BatchMoves(c, s, w, s.batches[w].(todo := []));
  }

  lemma BatchMoves(c: Config, s: State, w: int, b: Batch)
    requires Ledger(c, s) && w in s.batches && BatchOK(s, b)
    ensures Ledger(c, s.(batches := s.batches[w := b]))
  {
    var t := s.(batches := s.batches[w := b]);
    hide BatchOK;
    BatchKept(s, t, b);
    assert WorkOK(c, t) by {
      forall v | v in t.batches ensures BatchOK(t, t.batches[v]) {
        if v != w { BatchKept(s, t, s.batches[v]); }
      }
    }
    LocalStepKeeps(c, s, t);
  }

  lemma BatchGone(c: Config, s: State, w: int)
    requires Ledger(c, s) && w in s.batches
    ensures Ledger(c, s.(batches := s.batches - {w}))
  {
    var t := s.(batches := s.batches - {w});
    WorkKept(c, s, t);
    LocalStepKeeps(c, s, t);
  }

  lemma ReclaimerMoves(c: Config, s: State, r: Reclaimer)
    requires Ledger(c, s) && !r.Dropping?
    ensures Ledger(c, s.(reclaimer := r))
  {
    var t := s.(reclaimer := r);
    WorkKept(c, s, t);
    LocalStepKeeps(c, s, t);
  }

  /** What a step adds to the messages sent and to those answered nil. */
  lemma NilsAfter(c: Config, s: State, e: Event)
    requires Enabled(c, s, e)
    ensures s.h.sent <= Next(c, s, e).h.sent
    ensures Next(c, s, e).h.nils == s.h.nils +
              if e.Finish? && e.m.body.Payload? && e.result == ReturnedNil then {e.m.id} else {}
  {
    hide Add, ReadGroup, Claim, Acknowledge, RecordFates, Dead, CutAllowed, Messages, UnreadIDs, ClaimIDs, FirstDelivery, MoreDeliveries;
  }

  lemma FinishedWasSent(c: Config, s: State, e: Event)
    requires Ledger(c, s) && Enabled(c, s, e) && e.Finish?
    ensures MessageOK(s, e.m)
  {
    hide StreamOK, CountsOK, FatesOK, ExactlyOne;
    assert BatchOK(s, s.batches[e.worker]);
  }

  lemma {:induction false} RunKeeps(c: Config, s: State, es: seq<Event>, t: State)
    requires Ledger(c, s) && Run(c, s, es, t)
    ensures Ledger(c, t)
    decreases |es|
  {
    if es != [] {
      StepKeepsTheLedger(c, s, es[0]);
      hide Ledger, Next;
      RunKeeps(c, Next(c, s, es[0]), es[1..], t);
    }
  }

  /**
   In every reachable state each message sent is exactly one of unread, pending, and gone; what is gone
   was trimmed, or the handler returned nil for it, or its data field was missing or ill-typed, or its
   deliveries reached a positive limit.
   */
  lemma RunsKeepTheLedger(c: Config, es: seq<Event>, t: State)
    requires Run(c, INITIAL, es, t)
    ensures |t.h.sent| == t.q.next
    ensures forall id | 0 <= id < |t.h.sent| :: ExactlyOne(t, id)
    ensures forall id | id in t.h.fates :: id < |t.h.sent| && Justified(c, t.h, id)
  {
    assert Ledger(c, INITIAL);
    RunKeeps(c, INITIAL, es, t);
  }

  /** A step delivers a message when it reads it for the first time or claims it while it is stored. */
  predicate Delivers(c: Config, s: State, e: Event, id: nat) {
    match e
    case Read(_, _) => id in UnreadIDs(s.q, c.batchSize)
    case ClaimStale(ok, _) => ok && id in ClaimIDs(s.q, c.batchSize, s.now) && id in s.q.stored
    case _ => false
  }

  function DeliveriesOf(s: State, id: nat): nat { if id in s.h.deliveries then s.h.deliveries[id] else 0 }

  lemma {:induction false} StepDelivers(c: Config, s: State, e: Event, id: nat)
    requires Ledger(c, s) && Enabled(c, s, e)
    ensures DeliveriesOf(Next(c, s, e), id) == DeliveriesOf(s, id) + if Delivers(c, s, e, id) then 1 else 0
  {
    LedgerParts(c, s);
    SmallestIs(s.q.stored.Keys, s.q.cursor, s.q.next, c.batchSize);
    SmallestIs(IdleSet(s.q, c.batchSize, s.now), 0, s.q.cursor, c.batchSize);
    hide Ledger, Add, Acknowledge, RecordFates, CutAllowed, Messages, Smallest, PendingIDs, FatesOK, WorkOK, ExactlyOne, Dead;
  }

  /** How often a run delivers a message. */
  ghost function TimesDelivered(c: Config, s: State, es: seq<Event>, id: nat): nat
    decreases |es|
  {
    if es == [] || !Enabled(c, s, es[0]) then 0
    else (if Delivers(c, s, es[0], id) then 1 else 0) + TimesDelivered(c, Next(c, s, es[0]), es[1..], id)
  }

  lemma {:induction false} RunDelivers(c: Config, s: State, es: seq<Event>, t: State, id: nat)
    requires Ledger(c, s) && Run(c, s, es, t)
    ensures Ledger(c, t) && DeliveriesOf(t, id) == DeliveriesOf(s, id) + TimesDelivered(c, s, es, id)
    decreases |es|
  {
    if es != [] {
      StepDelivers(c, s, es[0], id);
      StepKeepsTheLedger(c, s, es[0]);
      hide Ledger, Enabled, Next, Delivers, DeliveriesOf;
      RunDelivers(c, Next(c, s, es[0]), es[1..], t, id);
    }
  }

  /** In every run the count that is compared with the limit is how often the message was delivered. */
  lemma {:induction false} CountsAreDeliveries(c: Config, es: seq<Event>, t: State, id: nat)
    requires Run(c, INITIAL, es, t)
    ensures id in t.q.pel ==> t.q.pel[id].count == TimesDelivered(c, INITIAL, es, id)
    ensures DeliveriesOf(t, id) == TimesDelivered(c, INITIAL, es, id)
  {
    assert Ledger(c, INITIAL);
    RunDelivers(c, INITIAL, es, t, id);
    LedgerParts(c, t);
    hide Run, TimesDelivered, StreamOK, FatesOK, WorkOK, Ledger;
  }

  /** A delivery makes the message pending from now on, and every other pending entry keeps its count and time; a claim
      removes from the list exactly the entries it takes that are no longer stored. */
  lemma {:induction false} StepRecords(c: Config, s: State, e: Event, id: nat)
    requires Ledger(c, s) && Enabled(c, s, e)
    ensures var t := Next(c, s, e);
            && (Delivers(c, s, e, id) ==> id in t.q.pel && t.q.pel[id].at == s.now)
            && (!Delivers(c, s, e, id) && id in t.q.pel ==> id in s.q.pel && t.q.pel[id] == s.q.pel[id])
            && ((e.Read? || e.ClaimStale?) && id in s.q.pel && id !in t.q.pel <==>
                  e.ClaimStale? && e.ok && id in ClaimIDs(s.q, c.batchSize, s.now) && id !in s.q.stored)
  {
    LedgerParts(c, s);
    SmallestIs(s.q.stored.Keys, s.q.cursor, s.q.next, c.batchSize);
    SmallestIs(IdleSet(s.q, c.batchSize, s.now), 0, s.q.cursor, c.batchSize);
    hide Ledger, RecordFates, CutAllowed, Messages, Smallest, PendingIDs, FatesOK, WorkOK, ExactlyOne, Dead;
  }

  /** A message the handler never accepted, with its data in place and its limit not reached, is still
      there unless the length limit cut it; without a positive limit no number of deliveries removes it. */
  lemma NothingIsLostSilently(c: Config, es: seq<Event>, t: State, id: nat)
    requires Run(c, INITIAL, es, t) && id < |t.h.sent|
    requires t.h.sent[id].Payload? && id !in t.h.nils
    requires c.maxRetries <= 0 || id !in t.h.deliveries || t.h.deliveries[id] < c.maxRetries
    ensures Unread(t, id) || Pending(t, id) || (id in t.h.fates && t.h.fates[id] == Trimmed)
  {
    RunsKeepTheLedger(c, es, t);
    assert ExactlyOne(t, id);
  }
}
