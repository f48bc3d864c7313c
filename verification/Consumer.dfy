/**
 The consumer's own methods, updating its stream in place.  Each is tied to the commands and sets of the
 step machine; BatchIsARun shows that processing a batch is a run of its steps.
 */
module Consumer {
  import opened Stream
  import opened Queue
  import opened Redelivery

  /** The ids of the messages to acknowledge, given what the handler did with each. */
  function AckSet(ms: seq<Message>, results: seq<Handled>): set<nat>
    requires |ms| == |results|
  {
    set i | 0 <= i < |ms| && Done(ms[i].body, results[i]) :: ms[i].id
  }

  /** What the reclaimer's drop leaves of a stream. */
  function AfterDrop(c: Config, q: Stream, ok: bool, how: Reached): Stream {
    if c.maxRetries <= 0 || !ok then q else Acknowledge(q, Dead(q, c.maxRetries), how)
  }

  lemma NothingToAcknowledge(q: Stream, how: Reached)
    ensures Acknowledge(q, {}, how) == q
  {
    assert q.pel - {} == q.pel && q.stored - {} == q.stored;
  }

  /** Those of a list that are pending at the limit. */
  function AtLimitOf(q: Stream, ids: seq<nat>, maxRetries: int): set<nat> {
    set id | id in ids && id in q.pel && q.pel[id].count >= maxRetries
  }

  lemma ScanIs(q: Stream, pending: seq<nat>, maxRetries: int, k: nat)
    requires k == SCAN_LIMIT && pending == PendingIDs(q, k)
    ensures forall id | id in pending :: id in q.pel
    ensures Dead(q, maxRetries) == AtLimitOf(q, pending, maxRetries)
  {
    SmallestIs(q.pel.Keys, 0, q.cursor, k);
    hide Smallest;
  }

  lemma NoneScanned(q: Stream, pending: seq<nat>, maxRetries: int)
    ensures Elements([]) == AtLimitOf(q, pending[..0], maxRetries) == {}
  {
  }

  lemma OneScanned(q: Stream, pending: seq<nat>, k: nat, dead: seq<nat>, maxRetries: int)
    requires k < |pending| && pending[k] in q.pel && Elements(dead) == AtLimitOf(q, pending[..k], maxRetries)
    ensures Elements(if q.pel[pending[k]].count >= maxRetries then dead + [pending[k]] else dead)
         == AtLimitOf(q, pending[..k + 1], maxRetries)
  {
    var x := pending[k];
    assert pending[..k + 1] == pending[..k] + [x];
    assert Elements(dead + [x]) == Elements(dead) + {x};
    assert AtLimitOf(q, pending[..k] + [x], maxRetries) ==
             AtLimitOf(q, pending[..k], maxRetries) + if q.pel[x].count >= maxRetries then {x} else {};
  }

  /** A call that failed, one that took effect but whose reply was lost, and one that succeeded. */
  datatype Reply = Failed | Lost | Received

  class Consumer {
    const config: Config
    var q: Stream
    var activeWorkers: int

    constructor (config: Config, q: Stream)
      ensures this.config == config && this.q == q && activeWorkers == 0
    {
      this.config, this.q, activeWorkers := config, q, 0;
    }

    /** Whether a message is to be acknowledged; a panic leaves the method without a result, like an error. */
    method HandleMessage(m: Message, result: Handled) returns (done: bool)
      modifies this`activeWorkers
      ensures activeWorkers == old(activeWorkers) && done == Done(m.body, result)
      ensures done <==> m.body.NoData? || m.body.IllTyped? || result == ReturnedNil
    {
      activeWorkers := activeWorkers + 1;
      match m.body {
        case NoData => done := true;
        case IllTyped => done := true;
        case Payload(_) =>
          match result {
            case ReturnedNil => done := true;
            case ReturnedError => done := false;
            case Panicked => done := false;
          }
      }
      activeWorkers := activeWorkers - 1;
    }

    /** Once the pipeline reached the server no id of the list is pending, once it got through none is stored,
        and everything else is as it was. */
    method BatchAck(ids: seq<nat>, how: Reached)
      modifies this`q
      ensures q == Acknowledge(old(q), Elements(ids), how)
      ensures how != Nothing ==> forall id | id in ids :: id !in q.pel
      ensures how == Both ==> forall id | id in ids :: id !in q.stored
      ensures forall id | id !in ids || how == Nothing ::
                (id in q.pel <==> id in old(q).pel) && (id in q.pel ==> q.pel[id] == old(q).pel[id])
      ensures forall id | id !in ids || how != Both ::
                (id in q.stored <==> id in old(q).stored) && (id in q.stored ==> q.stored[id] == old(q).stored[id])
      ensures q.next == old(q).next && q.cursor == old(q).cursor
    {
      if |ids| == 0 {
        NothingToAcknowledge(q, how);
        return;
      }
      q := Acknowledge(q, Elements(ids), how);
    }

    /** Messages are started until cancellation and finish in any order; one acknowledgement follows. */
    method ProcessBatchConcurrently(messages: seq<Message>, started: nat, results: seq<Handled>, how: Reached)
      requires started == |results| <= |messages|
      modifies this
      ensures q == Acknowledge(old(q), AckSet(messages[..started], results), how)
      ensures activeWorkers == old(activeWorkers)
    {
      var ackIDs: seq<nat> := [];
      var running: set<nat> := {};
      for k := 0 to started
        invariant forall i :: i in running <==> 0 <= i < k
        invariant q == old(q) && activeWorkers == old(activeWorkers)
      {
        running := running + {k};
      }
      while running != {}
        invariant forall i | i in running :: 0 <= i < started
        invariant Elements(ackIDs) == set i | 0 <= i < started && i !in running && Done(messages[i].body, results[i]) :: messages[i].id
        invariant q == old(q) && activeWorkers == old(activeWorkers)
        decreases |running|
      {
        var i: nat :| i in running;
        var done := HandleMessage(messages[i], results[i]);
        ghost var before := running;
        running := running - {i};
        if done {
          ackIDs := ackIDs + [messages[i].id];
          assert Elements(ackIDs) == Elements(ackIDs[..|ackIDs| - 1]) + {messages[i].id};
          assert ackIDs[..|ackIDs| - 1] + [messages[i].id] == ackIDs;
        }
        assert forall j | 0 <= j < started :: j !in running <==> j !in before || j == i;
      }
      assert Elements(ackIDs) == AckSet(messages[..started], results);
      BatchAck(ackIDs, how);
    }

    method DropExcessiveRetries(ok: bool, how: Reached)
      modifies this`q
      ensures q == AfterDrop(config, old(q), ok, how)
    {
      if config.maxRetries <= 0 || !ok { return; }
      hide PendingIDs, Dead, Acknowledge, AtLimitOf, Elements;
      var pending := PendingIDs(q, SCAN_LIMIT);
      var deadIDs: seq<nat> := [];
      ScanIs(q, pending, config.maxRetries, SCAN_LIMIT);
      NoneScanned(q, pending, config.maxRetries);
      for k := 0 to |pending|
        invariant q == old(q)
        invariant Elements(deadIDs) == AtLimitOf(q, pending[..k], config.maxRetries)
      {
        OneScanned(q, pending, k, deadIDs, config.maxRetries);
        if q.pel[pending[k]].count >= config.maxRetries { deadIDs := deadIDs + [pending[k]]; }
      }
      assert pending[..|pending|] == pending;
      if |deadIDs| > 0 {
        BatchAck(deadIDs, how);
      } else {
        NothingToAcknowledge(q, how);
      }
    }

    /** One tick of the reclaimer: drop, claim, and process what was claimed. */
    method ClaimStaleMessages(now: nat, scanned: bool, dropped: Reached, claimed: bool, results: seq<Handled>, acked: Reached)
      requires var q1 := AfterDrop(config, q, scanned, dropped);
               |results| <= |Messages(q1, ClaimIDs(q1, config.batchSize, now))|
      modifies this
      ensures var q1 := AfterDrop(config, old(q), scanned, dropped);
              var ms := Messages(q1, ClaimIDs(q1, config.batchSize, now));
              q == if !claimed then q1
                   else Acknowledge(Claim(q1, config.batchSize, now), AckSet(ms[..|results|], results), acked)
      ensures activeWorkers == old(activeWorkers)
    {
      DropExcessiveRetries(scanned, dropped);
      if !claimed { return; }
      var messages := Messages(q, ClaimIDs(q, config.batchSize, now));
      q := Claim(q, config.batchSize, now);
      if |messages| == 0 {
        NothingToAcknowledge(q, acked);
        assert AckSet(messages[..|results|], results) == {};
        return;
      }
      ProcessBatchConcurrently(messages, |results|, results, acked);
    }

    /** One read of a worker and the processing of what it got; a read whose reply is lost leaves its messages
        pending with nobody to handle them. */
    method ProcessMessages(now: nat, reply: Reply, results: seq<Handled>, acked: Reached)
      requires |results| <= |Messages(q, UnreadIDs(q, config.batchSize))|
      modifies this
      ensures var ms := Messages(old(q), UnreadIDs(old(q), config.batchSize));
              q == match reply
                   case Failed => old(q)
                   case Lost => ReadGroup(old(q), config.batchSize, now)
                   case Received =>
                     Acknowledge(ReadGroup(old(q), config.batchSize, now), AckSet(ms[..|results|], results), acked)
      ensures activeWorkers == old(activeWorkers)
    {
      if reply == Failed { return; }
      var messages := Messages(q, UnreadIDs(q, config.batchSize));
      q := ReadGroup(q, config.batchSize, now);
      if reply == Lost { return; }
      if |messages| == 0 {
        NothingToAcknowledge(q, acked);
        assert AckSet(messages[..|results|], results) == {};
        return;
      }
      ProcessBatchConcurrently(messages, |results|, results, acked);
    }
  }

  // ---------- a batch as a run ----------

  predicate Distinct(ms: seq<Message>) { forall i, j | 0 <= i < j < |ms| :: ms[i].id != ms[j].id }

  predicate Below(order: seq<nat>, n: nat) { forall k | 0 <= k < |order| :: order[k] < n }

  /** Any order in which n messages can finish. */
  predicate IsOrder(order: seq<nat>, n: nat) {
    && (forall i, j | 0 <= i < j < |order| :: order[i] != order[j])
    && Below(order, n)
    && (forall i: nat | i < n :: i in order)
  }

  function StartEvents(w: int, n: nat): seq<Event> { if n == 0 then [] else [Start(w)] + StartEvents(w, n - 1) }

  function FinishEvents(w: int, ms: seq<Message>, results: seq<Handled>, order: seq<nat>): seq<Event>
    requires |results| <= |ms| && Below(order, |results|)
  {
    if order == [] then []
    else [Finish(w, ms[order[0]], results[order[0]])] + FinishEvents(w, ms, results, order[1..])
  }

  /** The batch is cancelled when not all of it was started. */
  function StopEvents(w: int, all: bool): seq<Event> { if all then [] else [Cancel, Break(w)] }

  function BatchEvents(w: int, ms: seq<Message>, results: seq<Handled>, order: seq<nat>, how: Reached): seq<Event>
    requires |results| <= |ms| && Below(order, |results|)
  {
    StartEvents(w, |results|) + (StopEvents(w, |results| == |ms|) + (FinishEvents(w, ms, results, order) + [AckBatch(w, how)]))
  }

  function All(ms: seq<Message>): set<Message> { set m | m in ms }

  function At(ms: seq<Message>, order: seq<nat>): set<Message>
    requires Below(order, |ms|)
  {
    set i | i in order :: ms[i]
  }

  function AcksAt(ms: seq<Message>, results: seq<Handled>, order: seq<nat>): set<nat>
    requires |results| <= |ms| && Below(order, |results|)
  {
    set i | i in order && Done(ms[i].body, results[i]) :: ms[i].id
  }

  /** Everything but one worker's batch, and what the handler's answers add to the history. */
  ghost predicate SameElse(s: State, t: State, w: int) {
    && t.q == s.q && t.now == s.now && t.reclaimer == s.reclaimer
    && t.h == s.h.(nils := t.h.nils)
    && (forall v | v != w :: (v in t.batches <==> v in s.batches) && (v in t.batches ==> t.batches[v] == s.batches[v]))
  }

  lemma {:induction false} Starting(c: Config, s: State, w: int, n: nat) returns (t: State)
    requires !s.cancelled && w in s.batches && n <= |s.batches[w].todo|
    ensures Run(c, s, StartEvents(w, n), t)
    ensures SameElse(s, t, w) && t.cancelled == s.cancelled && t.h == s.h && w in t.batches
    ensures var b := s.batches[w];
            t.batches[w] == Batch(b.todo[n..], b.running + All(b.todo[..n]), b.acks)
    decreases n
  {
    var b := s.batches[w];
    if n == 0 {
      t := s;
      RunNothing(c, s);
      assert b.running + All(b.todo[..0]) == b.running && b.todo[0..] == b.todo;
    } else {
      var s1 := OneStarts(c, s, w);
      hide Next, Enabled, Run, All, SameElse;
      t := Starting(c, s1, w, n - 1);
      RunFirst(c, s, Start(w), StartEvents(w, n - 1), t);
      SameElseTrans(s, s1, t, w);
      AllStarted(b.todo, b.running, n);
    }
  }

  lemma OneStarts(c: Config, s: State, w: int) returns (t: State)
    requires !s.cancelled && w in s.batches && s.batches[w].todo != []
    ensures Enabled(c, s, Start(w)) && t == Next(c, s, Start(w))
    ensures SameElse(s, t, w) && t.cancelled == s.cancelled && t.h == s.h && w in t.batches
    ensures var b := s.batches[w]; t.batches[w] == Batch(b.todo[1..], b.running + {b.todo[0]}, b.acks)
  {
    t := Next(c, s, Start(w));
  }

  lemma AllStarted(todo: seq<Message>, running: set<Message>, n: nat)
    requires 0 < n <= |todo|
    ensures todo[1..][n - 1..] == todo[n..]
    ensures running + {todo[0]} + All(todo[1..][..n - 1]) == running + All(todo[..n])
  {
    assert todo[..n] == [todo[0]] + todo[1..][..n - 1];
  }

  lemma Stopping(c: Config, s: State, w: int, all: bool) returns (t: State)
    requires !s.cancelled && w in s.batches && (all ==> s.batches[w].todo == [])
    ensures Run(c, s, StopEvents(w, all), t)
    ensures SameElse(s, t, w) && t.cancelled == !all && t.h == s.h && w in t.batches
    ensures t.batches[w] == s.batches[w].(todo := [])
  {
    if all {
      t := s;
      RunNothing(c, s);
    } else {
      var s1 := Next(c, s, Cancel);
      t := Next(c, s1, Break(w));
      RunNothing(c, t);
      RunFirst(c, s1, Break(w), [], t);
      RunFirst(c, s, Cancel, [Break(w)], t);
      assert [Cancel] + [Break(w)] == [Cancel, Break(w)] && [Break(w)] + [] == [Break(w)];
    }
  }

  lemma OneFinishes(c: Config, s: State, w: int, ms: seq<Message>, results: seq<Handled>, order: seq<nat>) returns (t: State)
    requires Distinct(ms) && |results| <= |ms| && order != [] && Below(order, |results|)
    requires forall i, j | 0 <= i < j < |order| :: order[i] != order[j]
    requires w in s.batches && s.batches[w].todo == [] && s.batches[w].running == At(ms, order)
    ensures var e := Finish(w, ms[order[0]], results[order[0]]); Enabled(c, s, e) && t == Next(c, s, e)
    ensures SameElse(s, t, w) && t.cancelled == s.cancelled && w in t.batches
    ensures t.batches[w] == Batch([], At(ms, order[1..]), s.batches[w].acks + AcksAt(ms, results, [order[0]]))
    ensures (forall i | i in order :: results[i] != ReturnedNil) ==> t.h == s.h
  {
    var i := order[0];
    var m := ms[i];
    assert order == [i] + order[1..];
    t := FinishStep(s, w, m, results[i]);
    assert At(ms, order) - {m} == At(ms, order[1..]) by {
      forall j | j in order[1..] ensures ms[j] != m { assert ms[j].id != m.id; }
    }
    assert AcksAt(ms, results, [i]) == if Done(m.body, results[i]) then {m.id} else {};
  }

  lemma AcksSplit(ms: seq<Message>, results: seq<Handled>, order: seq<nat>)
    requires |results| <= |ms| && Below(order, |results|) && order != []
    ensures AcksAt(ms, results, order) == AcksAt(ms, results, [order[0]]) + AcksAt(ms, results, order[1..])
  {
    assert order == [order[0]] + order[1..];
  }

  lemma NoneAt(ms: seq<Message>, results: seq<Handled>)
    requires |results| <= |ms|
    ensures AcksAt(ms, results, []) == {} && At(ms, []) == {}
  {
  }

  lemma SameElseTrans(s: State, t: State, u: State, w: int)
    requires SameElse(s, t, w) && SameElse(t, u, w)
    ensures SameElse(s, u, w)
  {
  }

  lemma SameElseItself(s: State, w: int)
    ensures SameElse(s, s, w)
  {
  }

  lemma {:induction false} Finishing(c: Config, s: State, w: int, ms: seq<Message>, results: seq<Handled>, order: seq<nat>)
      returns (t: State)
    requires Distinct(ms) && |results| <= |ms| && Below(order, |results|)
    requires forall i, j | 0 <= i < j < |order| :: order[i] != order[j]
    requires w in s.batches && s.batches[w].todo == [] && s.batches[w].running == At(ms, order)
    ensures Run(c, s, FinishEvents(w, ms, results, order), t)
    ensures SameElse(s, t, w) && t.cancelled == s.cancelled && w in t.batches
    ensures t.batches[w] == Batch([], {}, s.batches[w].acks + AcksAt(ms, results, order))
    ensures (forall i | i in order :: results[i] != ReturnedNil) ==> t.h == s.h
    decreases |order|
  {
    var acks := s.batches[w].acks;
    hide Run, Next, Enabled, At, Distinct, AcksAt, SameElse;
    if order == [] {
      t := s;
      RunNothing(c, s);
      NoneAt(ms, results);
      SameElseItself(s, w);
    } else {
      var s1 := OneFinishes(c, s, w, ms, results, order);
      t := Finishing(c, s1, w, ms, results, order[1..]);
      FinishingGoesOn(c, s, s1, t, w, ms, results, order);
      assert forall i | i in order[1..] :: i in order;
    }
  }

  lemma FinishingGoesOn(c: Config, s: State, s1: State, t: State, w: int, ms: seq<Message>, results: seq<Handled>, order: seq<nat>)
    requires |results| <= |ms| && order != [] && Below(order, |results|)
    requires var e := Finish(w, ms[order[0]], results[order[0]]); Enabled(c, s, e) && s1 == Next(c, s, e)
    requires SameElse(s, s1, w) && w in s.batches && w in s1.batches
    requires s1.batches[w].acks == s.batches[w].acks + AcksAt(ms, results, [order[0]])
    requires Run(c, s1, FinishEvents(w, ms, results, order[1..]), t) && SameElse(s1, t, w) && w in t.batches
    requires t.batches[w] == Batch([], {}, s1.batches[w].acks + AcksAt(ms, results, order[1..]))
    ensures Run(c, s, FinishEvents(w, ms, results, order), t) && SameElse(s, t, w)
    ensures t.batches[w] == Batch([], {}, s.batches[w].acks + AcksAt(ms, results, order))
  {
    hide Run, Next, Enabled, AcksAt, SameElse;
    RunFirst(c, s, Finish(w, ms[order[0]], results[order[0]]), FinishEvents(w, ms, results, order[1..]), t);
    SameElseTrans(s, s1, t, w);
    AcksSplit(ms, results, order);
  }

  lemma AcksInOrder(ms: seq<Message>, results: seq<Handled>, order: seq<nat>)
    requires |results| <= |ms| && IsOrder(order, |results|)
    ensures AcksAt(ms, results, order) == AckSet(ms[..|results|], results)
    ensures At(ms, order) == All(ms[..|results|])
  {
    var n := |results|;
    forall m | m in ms[..n] ensures m in At(ms, order) {
      var i: nat :| i < n && ms[..n][i] == m;
      assert i in order;
    }
  }

  /**
   What ProcessBatchConcurrently leaves behind is what a run of the step machine leaves, in which the started
   messages finish in any order and the batch is cancelled when not all of it was started.
   */
  lemma BatchIsARun(c: Config, s: State, w: int, ms: seq<Message>, results: seq<Handled>, order: seq<nat>, how: Reached)
      returns (t: State)
    requires !s.cancelled && w in s.batches && s.batches[w] == Batch(ms, {}, {}) && Distinct(ms)
    requires |results| <= |ms| && IsOrder(order, |results|)
    ensures Run(c, s, BatchEvents(w, ms, results, order, how), t)
    ensures t.q == Acknowledge(s.q, AckSet(ms[..|results|], results), how) && w !in t.batches
    ensures t.now == s.now && t.reclaimer == s.reclaimer && (t.cancelled <==> |results| < |ms|)
    ensures t.h.sent == s.h.sent && t.h.deliveries == s.h.deliveries
    ensures t.h.fates == if how == Nothing then s.h.fates
                         else RecordFates(s.h.fates, AckSet(ms[..|results|], results), AckFate(s.h.sent))
    ensures t.batches.Keys == s.batches.Keys - {w}
  {
    hide Run, AckSet, At, All, AcksAt, IsOrder, Distinct, StartEvents, FinishEvents, StopEvents;
    var all := |results| == |ms|;
    AcksInOrder(ms, results, order);
    var s1 := Starting(c, s, w, |results|);
    var s2 := Stopping(c, s1, w, all);
    var s3 := FinishesAll(c, s2, w, ms, results, order);
    SameElseTrans(s, s1, s2, w);
    SameElseTrans(s, s2, s3, w);
    SameKeys(s, s3, w);
    t := Acknowledging(c, s3, w, how);
    assert Below(order, |results|) by { OrderIsBelow(order, |results|); }
    BatchRuns(c, s, s1, s2, s3, t, w, ms, results, order, how);
  }

  lemma OrderIsBelow(order: seq<nat>, n: nat)
    requires IsOrder(order, n)
    ensures Below(order, n)
  {
  }

  lemma FinishesAll(c: Config, s: State, w: int, ms: seq<Message>, results: seq<Handled>, order: seq<nat>) returns (t: State)
    requires Distinct(ms) && |results| <= |ms| && IsOrder(order, |results|)
    requires w in s.batches && s.batches[w] == Batch([], All(ms[..|results|]), {})
    ensures Run(c, s, FinishEvents(w, ms, results, order), t)
    ensures SameElse(s, t, w) && t.cancelled == s.cancelled && w in t.batches
    ensures t.batches[w] == Batch([], {}, AckSet(ms[..|results|], results))
    ensures (forall r | r in results :: r != ReturnedNil) ==> t.h == s.h
  {
    AcksInOrder(ms, results, order);
    t := Finishing(c, s, w, ms, results, order);
    assert {} + AckSet(ms[..|results|], results) == AckSet(ms[..|results|], results);
    assert forall i | i in order :: results[i] in results;
  }

  lemma SameKeys(s: State, t: State, w: int)
    requires SameElse(s, t, w) && w in s.batches && w in t.batches
    ensures t.batches.Keys == s.batches.Keys
  {
    forall v ensures v in t.batches <==> v in s.batches { if v != w { } }
  }

  lemma Acknowledging(c: Config, s: State, w: int, how: Reached) returns (t: State)
    requires w in s.batches && s.batches[w].todo == [] && s.batches[w].running == {}
    ensures Run(c, s, [AckBatch(w, how)], t)
    ensures t == AckStep(s, s.batches[w].acks, how, AckFate(s.h.sent)).(batches := s.batches - {w})
  {
    t := Next(c, s, AckBatch(w, how));
    hide Next, Enabled;
    assert Enabled(c, s, AckBatch(w, how)) by { CanAcknowledge(c, s, w, how); }
    RunNothing(c, t);
    RunFirst(c, s, AckBatch(w, how), [], t);
    assert [AckBatch(w, how)] + [] == [AckBatch(w, how)];
  }

  lemma CanAcknowledge(c: Config, s: State, w: int, how: Reached)
    requires w in s.batches && s.batches[w].todo == [] && s.batches[w].running == {}
    ensures Enabled(c, s, AckBatch(w, how))
  {
  }

  lemma BatchRuns(c: Config, s: State, s1: State, s2: State, s3: State, t: State,
                  w: int, ms: seq<Message>, results: seq<Handled>, order: seq<nat>, how: Reached)
    requires |results| <= |ms| && Below(order, |results|)
    requires Run(c, s, StartEvents(w, |results|), s1) && Run(c, s1, StopEvents(w, |results| == |ms|), s2)
    requires Run(c, s2, FinishEvents(w, ms, results, order), s3) && Run(c, s3, [AckBatch(w, how)], t)
    ensures Run(c, s, BatchEvents(w, ms, results, order, how), t)
  {
    hide Run, StartEvents, FinishEvents, StopEvents;
    var all := |results| == |ms|;
    RunConcat(c, s2, FinishEvents(w, ms, results, order), s3, [AckBatch(w, how)], t);
    RunConcat(c, s1, StopEvents(w, all), s2, FinishEvents(w, ms, results, order) + [AckBatch(w, how)], t);
    RunConcat(c, s, StartEvents(w, |results|), s1, StopEvents(w, all) + (FinishEvents(w, ms, results, order) + [AckBatch(w, how)]), t);
  }

  /** The messages of a read or a claim have distinct ids. */
  lemma MessagesAreDistinct(q: Stream, ids: seq<nat>)
    requires forall i, j | 0 <= i < j < |ids| :: ids[i] < ids[j]
    ensures Distinct(Messages(q, ids))
  {
    if ids != [] {
      MessagesAreDistinct(q, ids[1..]);
      var rest := Messages(q, ids[1..]);
      forall j | 0 <= j < |rest| ensures rest[j].id > ids[0] {
        assert rest[j] in rest;
        var k :| 0 <= k < |ids[1..]| && ids[1..][k] == rest[j].id;
        assert ids[k + 1] == rest[j].id;
      }
    }
  }
}
