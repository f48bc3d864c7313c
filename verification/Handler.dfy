/**
 The message handler: parse, filter, marshal, send; and what its nil answers guarantee.

 Handlers of different messages run at once and share the filter, so a call is described with the memory
 the filter had at each of its records.  EndToEnd joins this with the queue: whatever the queue removed
 because the handler answered nil has all its movements in payloads that some destination accepted.
 */
module Handler {
  import opened Options
  import opened Filtering
  import Sender
  import Stream
  import Queue
  import QueueRuns

  /** What parsing makes of a message; invalid records are stored elsewhere. */
  datatype ParseOutcome = ParseError | Parsed(records: seq<Record>)

  // ---------- one call ----------

  /** The filter's output when other handlers may change its memory between records. */
  function FilteredUnder(memories: seq<Memory>, rs: seq<Record>): (kept: seq<Record>)
    requires |memories| == |rs|
    ensures forall r | r in kept :: r in rs
  {
    if rs == [] then []
    else (if Redundant(memories[0], rs[0]) then [] else [rs[0]]) + FilteredUnder(memories[1..], rs[1..])
  }

  function FilterOutput(enabled: bool, memories: seq<Memory>, rs: seq<Record>): seq<Record>
    requires |memories| == |rs|
  {
    if enabled then FilteredUnder(memories, rs) else rs
  }

  /** A call: its message, the memories its records met, whether its payload could be marshalled, and
      whether the send succeeded. */
  datatype Call = Call(data: string, memories: seq<Memory>, marshals: bool, accepted: bool)

  predicate Fits(parse: string -> ParseOutcome, c: Call) {
    parse(c.data).Parsed? ==> |c.memories| == |parse(c.data).records|
  }

  /** The payload of a call, when it gets as far as sending one. */
  function PayloadOf(enabled: bool, parse: string -> ParseOutcome, c: Call): Option<seq<Record>>
    requires Fits(parse, c)
  {
    match parse(c.data)
    case ParseError => None
    case Parsed(records) =>
      if records == [] then None
      else
        var filtered := FilterOutput(enabled, c.memories, records);
        if filtered == [] || !c.marshals then None else Some(filtered)
  }

  /** Whether the handler answers nil: when there is nothing to send, or the send succeeded. */
  predicate AnswersNil(enabled: bool, parse: string -> ParseOutcome, c: Call)
    requires Fits(parse, c)
  {
    PayloadOf(enabled, parse, c).None? || c.accepted
  }

  // ---------- what nil means ----------

  /** Some occurrence of a record met a memory that did not make it redundant. */
  ghost predicate PassesFilter(memories: seq<Memory>, rs: seq<Record>, r: Record)
    requires |memories| == |rs|
  {
    exists k :: 0 <= k < |rs| && rs[k] == r && !Redundant(memories[k], rs[k])
  }

  lemma {:induction false} FilteredExactly(memories: seq<Memory>, rs: seq<Record>, r: Record)
    requires |memories| == |rs|
    ensures r in FilteredUnder(memories, rs) <==> PassesFilter(memories, rs, r)
    decreases |rs|
  {
    if rs != [] {
      FilteredExactly(memories[1..], rs[1..], r);
      if PassesFilter(memories, rs, r) {
        var k :| 0 <= k < |rs| && rs[k] == r && !Redundant(memories[k], rs[k]);
        if k > 0 { assert rs[1..][k - 1] == r && memories[1..][k - 1] == memories[k]; }
      }
      if PassesFilter(memories[1..], rs[1..], r) {
        var k :| 0 <= k < |rs[1..]| && rs[1..][k] == r && !Redundant(memories[1..][k], rs[1..][k]);
        assert rs[k + 1] == r && memories[k + 1] == memories[1..][k];
      }
    }
  }

  /** Whether a call sends a record on: its message holds it, and with the filter on it is not a repeated
      stoppage everywhere it occurs. */
  ghost predicate Passes(enabled: bool, parse: string -> ParseOutcome, c: Call, r: Record)
    requires Fits(parse, c)
  {
    match parse(c.data)
    case ParseError => false
    case Parsed(records) => if enabled then PassesFilter(c.memories, records, r) else r in records
  }

  /** The call sent a payload with this record and it was accepted. */
  predicate Accepts(enabled: bool, parse: string -> ParseOutcome, c: Call, r: Record)
    requires Fits(parse, c)
  {
    c.accepted && PayloadOf(enabled, parse, c).Some? && r in PayloadOf(enabled, parse, c).value
  }

  /** A call that answers nil had a record accepted exactly when the record passed and the payload could be marshalled. */
  lemma {:induction false} NilMeansAccepted(enabled: bool, parse: string -> ParseOutcome, c: Call, r: Record)
    requires Fits(parse, c) && AnswersNil(enabled, parse, c)
    ensures Accepts(enabled, parse, c, r) <==> c.marshals && Passes(enabled, parse, c, r)
  {
    if parse(c.data).Parsed? {
      var rs := parse(c.data).records;
      FilteredExactly(c.memories, rs, r);
      assert r in FilterOutput(enabled, c.memories, rs) <==> Passes(enabled, parse, c, r);
    }
  }

  /** The handler answers nil exactly when the send succeeded, the payload could not be marshalled, or no record
      passed: in particular when the message does not parse or holds no records. */
  lemma {:induction false} NilExactly(enabled: bool, parse: string -> ParseOutcome, c: Call)
    requires Fits(parse, c)
    ensures AnswersNil(enabled, parse, c) <==> c.accepted || !c.marshals || forall r :: !Passes(enabled, parse, c, r)
  {
    if parse(c.data).Parsed? {
      var rs := parse(c.data).records;
      var out := FilterOutput(enabled, c.memories, rs);
      forall r ensures r in out <==> Passes(enabled, parse, c, r) { FilteredExactly(c.memories, rs, r); }
      if out != [] { assert Passes(enabled, parse, c, out[0]); }
    }
  }

  /** Movements always pass, and with the filter off so does every record. */
  lemma {:induction false} MovementsPass(enabled: bool, parse: string -> ParseOutcome, c: Call, r: Record)
    requires Fits(parse, c) && parse(c.data).Parsed? && r in parse(c.data).records && (!enabled || r.speed != 0)
    ensures Passes(enabled, parse, c, r)
  {
    var rs := parse(c.data).records;
    var k :| 0 <= k < |rs| && rs[k] == r;
    assert enabled ==> !Redundant(c.memories[k], rs[k]);
  }

  /** Alone, a call meets the memories that its own records leave. */
  function MemoriesAlone(m: Memory, rs: seq<Record>): (ms: seq<Memory>)
    ensures |ms| == |rs|
    decreases |rs|
  {
    if rs == [] then [] else [m] + MemoriesAlone(Remember(m, rs[0]), rs[1..])
  }

  lemma {:induction false} AloneIsFiltered(m: Memory, rs: seq<Record>)
    ensures FilteredUnder(MemoriesAlone(m, rs), rs) == Filtered(m, rs)
    decreases |rs|
  {
    if rs != [] {
      var rest := MemoriesAlone(Remember(m, rs[0]), rs[1..]);
      AloneIsFiltered(Remember(m, rs[0]), rs[1..]);
      assert ([m] + rest)[1..] == rest;
    }
  }

  // ---------- runs ----------

  /** The payloads that some destination accepted, over a list of calls. */
  function AcceptedPayloads(enabled: bool, parse: string -> ParseOutcome, calls: seq<Call>): seq<seq<Record>>
    requires forall i | 0 <= i < |calls| :: Fits(parse, calls[i])
  {
    if calls == [] then []
    else
      var payload := PayloadOf(enabled, parse, calls[0]);
      (if payload.Some? && calls[0].accepted then [payload.value] else []) + AcceptedPayloads(enabled, parse, calls[1..])
  }

  lemma {:induction false} PayloadIsAccepted(enabled: bool, parse: string -> ParseOutcome, calls: seq<Call>, k: nat)
    requires forall i | 0 <= i < |calls| :: Fits(parse, calls[i])
    requires k < |calls| && calls[k].accepted && PayloadOf(enabled, parse, calls[k]).Some?
    ensures PayloadOf(enabled, parse, calls[k]).value in AcceptedPayloads(enabled, parse, calls)
    decreases |calls|
  {
    if k > 0 {
      assert calls[1..][k - 1] == calls[k];
      PayloadIsAccepted(enabled, parse, calls[1..], k - 1);
    }
  }

  /** Some call on this data answered nil. */
  ghost predicate Answered(enabled: bool, parse: string -> ParseOutcome, calls: seq<Call>, data: string)
    requires forall i | 0 <= i < |calls| :: Fits(parse, calls[i])
  {
    exists i :: 0 <= i < |calls| && calls[i].data == data && AnswersNil(enabled, parse, calls[i])
  }

  /** The queue's run took its nil answers from these calls. */
  ghost predicate Backed(enabled: bool, parse: string -> ParseOutcome, calls: seq<Call>, es: seq<Queue.Event>)
    requires forall i | 0 <= i < |calls| :: Fits(parse, calls[i])
  {
    forall k | 0 <= k < |es| && es[k].Finish? && es[k].result == Queue.ReturnedNil && es[k].m.body.Payload? ::
      Answered(enabled, parse, calls, es[k].m.body.data)
  }

  /** Every message the queue believes handled is one that a call answered. */
  ghost predicate NilsAnswered(enabled: bool, parse: string -> ParseOutcome, calls: seq<Call>, s: Queue.State)
    requires forall i | 0 <= i < |calls| :: Fits(parse, calls[i])
  {
    forall id | id in s.h.nils ::
      id < |s.h.sent| && s.h.sent[id].Payload? && Answered(enabled, parse, calls, s.h.sent[id].data)
  }

  lemma MoreAnswered(enabled: bool, parse: string -> ParseOutcome, calls: seq<Call>, s: Queue.State, t: Queue.State, more: set<nat>)
    requires forall i | 0 <= i < |calls| :: Fits(parse, calls[i])
    requires NilsAnswered(enabled, parse, calls, s) && s.h.sent <= t.h.sent && t.h.nils == s.h.nils + more
    requires forall id | id in more ::
               id < |t.h.sent| && t.h.sent[id].Payload? && Answered(enabled, parse, calls, t.h.sent[id].data)
    ensures NilsAnswered(enabled, parse, calls, t)
  {
    hide Answered;
    forall id | id in s.h.nils ensures id < |t.h.sent| && t.h.sent[id] == s.h.sent[id] { }
  }

  lemma {:induction false} StepAnswers(q: Queue.Config, enabled: bool, parse: string -> ParseOutcome, calls: seq<Call>,
                                       s: Queue.State, e: Queue.Event)
    requires forall i | 0 <= i < |calls| :: Fits(parse, calls[i])
    requires Queue.Ledger(q, s) && Queue.Enabled(q, s, e)
    requires NilsAnswered(enabled, parse, calls, s) && Backed(enabled, parse, calls, [e])
    ensures NilsAnswered(enabled, parse, calls, Queue.Next(q, s, e))
  {
    Queue.NilsAfter(q, s, e);
    assert [e][0] == e;
    hide Queue.Ledger, Queue.Next, Queue.Enabled, Answered, NilsAnswered;
    var t := Queue.Next(q, s, e);
    if e.Finish? && e.m.body.Payload? && e.result == Queue.ReturnedNil {
      Queue.FinishedWasSent(q, s, e);
      MoreAnswered(enabled, parse, calls, s, t, {e.m.id});
    } else {
      MoreAnswered(enabled, parse, calls, s, t, {});
    }
  }

  lemma {:induction false} RunAnswers(q: Queue.Config, enabled: bool, parse: string -> ParseOutcome, calls: seq<Call>,
                                      s: Queue.State, es: seq<Queue.Event>, t: Queue.State)
    requires forall i | 0 <= i < |calls| :: Fits(parse, calls[i])
    requires Queue.Ledger(q, s) && NilsAnswered(enabled, parse, calls, s)
    requires Queue.Run(q, s, es, t) && Backed(enabled, parse, calls, es)
    ensures NilsAnswered(enabled, parse, calls, t)
    decreases |es|
  {
    if es != [] {
      hide Answered, NilsAnswered, Queue.Ledger, Queue.Next, Queue.Enabled;
      assert Backed(enabled, parse, calls, [es[0]]);
      assert Backed(enabled, parse, calls, es[1..]) by { assert forall k | 0 <= k < |es[1..]| :: es[1..][k] == es[k + 1]; }
      StepAnswers(q, enabled, parse, calls, s, es[0]);
      Queue.StepKeepsTheLedger(q, s, es[0]);
      RunAnswers(q, enabled, parse, calls, Queue.Next(q, s, es[0]), es[1..], t);
    }
  }

  /** Some call on this data had the record accepted. */
  ghost predicate Delivered(enabled: bool, parse: string -> ParseOutcome, calls: seq<Call>, data: string, r: Record)
    requires forall i | 0 <= i < |calls| :: Fits(parse, calls[i])
  {
    exists i :: 0 <= i < |calls| && calls[i].data == data && Accepts(enabled, parse, calls[i], r)
  }

  /** Some call on this data answered nil after it marshalled a payload that the record had passed into. */
  ghost predicate PassedAndAnswered(enabled: bool, parse: string -> ParseOutcome, calls: seq<Call>, data: string, r: Record)
    requires forall i | 0 <= i < |calls| :: Fits(parse, calls[i])
  {
    exists i :: 0 <= i < |calls| && calls[i].data == data && AnswersNil(enabled, parse, calls[i]) && calls[i].marshals &&
      Passes(enabled, parse, calls[i], r)
  }

  /** Over any calls, a record of a message is accepted exactly when it passed in a call that answered nil. */
  lemma {:induction false} DeliveredExactly(enabled: bool, parse: string -> ParseOutcome, calls: seq<Call>, data: string, r: Record)
    requires forall i | 0 <= i < |calls| :: Fits(parse, calls[i])
    ensures Delivered(enabled, parse, calls, data, r) <==> PassedAndAnswered(enabled, parse, calls, data, r)
    ensures Delivered(enabled, parse, calls, data, r) ==> exists p :: p in AcceptedPayloads(enabled, parse, calls) && r in p
  {
    forall i | 0 <= i < |calls| && AnswersNil(enabled, parse, calls[i])
      ensures Accepts(enabled, parse, calls[i], r) <==> calls[i].marshals && Passes(enabled, parse, calls[i], r)
    {
      NilMeansAccepted(enabled, parse, calls[i], r);
    }
    hide Passes, PayloadOf;
    if Delivered(enabled, parse, calls, data, r) {
      var i: nat :| i < |calls| && calls[i].data == data && Accepts(enabled, parse, calls[i], r);
      PayloadIsAccepted(enabled, parse, calls, i);
    }
  }

  /**
   In every run of the queue over these handler calls, a message that was removed because the handler answered
   nil was answered nil by some call, and that call had a record accepted exactly when the record passed its
   filter and its payload could be marshalled.  So when payloads can be marshalled, each movement of the
   message, and with the filter off each record, was accepted.
   */
  lemma {:induction false} EndToEnd(q: Queue.Config, enabled: bool, parse: string -> ParseOutcome, calls: seq<Call>,
                 es: seq<Queue.Event>, t: Queue.State, id: nat, r: Record)
      returns (i: nat)
    requires forall i | 0 <= i < |calls| :: Fits(parse, calls[i])
    requires Queue.Run(q, Queue.INITIAL, es, t) && Backed(enabled, parse, calls, es)
    requires id in t.h.fates && t.h.fates[id] == Queue.Acked(Queue.HandlerReturnedNil)
    requires id < |t.h.sent| && t.h.sent[id].Payload?
    ensures i < |calls| && calls[i].data == t.h.sent[id].data && AnswersNil(enabled, parse, calls[i])
    ensures Accepts(enabled, parse, calls[i], r) <==> calls[i].marshals && Passes(enabled, parse, calls[i], r)
    ensures var parsed := parse(t.h.sent[id].data);
            calls[i].marshals && parsed.Parsed? && r in parsed.records && (!enabled || r.speed != 0) ==>
              exists p :: p in AcceptedPayloads(enabled, parse, calls) && r in p
  {
    Queue.RunsKeepTheLedger(q, es, t);
    assert Queue.Justified(q, t.h, id);
    assert Queue.Ledger(q, Queue.INITIAL);
    RunAnswers(q, enabled, parse, calls, Queue.INITIAL, es, t);
    var data := t.h.sent[id].data;
    assert Answered(enabled, parse, calls, data);
    i :| i < |calls| && calls[i].data == data && AnswersNil(enabled, parse, calls[i]);
    NilMeansAccepted(enabled, parse, calls[i], r);
    if calls[i].marshals && parse(data).Parsed? && r in parse(data).records && (!enabled || r.speed != 0) {
      MovementsPass(enabled, parse, calls[i], r);
      PayloadIsAccepted(enabled, parse, calls, i);
    }
  }

  // ---------- a lost record ----------

  /** A send that fails leaves a stoppage remembered, and the redelivered message is answered nil without being sent. */
  lemma {:induction false} RedeliveryIsNotSent(parse: string -> ParseOutcome, data: string, r: Record)
    requires parse(data) == Parsed([r]) && r.speed == 0
    ensures var first := Call(data, MemoriesAlone(map[], [r]), true, false);
            var again := Call(data, MemoriesAlone(RememberAll(map[], [r]), [r]), true, false);
            && Fits(parse, first) && !AnswersNil(true, parse, first)
            && Fits(parse, again) && AnswersNil(true, parse, again) && PayloadOf(true, parse, again).None?
  {
    assert [r][1..] == [];
    assert RememberAll(map[], [r]) == map[r.imei := true];
    AloneIsFiltered(map[], [r]);
    AloneIsFiltered(map[r.imei := true], [r]);
    assert Filtered(map[], [r]) == [r] && Filtered(map[r.imei := true], [r]) == [];
  }

  /**
   So a stoppage can be lost: with the filter on and any limit on deliveries from two on, or none, there is a run of
   the queue in which every call to the queue succeeds, its two handler calls are a failed send and the call on the
   message's redelivery, the message is removed for a nil answer, and no destination accepted anything.
   */
  lemma {:induction false} StoppagesCanBeLost(q: Queue.Config, parse: string -> ParseOutcome, data: string, r: Record)
      returns (calls: seq<Call>, t: Queue.State)
    requires q.batchSize >= 1 && q.maxRetries != 1 && parse(data) == Parsed([r]) && r.speed == 0
    ensures calls == [Call(data, MemoriesAlone(map[], [r]), true, false),
                      Call(data, MemoriesAlone(RememberAll(map[], [r]), [r]), true, false)]
    ensures (forall i | 0 <= i < |calls| :: Fits(parse, calls[i])) && !AnswersNil(true, parse, calls[0])
    ensures var es := QueueRuns.RedeliveryEvents(q, data);
            && Queue.Run(q, Queue.INITIAL, es, t) && Backed(true, parse, calls, es)
            && forall e | e in es :: QueueRuns.Succeeds(e)
    ensures t.h.sent == [Stream.Payload(data)] && 0 in t.h.fates
    ensures t.h.fates[0] == Queue.Acked(Queue.HandlerReturnedNil) && AcceptedPayloads(true, parse, calls) == []
  {
    hide Queue.Run, QueueRuns.RedeliveryEvents;
    var first := Call(data, MemoriesAlone(map[], [r]), true, false);
    var again := Call(data, MemoriesAlone(RememberAll(map[], [r]), [r]), true, false);
    calls := [first, again];
    RedeliveryIsNotSent(parse, data, r);
    t := QueueRuns.RedeliveredAndAcknowledged(q, data);
    assert Answered(true, parse, calls, data) by { assert calls[1] == again; }
    assert calls[1..] == [again] && [again][1..] == [];
    assert AcceptedPayloads(true, parse, [again]) == [];
  }

  // ---------- the handler itself ----------

  class Handler {
    const filter: StoppageFilter
    const sender: Sender.HTTPSender
    var accepted: seq<seq<Record>>

    constructor (filter: StoppageFilter, sender: Sender.HTTPSender)
      ensures this.filter == filter && this.sender == sender && accepted == []
    {
      this.filter, this.sender, accepted := filter, sender, [];
    }

    /** One message, with no other handler in between: the filter remembers its records even when the send fails. */
    method Handle(parsed: ParseOutcome, marshals: bool, turns: seq<Sender.Turn>)
        returns (nil: bool, result: Option<Sender.SendResult>)
      requires filter.Valid()
      requires |turns| == sender.maxAttempts && forall t | t in turns :: |t.probes| == |sender.servers|
      modifies this, filter.shards, sender
      ensures filter.Valid()
      ensures var data := "";
              var c := Call(data, if parsed.Parsed? then MemoriesAlone(old(filter.Remembered()), parsed.records) else [],
                            marshals, result.Some? && result.value.Success?);
              var parse := (_: string) => parsed;
              && nil == AnswersNil(filter.enabled, parse, c)
              && (result.Some? <==> PayloadOf(filter.enabled, parse, c).Some?)
              && accepted == (if c.accepted then old(accepted) + [PayloadOf(filter.enabled, parse, c).value] else old(accepted))
      ensures parsed.ParseError? || parsed.records == [] ==> nil && result.None?
      ensures var kept := if parsed.ParseError? then [] else if filter.enabled then Filtered(old(filter.Remembered()), parsed.records)
                          else parsed.records;
              && (result.Some? <==> kept != [] && marshals)
              && (nil <==> result.None? || result.value.Success?)
              && accepted == old(accepted) + if result.Some? && result.value.Success? then [kept] else []
      ensures filter.Remembered() == if parsed.Parsed? && filter.enabled then RememberAll(old(filter.Remembered()), parsed.records)
                                 else old(filter.Remembered())
    {
      if parsed.ParseError? { return true, None; }
      var records := parsed.records;
      if |records| == 0 { return true, None; }
      AloneIsFiltered(filter.Remembered(), records);
      var filteredData := filter.FilterData(records);
      if |filteredData| == 0 { return true, None; }
      if !marshals { return true, None; }
      ghost var memory := filter.Remembered();
      var sent, tries := sender.Send(turns);
      assert filter.Remembered() == memory;
      if sent.Success? {
        accepted := accepted + [filteredData];
        return true, Some(sent);
      }
      return false, Some(sent);
    }
  }
}
