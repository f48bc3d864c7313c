/**
 The forwarder's own methods, updating its buffer and its logs in place; DeliverIsARun shows that a
 delivery is a run of the mirror's steps.
 */
module MirrorForwarder {
  import opened Mirror

  /** How a wait ended: by its timer, or after some time by the close. */
  datatype Wait = Elapsed | Cut(after: nat)

  /** A whole delivery: the replies it got, how long it waited, and whether it ended with acceptance. */
  datatype Course = Course(replies: seq<Reply>, waited: nat, accepted: bool)

  /** The course of a delivery from an attempt on, given every reply and wait that could come. */
  function Delivery(replies: seq<Reply>, waits: seq<Wait>, attempt: nat): Course
    requires |replies| == MAX_ATTEMPTS && |waits| == MAX_ATTEMPTS - 1 && 1 <= attempt <= MAX_ATTEMPTS
    decreases MAX_ATTEMPTS - attempt
  {
    var r := replies[attempt - 1];
    if IsAccepted(r) then Course([r], 0, true)
    else if IsRejected(r) || attempt == MAX_ATTEMPTS then Course([r], 0, false)
    else match waits[attempt - 1]
         case Cut(after) => Course([r], after, false)
         case Elapsed =>
           var rest := Delivery(replies, waits, attempt + 1);
           Course([r] + rest.replies, Backoff(attempt) + rest.waited, rest.accepted)
  }

  function Posts(j: nat, replies: seq<Reply>): seq<Post> {
    if replies == [] then [] else [Post(j, replies[0])] + Posts(j, replies[1..])
  }

  lemma PostsSnoc(j: nat, replies: seq<Reply>, r: Reply)
    ensures Posts(j, replies + [r]) == Posts(j, replies) + [Post(j, r)]
  {
    if replies == [] {
      assert [] + [r] == [r] && [r][1..] == [];
    } else {
      assert (replies + [r])[0] == replies[0] && (replies + [r])[1..] == replies[1..] + [r];
      PostsSnoc(j, replies[1..], r);
    }
  }

  /** A wait that is cut is cut before its timer fires. */
  predicate WaitsFit(waits: seq<Wait>) { forall i | 0 <= i < |waits| && waits[i].Cut? :: waits[i].after <= Backoff(i + 1) }

  /** How long the first k waits take, in milliseconds. */
  function TimeOf(k: nat): nat
    requires k <= 4
  {
    [0, 500, 1500, 3500, 7500][k]
  }

  /** The course from an attempt on: it goes on exactly behind answers that ask for a retry, below the fifth attempt and
      while no wait is cut; it is accepted exactly when its last status is of the two hundreds; and it waits half a second,
      one, two and four seconds, or what was waited up to the cut. */
  predicate Delivers(c: Course, replies: seq<Reply>, waits: seq<Wait>, attempt: nat)
    requires |replies| == 5 && |waits| == 4 && 1 <= attempt <= 5
  {
    var n := |c.replies|;
    && 0 < n <= 6 - attempt && c.replies == replies[attempt - 1..attempt - 1 + n]
    && var last, end := c.replies[n - 1], attempt + n - 1;
       && (c.accepted <==> last.Status? && 200 <= last.code <= 299)
       && (forall i | attempt - 1 <= i < end - 1 :: AsksForRetry(replies[i]) && waits[i].Elapsed?)
       && (AsksForRetry(last) && end < 5 ==> waits[end - 1].Cut?)
       && c.waited == TimeOf(end - 1) - TimeOf(attempt - 1) + if AsksForRetry(last) && end < 5 then waits[end - 1].after else 0
  }

  /** One attempt unfolded. */
  lemma OneAttempt(replies: seq<Reply>, waits: seq<Wait>, attempt: nat)
    requires |replies| == MAX_ATTEMPTS && |waits| == MAX_ATTEMPTS - 1 && 1 <= attempt <= MAX_ATTEMPTS
    ensures var r := replies[attempt - 1];
            var c := Delivery(replies, waits, attempt);
            if !IsRetryable(r) || attempt == MAX_ATTEMPTS then c == Course([r], 0, IsAccepted(r))
            else match waits[attempt - 1]
                 case Cut(after) => c == Course([r], after, false)
                 case Elapsed =>
                   var rest := Delivery(replies, waits, attempt + 1);
                   c == Course([r] + rest.replies, Backoff(attempt) + rest.waited, rest.accepted)
  {
  }

  lemma DeliveryStops(replies: seq<Reply>, waits: seq<Wait>, attempt: nat)
    requires |replies| == 5 && |waits| == 4 && 1 <= attempt <= 5
    requires !IsRetryable(replies[attempt - 1]) || attempt == 5 || waits[attempt - 1].Cut?
    ensures Delivers(Delivery(replies, waits, attempt), replies, waits, attempt)
  {
    OneAttempt(replies, waits, attempt);
    hide Delivery, Backoff;
    assert [replies[attempt - 1]] == replies[attempt - 1..attempt];
  }

  lemma OneLonger(replies: seq<Reply>, k: nat, rest: seq<Reply>)
    requires 0 < |rest| && k + 1 + |rest| <= |replies| && rest == replies[k + 1..k + 1 + |rest|]
    ensures var all := [replies[k]] + rest;
            |all| == |rest| + 1 && all[|rest|] == rest[|rest| - 1] && all == replies[k..k + 1 + |rest|]
  {
  }

  lemma CourseGoesOn(c: Course, rest: Course, replies: seq<Reply>, waits: seq<Wait>, attempt: nat)
    requires |replies| == 5 && |waits| == 4 && 1 <= attempt < 5
    requires AsksForRetry(replies[attempt - 1]) && waits[attempt - 1].Elapsed? && Delivers(rest, replies, waits, attempt + 1)
    requires c == Course([replies[attempt - 1]] + rest.replies, TimeOf(attempt) - TimeOf(attempt - 1) + rest.waited, rest.accepted)
    ensures Delivers(c, replies, waits, attempt)
  {
    hide TimeOf, AsksForRetry;
    OneLonger(replies, attempt - 1, rest.replies);
  }

  lemma DeliveryGoesOn(replies: seq<Reply>, waits: seq<Wait>, attempt: nat)
    requires |replies| == 5 && |waits| == 4 && 1 <= attempt < 5
    requires IsRetryable(replies[attempt - 1]) && waits[attempt - 1].Elapsed?
    requires Delivers(Delivery(replies, waits, attempt + 1), replies, waits, attempt + 1)
    ensures Delivers(Delivery(replies, waits, attempt), replies, waits, attempt)
  {
    OneAttempt(replies, waits, attempt);
    BackoffIs(attempt);
    assert AsksForRetry(replies[attempt - 1]);
    hide *;
    CourseGoesOn(Delivery(replies, waits, attempt), Delivery(replies, waits, attempt + 1), replies, waits, attempt);
  }

  lemma BackoffIs(attempt: nat)
    requires 1 <= attempt < 5
    ensures Backoff(attempt) == TimeOf(attempt) - TimeOf(attempt - 1)
  {
    assert Backoff(2) == 1000 && Backoff(3) == 2000 && Backoff(4) == 4000;
  }

  /** A delivery ends with the first final answer; before it stand answers that ask for a retry. */
  lemma {:induction false} DeliveryEnds(replies: seq<Reply>, waits: seq<Wait>, attempt: nat)
    requires |replies| == 5 && |waits| == 4 && 1 <= attempt <= 5
    ensures Delivers(Delivery(replies, waits, attempt), replies, waits, attempt)
    decreases 5 - attempt
  {
    hide *;
    if !IsRetryable(replies[attempt - 1]) || attempt == 5 || waits[attempt - 1].Cut? {
      DeliveryStops(replies, waits, attempt);
    } else {
      DeliveryEnds(replies, waits, attempt + 1);
      DeliveryGoesOn(replies, waits, attempt);
    }
  }

  /** A course is some replies and waits and then what remains of it. */
  predicate Follows(c: Course, seen: seq<Reply>, waited: nat, rest: Course) {
    c == Course(seen + rest.replies, waited + rest.waited, rest.accepted)
  }

  lemma FollowsNothing(c: Course)
    ensures Follows(c, [], 0, c)
  {
    assert [] + c.replies == c.replies;
  }

  lemma FollowsStep(c: Course, seen: seq<Reply>, waited: nat, r: Reply, wait: nat, rest: Course)
    requires Follows(c, seen, waited, Course([r] + rest.replies, wait + rest.waited, rest.accepted))
    ensures Follows(c, seen + [r], waited + wait, rest)
  {
    assert seen + ([r] + rest.replies) == seen + [r] + rest.replies;
  }

  lemma FollowsEnd(c: Course, seen: seq<Reply>, waited: nat, r: Reply, wait: nat, accepted: bool)
    requires Follows(c, seen, waited, Course([r], wait, accepted))
    ensures c == Course(seen + [r], waited + wait, accepted)
  {
  }

  /** Whether a delivery ends with an attempt and the wait behind it. */
  predicate Ends(r: Reply, attempt: nat, wait: Wait) { !IsRetryable(r) || attempt == MAX_ATTEMPTS || wait.Cut? }

  /** How long it waits behind an attempt. */
  function Pause(r: Reply, attempt: nat, wait: Wait, backoff: nat): nat {
    if !IsRetryable(r) || attempt == MAX_ATTEMPTS then 0 else if wait.Cut? then wait.after else backoff
  }

  function WaitOf(waits: seq<Wait>, attempt: nat): Wait
    requires |waits| == MAX_ATTEMPTS - 1 && 1 <= attempt
  {
    if attempt < MAX_ATTEMPTS then waits[attempt - 1] else Elapsed
  }

  /** An attempt, the wait behind it, whether the delivery ends with these, and how long it waited. */
  predicate IsTurn(replies: seq<Reply>, waits: seq<Wait>, attempt: nat, r: Reply, ended: bool, pause: nat)
    requires |replies| == MAX_ATTEMPTS && |waits| == MAX_ATTEMPTS - 1 && 1 <= attempt <= MAX_ATTEMPTS
  {
    var wait := WaitOf(waits, attempt);
    r == replies[attempt - 1] && ended == Ends(r, attempt, wait) && pause == Pause(r, attempt, wait, Backoff(attempt))
  }

  lemma TurnEnds(c: Course, seen: seq<Reply>, waited: nat, replies: seq<Reply>, waits: seq<Wait>, attempt: nat, r: Reply, pause: nat)
    requires |replies| == MAX_ATTEMPTS && |waits| == MAX_ATTEMPTS - 1 && 1 <= attempt <= MAX_ATTEMPTS
    requires Follows(c, seen, waited, Delivery(replies, waits, attempt)) && IsTurn(replies, waits, attempt, r, true, pause)
    ensures c == Course(seen + [r], waited + pause, IsAccepted(r))
  {
    OneAttempt(replies, waits, attempt);
    hide Delivery, Follows, Backoff, IsAccepted, IsRejected;
    FollowsEnd(c, seen, waited, r, pause, IsAccepted(r));
  }

  lemma TurnGoesOn(c: Course, seen: seq<Reply>, waited: nat, replies: seq<Reply>, waits: seq<Wait>, attempt: nat, r: Reply, pause: nat)
    requires |replies| == MAX_ATTEMPTS && |waits| == MAX_ATTEMPTS - 1 && 1 <= attempt <= MAX_ATTEMPTS
    requires Follows(c, seen, waited, Delivery(replies, waits, attempt)) && IsTurn(replies, waits, attempt, r, false, pause)
    ensures attempt < MAX_ATTEMPTS && !IsAccepted(r) && Follows(c, seen + [r], waited + pause, Delivery(replies, waits, attempt + 1))
  {
    OneAttempt(replies, waits, attempt);
    hide Delivery, Follows, Backoff, IsAccepted, IsRejected;
    FollowsStep(c, seen, waited, r, Backoff(attempt), Delivery(replies, waits, attempt + 1));
  }

  // ---------- the books ----------

  /** The jobs delivered and spilled, and every post with its reply. */
  datatype Books = Books(delivered: seq<nat>, spilled: seq<nat>, log: seq<Post>)

  /** The books after an attempt, and after a whole delivery. */
  function Booked(b: Books, j: nat, r: Reply, ended: bool): Books {
    Books(if IsAccepted(r) then b.delivered + [j] else b.delivered,
          if ended && !IsAccepted(r) then b.spilled + [j] else b.spilled,
          b.log + [Post(j, r)])
  }

  function AllBooked(b: Books, j: nat, c: Course): Books {
    Books(if c.accepted then b.delivered + [j] else b.delivered,
          if c.accepted then b.spilled else b.spilled + [j],
          b.log + Posts(j, c.replies))
  }

  /** How far a delivery is: what was seen and waited, and what the books say. */
  predicate Progress(b0: Books, b: Books, j: nat, replies: seq<Reply>, waits: seq<Wait>,
                     attempt: nat, ended: bool, seen: seq<Reply>, waited: nat)
    requires |replies| == MAX_ATTEMPTS && |waits| == MAX_ATTEMPTS - 1 && 1 <= attempt <= MAX_ATTEMPTS
  {
    var c := Delivery(replies, waits, 1);
    if ended then b == AllBooked(b0, j, c) && waited == c.waited
    else b == b0.(log := b0.log + Posts(j, seen)) && Follows(c, seen, waited, Delivery(replies, waits, attempt))
  }

  lemma NoProgress(b: Books, j: nat, replies: seq<Reply>, waits: seq<Wait>)
    requires |replies| == MAX_ATTEMPTS && |waits| == MAX_ATTEMPTS - 1
    ensures Progress(b, b, j, replies, waits, 1, false, [], 0)
  {
    hide Delivery;
    FollowsNothing(Delivery(replies, waits, 1));
    assert b.log + Posts(j, []) == b.log;
  }

  lemma OneTurnProgress(b0: Books, b: Books, j: nat, replies: seq<Reply>, waits: seq<Wait>, attempt: nat, seen: seq<Reply>,
                        waited: nat, r: Reply, ended: bool, pause: nat)
    requires |replies| == MAX_ATTEMPTS && |waits| == MAX_ATTEMPTS - 1 && 1 <= attempt <= MAX_ATTEMPTS
    requires b == b0.(log := b0.log + Posts(j, seen))
    requires Follows(Delivery(replies, waits, 1), seen, waited, Delivery(replies, waits, attempt))
    requires IsTurn(replies, waits, attempt, r, ended, pause)
    ensures !ended ==> attempt < MAX_ATTEMPTS
    ensures Progress(b0, Booked(b, j, r, ended), j, replies, waits, if ended then attempt else attempt + 1, ended,
                     seen + [r], waited + pause)
  {
    hide *;
    OneMoreBooked(b0, b, j, seen, r, waited + pause);
    if ended {
      TurnEnds(Delivery(replies, waits, 1), seen, waited, replies, waits, attempt, r, pause);
      ProgressEnded(b0, Booked(b, j, r, true), j, replies, waits, attempt, seen + [r], waited + pause, IsAccepted(r));
    } else {
      TurnGoesOn(Delivery(replies, waits, 1), seen, waited, replies, waits, attempt, r, pause);
      ProgressGoesOn(b0, Booked(b, j, r, false), j, replies, waits, attempt + 1, seen + [r], waited + pause);
    }
  }

  lemma ProgressEnded(b0: Books, b: Books, j: nat, replies: seq<Reply>, waits: seq<Wait>, attempt: nat,
                      seen: seq<Reply>, waited: nat, accepted: bool)
    requires |replies| == MAX_ATTEMPTS && |waits| == MAX_ATTEMPTS - 1 && 1 <= attempt <= MAX_ATTEMPTS
    requires Delivery(replies, waits, 1) == Course(seen, waited, accepted) && b == AllBooked(b0, j, Course(seen, waited, accepted))
    ensures Progress(b0, b, j, replies, waits, attempt, true, seen, waited)
  {
    hide Delivery, AllBooked;
  }

  lemma ProgressGoesOn(b0: Books, b: Books, j: nat, replies: seq<Reply>, waits: seq<Wait>, attempt: nat, seen: seq<Reply>, waited: nat)
    requires |replies| == MAX_ATTEMPTS && |waits| == MAX_ATTEMPTS - 1 && 1 <= attempt <= MAX_ATTEMPTS
    requires Follows(Delivery(replies, waits, 1), seen, waited, Delivery(replies, waits, attempt))
    requires b == b0.(log := b0.log + Posts(j, seen))
    ensures Progress(b0, b, j, replies, waits, attempt, false, seen, waited)
  {
    hide Delivery, Follows, Posts;
  }

  lemma OneMoreBooked(b0: Books, b: Books, j: nat, seen: seq<Reply>, r: Reply, waited: nat)
    requires b == b0.(log := b0.log + Posts(j, seen))
    ensures !IsAccepted(r) ==> Booked(b, j, r, false) == b0.(log := b0.log + Posts(j, seen + [r]))
    ensures Booked(b, j, r, true) == AllBooked(b0, j, Course(seen + [r], waited, IsAccepted(r)))
  {
    PostsSnoc(j, seen, r);
    assert b0.log + Posts(j, seen) + [Post(j, r)] == b0.log + (Posts(j, seen) + [Post(j, r)]);
    hide Posts, IsAccepted;
  }

  class Forwarder {
    const capacity: nat
    var ch: seq<nat>
    var delivered: seq<nat>
    var spilled: seq<nat>
    var log: seq<Post>

    constructor (capacity: nat)
      ensures this.capacity == capacity && ch == [] && delivered == [] && spilled == [] && log == []
    {
      this.capacity, ch, delivered, spilled, log := capacity, [], [], [], [];
    }

    /** Never blocks: a job goes into the buffer, or to disk when the buffer is full. */
    method Enqueue(j: nat)
      requires |ch| <= capacity
      modifies this`ch, this`spilled
      ensures |ch| <= capacity
      ensures |old(ch)| < capacity ==> ch == old(ch) + [j] && spilled == old(spilled)
      ensures |old(ch)| == capacity ==> ch == old(ch) && spilled == old(spilled) + [j]
    {
      if |ch| < capacity { ch := ch + [j]; } else { Spill(j); }
    }

    method Spill(j: nat)
      modifies this`spilled
      ensures spilled == old(spilled) + [j]
    {
      spilled := spilled + [j];
    }

    function TheBooks(): Books
      reads this
    {
      Books(delivered, spilled, log)
    }

    /** One post and the wait behind it: whether the delivery ends with it, and how long it waited. */
    method Attempt(j: nat, attempt: nat, reply: Reply, wait: Wait, backoff: nat) returns (ended: bool, waited: nat)
      modifies this`delivered, this`spilled, this`log
      ensures ended == Ends(reply, attempt, wait) && waited == Pause(reply, attempt, wait, backoff)
      ensures TheBooks() == Booked(old(TheBooks()), j, reply, ended)
    {
      log := log + [Post(j, reply)];
      if IsAccepted(reply) {
        delivered := delivered + [j];
        return true, 0;
      }
      if IsRejected(reply) || attempt == MAX_ATTEMPTS {
        Spill(j);
        return true, 0;
      }
      match wait {
        case Cut(after) =>
          Spill(j);
          return true, after;
        case Elapsed => return false, backoff;
      }
    }

    method Deliver(j: nat, replies: seq<Reply>, waits: seq<Wait>) returns (waited: nat)
      requires |replies| == MAX_ATTEMPTS && |waits| == MAX_ATTEMPTS - 1
      modifies this`delivered, this`spilled, this`log
      ensures waited == Delivery(replies, waits, 1).waited
      ensures TheBooks() == AllBooked(old(TheBooks()), j, Delivery(replies, waits, 1))
      ensures var c := Delivery(replies, waits, 1);
              && delivered == old(delivered) + (if c.accepted then [j] else [])
              && spilled == old(spilled) + if c.accepted then [] else [j]
    {
      var backoff, attempt, ended := 500, 1, false;
      waited := 0;
      ghost var seen: seq<Reply> := [];
      NoProgress(TheBooks(), j, replies, waits);
      BackoffStarts();
      hide *;
      while !ended
        invariant 1 <= attempt <= MAX_ATTEMPTS
        invariant !ended ==> backoff == Backoff(attempt)
        invariant Progress(old(TheBooks()), TheBooks(), j, replies, waits, attempt, ended, seen, waited)
        decreases !ended, MAX_ATTEMPTS - attempt
      {
        var reply := replies[attempt - 1];
        ghost var before := TheBooks();
        var pause;
        ended, pause := Attempt(j, attempt, reply, WaitOf(waits, attempt), backoff);
        MakeTurn(replies, waits, attempt, reply, ended, pause);
        TurnIsDone(old(TheBooks()), before, TheBooks(), j, replies, waits, attempt, seen, waited, ended, pause);
        seen := seen + [reply];
        waited := waited + pause;
        if !ended {
          BackoffDoubles(attempt);
          backoff := backoff * 2;
          if backoff > 15000 { backoff := 15000; }
          attempt := attempt + 1;
        }
      }
      ProgressEnds(old(TheBooks()), TheBooks(), j, replies, waits, attempt, seen, waited);
      BooksAfter(old(TheBooks()), j, Delivery(replies, waits, 1));
    }
  }

  lemma MakeTurn(replies: seq<Reply>, waits: seq<Wait>, attempt: nat, r: Reply, ended: bool, pause: nat)
    requires |replies| == MAX_ATTEMPTS && |waits| == MAX_ATTEMPTS - 1 && 1 <= attempt <= MAX_ATTEMPTS
    requires var wait := WaitOf(waits, attempt);
             r == replies[attempt - 1] && ended == Ends(r, attempt, wait) && pause == Pause(r, attempt, wait, Backoff(attempt))
    ensures IsTurn(replies, waits, attempt, r, ended, pause)
  {
    hide WaitOf, Ends, Pause, Backoff;
  }

  /** What an attempt of the loop did to the books is a turn of the delivery. */
  lemma TurnIsDone(b0: Books, b: Books, b': Books, j: nat, replies: seq<Reply>, waits: seq<Wait>,
                   attempt: nat, seen: seq<Reply>, waited: nat, ended: bool, pause: nat)
    requires |replies| == MAX_ATTEMPTS && |waits| == MAX_ATTEMPTS - 1 && 1 <= attempt <= MAX_ATTEMPTS
    requires Progress(b0, b, j, replies, waits, attempt, false, seen, waited)
    requires IsTurn(replies, waits, attempt, replies[attempt - 1], ended, pause) && b' == Booked(b, j, replies[attempt - 1], ended)
    ensures !ended ==> attempt < MAX_ATTEMPTS
    ensures Progress(b0, b', j, replies, waits, if ended then attempt else attempt + 1, ended,
                     seen + [replies[attempt - 1]], waited + pause)
  {
    ProgressSoFar(b0, b, j, replies, waits, attempt, seen, waited);
    hide *;
    OneTurnProgress(b0, b, j, replies, waits, attempt, seen, waited, replies[attempt - 1], ended, pause);
  }

  lemma ProgressSoFar(b0: Books, b: Books, j: nat, replies: seq<Reply>, waits: seq<Wait>, attempt: nat, seen: seq<Reply>, waited: nat)
    requires |replies| == MAX_ATTEMPTS && |waits| == MAX_ATTEMPTS - 1 && 1 <= attempt <= MAX_ATTEMPTS
    requires Progress(b0, b, j, replies, waits, attempt, false, seen, waited)
    ensures b == b0.(log := b0.log + Posts(j, seen))
    ensures Follows(Delivery(replies, waits, 1), seen, waited, Delivery(replies, waits, attempt))
  {
    hide Delivery, Follows, Posts;
  }

  lemma ProgressEnds(b0: Books, b: Books, j: nat, replies: seq<Reply>, waits: seq<Wait>, attempt: nat, seen: seq<Reply>, waited: nat)
    requires |replies| == MAX_ATTEMPTS && |waits| == MAX_ATTEMPTS - 1 && 1 <= attempt <= MAX_ATTEMPTS
    requires Progress(b0, b, j, replies, waits, attempt, true, seen, waited)
    ensures b == AllBooked(b0, j, Delivery(replies, waits, 1)) && waited == Delivery(replies, waits, 1).waited
  {
    hide Delivery, AllBooked;
  }

  lemma BooksAfter(b: Books, j: nat, c: Course)
    ensures AllBooked(b, j, c).delivered == b.delivered + if c.accepted then [j] else []
    ensures AllBooked(b, j, c).spilled == b.spilled + if c.accepted then [] else [j]
  {
    hide Posts;
    assert b.delivered + [] == b.delivered && b.spilled + [] == b.spilled;
  }

  lemma BackoffStarts()
    ensures Backoff(1) == 500
  {
  }

  lemma BackoffDoubles(attempt: nat)
    requires attempt >= 1
    ensures Backoff(attempt + 1) == if Backoff(attempt) * 2 > 15000 then 15000 else Backoff(attempt) * 2
  {
  }

  // ---------- a delivery as a run ----------

  function DeliveryEvents(w: nat, replies: seq<Reply>, waits: seq<Wait>, attempt: nat): seq<Event>
    requires |replies| == MAX_ATTEMPTS && |waits| == MAX_ATTEMPTS - 1 && 1 <= attempt <= MAX_ATTEMPTS
    decreases MAX_ATTEMPTS - attempt
  {
    var r := replies[attempt - 1];
    [Answer(w, r)] +
    if !IsRetryable(r) || attempt == MAX_ATTEMPTS then []
    else match waits[attempt - 1]
         case Cut(after) => [Interrupt(w, after)]
         case Elapsed => [Wake(w)] + DeliveryEvents(w, replies, waits, attempt + 1)
  }

  /** What one delivery leaves behind in the machine. */
  predicate Leaves(s: State, t: State, w: nat, j: nat, c: Course) {
    && t.ch == s.ch
    && t.log == s.log + Posts(j, c.replies)
    && t.delivered == (if c.accepted then s.delivered + [j] else s.delivered)
    && t.spilled == (if c.accepted then s.spilled else s.spilled + [j])
    && WaitedBy(t.waited, j) == WaitedBy(s.waited, j) + c.waited
    && w < |t.workers| && (t.workers[w].Looping? || t.workers[w].Draining?)
  }

  lemma RunOne(capacity: nat, s: State, e: Event, es: seq<Event>, t: State)
    requires Enabled(s, e) && Run(capacity, Next(capacity, s, e), es, t)
    ensures Run(capacity, s, [e] + es, t)
  {
    assert ([e] + es)[1..] == es;
  }

  lemma OneReply(j: nat, r: Reply)
    ensures Posts(j, [r]) == [Post(j, r)]
  {
    assert [r][1..] == [];
  }

  lemma OneEvent(capacity: nat, s: State, e: Event)
    requires Enabled(s, e)
    ensures Run(capacity, s, [e], Next(capacity, s, e))
  {
    var t := Next(capacity, s, e);
    assert [e][1..] == [];
    assert Run(capacity, t, [], t);
  }

  lemma MoreReplies(s: State, s2: State, t: State, w: nat, j: nat, r: Reply, wait: nat, rest: Course)
    requires Leaves(s2, t, w, j, rest)
    requires s2.ch == s.ch && s2.delivered == s.delivered && s2.spilled == s.spilled
    requires s2.log == s.log + [Post(j, r)] && WaitedBy(s2.waited, j) == WaitedBy(s.waited, j) + wait
    ensures Leaves(s, t, w, j, Course([r] + rest.replies, wait + rest.waited, rest.accepted))
  {
    PostsFirst(j, r, rest.replies);
    hide WaitedBy, Posts;
    LogGoesOn(s.log, Post(j, r), Posts(j, rest.replies));
  }

  lemma PostsFirst(j: nat, r: Reply, replies: seq<Reply>)
    ensures Posts(j, [r] + replies) == [Post(j, r)] + Posts(j, replies)
  {
    assert ([r] + replies)[1..] == replies;
  }

  lemma LogGoesOn(log: seq<Post>, p: Post, ps: seq<Post>)
    ensures log + ([p] + ps) == log + [p] + ps
  {
  }

  /** The worker is about to post a job for its a-th attempt. */
  predicate PostingNow(s: State, w: nat, j: nat, a: nat) {
    w < |s.workers| && s.workers[w].Posting? && s.workers[w].job == j && s.workers[w].attempt == a && 1 <= a <= MAX_ATTEMPTS
  }

  /** A delivery that Deliver describes is a run of the worker's steps with the same effect; waits are cut
      only when the forwarder is closed. */
  lemma {:induction false} DeliverIsARun(capacity: nat, s: State, w: nat, j: nat, a: nat, replies: seq<Reply>, waits: seq<Wait>)
      returns (t: State)
    requires |replies| == MAX_ATTEMPTS && |waits| == MAX_ATTEMPTS - 1 && WaitsFit(waits) && PostingNow(s, w, j, a)
    requires s.closed || forall i | 0 <= i < |waits| :: waits[i].Elapsed?
    ensures Run(capacity, s, DeliveryEvents(w, replies, waits, a), t)
    ensures Leaves(s, t, w, j, Delivery(replies, waits, a))
    decreases MAX_ATTEMPTS - a
  {
    assert 1 <= a <= MAX_ATTEMPTS;
    hide *;
    if !IsRetryable(replies[a - 1]) || a == MAX_ATTEMPTS || waits[a - 1].Cut? {
      t := LastAttempt(capacity, s, w, j, a, replies, waits);
    } else {
      var s2 := RetryWait(capacity, s, w, j, a, replies[a - 1]);
      t := DeliverIsARun(capacity, s2, w, j, a + 1, replies, waits);
      AttemptGoesOn(capacity, s, s2, t, w, j, a, replies, waits);
    }
  }

  lemma AttemptGoesOn(capacity: nat, s: State, s2: State, t: State, w: nat, j: nat, a: nat, replies: seq<Reply>, waits: seq<Wait>)
    requires |replies| == MAX_ATTEMPTS && |waits| == MAX_ATTEMPTS - 1 && 1 <= a < MAX_ATTEMPTS
    requires IsRetryable(replies[a - 1]) && waits[a - 1].Elapsed? && Retries(capacity, s, w, replies[a - 1], s2)
    requires s2.ch == s.ch && s2.delivered == s.delivered && s2.spilled == s.spilled
    requires s2.log == s.log + [Post(j, replies[a - 1])] && WaitedBy(s2.waited, j) == WaitedBy(s.waited, j) + Backoff(a)
    requires Run(capacity, s2, DeliveryEvents(w, replies, waits, a + 1), t)
    requires Leaves(s2, t, w, j, Delivery(replies, waits, a + 1))
    ensures Run(capacity, s, DeliveryEvents(w, replies, waits, a), t)
    ensures Leaves(s, t, w, j, Delivery(replies, waits, a))
  {
    OneAttempt(replies, waits, a);
    OneAttemptEvents(w, replies, waits, a);
    hide *;
    RetryRun(capacity, s, s2, t, w, replies[a - 1], DeliveryEvents(w, replies, waits, a + 1));
    MoreReplies(s, s2, t, w, j, replies[a - 1], Backoff(a), Delivery(replies, waits, a + 1));
  }

  lemma LastAttempt(capacity: nat, s: State, w: nat, j: nat, a: nat, replies: seq<Reply>, waits: seq<Wait>) returns (t: State)
    requires |replies| == MAX_ATTEMPTS && |waits| == MAX_ATTEMPTS - 1 && WaitsFit(waits) && PostingNow(s, w, j, a)
    requires s.closed || forall i | 0 <= i < |waits| :: waits[i].Elapsed?
    requires !IsRetryable(replies[a - 1]) || a == MAX_ATTEMPTS || waits[a - 1].Cut?
    ensures Run(capacity, s, DeliveryEvents(w, replies, waits, a), t)
    ensures Leaves(s, t, w, j, Delivery(replies, waits, a))
  {
    var r := replies[a - 1];
    OneAttempt(replies, waits, a);
    OneAttemptEvents(w, replies, waits, a);
    hide *;
    if !IsRetryable(r) || a == MAX_ATTEMPTS {
      t := FinalAnswer(capacity, s, w, j, a, r);
    } else {
      CutFits(waits, a - 1);
      t := CutWait(capacity, s, w, j, a, r, waits[a - 1].after);
    }
  }

  lemma CutFits(waits: seq<Wait>, i: nat)
    requires WaitsFit(waits) && i < |waits| && waits[i].Cut?
    ensures waits[i].after <= Backoff(i + 1)
  {
    hide Backoff;
  }

  lemma OneAttemptEvents(w: nat, replies: seq<Reply>, waits: seq<Wait>, attempt: nat)
    requires |replies| == MAX_ATTEMPTS && |waits| == MAX_ATTEMPTS - 1 && 1 <= attempt <= MAX_ATTEMPTS
    ensures var r := replies[attempt - 1];
            var es := DeliveryEvents(w, replies, waits, attempt);
            if !IsRetryable(r) || attempt == MAX_ATTEMPTS then es == [Answer(w, r)]
            else match waits[attempt - 1]
                 case Cut(after) => es == [Answer(w, r)] + [Interrupt(w, after)]
                 case Elapsed => es == [Answer(w, r)] + ([Wake(w)] + DeliveryEvents(w, replies, waits, attempt + 1))
  {
  }

  lemma FinalAnswer(capacity: nat, s: State, w: nat, j: nat, a: nat, r: Reply) returns (t: State)
    requires PostingNow(s, w, j, a) && (!IsRetryable(r) || a == MAX_ATTEMPTS)
    ensures Run(capacity, s, [Answer(w, r)], t)
    ensures Leaves(s, t, w, j, Course([r], 0, IsAccepted(r)))
  {
    hide Backoff, IsAccepted, IsRejected;
    t := Next(capacity, s, Answer(w, r));
    OneEvent(capacity, s, Answer(w, r));
    OneReply(j, r);
    hide Posts, Run;
  }

  lemma CutWait(capacity: nat, s: State, w: nat, j: nat, a: nat, r: Reply, after: nat) returns (t: State)
    requires PostingNow(s, w, j, a) && IsRetryable(r) && a < MAX_ATTEMPTS && s.closed && after <= Backoff(a)
    ensures Run(capacity, s, [Answer(w, r)] + [Interrupt(w, after)], t)
    ensures Leaves(s, t, w, j, Course([r], after, false))
  {
    OneReply(j, r);
    hide Backoff, IsAccepted, IsRejected, Posts, Run;
    var s1 := Next(capacity, s, Answer(w, r));
    t := Next(capacity, s1, Interrupt(w, after));
    OneEvent(capacity, s1, Interrupt(w, after));
    RunOne(capacity, s, Answer(w, r), [Interrupt(w, after)], t);
  }

  /** A retryable answer and a full wait. */
  ghost predicate Retries(capacity: nat, s: State, w: nat, r: Reply, s2: State) {
    Enabled(s, Answer(w, r)) &&
    var s1 := Next(capacity, s, Answer(w, r)); Enabled(s1, Wake(w)) && s2 == Next(capacity, s1, Wake(w))
  }

  /** The state behind them. */
  lemma RetryWait(capacity: nat, s: State, w: nat, j: nat, a: nat, r: Reply) returns (s2: State)
    requires PostingNow(s, w, j, a) && IsRetryable(r) && a < MAX_ATTEMPTS
    ensures Retries(capacity, s, w, r, s2) && PostingNow(s2, w, j, a + 1)
    ensures s2.ch == s.ch && s2.delivered == s.delivered && s2.spilled == s.spilled && s2.closed == s.closed
    ensures s2.log == s.log + [Post(j, r)] && WaitedBy(s2.waited, j) == WaitedBy(s.waited, j) + Backoff(a)
  {
    hide Backoff, IsAccepted, IsRejected;
    s2 := Next(capacity, Next(capacity, s, Answer(w, r)), Wake(w));
  }

  /** A retryable answer and a full wait in front of a run of the rest. */
  lemma RetryRun(capacity: nat, s: State, s2: State, t: State, w: nat, r: Reply, rest: seq<Event>)
    requires Retries(capacity, s, w, r, s2) && Run(capacity, s2, rest, t)
    ensures Run(capacity, s, [Answer(w, r)] + ([Wake(w)] + rest), t)
  {
    hide Run, Enabled, Next;
    RunOne(capacity, Next(capacity, s, Answer(w, r)), Wake(w), rest, t);
    RunOne(capacity, s, Answer(w, r), [Wake(w)] + rest, t);
  }
}
