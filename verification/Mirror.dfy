/**
 The mirror forwarder: a bounded buffer, workers that post with backoff, and a close that lets the workers
 drain the buffer, in any interleaving.

 EveryJobEndsOnce accounts for every job when all workers have left; PostsAreBounded limits what one job
 costs; DrainEnds shows that the workers do leave.
 */
module Mirror {
  import opened Counting

  /** How a post ended: an HTTP status, or no answer. */
  datatype Reply = Status(code: int) | NetworkError

  const MAX_ATTEMPTS: nat := 5

  predicate IsAccepted(r: Reply) { r.Status? && 200 <= r.code < 300 }

  predicate IsRejected(r: Reply) { r.Status? && 400 <= r.code < 500 && r.code != 429 }

  predicate IsRetryable(r: Reply) { !IsAccepted(r) && !IsRejected(r) }

  /** No answer, too many requests, or a status that neither accepts nor rejects. */
  predicate AsksForRetry(r: Reply) {
    r.NetworkError? || r.code < 200 || 300 <= r.code <= 399 || r.code == 429 || 500 <= r.code
  }

  /** The wait in milliseconds behind a failed attempt: doubling from half a second, at most fifteen. */
  function Backoff(attempt: nat): nat
    requires attempt >= 1
  {
    if attempt == 1 then 500 else if Backoff(attempt - 1) * 2 > 15000 then 15000 else Backoff(attempt - 1) * 2
  }

  /** All waits behind the first attempts. */
  function Waits(attempts: nat): nat { if attempts == 0 then 0 else Waits(attempts - 1) + Backoff(attempts) }

  lemma WaitsTable(attempts: nat)
    requires attempts <= 4
    ensures Waits(attempts) <= 7500
    ensures attempts < 4 ==> Waits(attempts) + Backoff(attempts + 1) <= 7500
  {
    assert Backoff(2) == 1000 && Backoff(3) == 2000 && Backoff(4) == 4000;
    assert Waits(1) == 500 && Waits(2) == 1500 && Waits(3) == 3500 && Waits(4) == 7500;
  }

  // ---------- the machine ----------

  /** A worker between jobs, or with one; draining is whether it has seen the close. */
  datatype Worker =
    | Looping
    | Draining
    | Posting(job: nat, attempt: nat, draining: bool)
    | Waiting(job: nat, attempt: nat, draining: bool)
    | Exited

  datatype Post = Post(job: nat, reply: Reply)

  /** late holds the jobs that came when every worker had left. */
  datatype State = State(
    next: nat, ch: seq<nat>, closed: bool, workers: seq<Worker>, delivered: seq<nat>, spilled: seq<nat>,
    log: seq<Post>, waited: map<nat, nat>, late: set<nat>)

  datatype Event =
    | Enqueue
    | Close
    | Take(w: nat)
    | SeeDone(w: nat)
    | Leave(w: nat)
    | Answer(w: nat, reply: Reply)
    | Wake(w: nat)
    | Interrupt(w: nat, elapsed: nat)

  predicate AllExited(ws: seq<Worker>) { forall w | 0 <= w < |ws| :: ws[w].Exited? }

  predicate Enabled(s: State, e: Event) {
    match e
    case Enqueue => true
    case Close => !s.closed
    case Take(w) => w < |s.workers| && (s.workers[w].Looping? || s.workers[w].Draining?) && s.ch != []
    case SeeDone(w) => w < |s.workers| && s.workers[w].Looping? && s.closed
    case Leave(w) => w < |s.workers| && s.workers[w].Draining? && s.ch == []
    case Answer(w, _) => w < |s.workers| && s.workers[w].Posting?
    case Wake(w) => w < |s.workers| && s.workers[w].Waiting? && s.workers[w].attempt >= 1
    case Interrupt(w, elapsed) =>
      w < |s.workers| && s.workers[w].Waiting? && s.workers[w].attempt >= 1 && s.closed && elapsed <= Backoff(s.workers[w].attempt)
  }

  function Back(draining: bool): Worker { if draining then Draining else Looping }

  function WaitedBy(waited: map<nat, nat>, j: nat): nat { if j in waited then waited[j] else 0 }

  function EnqueueStep(capacity: nat, s: State): State {
    var late := if AllExited(s.workers) then s.late + {s.next} else s.late;
    if |s.ch| < capacity then s.(next := s.next + 1, ch := s.ch + [s.next], late := late)
    else s.(next := s.next + 1, spilled := s.spilled + [s.next], late := late)
  }

  function AnswerStep(s: State, w: nat, reply: Reply): State
    requires w < |s.workers| && s.workers[w].Posting?
  {
    var Posting(j, attempt, draining) := s.workers[w];
    var s1 := s.(log := s.log + [Post(j, reply)]);
    if IsAccepted(reply) then s1.(workers := s.workers[w := Back(draining)], delivered := s.delivered + [j])
    else if IsRejected(reply) || attempt == MAX_ATTEMPTS then s1.(workers := s.workers[w := Back(draining)], spilled := s.spilled + [j])
    else s1.(workers := s.workers[w := Waiting(j, attempt, draining)])
  }

  function Next(capacity: nat, s: State, e: Event): State
    requires Enabled(s, e)
  {
    match e
    case Enqueue => EnqueueStep(capacity, s)
    case Close => s.(closed := true)
    case Take(w) => s.(ch := s.ch[1..], workers := s.workers[w := Posting(s.ch[0], 1, s.workers[w].Draining?)])
    case SeeDone(w) => s.(workers := s.workers[w := Draining])
    case Leave(w) => s.(workers := s.workers[w := Exited])
    case Answer(w, reply) => AnswerStep(s, w, reply)
    case Wake(w) =>
      var Waiting(j, attempt, draining) := s.workers[w];
      s.(workers := s.workers[w := Posting(j, attempt + 1, draining)],
         waited := s.waited[j := WaitedBy(s.waited, j) + Backoff(attempt)])
    case Interrupt(w, elapsed) =>
      var Waiting(j, attempt, draining) := s.workers[w];
      s.(workers := s.workers[w := Back(draining)], spilled := s.spilled + [j],
         waited := s.waited[j := WaitedBy(s.waited, j) + elapsed])
  }

  ghost predicate Run(capacity: nat, s: State, es: seq<Event>, t: State)
    decreases |es|
  {
    if es == [] then s == t else Enabled(s, es[0]) && Run(capacity, Next(capacity, s, es[0]), es[1..], t)
  }

  function Fresh(n: nat): seq<Worker> { if n == 0 then [] else Fresh(n - 1) + [Looping] }

  function Initial(workers: nat): State { State(0, [], false, Fresh(workers), [], [], [], map[], {}) }

  // ---------- conservation ----------

  predicate Busy(w: Worker) { w.Posting? || w.Waiting? }

  function HeldBy(w: Worker, j: nat): nat { if Busy(w) && w.job == j then 1 else 0 }

  function Held(ws: seq<Worker>, j: nat): nat { if ws == [] then 0 else HeldBy(ws[0], j) + Held(ws[1..], j) }

  lemma HeldUpdate(ws: seq<Worker>, w: nat, x: Worker, j: nat)
    requires w < |ws|
    ensures Held(ws[w := x], j) == Held(ws, j) - HeldBy(ws[w], j) + HeldBy(x, j)
  {
    if w == 0 {
      assert ws[0 := x][1..] == ws[1..];
    } else {
      assert ws[w := x][1..] == ws[1..][w - 1 := x];
      HeldUpdate(ws[1..], w - 1, x, j);
    }
  }

  /** In how many places a job is. */
  function Places(s: State, j: nat): nat {
    Times(s.ch, j) + Held(s.workers, j) + Times(s.delivered, j) + Times(s.spilled, j)
  }

  /** Every job so far is in exactly one place. */
  ghost predicate Conserved(s: State) {
    forall j: nat :: Places(s, j) == if j < s.next then 1 else 0
  }

  /** A step that changes one worker, and perhaps ends its job. */
  lemma WorkerMoves(s: State, t: State, w: nat, x: Worker, ended: bool, j: nat)
    requires w < |s.workers| && t.workers == s.workers[w := x] && t.ch == s.ch
    requires ended ==> Busy(s.workers[w])
    requires HeldBy(s.workers[w], j) == HeldBy(x, j) + if ended && s.workers[w].job == j then 1 else 0
    requires if ended then
               (t.delivered == s.delivered + [s.workers[w].job] && t.spilled == s.spilled) ||
               (t.spilled == s.spilled + [s.workers[w].job] && t.delivered == s.delivered)
             else t.delivered == s.delivered && t.spilled == s.spilled
    ensures Places(t, j) == Places(s, j)
  {
    HeldUpdate(s.workers, w, x, j);
    if ended {
      TimesSnoc(s.delivered, s.workers[w].job, j);
      TimesSnoc(s.spilled, s.workers[w].job, j);
    }
    hide Held, Times, HeldBy;
  }

  lemma StepMoves(capacity: nat, s: State, e: Event, j: nat)
    requires Enabled(s, e)
    ensures Places(Next(capacity, s, e), j) == Places(s, j) + if e.Enqueue? && j == s.next then 1 else 0
  {
    var t := Next(capacity, s, e);
    hide Held, Times, Backoff, Places;
    match e {
      case Enqueue => EnqueueMoves(capacity, s, j);
      case Close => assert Places(t, j) == Places(s, j) by { SamePlaces(s, t, j); }
      case Take(w) => TakeMoves(s, w, j);
      case SeeDone(w) => WorkerMoves(s, t, w, Draining, false, j);
      case Leave(w) => WorkerMoves(s, t, w, Exited, false, j);
      case Answer(w, reply) => WorkerMoves(s, t, w, t.workers[w], !t.workers[w].Waiting?, j);
      case Wake(w) => WorkerMoves(s, t, w, t.workers[w], false, j);
      case Interrupt(w, _) => WorkerMoves(s, t, w, t.workers[w], true, j);
    }
  }

  lemma SamePlaces(s: State, t: State, j: nat)
    requires t.ch == s.ch && t.workers == s.workers && t.delivered == s.delivered && t.spilled == s.spilled
    ensures Places(t, j) == Places(s, j)
  {
  }

  lemma EnqueueMoves(capacity: nat, s: State, j: nat)
    ensures Places(EnqueueStep(capacity, s), j) == Places(s, j) + if j == s.next then 1 else 0
  {
    hide Held, Times;
    TimesSnoc(s.ch, s.next, j);
    TimesSnoc(s.spilled, s.next, j);
  }

  lemma TakeMoves(s: State, w: nat, j: nat)
    requires w < |s.workers| && !Busy(s.workers[w]) && s.ch != []
    ensures var draining := s.workers[w].Draining?;
            Places(s.(ch := s.ch[1..], workers := s.workers[w := Posting(s.ch[0], 1, draining)]), j) == Places(s, j)
  {
    TimesHead(s.ch, j);
    HeldUpdate(s.workers, w, Posting(s.ch[0], 1, s.workers[w].Draining?), j);
    hide Held, Times;
  }

  lemma StepConserves(capacity: nat, s: State, e: Event)
    requires Conserved(s) && Enabled(s, e)
    ensures Conserved(Next(capacity, s, e))
  {
    hide Places;
    forall j: nat ensures Places(Next(capacity, s, e), j) == if j < Next(capacity, s, e).next then 1 else 0 {
      StepMoves(capacity, s, e, j);
    }
  }

  /** Once every worker has left, the buffer holds late jobs only. */
  predicate LateOnly(s: State) { AllExited(s.workers) ==> forall j | j in s.ch :: j in s.late }

  lemma StepKeepsLateOnly(capacity: nat, s: State, e: Event)
    requires LateOnly(s) && Enabled(s, e)
    ensures LateOnly(Next(capacity, s, e))
  {
    var t := Next(capacity, s, e);
    if !e.Enqueue? && !e.Close? { assert t.workers[e.w] == t.workers[e.w]; }
  }

  // ---------- the cost of one job ----------

  function Count(log: seq<Post>, j: nat): nat {
    if log == [] then 0 else Count(log[..|log| - 1], j) + if log[|log| - 1].job == j then 1 else 0
  }

  lemma CountSnoc(log: seq<Post>, p: Post, j: nat)
    ensures Count(log + [p], j) == Count(log, j) + if p.job == j then 1 else 0
  {
    assert (log + [p])[..|log|] == log;
  }

  /** So far no answer to j was final. */
  predicate Open(log: seq<Post>, j: nat) { forall i | 0 <= i < |log| && log[i].job == j :: IsRetryable(log[i].reply) }

  predicate WorkerOK(s: State, w: Worker) {
    match w
    case Posting(j, a, _) => 1 <= a <= MAX_ATTEMPTS && Count(s.log, j) == a - 1 && WaitedBy(s.waited, j) == Waits(a - 1) && Open(s.log, j)
    case Waiting(j, a, _) => 1 <= a < MAX_ATTEMPTS && Count(s.log, j) == a && WaitedBy(s.waited, j) == Waits(a - 1) && Open(s.log, j)
    case _ => true
  }

  /** Nothing was done for j. */
  predicate Untouched(s: State, j: nat) { Count(s.log, j) == 0 && WaitedBy(s.waited, j) == 0 && Open(s.log, j) }

  predicate Cheap(s: State, j: nat) { Count(s.log, j) <= MAX_ATTEMPTS && WaitedBy(s.waited, j) <= 7500 }

  /** A job is posted again only after an answer that asks for it. */
  predicate RetriesOnly(log: seq<Post>) {
    forall i, k | 0 <= i < k < |log| && log[i].job == log[k].job :: IsRetryable(log[i].reply)
  }

  ghost predicate Costs(s: State) {
    && (forall w | 0 <= w < |s.workers| :: WorkerOK(s, s.workers[w]))
    && (forall j | j in s.ch :: Untouched(s, j))
    && (forall j: nat | j >= s.next :: Untouched(s, j))
    && (forall j: nat :: Cheap(s, j))
    && RetriesOnly(s.log)
  }

  /** A job is held by one worker, and not in the buffer then. */
  lemma HeldOnce(s: State, w: nat, v: nat)
    requires Conserved(s) && w < |s.workers| && v < |s.workers| && w != v
    requires Busy(s.workers[w]) && Busy(s.workers[v])
    ensures s.workers[w].job != s.workers[v].job
  {
    var j := s.workers[w].job;
    HeldUpdate(s.workers, w, Looping, j);
    HeldUpdate(s.workers[w := Looping], v, Looping, j);
    assert Places(s, j) <= 1;
  }

  lemma HeldIsNotQueued(s: State, w: nat)
    requires Conserved(s) && w < |s.workers| && Busy(s.workers[w])
    ensures s.workers[w].job !in s.ch && s.workers[w].job < s.next
  {
    var j := s.workers[w].job;
    HeldUpdate(s.workers, w, Looping, j);
    assert Places(s, j) <= 1;
    assert j in s.ch ==> Times(s.ch, j) >= 1;
  }

  /** The posts and waits of other jobs stay. */
  ghost predicate OnlyJob(s: State, t: State, j: nat) {
    forall i: nat | i != j ::
      Count(t.log, i) == Count(s.log, i) && WaitedBy(t.waited, i) == WaitedBy(s.waited, i) && (Open(s.log, i) ==> Open(t.log, i))
  }

  lemma OthersKeep(s: State, t: State, w: nat)
    requires Conserved(s) && Costs(s) && w < |s.workers| && Busy(s.workers[w]) && OnlyJob(s, t, s.workers[w].job)
    requires t.ch == s.ch && t.next == s.next && RetriesOnly(t.log) && Cheap(t, s.workers[w].job)
    requires |t.workers| == |s.workers| && t.workers == s.workers[w := t.workers[w]] && WorkerOK(t, t.workers[w])
    ensures Costs(t)
  {
    HeldIsNotQueued(s, w);
    hide Count, Waits, Held, Open, RetriesOnly, Conserved, Places, WaitedBy;
    forall v | 0 <= v < |t.workers| ensures WorkerOK(t, t.workers[v]) {
      if v != w && Busy(s.workers[v]) {
        HeldOnce(s, w, v);
        assert WorkerOK(s, s.workers[v]);
      }
    }
    forall i: nat ensures Cheap(t, i) { assert Cheap(s, i); }
    forall i: nat | i in t.ch || i >= t.next ensures Untouched(t, i) { assert Untouched(s, i); }
  }

  lemma LogGrows(log: seq<Post>, p: Post)
    requires RetriesOnly(log) && Open(log, p.job)
    ensures RetriesOnly(log + [p])
    ensures forall i: nat :: i != p.job ==> (Open(log, i) ==> Open(log + [p], i))
    ensures IsRetryable(p.reply) ==> Open(log + [p], p.job)
  {
    var all := log + [p];
    assert forall i | 0 <= i < |log| :: all[i] == log[i];
  }

  lemma LogAnswer(s: State, t: State, j: nat, reply: Reply)
    requires t.log == s.log + [Post(j, reply)] && t.waited == s.waited
    requires RetriesOnly(s.log) && Open(s.log, j)
    ensures OnlyJob(s, t, j) && RetriesOnly(t.log) && Count(t.log, j) == Count(s.log, j) + 1
    ensures IsRetryable(reply) ==> Open(t.log, j)
  {
    LogGrows(s.log, Post(j, reply));
    hide Open, RetriesOnly, Count;
    forall i: nat ensures Count(t.log, i) == Count(s.log, i) + if i == j then 1 else 0 { CountSnoc(s.log, Post(j, reply), i); }
  }

  lemma AnswerCosts(capacity: nat, s: State, w: nat, reply: Reply)
    requires Conserved(s) && Costs(s) && Enabled(s, Answer(w, reply))
    ensures Costs(Next(capacity, s, Answer(w, reply)))
  {
    var t := AnswerStep(s, w, reply);
    WorkerIsOK(s, w);
    hide Costs, Count, Waits, Held, Open, RetriesOnly, Conserved, Places, OnlyJob, WaitedBy;
    LogAnswer(s, t, s.workers[w].job, reply);
    AnswerKeepsWorker(s, w, reply);
    hide WorkerOK, Cheap, AnswerStep;
    AnswerMoves(s, w, reply);
    OthersKeep(s, t, w);
  }

  lemma WorkerIsOK(s: State, w: nat)
    requires Costs(s) && w < |s.workers|
    ensures WorkerOK(s, s.workers[w]) && RetriesOnly(s.log)
  {
    hide WorkerOK, RetriesOnly, Untouched, Cheap;
  }

  /** An answer leaves its worker and its job in order. */
  lemma AnswerKeepsWorker(s: State, w: nat, reply: Reply)
    requires w < |s.workers| && s.workers[w].Posting? && WorkerOK(s, s.workers[w])
    requires var t, j := AnswerStep(s, w, reply), s.workers[w].job;
             Count(t.log, j) == Count(s.log, j) + 1 && (IsRetryable(reply) ==> Open(t.log, j))
    ensures var t := AnswerStep(s, w, reply); WorkerOK(t, t.workers[w]) && Cheap(t, s.workers[w].job)
  {
    WaitsTable(s.workers[w].attempt - 1);
    hide Count, Waits, Open;
  }

  lemma AnswerMoves(s: State, w: nat, reply: Reply)
    requires w < |s.workers| && s.workers[w].Posting?
    ensures var t := AnswerStep(s, w, reply);
            && t.log == s.log + [Post(s.workers[w].job, reply)] && t.waited == s.waited
            && t.ch == s.ch && t.next == s.next && |t.workers| == |s.workers| && t.workers == s.workers[w := t.workers[w]]
  {
  }

  lemma WaitCosts(capacity: nat, s: State, w: nat, e: Event)
    requires Conserved(s) && Costs(s) && Enabled(s, e)
    requires e == Wake(w) || (e.Interrupt? && e.w == w)
    ensures Costs(Next(capacity, s, e))
  {
    WorkerIsOK(s, w);
    hide Costs, Count, Waits, Held, Backoff, Open, RetriesOnly, Conserved, Places;
    WaitKeepsWorker(capacity, s, w, e);
    hide OnlyJob, WorkerOK, Cheap, Next, Enabled;
    OthersKeep(s, Next(capacity, s, e), w);
  }

  /** A wait adds its time to its own job and nothing else. */
  lemma WaitAdds(s: State, t: State, j: nat, time: nat)
    requires t.log == s.log && t.waited == s.waited[j := WaitedBy(s.waited, j) + time]
    ensures OnlyJob(s, t, j) && WaitedBy(t.waited, j) == WaitedBy(s.waited, j) + time
  {
    hide Count, Open;
  }

  /** What a wait leaves as it was. */
  ghost predicate WaitMoves(s: State, t: State, w: nat) {
    && t.log == s.log && t.ch == s.ch && t.next == s.next
    && |t.workers| == |s.workers| && w < |s.workers| && t.workers == s.workers[w := t.workers[w]] && Busy(s.workers[w])
  }

  /** A wait, whole or cut, leaves its worker and its job in order and touches no other job. */
  lemma WaitKeepsWorker(capacity: nat, s: State, w: nat, e: Event)
    requires Enabled(s, e) && (e == Wake(w) || (e.Interrupt? && e.w == w)) && WorkerOK(s, s.workers[w])
    ensures WaitMoves(s, Next(capacity, s, e), w)
    ensures var t, j := Next(capacity, s, e), s.workers[w].job; OnlyJob(s, t, j) && WorkerOK(t, t.workers[w]) && Cheap(t, j)
  {
    if e.Wake? { WakeKeeps(capacity, s, w); } else { InterruptKeeps(capacity, s, w, e.elapsed); }
    hide *;
  }

  lemma WakeKeeps(capacity: nat, s: State, w: nat)
    requires Enabled(s, Wake(w)) && WorkerOK(s, s.workers[w])
    ensures WaitMoves(s, Next(capacity, s, Wake(w)), w)
    ensures var t, j := Next(capacity, s, Wake(w)), s.workers[w].job; OnlyJob(s, t, j) && WorkerOK(t, t.workers[w]) && Cheap(t, j)
  {
    var Waiting(j, a, draining) := s.workers[w];
    var t := Next(capacity, s, Wake(w));
    WaitingIs(s, s.workers[w]);
    hide Count, Waits, Backoff, Open, OnlyJob, WaitedBy, WorkerOK, Cheap;
    WaitAdds(s, t, j, Backoff(a));
    PostsAgain(s, t, j, a, draining);
    assert t.workers[w] == Posting(j, a + 1, draining);
  }

  lemma WaitingIs(s: State, w: Worker)
    requires w.Waiting? && WorkerOK(s, w)
    ensures 1 <= w.attempt < MAX_ATTEMPTS && Count(s.log, w.job) == w.attempt
    ensures WaitedBy(s.waited, w.job) == Waits(w.attempt - 1) && Open(s.log, w.job)
  {
    hide Count, Waits, Open;
  }

  lemma PostsAgain(s: State, t: State, j: nat, a: nat, draining: bool)
    requires 1 <= a < MAX_ATTEMPTS && Count(s.log, j) == a && Open(s.log, j) && t.log == s.log
    requires WaitedBy(t.waited, j) == Waits(a - 1) + Backoff(a)
    ensures WorkerOK(t, Posting(j, a + 1, draining)) && Cheap(t, j)
  {
    WaitsTable(a - 1);
    assert Waits(a) == Waits(a - 1) + Backoff(a);
    hide Count, Waits, Backoff, Open, WaitedBy;
  }

  lemma InterruptKeeps(capacity: nat, s: State, w: nat, elapsed: nat)
    requires Enabled(s, Interrupt(w, elapsed)) && WorkerOK(s, s.workers[w])
    ensures WaitMoves(s, Next(capacity, s, Interrupt(w, elapsed)), w)
    ensures var t, j := Next(capacity, s, Interrupt(w, elapsed)), s.workers[w].job;
            OnlyJob(s, t, j) && WorkerOK(t, t.workers[w]) && Cheap(t, j)
  {
    WaitsTable(s.workers[w].attempt - 1);
    hide Count, Waits, Backoff, Open, OnlyJob, WaitedBy;
    WaitAdds(s, Next(capacity, s, Interrupt(w, elapsed)), s.workers[w].job, elapsed);
  }

  lemma StepKeepsCosts(capacity: nat, s: State, e: Event)
    requires Conserved(s) && Costs(s) && Enabled(s, e)
    ensures Costs(Next(capacity, s, e))
  {
    match e {
      case Answer(w, reply) => AnswerCosts(capacity, s, w, reply);
      case Wake(w) => WaitCosts(capacity, s, w, e);
      case Interrupt(w, _) => WaitCosts(capacity, s, w, e);
      case _ => QuietCosts(capacity, s, e);
    }
  }

  lemma QuietCosts(capacity: nat, s: State, e: Event)
    requires Costs(s) && Enabled(s, e) && !e.Answer? && !e.Wake? && !e.Interrupt?
    ensures Costs(Next(capacity, s, e))
  {
    var t := Next(capacity, s, e);
    assert Waits(0) == 0;
    hide Count, Waits, Backoff, Held;
    assert t.log == s.log && t.waited == s.waited;
    forall i: nat ensures Cheap(t, i) { assert Cheap(s, i); }
    forall i: nat | i in t.ch || i >= t.next ensures Untouched(t, i) { assert Untouched(s, i); }
    forall v | 0 <= v < |t.workers| ensures WorkerOK(t, t.workers[v]) {
      assert WorkerOK(s, s.workers[v]);
      if e.Take? { assert Untouched(s, s.ch[0]); }
    }
  }

  // ---------- runs ----------

  ghost predicate Invariant(s: State) { Conserved(s) && LateOnly(s) && Costs(s) }

  lemma FreshHolds(n: nat, j: nat)
    ensures |Fresh(n)| == n && Held(Fresh(n), j) == 0 && forall w | 0 <= w < n :: Fresh(n)[w] == Looping
  {
    if n > 0 {
      FreshHolds(n - 1, j);
      NoneHeld(Fresh(n), j);
    }
  }

  lemma NoneHeld(ws: seq<Worker>, j: nat)
    requires forall w | 0 <= w < |ws| :: !Busy(ws[w])
    ensures Held(ws, j) == 0
  {
    if ws != [] {
      assert forall w | 0 <= w < |ws[1..]| :: ws[1..][w] == ws[w + 1];
      NoneHeld(ws[1..], j);
    }
  }

  lemma InitialHolds(workers: nat)
    ensures Invariant(Initial(workers))
  {
    var s := Initial(workers);
    forall j: nat ensures Places(s, j) == 0 { FreshHolds(workers, j); }
    FreshHolds(workers, 0);
  }

  lemma {:induction false} RunKeeps(capacity: nat, s: State, es: seq<Event>, t: State)
    requires Invariant(s) && Run(capacity, s, es, t)
    ensures Invariant(t)
    decreases |es|
  {
    if es != [] {
      var e := es[0];
      assert Conserved(s) && LateOnly(s) && Costs(s);
      StepConserves(capacity, s, e);
      StepKeepsLateOnly(capacity, s, e);
      StepKeepsCosts(capacity, s, e);
      hide Conserved, LateOnly, Costs, Next, Enabled;
      RunKeeps(capacity, Next(capacity, s, e), es[1..], t);
    }
  }

  /** When every worker has left, each job was delivered or spilled exactly once, but for jobs that came
      when all had left already and sit in the buffer. */
  lemma EveryJobEndsOnce(capacity: nat, workers: nat, es: seq<Event>, t: State, j: nat)
    requires Run(capacity, Initial(workers), es, t) && AllExited(t.workers) && j < t.next
    ensures Times(t.delivered, j) + Times(t.spilled, j) == if j in t.ch then 0 else 1
    ensures j in t.ch ==> j in t.late
  {
    InitialHolds(workers);
    RunKeeps(capacity, Initial(workers), es, t);
    NoneHeld(t.workers, j);
    assert Places(t, j) == 1;
    assert j in t.ch <==> Times(t.ch, j) >= 1;
  }

  /** At every point a job was posted at most five times, with at most seven and a half seconds of backoff,
      and never again after a final answer. */
  lemma PostsAreBounded(capacity: nat, workers: nat, es: seq<Event>, t: State, j: nat)
    requires Run(capacity, Initial(workers), es, t)
    ensures Count(t.log, j) <= 5 && WaitedBy(t.waited, j) <= 7500
    ensures forall i, k | 0 <= i < k < |t.log| && t.log[i].job == t.log[k].job :: AsksForRetry(t.log[i].reply)
  {
    InitialHolds(workers);
    RunKeeps(capacity, Initial(workers), es, t);
    assert Cheap(t, j);
  }

  /** Some post of the job was answered with a status of the two hundreds. */
  ghost predicate WasAccepted(log: seq<Post>, j: nat) {
    exists i :: 0 <= i < |log| && log[i].job == j && log[i].reply.Status? && 200 <= log[i].reply.code <= 299
  }

  lemma AcceptedSnoc(log: seq<Post>, p: Post, j: nat)
    ensures WasAccepted(log + [p], j) <==>
              WasAccepted(log, j) || (p.job == j && p.reply.Status? && 200 <= p.reply.code <= 299)
  {
    var all := log + [p];
    assert all[|log|] == p && forall i | 0 <= i < |log| :: all[i] == log[i];
  }

  ghost predicate DeliveredAsAccepted(s: State) { forall j: nat :: j in s.delivered <==> WasAccepted(s.log, j) }

  lemma {:induction false} StepDelivers(capacity: nat, s: State, e: Event)
    requires DeliveredAsAccepted(s) && Enabled(s, e)
    ensures DeliveredAsAccepted(Next(capacity, s, e))
  {
    if e.Answer? {
      var p := Post(s.workers[e.w].job, e.reply);
      forall j: nat { AcceptedSnoc(s.log, p, j); }
      hide WasAccepted;
    } else {
      hide WasAccepted;
      var t := Next(capacity, s, e);
      assert t.delivered == s.delivered && t.log == s.log;
    }
  }

  lemma {:induction false} RunDelivers(capacity: nat, s: State, es: seq<Event>, t: State)
    requires DeliveredAsAccepted(s) && Run(capacity, s, es, t)
    ensures DeliveredAsAccepted(t)
    decreases |es|
  {
    if es != [] {
      StepDelivers(capacity, s, es[0]);
      hide Next, Enabled, DeliveredAsAccepted;
      RunDelivers(capacity, Next(capacity, s, es[0]), es[1..], t);
    }
  }

  /** In every run the jobs delivered are exactly those that some post had accepted. */
  lemma DeliveredExactly(capacity: nat, workers: nat, es: seq<Event>, t: State, j: nat)
    requires Run(capacity, Initial(workers), es, t)
    ensures j in t.delivered <==> WasAccepted(t.log, j)
  {
    RunDelivers(capacity, Initial(workers), es, t);
  }

  lemma {:induction false} StepKeepsBound(capacity: nat, s: State, e: Event)
    requires |s.ch| <= capacity && Enabled(s, e)
    ensures |Next(capacity, s, e).ch| <= capacity
  {
    hide IsAccepted, IsRejected, AllExited, Backoff;
  }

  lemma {:induction false} RunKeepsBound(capacity: nat, s: State, es: seq<Event>, t: State)
    requires |s.ch| <= capacity && Run(capacity, s, es, t)
    ensures |t.ch| <= capacity
    decreases |es|
  {
    if es != [] {
      StepKeepsBound(capacity, s, es[0]);
      hide Next, Enabled;
      RunKeepsBound(capacity, Next(capacity, s, es[0]), es[1..], t);
    }
  }

  /** In every run the buffer keeps its capacity, and a new job is spilled exactly when the buffer is full. */
  lemma BufferIsBounded(capacity: nat, workers: nat, es: seq<Event>, t: State)
    requires Run(capacity, Initial(workers), es, t)
    ensures |t.ch| <= capacity
    ensures |t.ch| == capacity ==> Next(capacity, t, Enqueue).spilled == t.spilled + [t.next] && Next(capacity, t, Enqueue).ch == t.ch
    ensures |t.ch| < capacity ==> Next(capacity, t, Enqueue).spilled == t.spilled && Next(capacity, t, Enqueue).ch == t.ch + [t.next]
  {
    RunKeepsBound(capacity, Initial(workers), es, t);
    hide Run;
  }

  // ---------- the drain ends ----------

  function Work(w: Worker): nat {
    match w
    case Exited => 0
    case Draining => 1
    case Looping => 2
    case Posting(_, a, _) => if a <= MAX_ATTEMPTS then 14 - 2 * a else 0
    case Waiting(_, a, _) => if a < MAX_ATTEMPTS then 13 - 2 * a else 0
  }

  function TotalWork(ws: seq<Worker>): nat { if ws == [] then 0 else Work(ws[0]) + TotalWork(ws[1..]) }

  function Remaining(s: State): nat { 12 * |s.ch| + TotalWork(s.workers) }

  lemma WorkUpdate(ws: seq<Worker>, w: nat, x: Worker)
    requires w < |ws|
    ensures TotalWork(ws[w := x]) == TotalWork(ws) - Work(ws[w]) + Work(x)
  {
    if w == 0 {
      assert ws[0 := x][1..] == ws[1..];
    } else {
      assert ws[w := x][1..] == ws[1..][w - 1 := x];
      WorkUpdate(ws[1..], w - 1, x);
    }
  }

  predicate WorkerStep(s: State, e: Event) { Enabled(s, e) && !e.Enqueue? && !e.Close? }

  lemma OneWorkerWorks(s: State, w: nat, x: Worker)
    requires w < |s.workers| && Work(x) < Work(s.workers[w])
    ensures Remaining(s.(workers := s.workers[w := x])) < Remaining(s)
  {
    WorkUpdate(s.workers, w, x);
  }

  lemma AnswerWorks(s: State, w: nat, reply: Reply)
    requires w < |s.workers| && s.workers[w].Posting? && s.workers[w].attempt <= MAX_ATTEMPTS
    ensures Remaining(AnswerStep(s, w, reply)) < Remaining(s)
  {
    hide IsAccepted, IsRejected;
    OneWorkerWorks(s, w, AnswerStep(s, w, reply).workers[w]);
  }

  lemma TakeWorks(s: State, w: nat)
    requires w < |s.workers| && (s.workers[w].Looping? || s.workers[w].Draining?) && s.ch != []
    ensures var t := s.(ch := s.ch[1..], workers := s.workers[w := Posting(s.ch[0], 1, s.workers[w].Draining?)]);
            Remaining(t) < Remaining(s)
  {
    WorkUpdate(s.workers, w, Posting(s.ch[0], 1, s.workers[w].Draining?));
  }

  /** Every step of a worker uses up work, so a closed forwarder that gets no new jobs stops. */
  lemma DrainEnds(capacity: nat, s: State, e: Event)
    requires Costs(s) && WorkerStep(s, e)
    ensures Remaining(Next(capacity, s, e)) < Remaining(s)
  {
    assert WorkerOK(s, s.workers[e.w]);
    hide Costs, Remaining, AnswerStep, Count, Waits, Open, Backoff;
    match e {
      case Take(w) => TakeWorks(s, w);
      case SeeDone(w) => OneWorkerWorks(s, w, Draining);
      case Leave(w) => OneWorkerWorks(s, w, Exited);
      case Answer(w, reply) => AnswerWorks(s, w, reply);
      case Wake(w) =>
        var x := Posting(s.workers[w].job, s.workers[w].attempt + 1, s.workers[w].draining);
        OneWorkerWorks(s, w, x);
        SameWork(Next(capacity, s, e), s.(workers := s.workers[w := x]));
      case Interrupt(w, _) =>
        var x := Back(s.workers[w].draining);
        OneWorkerWorks(s, w, x);
        SameWork(Next(capacity, s, e), s.(workers := s.workers[w := x]));
    }
  }

  lemma SameWork(s: State, t: State)
    requires s.ch == t.ch && s.workers == t.workers
    ensures Remaining(s) == Remaining(t)
  {
  }

  /** Until every worker of a closed forwarder has left, some worker can go on. */
  lemma SomeWorkerCanGoOn(s: State)
    requires Costs(s) && s.closed && !AllExited(s.workers)
    ensures exists e :: WorkerStep(s, e)
  {
    var w: nat :| w < |s.workers| && !s.workers[w].Exited?;
    assert WorkerOK(s, s.workers[w]);
    var e := match s.workers[w]
             case Looping => SeeDone(w)
             case Draining => if s.ch == [] then Leave(w) else Take(w)
             case Posting(_, _, _) => Answer(w, NetworkError)
             case _ => Wake(w);
    assert WorkerStep(s, e);
  }
}
