/**
 The TCP server around its sessions: accepting, the bounded buffer of jobs behind the acknowledgements,
 the workers that process it, and the order in which Stop takes all of this down.

 Jobs are numbered in the order they are submitted.
 */
module Pipeline {
  import opened Counting

  const BUFFER: nat := 100_000

  datatype Worker = Idle | Working(job: nat) | Exited

  /** How far Stop has come. */
  datatype Phase = Running | Cancelled | ListenerClosed | SessionsGone | JobsClosed | Stopped

  function Rank(p: Phase): nat {
    match p
    case Running => 0
    case Cancelled => 1
    case ListenerClosed => 2
    case SessionsGone => 3
    case JobsClosed => 4
    case Stopped => 5
  }

  datatype State = State(
    phase: Phase, accepting: bool, sessions: set<nat>, next: nat, buffer: seq<nat>, workers: seq<Worker>,
    processed: seq<nat>, dropped: seq<nat>)

  datatype Event =
    | Accept(session: nat)
    | AcceptLoopEnds
    | Submit(session: nat)
    | EndSession(session: nat)
    | Receive(w: nat)
    | Process(w: nat)
    | WorkerEnds(w: nat)
    | Cancel
    | CloseListener
    | SessionsWaited
    | CloseJobs
    | WorkersWaited

  predicate AllExited(ws: seq<Worker>) { forall w | 0 <= w < |ws| :: ws[w].Exited? }

  predicate Enabled(s: State, e: Event) {
    match e
    case Accept(c) => s.accepting && c !in s.sessions
    case AcceptLoopEnds => s.accepting && s.phase != Running
    case Submit(c) => c in s.sessions
    case EndSession(c) => c in s.sessions
    case Receive(w) => w < |s.workers| && s.workers[w].Idle? && s.buffer != []
    case Process(w) => w < |s.workers| && s.workers[w].Working?
    case WorkerEnds(w) => w < |s.workers| && s.workers[w].Idle? && s.buffer == [] && Rank(s.phase) >= Rank(JobsClosed)
    case Cancel => s.phase == Running
    case CloseListener => s.phase == Cancelled
    case SessionsWaited => s.phase == ListenerClosed && !s.accepting && s.sessions == {}
    case CloseJobs => s.phase == SessionsGone
    case WorkersWaited => s.phase == JobsClosed && AllExited(s.workers)
  }

  function Next(s: State, e: Event): State
    requires Enabled(s, e)
  {
    match e
    case Accept(c) => s.(sessions := s.sessions + {c})
    case AcceptLoopEnds => s.(accepting := false)
    case Submit(_) =>
      if |s.buffer| < BUFFER then s.(next := s.next + 1, buffer := s.buffer + [s.next])
      else s.(next := s.next + 1, dropped := s.dropped + [s.next])
    case EndSession(c) => s.(sessions := s.sessions - {c})
    case Receive(w) => s.(buffer := s.buffer[1..], workers := s.workers[w := Working(s.buffer[0])])
    case Process(w) => s.(workers := s.workers[w := Idle], processed := s.processed + [s.workers[w].job])
    case WorkerEnds(w) => s.(workers := s.workers[w := Exited])
    case Cancel => s.(phase := Cancelled)
    case CloseListener => s.(phase := ListenerClosed)
    case SessionsWaited => s.(phase := SessionsGone)
    case CloseJobs => s.(phase := JobsClosed)
    case WorkersWaited => s.(phase := Stopped)
  }

  ghost predicate Run(s: State, es: seq<Event>, t: State)
    decreases |es|
  {
    if es == [] then s == t else Enabled(s, es[0]) && Run(Next(s, es[0]), es[1..], t)
  }

  function Started(workers: nat): (ws: seq<Worker>)
    ensures |ws| == workers && forall w | 0 <= w < workers :: ws[w] == Idle
  {
    if workers == 0 then [] else Started(workers - 1) + [Idle]
  }

  function Initial(workers: nat): State { State(Running, true, {}, 0, [], Started(workers), [], []) }

  // ---------- invariants ----------

  function HeldBy(w: Worker, j: nat): nat { if w.Working? && w.job == j then 1 else 0 }

  function Held(ws: seq<Worker>, j: nat): nat { if ws == [] then 0 else HeldBy(ws[0], j) + Held(ws[1..], j) }

  lemma HeldUpdate(ws: seq<Worker>, w: nat, x: Worker, j: nat)
    requires w < |ws|
    ensures Held(ws[w := x], j) == Held(ws, j) - HeldBy(ws[w], j) + HeldBy(x, j)
  {
    if w == 0 {
      assert ws[0 := x][1..] == ws[1..];
    } else {
      assert ws[w := x][1..] == ws[1..][w - 1 := x];
      HeldUpdate(ws[1..], w - 1, x, j);
    }
  }

  lemma NoneHeld(ws: seq<Worker>, j: nat)
    requires forall w | 0 <= w < |ws| :: !ws[w].Working?
    ensures Held(ws, j) == 0
  {
    if ws != [] {
      assert forall w | 0 <= w < |ws[1..]| :: ws[1..][w] == ws[w + 1];
      NoneHeld(ws[1..], j);
    }
  }

  /** In how many places a job is. */
  function Places(s: State, j: nat): nat {
    Times(s.buffer, j) + Held(s.workers, j) + Times(s.processed, j) + Times(s.dropped, j)
  }

  ghost predicate Conserved(s: State) { forall j: nat :: Places(s, j) == if j < s.next then 1 else 0 }

  /** Stop takes things down from the outside in. */
  predicate Ordered(s: State) {
    && |s.buffer| <= BUFFER
    && (Rank(s.phase) >= Rank(SessionsGone) ==> s.sessions == {} && !s.accepting)
    && (forall w | 0 <= w < |s.workers| && s.workers[w].Exited? :: Rank(s.phase) >= Rank(JobsClosed) && s.buffer == [])
    && (s.phase == Stopped ==> AllExited(s.workers))
  }

  lemma StepMoves(s: State, e: Event, j: nat)
    requires Enabled(s, e)
    ensures Places(Next(s, e), j) == Places(s, j) + if e.Submit? && j == s.next then 1 else 0
  {
    hide Held, Times, AllExited;
    match e {
      case Submit(_) =>
        TimesSnoc(s.buffer, s.next, j);
        TimesSnoc(s.dropped, s.next, j);
      case Receive(w) => ReceiveMoves(s, w, j);
      case Process(w) => ProcessMoves(s, w, j);
      case WorkerEnds(w) => HeldUpdate(s.workers, w, Exited, j);
      case _ =>
    }
  }

  lemma ReceiveMoves(s: State, w: nat, j: nat)
    requires Enabled(s, Receive(w))
    ensures Places(Next(s, Receive(w)), j) == Places(s, j)
  {
    hide Held, Times;
    TimesHead(s.buffer, j);
    HeldUpdate(s.workers, w, Working(s.buffer[0]), j);
  }

  lemma ProcessMoves(s: State, w: nat, j: nat)
    requires Enabled(s, Process(w))
    ensures Places(Next(s, Process(w)), j) == Places(s, j)
  {
    hide Held, Times;
    TimesSnoc(s.processed, s.workers[w].job, j);
    HeldUpdate(s.workers, w, Idle, j);
  }

  lemma StepKeeps(s: State, e: Event)
    requires Conserved(s) && Ordered(s) && Enabled(s, e)
    ensures Conserved(Next(s, e)) && Ordered(Next(s, e))
  {
    forall j: nat ensures Places(Next(s, e), j) == if j < Next(s, e).next then 1 else 0 {
      StepMoves(s, e, j);
    }
    StaysOrdered(s, e);
  }

  lemma StaysOrdered(s: State, e: Event)
    requires Ordered(s) && Enabled(s, e)
    ensures Ordered(Next(s, e))
  {
    var t := Next(s, e);
    match e {
      case Receive(w) => assert forall v | 0 <= v < |t.workers| && t.workers[v].Exited? :: s.workers[v].Exited?;
      case Process(w) => assert forall v | 0 <= v < |t.workers| && t.workers[v].Exited? :: s.workers[v].Exited?;
      case _ =>
    }
  }

  lemma {:induction false} RunKeeps(s: State, es: seq<Event>, t: State)
    requires Conserved(s) && Ordered(s) && Run(s, es, t)
    ensures Conserved(t) && Ordered(t) && |t.workers| == |s.workers|
    decreases |es|
  {
    if es != [] {
      StepKeeps(s, es[0]);
      hide Conserved, Ordered, Enabled;
      RunKeeps(Next(s, es[0]), es[1..], t);
    }
  }

  lemma InitialHolds(workers: nat)
    ensures Conserved(Initial(workers)) && Ordered(Initial(workers))
  {
    forall j: nat ensures Places(Initial(workers), j) == 0 { NoneHeld(Started(workers), j); }
  }

  // ---------- theorems ----------

  /** In every run each submitted job is in exactly one place: buffered, with a worker, processed, or dropped;
      and the next event drops a job exactly when it is a submission that finds the buffer full. */
  lemma EveryJobIsAccountedFor(workers: nat, es: seq<Event>, t: State, j: nat, e: Event)
    requires Run(Initial(workers), es, t)
    ensures Times(t.buffer, j) + Held(t.workers, j) + Times(t.processed, j) + Times(t.dropped, j) == if j < t.next then 1 else 0
    ensures Enabled(t, e) ==> (Next(t, e).dropped != t.dropped <==> e.Submit? && |t.buffer| == 100_000)
  {
    InitialHolds(workers);
    RunKeeps(Initial(workers), es, t);
    assert Places(t, j) == if j < t.next then 1 else 0;
    hide Places, Held, Times, Conserved;
  }

  /** No session submits once the buffer is closed. */
  lemma NoSubmitAfterClose(workers: nat, es: seq<Event>, t: State, c: nat)
    requires Run(Initial(workers), es, t) && Enabled(t, Submit(c))
    ensures Rank(t.phase) < Rank(SessionsGone)
  {
    InitialHolds(workers);
    RunKeeps(Initial(workers), es, t);
  }

  /** When Stop returns, the buffer is empty, no worker holds a job, and every submitted job was processed
      once or dropped. */
  lemma StopDrains(workers: nat, es: seq<Event>, t: State, j: nat)
    requires workers > 0 && Run(Initial(workers), es, t) && t.phase == Stopped
    ensures t.buffer == [] && t.sessions == {} && AllExited(t.workers)
    ensures Times(t.processed, j) + Times(t.dropped, j) == if j < t.next then 1 else 0
  {
    InitialHolds(workers);
    RunKeeps(Initial(workers), es, t);
    assert t.workers[0].Exited?;
    NoneHeld(t.workers, j);
    assert Places(t, j) == if j < t.next then 1 else 0;
    assert Times([], j) == 0;
  }

  function Work(ws: seq<Worker>): nat {
    if ws == [] then 0 else (if ws[0].Working? then 2 else if ws[0].Idle? then 1 else 0) + Work(ws[1..])
  }

  lemma WorkUpdate(ws: seq<Worker>, w: nat, x: Worker)
    requires w < |ws|
    ensures Work(ws[w := x]) - Work([x]) == Work(ws) - Work([ws[w]])
  {
    if w == 0 {
      assert ws[0 := x][1..] == ws[1..];
    } else {
      assert ws[w := x][1..] == ws[1..][w - 1 := x];
      WorkUpdate(ws[1..], w - 1, x);
    }
  }

  predicate WorkerStep(s: State, e: Event) { Enabled(s, e) && (e.Receive? || e.Process? || e.WorkerEnds?) }

  /** Once the buffer is closed, worker steps run out, and there is one until every worker has ended. */
  lemma DrainEnds(s: State, e: Event)
    requires s.phase == JobsClosed
    ensures WorkerStep(s, e) ==> 2 * |Next(s, e).buffer| + Work(Next(s, e).workers) < 2 * |s.buffer| + Work(s.workers)
    ensures !AllExited(s.workers) ==> exists e' :: WorkerStep(s, e')
  {
    if WorkerStep(s, e) { WorkUpdate(s.workers, e.w, Next(s, e).workers[e.w]); }
    if !AllExited(s.workers) {
      var w: nat :| w < |s.workers| && !s.workers[w].Exited?;
      var e' := if s.workers[w].Working? then Process(w) else if s.buffer != [] then Receive(w) else WorkerEnds(w);
      assert WorkerStep(s, e');
    }
  }

  // ---------- the server's own methods ----------

  /** The part of the server that the pipeline methods change; a missing buffer is the nil channel. */
  datatype Jobs = NoJobs | Jobs(queued: seq<nat>)

  class Server {
    var jobs: Jobs
    var received: seq<nat>
    var dropped: seq<nat>

    constructor ()
      ensures jobs == NoJobs && received == [] && dropped == []
    {
      jobs, received, dropped := NoJobs, [], [];
    }

    /** Never blocks: without a buffer nothing happens, and a full buffer drops the job. */
    method SubmitPostAck(job: nat)
      modifies this`jobs, this`dropped
      ensures old(jobs).NoJobs? ==> jobs == NoJobs && dropped == old(dropped)
      ensures old(jobs).Jobs? && |old(jobs).queued| < 100_000 ==> jobs == Jobs(old(jobs).queued + [job]) && dropped == old(dropped)
      ensures old(jobs).Jobs? && |old(jobs).queued| >= 100_000 ==> jobs == old(jobs) && dropped == old(dropped) + [job]
    {
      match jobs {
        case NoJobs =>
        case Jobs(queued) =>
          if |queued| < BUFFER { jobs := Jobs(queued + [job]); } else { dropped := dropped + [job]; }
      }
    }

    /** The buffer is closed and drained: workers receive what is left in order, and then it is gone. */
    method StopPipeline()
      modifies this`jobs, this`received
      ensures jobs == NoJobs
      ensures received == if old(jobs).NoJobs? then old(received) else old(received) + old(jobs).queued
    {
      if jobs.NoJobs? { return; }
      ghost var all := jobs.queued;
      assert received + all == old(received) + all;
      while jobs.queued != []
        invariant jobs.Jobs? && received + jobs.queued == old(received) + all
        decreases |jobs.queued|
      {
        assert jobs.queued == [jobs.queued[0]] + jobs.queued[1..];
        assert received + jobs.queued == received + [jobs.queued[0]] + jobs.queued[1..];
        received, jobs := received + [jobs.queued[0]], Jobs(jobs.queued[1..]);
      }
      assert received + [] == received;
      jobs := NoJobs;
    }
  }
}
