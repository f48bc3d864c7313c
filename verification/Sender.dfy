/**
 The retrying sender and its round-robin load balancer.

 Send is a loop over a counter and a table of pause deadlines that other goroutines share, so each probe
 for a server says what the others did before it.  The class is proved to do what Sends says; the lemmas
 about Sends bound the attempts, fix the outcome, and show that pauses are respected.
 */
module Sender {
  import opened Options
  import opened Rotation

  /** The state that concurrent calls share: the balancer's counter and the pause deadlines. */
  datatype Shared = Shared(counter: nat, paused: map<string, nat>)

  /** One look for a server: counts and pauses by others before it, and the clock it reads. */
  datatype Probe = Probe(skips: nat, pauses: map<string, nat>, clock: nat)

  /** How a request ended: a 2xx answer, a 429 with its delay, or anything else. */
  datatype Reply = Accepted | RateLimited(retryAfter: nat) | Failed

  /** The environment of one attempt: its probes, the reply, the clock after it, and whether the wait
      before the next attempt is cancelled. */
  datatype Turn = Turn(probes: seq<Probe>, reply: Reply, after: nat, cancelled: bool)

  datatype SendError = NoServers | Cancelled | RateLimitedBy(server: string, retryAfter: nat) | MaxAttemptsReached

  datatype SendResult = Success(server: string, attempt: nat) | Failure(target: string, attempts: nat, error: SendError)

  // ---------- choosing a server ----------

  /** The server that a counter value selects. */
  function At(servers: seq<string>, c: nat): (s: string)
    requires servers != []
    ensures s in servers
  {
    servers[c % |servers|]
  }

  predicate Paused(paused: map<string, nat>, server: string, now: nat) { server in paused && now < paused[server] }

  /** A deadline is only ever moved later. */
  function Pause(paused: map<string, nat>, server: string, until: nat): map<string, nat> {
    if server !in paused || until > paused[server] then paused[server := until] else paused
  }

  function PauseAll(paused: map<string, nat>, pauses: map<string, nat>): map<string, nat> {
    map s | s in paused.Keys + pauses.Keys ::
      if s !in pauses then paused[s] else if s !in paused || pauses[s] > paused[s] then pauses[s] else paused[s]
  }

  function Interfere(sh: Shared, p: Probe): Shared {
    Shared(Advance(sh.counter, p.skips), PauseAll(sh.paused, p.pauses))
  }

  /** The server chosen and when, and the deadlines then. */
  datatype Choice = Choice(server: string, at: nat, paused: map<string, nat>)

  /** One probe per server until one is not paused. */
  function NextAvailable(servers: seq<string>, sh: Shared, probes: seq<Probe>): (r: (Option<Choice>, Shared))
    requires servers != []
    decreases |probes|
  {
    if probes == [] then (None, sh) else
      var s1 := Interfere(sh, probes[0]);
      var candidate := At(servers, s1.counter);
      var s2 := s1.(counter := Advance(s1.counter, 1));
      if !Paused(s2.paused, candidate, probes[0].clock) then (Some(Choice(candidate, probes[0].clock, s2.paused)), s2)
      else NextAvailable(servers, s2, probes[1..])
  }

  /** Undisturbed probes at one time. */
  function Quiet(n: nat, now: nat): seq<Probe> { if n == 0 then [] else [Probe(0, map[], now)] + Quiet(n - 1, now) }

  lemma QuietProbe(sh: Shared, now: nat)
    requires sh.counter < TWO_64
    ensures Interfere(sh, Probe(0, map[], now)) == sh
  {
    AdvanceByNone(sh.counter);
  }

  /** The first of k counter values from c on that selects an open server; c + k if there is none. */
  function FirstOpen(servers: seq<string>, paused: map<string, nat>, now: nat, c: nat, k: nat): (j: nat)
    requires servers != []
    ensures c <= j <= c + k
    ensures forall i | c <= i < j :: Paused(paused, At(servers, i), now)
    ensures j < c + k ==> !Paused(paused, At(servers, j), now)
    decreases k
  {
    if k == 0 || !Paused(paused, At(servers, c), now) then c else FirstOpen(servers, paused, now, c + 1, k - 1)
  }

  lemma {:induction false} QuietSearch(servers: seq<string>, sh: Shared, now: nat, k: nat)
    requires servers != [] && sh.counter + k < TWO_64
    ensures var j := FirstOpen(servers, sh.paused, now, sh.counter, k);
            NextAvailable(servers, sh, Quiet(k, now)) ==
              if j < sh.counter + k then (Some(Choice(At(servers, j), now, sh.paused)), sh.(counter := j + 1))
              else (None, sh.(counter := sh.counter + k))
    decreases k
  {
    hide At, Paused;
    if k > 0 {
      QuietStep(servers, sh, now, k);
      hide NextAvailable, Quiet;
      QuietSearch(servers, sh.(counter := sh.counter + 1), now, k - 1);
    }
  }

  lemma QuietStep(servers: seq<string>, sh: Shared, now: nat, k: nat)
    requires servers != [] && sh.counter + k < TWO_64 && k > 0
    ensures NextAvailable(servers, sh, Quiet(k, now)) ==
              if Paused(sh.paused, At(servers, sh.counter), now) then
                NextAvailable(servers, sh.(counter := sh.counter + 1), Quiet(k - 1, now))
              else (Some(Choice(At(servers, sh.counter), now, sh.paused)), sh.(counter := sh.counter + 1))
  {
    hide At, Paused;
    QuietProbe(sh, now);
    AdvanceByOne(sh.counter);
    assert ([Probe(0, map[], now)] + Quiet(k - 1, now))[1..] == Quiet(k - 1, now);
  }

  /** The first counter value from c on, among one per server, that selects an open server. */
  ghost predicate IsFirstOpen(servers: seq<string>, paused: map<string, nat>, now: nat, c: nat, j: nat)
    requires servers != []
  {
    c <= j < c + |servers| && !Paused(paused, At(servers, j), now) && forall i | c <= i < j :: Paused(paused, At(servers, i), now)
  }

  lemma NoneIsOpen(servers: seq<string>, paused: map<string, nat>, now: nat, c: nat)
    requires servers != [] && forall i | c <= i < c + |servers| :: Paused(paused, At(servers, i), now)
    ensures forall s | s in servers :: Paused(paused, s, now)
  {
    forall s | s in servers ensures Paused(paused, s, now) {
      var i: nat :| i < |servers| && servers[i] == s;
      var k := OffsetOf(c, i, |servers|);
      assert At(servers, c + k) == s;
    }
  }

  /** Undisturbed and at one time, the search finds the cyclically first open server within one probe per
      server exactly when some server is open. */
  lemma {:induction false} SearchIsComplete(servers: seq<string>, sh: Shared, now: nat)
    requires servers != [] && sh.counter + |servers| < TWO_64
    ensures var found := NextAvailable(servers, sh, Quiet(|servers|, now)).0;
            && (found.Some? <==> exists s :: s in servers && !Paused(sh.paused, s, now))
            && (found.Some? ==> exists j :: IsFirstOpen(servers, sh.paused, now, sh.counter, j) && found.value.server == At(servers, j))
  {
    var n := |servers|;
    var j := FirstOpen(servers, sh.paused, now, sh.counter, n);
    QuietSearch(servers, sh, now, n);
    hide NextAvailable, Quiet, FirstOpen, Paused, At;
    if j == sh.counter + n {
      NoneIsOpen(servers, sh.paused, now, sh.counter);
    } else {
      assert IsFirstOpen(servers, sh.paused, now, sh.counter, j);
    }
  }

  // ---------- sending ----------

  /** An attempt as an observer sees it, with the deadlines at the time of its choice. */
  datatype Try = Try(choice: Choice, reply: Reply, after: nat)

  datatype Sent = Sent(result: SendResult, tries: seq<Try>, sh: Shared)

  datatype Limit = NoLimit | Limit(server: string, retryAfter: nat)

  function GiveUp(limit: Limit, target: string, attempts: nat): SendResult {
    match limit
    case Limit(server, retryAfter) => Failure(server, attempts, RateLimitedBy(server, retryAfter))
    case NoLimit => Failure(target, attempts, MaxAttemptsReached)
  }

  /** The attempts from one on, with the last 429 and the last target so far. */
  function Sends(servers: seq<string>, max: nat, sh: Shared, turns: seq<Turn>, limit: Limit, last: string): Sent
    requires servers != [] && |turns| <= max
    decreases |turns|
  {
    var attempt := max - |turns| + 1;
    if turns == [] then Sent(GiveUp(limit, last, max), [], sh)
    else
      var turn := turns[0];
      var (found, s1) := NextAvailable(servers, sh, turn.probes);
      if found.None? then
        Sent(GiveUp(limit, last, if limit.Limit? then attempt - 1 else max), [], s1)
      else
        var choice := found.value;
        var here := Try(choice, turn.reply, turn.after);
        match turn.reply
        case Accepted => Sent(Success(choice.server, attempt), [here], s1)
        case RateLimited(retryAfter) =>
          var s2 := s1.(paused := Pause(s1.paused, choice.server, turn.after + retryAfter));
          var rest := Sends(servers, max, s2, turns[1..], Limit(choice.server, retryAfter), choice.server);
          rest.(tries := [here] + rest.tries)
        case Failed =>
          if attempt < max && turn.cancelled then Sent(Failure(choice.server, attempt, Cancelled), [here], s1)
          else
            var rest := Sends(servers, max, s1, turns[1..], limit, choice.server);
            rest.(tries := [here] + rest.tries)
  }

  /** One attempt unfolded. */
  lemma OneAttempt(servers: seq<string>, max: nat, sh: Shared, turns: seq<Turn>, limit: Limit, last: string)
    requires servers != [] && 0 < |turns| <= max
    ensures var turn, attempt := turns[0], max - |turns| + 1;
            var (found, s1) := NextAvailable(servers, sh, turn.probes);
            var s := Sends(servers, max, sh, turns, limit, last);
            if found.None? then s == Sent(GiveUp(limit, last, if limit.Limit? then attempt - 1 else max), [], s1)
            else
              var server, here := found.value.server, Try(found.value, turn.reply, turn.after);
              match turn.reply
              case Accepted => s == Sent(Success(server, attempt), [here], s1)
              case RateLimited(ra) =>
                var rest := Sends(servers, max, s1.(paused := Pause(s1.paused, server, turn.after + ra)), turns[1..], Limit(server, ra), server);
                s == rest.(tries := [here] + rest.tries)
              case Failed =>
                if attempt < max && turn.cancelled then s == Sent(Failure(server, attempt, Cancelled), [here], s1)
                else
                  var rest := Sends(servers, max, s1, turns[1..], limit, server);
                  s == rest.(tries := [here] + rest.tries)
  {
    hide NextAvailable, Pause, GiveUp;
  }

  lemma NoAttempt(servers: seq<string>, max: nat, sh: Shared, limit: Limit, last: string)
    requires servers != []
    ensures Sends(servers, max, sh, [], limit, last) == Sent(GiveUp(limit, last, max), [], sh)
  {
  }

  predicate SomeLimited(tries: seq<Try>) { exists i :: 0 <= i < |tries| && tries[i].reply.RateLimited? }

  lemma ConsLimited(t: Try, rest: seq<Try>)
    ensures SomeLimited([t] + rest) <==> t.reply.RateLimited? || SomeLimited(rest)
  {
    var all := [t] + rest;
    if SomeLimited(rest) {
      var i :| 0 <= i < |rest| && rest[i].reply.RateLimited?;
      assert all[i + 1].reply.RateLimited?;
    }
    if t.reply.RateLimited? { assert all[0].reply.RateLimited?; }
    if SomeLimited(all) {
      var i :| 0 <= i < |all| && all[i].reply.RateLimited?;
      if i > 0 { assert rest[i - 1].reply.RateLimited?; }
    }
  }

  /** The last 429 and the last target of some tries, or what there was before them. */
  function LastLimit(limit: Limit, tries: seq<Try>): Limit
    decreases |tries|
  {
    if tries == [] then limit
    else
      var t := tries[0];
      LastLimit(if t.reply.RateLimited? then Limit(t.choice.server, t.reply.retryAfter) else limit, tries[1..])
  }

  function LastTarget(last: string, tries: seq<Try>): string {
    if tries == [] then last else tries[|tries| - 1].choice.server
  }

  lemma LimitedMeansSome(limit: Limit, tries: seq<Try>)
    ensures LastLimit(limit, tries).Limit? <==> limit.Limit? || SomeLimited(tries)
    decreases |tries|
  {
    if tries == [] {
      NoneLimited();
    } else {
      var t := tries[0];
      LimitedMeansSome(if t.reply.RateLimited? then Limit(t.choice.server, t.reply.retryAfter) else limit, tries[1..]);
      ConsLimited(t, tries[1..]);
      assert tries == [t] + tries[1..];
    }
  }

  /** A call ends without cancellation when its attempts are used up or a search finds every probed server paused. */
  ghost predicate RanOut(servers: seq<string>, turns: seq<Turn>, s: Sent)
    requires servers != []
  {
    |s.tries| == |turns| ||
    (|s.tries| < |turns| && exists sh :: NextAvailable(servers, sh, turns[|s.tries|].probes) == (None, s.sh))
  }

  predicate TriesAreTurns(turns: seq<Turn>, tries: seq<Try>) {
    |tries| <= |turns| && forall i | 0 <= i < |tries| :: tries[i].reply == turns[i].reply && tries[i].after == turns[i].after
  }

  lemma StopsLater(turns: seq<Turn>, t: Try, rest: Sent)
    requires turns != [] && t.reply == turns[0].reply && t.after == turns[0].after
    requires t.reply.Failed? && |turns| > 1 ==> !turns[0].cancelled
    requires TriesAreTurns(turns[1..], rest.tries) && StopsWhenCancelled(turns[1..], rest)
    ensures var s := rest.(tries := [t] + rest.tries); TriesAreTurns(turns, s.tries) && StopsWhenCancelled(turns, s)
  {
    var s := rest.(tries := [t] + rest.tries);
    assert forall i | 1 <= i < |turns| :: turns[i] == turns[1..][i - 1];
    assert forall i | 1 <= i < |s.tries| :: s.tries[i] == rest.tries[i - 1];
  }

  /** A call is cancelled exactly behind a failed try that is not its last possible one, when the wait is cancelled. */
  predicate StopsWhenCancelled(turns: seq<Turn>, s: Sent) {
    && (s.result.Failure? && s.result.error.Cancelled? ==>
          0 < |s.tries| < |turns| && s.tries[|s.tries| - 1].reply.Failed? && turns[|s.tries| - 1].cancelled)
    && (forall i | 0 <= i < |s.tries| && i + 1 < |turns| && s.tries[i].reply.Failed? && turns[i].cancelled ::
          i + 1 == |s.tries| && s.result.Failure? && s.result.error.Cancelled?)
  }

  /** What a call reports, given its tries and what came before them. */
  ghost predicate Reports(servers: seq<string>, turns: seq<Turn>, before: nat, limit: Limit, last: string, s: Sent)
    requires servers != []
  {
    && |s.tries| <= |turns|
    && (forall i | 0 <= i < |s.tries| - 1 :: !s.tries[i].reply.Accepted?)
    && TriesAreTurns(turns, s.tries) && StopsWhenCancelled(turns, s)
    && match s.result
       case Success(server, attempt) =>
         s.tries != [] && s.tries[|s.tries| - 1].reply.Accepted? && server == LastTarget(last, s.tries) && attempt == before + |s.tries|
       case Failure(target, attempts, error) =>
         && (s.tries != [] ==> !s.tries[|s.tries| - 1].reply.Accepted?)
         && match error
            case NoServers => false
            case Cancelled =>
              s.tries != [] && s.tries[|s.tries| - 1].reply.Failed? && target == LastTarget(last, s.tries) && attempts == before + |s.tries|
            case RateLimitedBy(server, retryAfter) =>
              && LastLimit(limit, s.tries) == Limit(server, retryAfter) && target == server && RanOut(servers, turns, s)
              && attempts == before + |s.tries|
            case MaxAttemptsReached =>
              && LastLimit(limit, s.tries) == NoLimit && target == LastTarget(last, s.tries) && RanOut(servers, turns, s)
              && attempts == before + |turns|
  }

  lemma GivingUpReports(servers: seq<string>, turns: seq<Turn>, before: nat, limit: Limit, last: string, attempts: nat, sh: Shared)
    requires servers != [] && RanOut(servers, turns, Sent(GiveUp(limit, last, attempts), [], sh))
    requires attempts == if limit.Limit? then before else before + |turns|
    ensures Reports(servers, turns, before, limit, last, Sent(GiveUp(limit, last, attempts), [], sh))
  {
    var s := Sent(GiveUp(limit, last, attempts), [], sh);
    assert RanOut(servers, turns, s.(result := GiveUp(limit, last, attempts)));
    hide NextAvailable;
  }

  lemma EndingReports(servers: seq<string>, turns: seq<Turn>, before: nat, limit: Limit, last: string, t: Try, sh: Shared)
    requires servers != [] && turns != [] && t.reply == turns[0].reply && t.after == turns[0].after
    ensures t.reply.Accepted? ==>
              Reports(servers, turns, before, limit, last, Sent(Success(t.choice.server, before + 1), [t], sh))
    ensures t.reply.Failed? && turns[0].cancelled && |turns| > 1 ==>
              Reports(servers, turns, before, limit, last, Sent(Failure(t.choice.server, before + 1, Cancelled), [t], sh))
  {
    hide NextAvailable;
  }

  lemma RanOutLater(servers: seq<string>, turns: seq<Turn>, t: Try, rest: Sent)
    requires servers != [] && turns != [] && RanOut(servers, turns[1..], rest)
    ensures RanOut(servers, turns, rest.(tries := [t] + rest.tries))
  {
    hide NextAvailable;
    if |rest.tries| < |turns| - 1 { assert turns[1..][|rest.tries|] == turns[|rest.tries| + 1]; }
  }

  lemma MoreReports(servers: seq<string>, turns: seq<Turn>, before: nat, limit: Limit, last: string, t: Try, rest: Sent)
    requires servers != [] && turns != [] && !t.reply.Accepted? && t.reply == turns[0].reply && t.after == turns[0].after
    requires t.reply.Failed? && |turns| > 1 ==> !turns[0].cancelled
    requires Reports(servers, turns[1..], before + 1,
                     if t.reply.RateLimited? then Limit(t.choice.server, t.reply.retryAfter) else limit, t.choice.server, rest)
    ensures Reports(servers, turns, before, limit, last, rest.(tries := [t] + rest.tries))
  {
    var s := rest.(tries := [t] + rest.tries);
    assert s.tries[1..] == rest.tries;
    assert forall i | 1 <= i < |s.tries| :: s.tries[i] == rest.tries[i - 1];
    assert LastTarget(last, s.tries) == LastTarget(t.choice.server, rest.tries);
    StopsLater(turns, t, rest);
    hide StopsWhenCancelled, TriesAreTurns;
    assert rest.result.Failure? && (rest.result.error.RateLimitedBy? || rest.result.error.MaxAttemptsReached?) ==> RanOut(servers, turns[1..], rest);
    hide RanOut;
    if RanOut(servers, turns[1..], rest) { RanOutLater(servers, turns, t, rest); }
  }

  lemma {:induction false} SendReports(servers: seq<string>, max: nat, sh: Shared, turns: seq<Turn>, limit: Limit, last: string)
    requires servers != [] && |turns| <= max
    ensures Reports(servers, turns, max - |turns|, limit, last, Sends(servers, max, sh, turns, limit, last))
    decreases |turns|
  {
    var before := max - |turns|;
    hide NextAvailable, Sends, Pause, Reports, RanOut, GiveUp;
    if turns == [] {
      NoAttempt(servers, max, sh, limit, last);
      UsedUp(servers, turns, Sent(GiveUp(limit, last, max), [], sh));
      GivingUpReports(servers, turns, before, limit, last, max, sh);
    } else {
      OneAttempt(servers, max, sh, turns, limit, last);
      var turn := turns[0];
      var (found, s1) := NextAvailable(servers, sh, turn.probes);
      if found.None? {
        var attempts := if limit.Limit? then before else max;
        NoneFound(servers, turns, sh, Sent(GiveUp(limit, last, attempts), [], s1));
        GivingUpReports(servers, turns, before, limit, last, attempts, s1);
      } else {
        var server := found.value.server;
        var here := Try(found.value, turn.reply, turn.after);
        EndingReports(servers, turns, before, limit, last, here, s1);
        if !turn.reply.Accepted? && !(turn.reply.Failed? && |turns| > 1 && turn.cancelled) {
          var s2 := if turn.reply.RateLimited? then s1.(paused := Pause(s1.paused, server, turn.after + turn.reply.retryAfter))
                    else s1;
          var l := if turn.reply.RateLimited? then Limit(server, turn.reply.retryAfter) else limit;
          SendReports(servers, max, s2, turns[1..], l, server);
          MoreReports(servers, turns, before, limit, last, here, Sends(servers, max, s2, turns[1..], l, server));
        }
      }
    }
  }

  lemma UsedUp(servers: seq<string>, turns: seq<Turn>, s: Sent)
    requires servers != [] && |s.tries| == |turns|
    ensures RanOut(servers, turns, s)
  {
  }

  lemma NoneFound(servers: seq<string>, turns: seq<Turn>, sh: Shared, s: Sent)
    requires servers != [] && turns != [] && s.tries == [] && NextAvailable(servers, sh, turns[0].probes) == (None, s.sh)
    ensures RanOut(servers, turns, s)
  {
    hide NextAvailable;
  }

  /** A whole call: at most max tries, success exactly when the last try was accepted, and a failure without
      cancellation is the rate-limit error exactly when some try of this call got a 429. */
  lemma {:induction false} SendOutcome(servers: seq<string>, max: nat, sh: Shared, turns: seq<Turn>)
    requires servers != [] && |turns| == max
    ensures var s := Sends(servers, max, sh, turns, NoLimit, "");
            && |s.tries| <= max
            && (s.result.Success? <==> s.tries != [] && s.tries[|s.tries| - 1].reply.Accepted?)
            && (s.result.Failure? && s.result.error != Cancelled ==> (s.result.error.RateLimitedBy? <==> SomeLimited(s.tries)))
  {
    var s := Sends(servers, max, sh, turns, NoLimit, "");
    SendReports(servers, max, sh, turns, NoLimit, "");
    hide Sends, NextAvailable, RanOut, SomeLimited;
    LimitedMeansSome(NoLimit, s.tries);
  }

  lemma NoneLimited()
    ensures !SomeLimited([])
  {
  }

  // ---------- pauses ----------

  /** No deadline moves earlier. */
  predicate Later(a: map<string, nat>, b: map<string, nat>) { forall s | s in a :: s in b && a[s] <= b[s] }

  lemma {:induction false} ChoiceIsOpen(servers: seq<string>, sh: Shared, probes: seq<Probe>)
    requires servers != []
    ensures var (found, s) := NextAvailable(servers, sh, probes);
            && Later(sh.paused, s.paused)
            && (found.Some? ==> found.value.server in servers && found.value.paused == s.paused
                                && !Paused(s.paused, found.value.server, found.value.at))
    decreases |probes|
  {
    if probes != [] {
      var s1 := Interfere(sh, probes[0]);
      ChoiceIsOpen(servers, s1.(counter := Advance(s1.counter, 1)), probes[1..]);
    }
  }

  /** Each try went to an open server, and deadlines only moved later up to it. */
  predicate Respected(from: map<string, nat>, t: Try) {
    Later(from, t.choice.paused) && !Paused(t.choice.paused, t.choice.server, t.choice.at)
  }

  /** A later try of a server comes after the delay an earlier 429 asked for. */
  predicate Waited(a: Try, b: Try) {
    a.reply.RateLimited? && b.choice.server == a.choice.server ==> b.choice.at >= a.after + a.reply.retryAfter
  }

  lemma LaterTrans(a: map<string, nat>, b: map<string, nat>, c: map<string, nat>)
    requires Later(a, b) && Later(b, c)
    ensures Later(a, c)
  {
  }

  lemma PauseIsLater(paused: map<string, nat>, server: string, until: nat)
    ensures Later(paused, Pause(paused, server, until))
    ensures server in Pause(paused, server, until) && Pause(paused, server, until)[server] >= until
  {
  }

  predicate AllRespected(servers: seq<string>, from: map<string, nat>, tries: seq<Try>) {
    tries != [] ==> tries[0].choice.server in servers && Respected(from, tries[0]) && AllRespected(servers, from, tries[1..])
  }

  predicate AllWaitedFor(a: Try, tries: seq<Try>) { tries != [] ==> Waited(a, tries[0]) && AllWaitedFor(a, tries[1..]) }

  predicate AllWaited(tries: seq<Try>) { tries != [] ==> AllWaitedFor(tries[0], tries[1..]) && AllWaited(tries[1..]) }

  lemma RespectedFromEarlier(servers: seq<string>, from: map<string, nat>, mid: map<string, nat>, tries: seq<Try>)
    requires Later(from, mid) && AllRespected(servers, mid, tries)
    ensures AllRespected(servers, from, tries)
  {
    hide Later, Paused;
    if tries != [] {
      LaterTrans(from, mid, tries[0].choice.paused);
      RespectedFromEarlier(servers, from, mid, tries[1..]);
    }
  }

  lemma StillPaused(paused: map<string, nat>, a: Try, t: Try)
    requires a.reply.RateLimited? && a.choice.server in paused && paused[a.choice.server] >= a.after + a.reply.retryAfter
    requires Respected(paused, t)
    ensures Waited(a, t)
  {
  }

  lemma AllStillPaused(servers: seq<string>, paused: map<string, nat>, a: Try, tries: seq<Try>)
    requires a.reply.RateLimited? && a.choice.server in paused && paused[a.choice.server] >= a.after + a.reply.retryAfter
    requires AllRespected(servers, paused, tries)
    ensures AllWaitedFor(a, tries)
  {
    hide Respected, Waited;
    if tries != [] {
      StillPaused(paused, a, tries[0]);
      AllStillPaused(servers, paused, a, tries[1..]);
    }
  }

  lemma NobodyWaits(a: Try, tries: seq<Try>)
    requires !a.reply.RateLimited?
    ensures AllWaitedFor(a, tries)
  {
  }

  /** What one call keeps: deadlines only move later, every try goes to a server that is not paused when it
      is chosen, and no server is tried again before the delay its 429 asked for has passed. */
  predicate Kept(servers: seq<string>, from: map<string, nat>, s: Sent) {
    Later(from, s.sh.paused) && AllRespected(servers, from, s.tries) && AllWaited(s.tries)
  }

  lemma KeptByOne(servers: seq<string>, from: map<string, nat>, s: Sent, t: Try)
    requires s.tries == [t] && s.sh.paused == t.choice.paused
    requires t.choice.server in servers && Respected(from, t)
    ensures Kept(servers, from, s)
  {
    hide Respected;
    var tail := s.tries[1..];
    assert tail == [] && s.tries[0] == t;
    RespectedIsLater(from, t);
    assert AllRespected(servers, from, tail);
    assert AllRespected(servers, from, s.tries);
    assert AllWaitedFor(t, tail) && AllWaited(tail);
    assert AllWaited(s.tries);
  }

  lemma RespectedIsLater(from: map<string, nat>, t: Try)
    requires Respected(from, t)
    ensures Later(from, t.choice.paused)
  {
  }

  lemma KeptByMore(servers: seq<string>, from: map<string, nat>, mid: map<string, nat>, t: Try, rest: Sent)
    requires t.choice.server in servers && Respected(from, t) && Later(t.choice.paused, mid)
    requires t.reply.RateLimited? ==> t.choice.server in mid && mid[t.choice.server] >= t.after + t.reply.retryAfter
    requires Kept(servers, mid, rest)
    ensures Kept(servers, from, rest.(tries := [t] + rest.tries))
  {
    assert ([t] + rest.tries)[1..] == rest.tries;
    RespectedIsLater(from, t);
    hide Respected, Later, Paused;
    LaterTrans(from, t.choice.paused, mid);
    LaterTrans(from, mid, rest.sh.paused);
    RespectedFromEarlier(servers, from, mid, rest.tries);
    if t.reply.RateLimited? { AllStillPaused(servers, mid, t, rest.tries); } else { NobodyWaits(t, rest.tries); }
  }

  lemma {:induction false} PausesAreRespected(servers: seq<string>, max: nat, sh: Shared, turns: seq<Turn>, limit: Limit, last: string)
    requires servers != [] && |turns| <= max
    ensures Kept(servers, sh.paused, Sends(servers, max, sh, turns, limit, last))
    decreases |turns|
  {
    hide NextAvailable, Pause, Later, Paused;
    LaterItself(sh.paused);
    if turns != [] {
      var turn := turns[0];
      var (found, s1) := NextAvailable(servers, sh, turn.probes);
      ChoiceIsOpen(servers, sh, turn.probes);
      if found.Some? {
        var server := found.value.server;
        var here := Try(found.value, turn.reply, turn.after);
        KeptByOne(servers, sh.paused, Sent(GiveUp(NoLimit, "", 0), [here], s1), here);
        hide Kept, Respected;
        match turn.reply
        case Accepted => OneTryKept(servers, sh.paused, here, s1, Success(server, max - |turns| + 1));
        case RateLimited(ra) =>
          var s2 := s1.(paused := Pause(s1.paused, server, turn.after + ra));
          PauseIsLater(s1.paused, server, turn.after + ra);
          PausesAreRespected(servers, max, s2, turns[1..], Limit(server, ra), server);
          KeptByMore(servers, sh.paused, s2.paused, here, Sends(servers, max, s2, turns[1..], Limit(server, ra), server));
        case Failed =>
          OneTryKept(servers, sh.paused, here, s1, Failure(server, max - |turns| + 1, Cancelled));
          LaterItself(s1.paused);
          PausesAreRespected(servers, max, s1, turns[1..], limit, server);
          KeptByMore(servers, sh.paused, s1.paused, here, Sends(servers, max, s1, turns[1..], limit, server));
      }
    }
  }

  lemma OneTryKept(servers: seq<string>, from: map<string, nat>, t: Try, sh: Shared, result: SendResult)
    requires Kept(servers, from, Sent(GiveUp(NoLimit, "", 0), [t], sh))
    ensures Kept(servers, from, Sent(result, [t], sh))
  {
  }

  lemma LaterItself(a: map<string, nat>)
    ensures Later(a, a)
  {
  }

  // ---------- backoff ----------

  /** 2^63 nanoseconds, in seconds: durations are less than this. */
  const DURATION_LIMIT: real := 9223372036.854775808

  /** Above this exponent a power of two is no finite floating-point number. */
  const EXPONENT_LIMIT: nat := 1023

  /** What the machine makes of the two conversions to a duration when their argument is out of range. */
  datatype Overflow = Overflow(first: real, second: real)

  predicate IsDuration(x: real) { -DURATION_LIMIT <= x < DURATION_LIMIT }

  predicate IsOverflow(o: Overflow) { IsDuration(o.first) && IsDuration(o.second) }

  /** The delay without cap and jitter: base * 2^(attempt - 1). */
  function Doubled(base: real, attempt: nat): real
    requires attempt >= 1
  {
    base * TwoTo(attempt - 1)
  }

  predicate Converts(base: real, attempt: nat)
    requires attempt >= 1
  {
    attempt - 1 <= EXPONENT_LIMIT && IsDuration(Doubled(base, attempt))
  }

  /** Cap, jitter, and the conversion of the sum. */
  function CappedWait(delay: real, spread: real, o: Overflow): real {
    var sum := Jittered(Capped(delay), spread);
    if IsDuration(sum) then sum else o.second
  }

  /** The wait before the next attempt in seconds; spread is the random value. */
  function RetryDelay(base: real, attempt: nat, spread: real, o: Overflow): real
    requires attempt >= 1
  {
    CappedWait(if Converts(base, attempt) then Doubled(base, attempt) else o.first, spread, o)
  }

  function Capped(delay: real): real { if delay > 30.0 then 30.0 else delay }

  function Jittered(delay: real, spread: real): real { delay + spread * (delay * 0.25) }

  function TwoTo(n: nat): (r: real)
    ensures r >= 1.0
  {
    if n == 0 then 1.0 else 2.0 * TwoTo(n - 1)
  }

  lemma Scale(spread: real, x: real)
    requires -1.0 <= spread <= 1.0 && x >= 0.0
    ensures -x <= spread * x <= x
  {
  }

  lemma NotNegative(a: real, b: real)
    requires a >= 0.0 && b >= 0.0
    ensures a * b >= 0.0
  {
  }

  lemma ScaleBelow(spread: real, x: real)
    requires spread < 1.0 && x > 0.0
    ensures spread * x < x
  {
  }

  lemma JitterIsBounded(delay: real, spread: real)
    requires 0.0 <= delay <= 30.0 && -1.0 <= spread < 1.0
    ensures 0.0 <= Jittered(delay, spread) <= 1.25 * delay
    ensures Jittered(delay, spread) < 37.5
  {
    var part := delay * 0.25;
    assert Jittered(delay, spread) == delay + spread * part;
    hide Jittered;
    Scale(spread, part);
    if part > 0.0 { ScaleBelow(spread, part); }
  }

  /** The random value is at least -1 and below 1. */
  predicate IsSpread(spread: real) { -1.0 <= spread < 1.0 }

  lemma WaitIsBounded(delay: real, spread: real, o: Overflow)
    requires delay >= 0.0 && IsSpread(spread)
    ensures CappedWait(delay, spread, o) == Jittered(Capped(delay), spread)
    ensures 0.0 <= CappedWait(delay, spread, o) < 37.5
  {
    JitterIsBounded(Capped(delay), spread);
    hide Jittered;
  }

  lemma DelayConverted(base: real, attempt: nat, spread: real, o: Overflow)
    requires base >= 0.0 && attempt >= 1 && IsSpread(spread) && Converts(base, attempt)
    ensures RetryDelay(base, attempt, spread, o) == Jittered(Capped(Doubled(base, attempt)), spread)
    ensures 0.0 <= RetryDelay(base, attempt, spread, o) < 37.5
  {
    NotNegative(base, TwoTo(attempt - 1));
    assert Doubled(base, attempt) >= 0.0;
    hide Doubled, CappedWait, Jittered, Capped, Converts, IsSpread;
    WaitIsBounded(Doubled(base, attempt), spread, o);
  }

  /** What an attempt waits whose delay cannot be converted: what the conversion made of it, capped and jittered. */
  lemma DelayOverflows(base: real, attempt: nat, spread: real, o: Overflow)
    requires attempt >= 1 && !Converts(base, attempt)
    ensures RetryDelay(base, attempt, spread, o) == CappedWait(o.first, spread, o)
  {
    hide Converts, CappedWait;
  }

  /** A wait before an attempt is at least 0 and less than 37.5 seconds, for every random value and every machine,
      exactly when its delay can be converted to a duration. */
  lemma {:induction false} DelayIsBounded(base: real, attempt: nat)
    requires base >= 0.0 && attempt >= 1
    ensures (forall spread, o | IsSpread(spread) && IsOverflow(o) :: 0.0 <= RetryDelay(base, attempt, spread, o) < 37.5) <==>
              Converts(base, attempt)
  {
    hide RetryDelay, Converts;
    if Converts(base, attempt) {
      forall spread, o | IsSpread(spread) && IsOverflow(o) ensures 0.0 <= RetryDelay(base, attempt, spread, o) < 37.5 {
        DelayConverted(base, attempt, spread, o);
      }
    } else {
      var o := Overflow(-1.0, 0.0);
      DelayOverflows(base, attempt, 0.0, o);
      assert Jittered(-1.0, 0.0) == -1.0;
      assert IsSpread(0.0) && IsOverflow(o);
    }
  }

  /** The first delay is the configured one, each next is twice the one before, and a wait is the delay, cut to 30
      seconds, changed by up to a quarter. */
  lemma {:induction false} DelaysDouble(base: real, attempt: nat, spread: real, o: Overflow)
    requires base >= 0.0 && attempt >= 1
    ensures Doubled(base, 1) == base && Doubled(base, attempt + 1) == 2.0 * Doubled(base, attempt)
    ensures IsSpread(spread) && Converts(base, attempt) ==>
              RetryDelay(base, attempt, spread, o) ==
                (if Doubled(base, attempt) > 30.0 then 30.0 else Doubled(base, attempt)) * (1.0 + 0.25 * spread)
  {
    var x := TwoTo(attempt - 1);
    assert TwoTo(attempt) == 2.0 * x;
    assert base * (2.0 * x) == 2.0 * (base * x);
    if IsSpread(spread) && Converts(base, attempt) {
      DelayConverted(base, attempt, spread, o);
      var d := Capped(Doubled(base, attempt));
      assert d * (1.0 + 0.25 * spread) == d + spread * (d * 0.25);
    }
  }

  /** Above 24 seconds some random value takes a delay past 30. */
  lemma PassesTheCap(delay: real) returns (spread: real)
    requires 24.0 < delay <= 30.0
    ensures IsSpread(spread) && Jittered(delay, spread) > 30.0
  {
    var q := (120.0 - 4.0 * delay) / delay;
    assert q * delay == 120.0 - 4.0 * delay;
    if q >= 1.0 { NotNegative(q - 1.0, delay); }
    if q < 0.0 { NotNegative(-q, delay); }
    spread := (q + 1.0) * 0.5;
    assert Jittered(delay, spread) == delay + (q * delay + delay) * 0.125;
  }

  lemma {:induction false} CapOf(x: real)
    requires x >= 0.0
    ensures (forall spread | IsSpread(spread) :: Jittered(Capped(x), spread) <= 30.0) <==> x <= 24.0
  {
    hide Jittered;
    if x <= 24.0 {
      forall spread | IsSpread(spread) ensures Jittered(Capped(x), spread) <= 30.0 { JitterIsBounded(x, spread); }
    } else {
      var spread := PassesTheCap(Capped(x));
      assert IsSpread(spread);
    }
  }

  /** Every wait before an attempt keeps the cap of 30 seconds exactly when its delay can be converted and is at
      most 24 without jitter: jitter is added behind the cap. */
  lemma {:induction false} CapHoldsExactly(base: real, attempt: nat)
    requires base >= 0.0 && attempt >= 1
    ensures (forall spread, o | IsSpread(spread) && IsOverflow(o) :: RetryDelay(base, attempt, spread, o) <= 30.0) <==>
              Converts(base, attempt) && Doubled(base, attempt) <= 24.0
  {
    if Converts(base, attempt) { CapOfConverted(base, attempt); } else { CapOfOverflow(base, attempt); }
  }

  lemma {:induction false} CapOfConverted(base: real, attempt: nat)
    requires base >= 0.0 && attempt >= 1 && Converts(base, attempt)
    ensures (forall spread, o | IsSpread(spread) && IsOverflow(o) :: RetryDelay(base, attempt, spread, o) <= 30.0) <==>
              Doubled(base, attempt) <= 24.0
  {
    var x := Doubled(base, attempt);
    NotNegative(base, TwoTo(attempt - 1));
    CapOf(x);
    assert IsOverflow(Overflow(0.0, 0.0));
    hide *;
    forall spread, o | IsSpread(spread) && IsOverflow(o)
      ensures RetryDelay(base, attempt, spread, o) == Jittered(Capped(x), spread)
    {
      DelayConverted(base, attempt, spread, o);
    }
    if spread :| IsSpread(spread) && !(Jittered(Capped(x), spread) <= 30.0) {
      assert !(RetryDelay(base, attempt, spread, Overflow(0.0, 0.0)) <= 30.0);
    }
  }

  /** A delay that cannot be converted can come out as 30 seconds, with jitter behind it. */
  lemma CapOfOverflow(base: real, attempt: nat)
    requires attempt >= 1 && !Converts(base, attempt)
    ensures exists spread, o :: IsSpread(spread) && IsOverflow(o) && !(RetryDelay(base, attempt, spread, o) <= 30.0)
  {
    var o := Overflow(30.0, 0.0);
    DelayOverflows(base, attempt, 0.5, o);
    assert Jittered(30.0, 0.5) == 33.75;
    assert IsSpread(0.5) && IsOverflow(o);
    hide Converts, Doubled;
  }

  /** With delays of 30 seconds any positive random value passes the cap. */
  lemma {:induction false} CapIsPassed(spread: real, o: Overflow)
    requires 0.0 < spread < 1.0
    ensures 30.0 < RetryDelay(30.0, 1, spread, o) < 37.5
  {
    assert Doubled(30.0, 1) == 30.0;
    assert Converts(30.0, 1);
    DelayConverted(30.0, 1, spread, o);
  }

  /** One server is paused at every time before until and at every time it was paused before; no deadline moves
      earlier, and no other server's deadline moves. */
  ghost predicate OnlyPauses(before: map<string, nat>, paused: map<string, nat>, server: string, until: nat) {
    && (forall now: nat :: Paused(paused, server, now) <==> now < until || Paused(before, server, now))
    && paused.Keys == before.Keys + {server}
    && (forall other | other in before :: paused[other] >= before[other] && (other != server ==> paused[other] == before[other]))
  }

  // ---------- one attempt ----------

  lemma NothingOpen(servers: seq<string>, max: nat, sh: Shared, turns: seq<Turn>, limit: Limit, last: string, s1: Shared)
    requires servers != [] && 0 < |turns| <= max && NextAvailable(servers, sh, turns[0].probes) == (None, s1)
    ensures var attempt := max - |turns| + 1;
            Sends(servers, max, sh, turns, limit, last) == Sent(GiveUp(limit, last, if limit.Limit? then attempt - 1 else max), [], s1)
  {
    OneAttempt(servers, max, sh, turns, limit, last);
    hide *;
  }

  lemma AttemptEnds(servers: seq<string>, max: nat, sh: Shared, turns: seq<Turn>, limit: Limit, last: string, choice: Choice, s1: Shared)
    requires servers != [] && 0 < |turns| <= max && NextAvailable(servers, sh, turns[0].probes) == (Some(choice), s1)
    ensures var turn, attempt := turns[0], max - |turns| + 1;
            (turn.reply.Accepted? || (turn.reply.Failed? && attempt < max && turn.cancelled)) ==>
              Sends(servers, max, sh, turns, limit, last) ==
                Sent(if turn.reply.Accepted? then Success(choice.server, attempt) else Failure(choice.server, attempt, Cancelled),
                     [Try(choice, turn.reply, turn.after)], s1)
  {
    OneAttempt(servers, max, sh, turns, limit, last);
    hide *;
  }

  lemma AttemptGoesOn(servers: seq<string>, max: nat, sh: Shared, turns: seq<Turn>, limit: Limit, last: string, choice: Choice, s1: Shared)
    requires servers != [] && 0 < |turns| <= max && NextAvailable(servers, sh, turns[0].probes) == (Some(choice), s1)
    requires var turn := turns[0]; !turn.reply.Accepted? && !(turn.reply.Failed? && max - |turns| + 1 < max && turn.cancelled)
    ensures var turn := turns[0];
            var limited := turn.reply.RateLimited?;
            Follows(Sends(servers, max, sh, turns, limit, last), [Try(choice, turn.reply, turn.after)],
                    Sends(servers, max,
                          if limited then s1.(paused := Pause(s1.paused, choice.server, turn.after + turn.reply.retryAfter)) else s1,
                          turns[1..], if limited then Limit(choice.server, turn.reply.retryAfter) else limit, choice.server))
  {
    var turn := turns[0];
    OneAttempt(servers, max, sh, turns, limit, last);
    hide *;
    var limited := turn.reply.RateLimited?;
    DoesFollow([Try(choice, turn.reply, turn.after)],
               Sends(servers, max,
                     if limited then s1.(paused := Pause(s1.paused, choice.server, turn.after + turn.reply.retryAfter)) else s1,
                     turns[1..], if limited then Limit(choice.server, turn.reply.retryAfter) else limit, choice.server));
  }

  // ---------- the sender itself ----------

  class HTTPSender {
    const servers: seq<string>
    const maxAttempts: nat
    var counter: nat
    var pausedUntil: map<string, nat>

    constructor (servers: seq<string>, maxAttempts: nat)
      ensures this.servers == servers && this.maxAttempts == maxAttempts && counter == 0
      ensures forall s :: s in pausedUntil <==> s in servers
      ensures forall s, now | s in servers :: !Paused(pausedUntil, s, now)
    {
      this.servers, this.maxAttempts, counter := servers, maxAttempts, 0;
      pausedUntil := map s | s in servers :: 0;
    }

    function State(): Shared
      reads this
    {
      Shared(counter, pausedUntil)
    }

    /** What other goroutines do to the shared state before a probe. */
    method OthersRun(probe: Probe)
      modifies this
      ensures State() == Interfere(old(State()), probe)
    {
      counter := Advance(counter, probe.skips);
      pausedUntil := PauseAll(pausedUntil, probe.pauses);
    }

    method NextServer() returns (server: string)
      modifies this`counter
      ensures server == if servers == [] then "" else At(servers, old(counter))
      ensures counter == if servers == [] then old(counter) else Advance(old(counter), 1)
    {
      if |servers| == 0 { return ""; }
      var index := counter;
      counter := Advance(counter, 1);
      return servers[index % |servers|];
    }

    method IsPaused(server: string, now: nat) returns (paused: bool)
      ensures paused == Paused(pausedUntil, server, now)
    {
      return server in pausedUntil && now < pausedUntil[server];
    }

    method PauseServer(server: string, until: nat)
      modifies this`pausedUntil
      ensures State() == old(State()).(paused := Pause(old(State()).paused, server, until))
      ensures OnlyPauses(old(pausedUntil), pausedUntil, server, until)
    {
      if server !in pausedUntil || until > pausedUntil[server] { pausedUntil := pausedUntil[server := until]; }
    }

    method NextAvailableServer(probes: seq<Probe>) returns (found: Option<Choice>)
      requires |probes| == |servers| > 0
      modifies this
      ensures (found, State()) == NextAvailable(servers, old(State()), probes)
    {
      ghost var start := State();
      assert probes[0..] == probes;
      for i := 0 to |servers|
        invariant NextAvailable(servers, start, probes) == NextAvailable(servers, State(), probes[i..])
      {
        assert probes[i..][0] == probes[i] && probes[i..][1..] == probes[i + 1..];
        OthersRun(probes[i]);
        var candidate := NextServer();
        var paused := IsPaused(candidate, probes[i].clock);
        if !paused { return Some(Choice(candidate, probes[i].clock, pausedUntil)); }
      }
      return None;
    }

    /** One turn of the loop: the try it made, if any, and the result if the call ends with it. */
    method Attempt(ghost left: seq<Turn>, turn: Turn, attempt: nat, rateLimit: Limit, lastServer: string)
        returns (end: Option<SendResult>, made: seq<Try>, rateLimit': Limit, lastServer': string)
      requires servers != [] && |turn.probes| == |servers|
      requires 0 < |left| <= maxAttempts && left[0] == turn && attempt == maxAttempts - |left| + 1
      modifies this
      ensures var before := Sends(servers, maxAttempts, old(State()), left, rateLimit, lastServer);
              if end.Some? then before == Sent(end.value, made, State())
              else |made| == 1 && Follows(before, made, Sends(servers, maxAttempts, State(), left[1..], rateLimit', lastServer'))
    {
      hide *;
      ghost var sh := State();
      rateLimit', lastServer' := rateLimit, lastServer;
      var found := NextAvailableServer(turn.probes);
      ghost var s1 := State();
      if found.None? {
        NothingOpen(servers, maxAttempts, sh, left, rateLimit, lastServer, s1);
        var result := LimitOrExhausted(rateLimit, lastServer, if rateLimit.Limit? then attempt - 1 else maxAttempts);
        return Some(result), [], rateLimit, lastServer;
      }
      lastServer' := found.value.server;
      made := [Try(found.value, turn.reply, turn.after)];
      match turn.reply {
        case Accepted =>
          end := Some(Success(lastServer', attempt));
          AttemptEnds(servers, maxAttempts, sh, left, rateLimit, lastServer, found.value, s1);
        case RateLimited(retryAfter) =>
          rateLimit' := Limit(lastServer', retryAfter);
          PauseServer(lastServer', turn.after + retryAfter);
          end := None;
          AttemptGoesOn(servers, maxAttempts, sh, left, rateLimit, lastServer, found.value, s1);
        case Failed =>
          if attempt < maxAttempts && turn.cancelled {
            end := Some(Failure(lastServer', attempt, Cancelled));
            AttemptEnds(servers, maxAttempts, sh, left, rateLimit, lastServer, found.value, s1);
          } else {
            end := None;
            AttemptGoesOn(servers, maxAttempts, sh, left, rateLimit, lastServer, found.value, s1);
          }
      }
    }

    /** The whole call; tries is what an observer is told, with the reply to each. */
    method Send(turns: seq<Turn>) returns (result: SendResult, tries: seq<Try>)
      requires |turns| == maxAttempts && forall t | t in turns :: |t.probes| == |servers|
      modifies this
      ensures servers == [] ==> result == Failure("", 0, NoServers) && tries == [] && State() == old(State())
      ensures servers != [] ==> Sent(result, tries, State()) == Sends(servers, maxAttempts, old(State()), turns, NoLimit, "")
    {
      tries := [];
      if |servers| == 0 { return Failure("", 0, NoServers), []; }
      var lastServer := "";
      var rateLimit := NoLimit;
      ghost var whole := Sends(servers, maxAttempts, State(), turns, NoLimit, "");
      assert turns[0..] == turns;
      DoesFollowNothing(whole);
      hide *;
      var attempt := 1;
      while attempt <= maxAttempts
        invariant 1 <= attempt <= maxAttempts + 1
        invariant Follows(whole, tries, Sends(servers, maxAttempts, State(), turns[attempt - 1..], rateLimit, lastServer))
      {
        ghost var left := turns[attempt - 1..];
        ghost var rest := Sends(servers, maxAttempts, State(), left, rateLimit, lastServer);
        assert left[1..] == turns[attempt..];
        var end, made;
        end, made, rateLimit, lastServer := Attempt(left, turns[attempt - 1], attempt, rateLimit, lastServer);
        if end.Some? {
          EndsHere(whole, tries, rest);
          return end.value, tries + made;
        }
        FollowsTrans(whole, tries, rest, made, Sends(servers, maxAttempts, State(), turns[attempt..], rateLimit, lastServer));
        tries := tries + made;
        attempt := attempt + 1;
      }
      result := LimitOrExhausted(rateLimit, lastServer, maxAttempts);
      assert turns[maxAttempts..] == [];
      NoAttempt(servers, maxAttempts, State(), rateLimit, lastServer);
      EndsHere(whole, tries, Sent(result, [], State()));
      assert tries + [] == tries;
    }

    /** The failure a call ends with when it was not cancelled: the last 429 if there was one. */
    method LimitOrExhausted(rateLimit: Limit, target: string, attempts: nat) returns (result: SendResult)
      ensures result == GiveUp(rateLimit, target, attempts)
    {
      if rateLimit.Limit? { return Failure(rateLimit.server, attempts, RateLimitedBy(rateLimit.server, rateLimit.retryAfter)); }
      return Failure(target, attempts, MaxAttemptsReached);
    }
  }

  /** A call is some tries and then what remains of it. */
  predicate Follows(whole: Sent, tries: seq<Try>, rest: Sent) { whole == rest.(tries := tries + rest.tries) }

  lemma DoesFollow(tries: seq<Try>, rest: Sent)
    ensures Follows(rest.(tries := tries + rest.tries), tries, rest)
  {
  }

  lemma DoesFollowNothing(whole: Sent)
    ensures Follows(whole, [], whole)
  {
    assert [] + whole.tries == whole.tries;
  }

  lemma FollowsTrans(whole: Sent, a: seq<Try>, mid: Sent, b: seq<Try>, rest: Sent)
    requires Follows(whole, a, mid) && Follows(mid, b, rest)
    ensures Follows(whole, a + b, rest)
  {
    assert a + (b + rest.tries) == a + b + rest.tries;
  }

  lemma EndsHere(whole: Sent, a: seq<Try>, rest: Sent)
    requires Follows(whole, a, rest)
    ensures whole == Sent(rest.result, a + rest.tries, rest.sh)
  {
  }
}
