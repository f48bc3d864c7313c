/**
 A stream with one consumer group, as the consumer of this repository uses it: entries are added and
 trimmed, read to the group, acknowledged and deleted, listed as pending, and claimed when idle.
 */
module Stream {

  /** The data field of an entry: present, absent, or of a type the consumer does not accept. */
  datatype Body = Payload(data: string) | NoData | IllTyped

  datatype Message = Message(id: nat, body: Body)

  /** A pending entry: how often it was delivered and when last. */
  datatype Delivery = Delivery(count: nat, at: nat)

  /** Entries below the cursor were delivered to the group. */
  datatype Stream = Stream(next: nat, stored: map<nat, Body>, cursor: nat, pel: map<nat, Delivery>)

  const EMPTY: Stream := Stream(0, map[], 0, map[])

  const IDLE_SECONDS: nat := 60

  // ---------- ids in order ----------

  /** The elements of a set between two bounds, in ascending order. */
  function Ascending(ids: set<nat>, lo: nat, hi: nat): (r: seq<nat>)
    ensures forall i | 0 <= i < |r| :: lo <= r[i] < hi && r[i] in ids
    ensures forall i, j | 0 <= i < j < |r| :: r[i] < r[j]
    decreases hi - lo
  {
    if lo >= hi then [] else (if lo in ids then [lo] else []) + Ascending(ids, lo + 1, hi)
  }

  lemma AscendingHolds(ids: set<nat>, lo: nat, hi: nat, id: nat)
    requires id in ids && lo <= id < hi
    ensures id in Ascending(ids, lo, hi)
    decreases hi - lo
  {
    if lo < id { AscendingHolds(ids, lo + 1, hi, id); }
  }

  function Take<T>(s: seq<T>, k: nat): seq<T> { if |s| <= k then s else s[..k] }

  /** The k smallest elements of ids between two bounds. */
  function Smallest(ids: set<nat>, lo: nat, hi: nat, k: nat): seq<nat> { Take(Ascending(ids, lo, hi), k) }

  /** The k smallest: members in order, at most k, and anything left out is larger than a full list. */
  lemma SmallestIs(ids: set<nat>, lo: nat, hi: nat, k: nat)
    ensures var r := Smallest(ids, lo, hi, k);
            && |r| <= k
            && (forall i | 0 <= i < |r| :: lo <= r[i] < hi && r[i] in ids)
            && (forall i, j | 0 <= i < j < |r| :: r[i] < r[j])
            && (forall id | id in ids && lo <= id < hi && id !in r :: |r| == k && forall i | 0 <= i < |r| :: r[i] < id)
  {
    var all := Ascending(ids, lo, hi);
    var r := Smallest(ids, lo, hi, k);
    assert forall i | 0 <= i < |r| :: all[i] == r[i] && all[i] in r;
    forall id | id in ids && lo <= id < hi && id !in r
      ensures |r| == k && forall i | 0 <= i < |r| :: r[i] < id
    {
      AscendingHolds(ids, lo, hi, id);
      var j :| 0 <= j < |all| && all[j] == id;
    }
  }

  function Messages(q: Stream, ids: seq<nat>): (ms: seq<Message>)
    ensures forall m | m in ms :: m.id in ids && m.id in q.stored && m.body == q.stored[m.id]
  {
    if ids == [] then []
    else (if ids[0] in q.stored then [Message(ids[0], q.stored[ids[0]])] else []) + Messages(q, ids[1..])
  }

  /** The messages of a list of ids: those that are stored, in its order. */
  lemma {:induction false} MessagesAre(q: Stream, ids: seq<nat>, id: nat)
    ensures Messages(q, ids + [id]) == Messages(q, ids) + if id in q.stored then [Message(id, q.stored[id])] else []
    ensures Messages(q, []) == []
  {
    if ids == [] {
      assert ids + [id] == [id] && [id][1..] == [];
    } else {
      assert (ids + [id])[0] == ids[0] && (ids + [id])[1..] == ids[1..] + [id];
      MessagesAre(q, ids[1..], id);
    }
  }

  // ---------- commands ----------

  /** XADD with an approximate length limit: the new entry, then the entries below the bound are cut. */
  function Add(q: Stream, body: Body, bound: nat): Stream {
    var added := q.stored[q.next := body];
    q.(next := q.next + 1, stored := map id | id in added && id >= bound :: added[id])
  }

  /** A cut keeps at least maxLen entries; without a limit nothing is cut. */
  predicate CutAllowed(q: Stream, bound: nat, maxLen: int) {
    && bound <= q.next
    && ((exists id :: id in q.stored && id < bound) ==>
      maxLen > 0 && maxLen <= |set id | id in q.stored && id >= bound| + 1)
  }

  function UnreadIDs(q: Stream, k: nat): seq<nat> { Smallest(q.stored.Keys, q.cursor, q.next, k) }

  /** XREADGROUP with ">": the next undelivered entries become pending with count one. */
  function ReadGroup(q: Stream, k: nat, now: nat): Stream {
    var ids := UnreadIDs(q, k);
    if ids == [] then q
    else q.(cursor := ids[|ids| - 1] + 1,
            pel := map id | id in q.pel.Keys + (set i | i in ids) :: if id in ids then Delivery(1, now) else q.pel[id])
  }

  /** How far the two commands of an acknowledgement got: they share one pipeline, not a transaction. */
  datatype Reached = Nothing | AckOnly | Both

  /** XACK then XDEL. */
  function Acknowledge(q: Stream, ids: set<nat>, how: Reached): Stream {
    match how
    case Nothing => q
    case AckOnly => q.(pel := q.pel - ids)
    case Both => q.(pel := q.pel - ids, stored := q.stored - ids)
  }

  /** The first entries of the pending list. */
  function PendingIDs(q: Stream, k: nat): seq<nat> { Smallest(q.pel.Keys, 0, q.cursor, k) }

  /** Idle for a minute, among the entries that one claim of k looks at: the server scans ten times the count. */
  function IdleSet(q: Stream, k: nat, now: nat): set<nat> {
    set id | id in PendingIDs(q, 10 * k) && id in q.pel && q.pel[id].at + IDLE_SECONDS <= now
  }

  function ClaimIDs(q: Stream, k: nat, now: nat): seq<nat> { Smallest(IdleSet(q, k, now), 0, q.cursor, k) }

  /** XAUTOCLAIM from the start: the first idle entries are delivered again; those no longer stored leave the list. */
  function Claim(q: Stream, k: nat, now: nat): Stream {
    var ids := ClaimIDs(q, k, now);
    q.(pel := map id | id in q.pel && (id in ids ==> id in q.stored) ::
         if id in ids then Delivery(q.pel[id].count + 1, now) else q.pel[id])
  }
}
