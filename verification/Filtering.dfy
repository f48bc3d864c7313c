/**
 The stoppage filter: of every device, all movements and the first stoppage of each run are kept.

 The class keeps 256 maps chosen by a hash of the device's IMEI; FilterData is proved to act on them as a
 filter over one map does (Filtered).  About that filter: it does not matter how records are batched
 (BatchesDoNotMatter) or how devices are interleaved (DevicesAreIndependent), filtering again removes
 nothing (FilteringIsIdempotent), one device's output is the window query over its records
 (FilterIsTheWindowQuery), and saving and loading the state changes nothing (RestartChangesNothing).
 */
module Filtering {
  import Words

  type IMEI = seq<Words.byte>

  /** A parsed record; rest is everything the filter does not look at. */
  datatype Record = Record(imei: IMEI, speed: int, rest: string)

  type Memory = map<IMEI, bool>

  predicate Stoppage(r: Record) { r.speed == 0 }

  // ---------- the filter over one map ----------

  predicate Redundant(m: Memory, r: Record) { Stoppage(r) && r.imei in m && m[r.imei] }

  function Remember(m: Memory, r: Record): Memory { m[r.imei := Stoppage(r)] }

  function RememberAll(m: Memory, rs: seq<Record>): Memory
    decreases |rs|
  {
    if rs == [] then m else RememberAll(Remember(m, rs[0]), rs[1..])
  }

  function Filtered(m: Memory, rs: seq<Record>): seq<Record>
    decreases |rs|
  {
    if rs == [] then [] else (if Redundant(m, rs[0]) then [] else [rs[0]]) + Filtered(Remember(m, rs[0]), rs[1..])
  }

  lemma {:induction false} BatchesDoNotMatter(m: Memory, a: seq<Record>, b: seq<Record>)
    ensures Filtered(m, a + b) == Filtered(m, a) + Filtered(RememberAll(m, a), b)
    ensures RememberAll(m, a + b) == RememberAll(RememberAll(m, a), b)
    decreases |a|
  {
    hide Redundant, Remember;
    if a == [] {
      assert a + b == b;
      assert [] + Filtered(m, b) == Filtered(m, b);
    } else {
      var m' := Remember(m, a[0]);
      var first := if Redundant(m, a[0]) then [] else [a[0]];
      assert (a + b)[0] == a[0] && (a + b)[1..] == a[1..] + b;
      BatchesDoNotMatter(m', a[1..], b);
      var x, y := Filtered(m', a[1..]), Filtered(RememberAll(m', a[1..]), b);
      assert first + (x + y) == first + x + y;
    }
  }

  function Concat(batches: seq<seq<Record>>): seq<Record> {
    if batches == [] then [] else batches[0] + Concat(batches[1..])
  }

  /** The outputs of a filter fed batch by batch. */
  function FilteredBatches(m: Memory, batches: seq<seq<Record>>): seq<seq<Record>>
    decreases |batches|
  {
    if batches == [] then []
    else [Filtered(m, batches[0])] + FilteredBatches(RememberAll(m, batches[0]), batches[1..])
  }

  lemma {:induction false} AnySplitGivesTheSame(m: Memory, batches: seq<seq<Record>>)
    ensures Concat(FilteredBatches(m, batches)) == Filtered(m, Concat(batches))
    decreases |batches|
  {
    if batches != [] {
      var rest := FilteredBatches(RememberAll(m, batches[0]), batches[1..]);
      BatchesDoNotMatter(m, batches[0], Concat(batches[1..]));
      AnySplitGivesTheSame(RememberAll(m, batches[0]), batches[1..]);
      assert ([Filtered(m, batches[0])] + rest)[1..] == rest;
    }
  }

  // ---------- one device ----------

  function Of(imei: IMEI, rs: seq<Record>): seq<Record> {
    if rs == [] then [] else (if rs[0].imei == imei then [rs[0]] else []) + Of(imei, rs[1..])
  }

  /** What one device's last record was, if the memory knows. */
  predicate WasStoppage(m: Memory, imei: IMEI) { imei in m && m[imei] }

  /** The records of one device that are kept, given whether its last record was a stoppage. */
  function RunHeads(stopped: bool, rs: seq<Record>): seq<Record>
    decreases |rs|
  {
    if rs == [] then []
    else (if Stoppage(rs[0]) && stopped then [] else [rs[0]]) + RunHeads(Stoppage(rs[0]), rs[1..])
  }

  lemma {:induction false} FirstOf(m: Memory, rs: seq<Record>, imei: IMEI)
    requires rs != []
    ensures var rest := Of(imei, Filtered(Remember(m, rs[0]), rs[1..]));
            Of(imei, Filtered(m, rs)) == if Redundant(m, rs[0]) || rs[0].imei != imei then rest else [rs[0]] + rest
  {
    var out := Filtered(Remember(m, rs[0]), rs[1..]);
    assert [] + out == out && ([rs[0]] + out)[1..] == out;
    assert [] + Of(imei, out) == Of(imei, out);
  }

  lemma {:induction false} HeadOfRun(stopped: bool, r: Record, rest: seq<Record>)
    ensures var tail := RunHeads(Stoppage(r), rest);
            RunHeads(stopped, [r] + rest) == if Stoppage(r) && stopped then tail else [r] + tail
  {
    assert ([r] + rest)[1..] == rest;
    assert [] + RunHeads(Stoppage(r), rest) == RunHeads(Stoppage(r), rest);
  }

  /** Each device's output depends on its own records alone. */
  lemma {:induction false} DeviceOutput(m: Memory, rs: seq<Record>, imei: IMEI)
    ensures Of(imei, Filtered(m, rs)) == RunHeads(WasStoppage(m, imei), Of(imei, rs))
    decreases |rs|
  {
    if rs != [] {
      var r, m' := rs[0], Remember(m, rs[0]);
      OfFirst(imei, rs);
      LastWas(m, r, imei);
      hide Filtered, RunHeads, Of, WasStoppage;
      DeviceOutput(m', rs[1..], imei);
      FirstOf(m, rs, imei);
      if r.imei == imei { HeadOfRun(WasStoppage(m, imei), r, Of(imei, rs[1..])); }
    }
  }

  lemma OfFirst(imei: IMEI, rs: seq<Record>)
    requires rs != []
    ensures var rest := Of(imei, rs[1..]);
            Of(imei, rs) == if rs[0].imei == imei then [rs[0]] + rest else rest
  {
    assert [] + Of(imei, rs[1..]) == Of(imei, rs[1..]);
  }

  lemma LastWas(m: Memory, r: Record, imei: IMEI)
    ensures WasStoppage(Remember(m, r), imei) == if r.imei == imei then Stoppage(r) else WasStoppage(m, imei)
    ensures r.imei == imei ==> (Redundant(m, r) <==> Stoppage(r) && WasStoppage(m, imei))
  {
  }

  /** Any two interleavings of the same records per device give each device the same output. */
  lemma {:induction false} DevicesAreIndependent(m: Memory, a: seq<Record>, b: seq<Record>)
    requires forall imei :: Of(imei, a) == Of(imei, b)
    ensures forall imei :: Of(imei, Filtered(m, a)) == Of(imei, Filtered(m, b))
  {
    forall imei ensures Of(imei, Filtered(m, a)) == Of(imei, Filtered(m, b)) {
      DeviceOutput(m, a, imei);
      DeviceOutput(m, b, imei);
    }
  }

  // ---------- what is kept ----------

  predicate SubsequenceOf<T(==)>(a: seq<T>, b: seq<T>) {
    a == [] || (b != [] && ((a[0] == b[0] && SubsequenceOf(a[1..], b[1..])) || SubsequenceOf(a, b[1..])))
  }

  function Movements(rs: seq<Record>): seq<Record> {
    if rs == [] then [] else (if rs[0].speed != 0 then [rs[0]] else []) + Movements(rs[1..])
  }

  /** The output is a subsequence that holds every record with a speed, as often and in the order it came. */
  lemma {:induction false} MovementsAreKept(m: Memory, rs: seq<Record>)
    ensures Movements(Filtered(m, rs)) == Movements(rs)
    ensures forall r | r in rs && r.speed != 0 :: r in Filtered(m, rs)
    ensures SubsequenceOf(Filtered(m, rs), rs)
    decreases |rs|
  {
    if rs != [] {
      var m' := Remember(m, rs[0]);
      MovementsAreKept(m', rs[1..]);
      var out := Filtered(m', rs[1..]);
      assert [] + out == out && ([rs[0]] + out)[1..] == out && [] + Movements(out) == Movements(out);
    }
  }

  /** Whether the last record of a device had no speed; without one, what the memory says. */
  predicate LastStopped(m: Memory, rs: seq<Record>, imei: IMEI) {
    if rs == [] then imei in m && m[imei]
    else if rs[|rs| - 1].imei == imei then rs[|rs| - 1].speed == 0
    else LastStopped(m, rs[..|rs| - 1], imei)
  }

  lemma {:induction false} LastIsRemembered(m: Memory, rs: seq<Record>, imei: IMEI)
    ensures var after := RememberAll(m, rs);
            imei in after && after[imei] <==> LastStopped(m, rs, imei)
    decreases |rs|
  {
    if rs != [] {
      var front, last := rs[..|rs| - 1], rs[|rs| - 1];
      LastIsRemembered(m, front, imei);
      assert rs == front + [last] && [last][1..] == [];
      BatchesDoNotMatter(m, front, [last]);
    }
  }

  /** A record is left out exactly when it has no speed and neither had the one before it of the same device. */
  lemma {:induction false} KeptExactly(m: Memory, rs: seq<Record>, r: Record)
    ensures Filtered(m, rs + [r]) ==
              Filtered(m, rs) + if r.speed == 0 && LastStopped(m, rs, r.imei) then [] else [r]
  {
    var after := RememberAll(m, rs);
    BatchesDoNotMatter(m, rs, [r]);
    LastIsRemembered(m, rs, r.imei);
    assert [r][1..] == [];
    assert Filtered(after, [r]) == (if Redundant(after, r) then [] else [r]) + Filtered(Remember(after, r), []);
    hide RememberAll, LastStopped;
  }

  /** Filtering what was filtered removes nothing and leaves the same memory, from any memory. */
  lemma {:induction false} FilteringIsIdempotent(m: Memory, rs: seq<Record>)
    ensures Filtered(m, Filtered(m, rs)) == Filtered(m, rs)
    ensures RememberAll(m, Filtered(m, rs)) == RememberAll(m, rs)
    decreases |rs|
  {
    if rs != [] {
      var m' := Remember(m, rs[0]);
      FilteringIsIdempotent(m', rs[1..]);
      if Redundant(m, rs[0]) {
        assert m' == m;
        assert [] + Filtered(m, rs[1..]) == Filtered(m, rs[1..]);
      } else {
        assert ([rs[0]] + Filtered(m', rs[1..]))[1..] == Filtered(m', rs[1..]);
      }
    }
  }

  // ---------- the window query ----------

  /** LAG(speed = 0, 1, false) at a row. */
  predicate Lag(rs: seq<Record>, k: nat)
    requires k < |rs|
  {
    if k == 0 then false else rs[k - 1].speed == 0
  }

  /** The rows from k on WHERE NOT (is_stop AND prev_is_stop). */
  function QueryRows(rs: seq<Record>, k: nat): seq<Record>
    requires k <= |rs|
    decreases |rs| - k
  {
    if k == |rs| then []
    else (if rs[k].speed == 0 && Lag(rs, k) then [] else [rs[k]]) + QueryRows(rs, k + 1)
  }

  lemma {:induction false} QueryIsRunHeads(rs: seq<Record>, k: nat)
    requires k <= |rs|
    ensures QueryRows(rs, k) == RunHeads(k < |rs| && Lag(rs, k), rs[k..])
    decreases |rs| - k
  {
    if k < |rs| {
      assert rs[k..][1..] == rs[k + 1..];
      QueryIsRunHeads(rs, k + 1);
    }
  }

  /** From an empty memory the filter gives each device the rows of the query over its records. */
  lemma {:induction false} FilterIsTheWindowQuery(rs: seq<Record>, imei: IMEI)
    ensures Of(imei, Filtered(map[], rs)) == QueryRows(Of(imei, rs), 0)
  {
    DeviceOutput(map[], rs, imei);
    QueryIsRunHeads(Of(imei, rs), 0);
    assert Of(imei, rs)[0..] == Of(imei, rs);
  }

  // ---------- shards ----------

  const SHARD_COUNT: nat := 256

  const FNV_OFFSET: nat := 2166136261
  const FNV_PRIME: nat := 16777619

  /** FNV-1a on 32 bits. */
  function FNV1a(h: nat, bytes: IMEI): nat
    decreases |bytes|
  {
    if bytes == [] then h
    else FNV1a(Words.NumberOf(Words.Xor(Words.Digits(h), Words.Digits(bytes[0])), 32) * FNV_PRIME % 0x1_0000_0000, bytes[1..])
  }

  function ShardIndex(imei: IMEI): (i: nat)
    ensures i < SHARD_COUNT
  {
    FNV1a(FNV_OFFSET, imei) % SHARD_COUNT
  }

  /** Every device is remembered in its own shard only. */
  ghost predicate InPlace(shards: seq<Memory>) {
    |shards| == SHARD_COUNT && forall i, imei :: 0 <= i < SHARD_COUNT && imei in shards[i] ==> ShardIndex(imei) == i
  }

  /** The shards hold what one map would. */
  ghost predicate Represents(shards: seq<Memory>, m: Memory)
    requires |shards| == SHARD_COUNT
  {
    forall imei :: (imei in m <==> imei in shards[ShardIndex(imei)]) && (imei in m ==> m[imei] == shards[ShardIndex(imei)][imei])
  }

  /** The union of the first k shards. */
  function Union(shards: seq<Memory>, k: nat): Memory
    requires k <= |shards|
  {
    if k == 0 then map[] else Union(shards, k - 1) + shards[k - 1]
  }

  lemma {:induction false} UnionHolds(shards: seq<Memory>, k: nat, imei: IMEI)
    requires InPlace(shards) && k <= SHARD_COUNT
    ensures var i := ShardIndex(imei);
            && (imei in Union(shards, k) <==> i < k && imei in shards[i])
            && (imei in Union(shards, k) ==> Union(shards, k)[imei] == shards[i][imei])
  {
    hide ShardIndex;
    if k > 0 { UnionHolds(shards, k - 1, imei); }
  }

  /** The map that the shards represent is their union. */
  lemma {:induction false} UnionIsRepresented(shards: seq<Memory>, m: Memory)
    requires InPlace(shards)
    ensures Represents(shards, m) <==> m == Union(shards, SHARD_COUNT)
  {
    var u := Union(shards, SHARD_COUNT);
    assert Represents(shards, u) by {
      hide Union, ShardIndex, InPlace;
      forall imei
        ensures imei in u <==> imei in shards[ShardIndex(imei)]
        ensures imei in u ==> u[imei] == shards[ShardIndex(imei)][imei]
      {
        UnionHolds(shards, SHARD_COUNT, imei);
      }
    }
    hide Union, InPlace, Represents;
    if Represents(shards, m) { RepresentsOne(shards, m, u); }
  }

  lemma RepresentsOne(shards: seq<Memory>, m: Memory, u: Memory)
    requires |shards| == SHARD_COUNT && Represents(shards, m) && Represents(shards, u)
    ensures m == u
  {
    hide ShardIndex;
    forall imei ensures imei in m <==> imei in u { assert imei in m <==> imei in shards[ShardIndex(imei)]; }
  }

  /** Writing one device's entry into its shard is writing it into the map. */
  lemma {:induction false} WriteOne(shards: seq<Memory>, m: Memory, imei: IMEI, b: bool)
    requires InPlace(shards) && Represents(shards, m)
    ensures var i := ShardIndex(imei);
            var shards' := shards[i := shards[i][imei := b]];
            InPlace(shards') && Represents(shards', m[imei := b])
  {
    hide ShardIndex;
  }

  // ---------- the stored copy ----------

  type Store = map<IMEI, string>

  function Encode(m: Memory): Store { map imei | imei in m :: if m[imei] then "1" else "0" }

  function Decode(s: Store): Memory { map imei | imei in s :: s[imei] == "1" }

  /** SET of every entry, of which those of the applied keys took effect. */
  function Saved(s: Store, m: Memory, applied: set<IMEI>): Store {
    s + Encode(map imei | imei in m && imei in applied :: m[imei])
  }

  /** The memory after the entries of a list of keys were loaded in order; a key that is gone is skipped. */
  function Loaded(m: Memory, s: Store, keys: seq<IMEI>): Memory {
    if keys == [] then m
    else
      var last := keys[|keys| - 1];
      var before := Loaded(m, s, keys[..|keys| - 1]);
      if last in s then before[last := s[last] == "1"] else before
  }

  /** Of any listing, each stored device on it is remembered as it is stored, and every other device as before. */
  lemma {:induction false} LoadedHolds(m: Memory, s: Store, keys: seq<IMEI>, imei: IMEI)
    ensures imei in Loaded(m, s, keys) <==> imei in m || (imei in keys && imei in s)
    ensures imei in Loaded(m, s, keys) ==>
              Loaded(m, s, keys)[imei] == if imei in keys && imei in s then s[imei] == "1" else m[imei]
  {
    if keys != [] {
      LoadedHolds(m, s, keys[..|keys| - 1], imei);
      assert keys == keys[..|keys| - 1] + [keys[|keys| - 1]];
    }
  }

  /** A listing of all that is stored, with repeats and keys that are gone, loads what is stored. */
  lemma {:induction false} LoadedIsDecoded(s: Store, keys: seq<IMEI>)
    requires forall i | i in s :: i in keys
    ensures Loaded(map[], s, keys) == Decode(s)
  {
    hide Loaded;
    forall imei
      ensures imei in Loaded(map[], s, keys) <==> imei in s
      ensures imei in Loaded(map[], s, keys) ==> Loaded(map[], s, keys)[imei] == (s[imei] == "1")
    {
      LoadedHolds(map[], s, keys, imei);
    }
  }

  /** A memory of which every SET was applied is what the next process loads, when the store held no other device. */
  lemma {:induction false} SavedIsLoaded(s: Store, m: Memory, applied: set<IMEI>)
    requires s.Keys <= m.Keys <= applied
    ensures Decode(Saved(s, m, applied)) == m
  {
  }

  lemma {:induction false} SavesNothing(s: Store, applied: set<IMEI>)
    ensures Saved(s, map[], applied) == s
  {
  }

  /** What a partial save left out the next complete one puts right. */
  lemma {:induction false} NextSaveHeals(s: Store, m: Memory, applied: set<IMEI>, m': Memory)
    requires m.Keys <= m'.Keys
    ensures Saved(Saved(s, m, applied), m', m'.Keys) == Saved(s, m', m'.Keys)
  {
    var a, b := Saved(Saved(s, m, applied), m', m'.Keys), Saved(s, m', m'.Keys);
    forall imei
      ensures imei in a <==> imei in b
      ensures imei in a ==> a[imei] == b[imei]
    {
      SavedHolds(s, m, applied, imei);
      SavedHolds(Saved(s, m, applied), m', m'.Keys, imei);
      SavedHolds(s, m', m'.Keys, imei);
    }
    hide Saved;
  }

  lemma SavedHolds(s: Store, m: Memory, applied: set<IMEI>, imei: IMEI)
    ensures var r := Saved(s, m, applied);
            && (imei in r <==> imei in s || (imei in m && imei in applied))
            && (imei in r ==> r[imei] == if imei in m && imei in applied then (if m[imei] then "1" else "0") else s[imei])
  {
  }

  /** From either memory a device's output is the same, whatever is sent. */
  ghost predicate SameOutputs(m: Memory, m': Memory, imei: IMEI) {
    forall rs :: Of(imei, Filtered(m, rs)) == Of(imei, Filtered(m', rs))
  }

  lemma OneStoppage(m: Memory, imei: IMEI, r: Record)
    requires r.imei == imei && Stoppage(r)
    ensures Of(imei, Filtered(m, [r])) == if WasStoppage(m, imei) then [] else [r]
  {
    DeviceOutput(m, [r], imei);
    StoppageShows(imei, r);
    hide Filtered, RunHeads;
  }

  /** What a memory means for a device is one bit. */
  lemma {:induction false} OneBitDecides(m: Memory, m': Memory, imei: IMEI)
    ensures SameOutputs(m, m', imei) <==> WasStoppage(m, imei) == WasStoppage(m', imei)
  {
    hide Filtered, RunHeads, WasStoppage, Of;
    if WasStoppage(m, imei) == WasStoppage(m', imei) {
      forall rs ensures Of(imei, Filtered(m, rs)) == Of(imei, Filtered(m', rs)) {
        DeviceOutput(m, rs, imei);
        DeviceOutput(m', rs, imei);
      }
    } else {
      var r := Record(imei, 0, "");
      OneStoppage(m, imei, r);
      OneStoppage(m', imei, r);
    }
  }

  /** Behind a save, partial or not and over any store, a device's output goes on as if there had been no restart,
      whatever it sends, exactly when its entry was stored or what was stored before meant the same. */
  lemma {:induction false} PartialSaveExactly(s: Store, m: Memory, applied: set<IMEI>, imei: IMEI)
    ensures SameOutputs(Decode(Saved(s, m, applied)), m, imei) <==>
              (imei in applied && imei in m) || WasStoppage(Decode(s), imei) == WasStoppage(m, imei)
  {
    OneBitDecides(Decode(Saved(s, m, applied)), m, imei);
    hide SameOutputs;
  }

  lemma {:induction false} StoppageShows(imei: IMEI, r: Record)
    requires r.imei == imei && Stoppage(r)
    ensures Of(imei, [r]) == [r] && RunHeads(true, [r]) == [] && RunHeads(false, [r]) == [r]
  {
    assert [r][1..] == [];
  }

  lemma {:induction false} MemoryGrows(m: Memory, rs: seq<Record>)
    ensures m.Keys <= RememberAll(m, rs).Keys
    decreases |rs|
  {
    if rs != [] { MemoryGrows(Remember(m, rs[0]), rs[1..]); }
  }

  /** What a filter that is saved, stopped and loaded again between any two sessions outputs. */
  function SessionOutputs(s: Store, sessions: seq<seq<Record>>): seq<seq<Record>>
    decreases |sessions|
  {
    if sessions == [] then []
    else
      var m := Decode(s);
      [Filtered(m, sessions[0])] + SessionOutputs(Saved(s, RememberAll(m, sessions[0]), RememberAll(m, sessions[0]).Keys), sessions[1..])
  }

  /** Restarting after a save gives what one filter gives that was never stopped. */
  lemma {:induction false} RestartChangesNothing(s: Store, sessions: seq<seq<Record>>)
    ensures SessionOutputs(s, sessions) == FilteredBatches(Decode(s), sessions)
    decreases |sessions|
  {
    if sessions != [] {
      var m := Decode(s);
      var m' := RememberAll(m, sessions[0]);
      MemoryGrows(m, sessions[0]);
      SavedIsLoaded(s, m', m'.Keys);
      RestartChangesNothing(Saved(s, m', m'.Keys), sessions[1..]);
    }
  }

  // ---------- the filter itself ----------

  lemma {:induction false} FilterOne(m: Memory, r: Record, rest: seq<Record>, done: seq<Record>)
    ensures RememberAll(m, [r] + rest) == RememberAll(Remember(m, r), rest)
    ensures done + Filtered(m, [r] + rest) ==
              (if Redundant(m, r) then done else done + [r]) + Filtered(Remember(m, r), rest)
  {
    var out := Filtered(Remember(m, r), rest);
    assert ([r] + rest)[1..] == rest && [] + out == out;
    assert done + ([r] + out) == done + [r] + out;
  }

  lemma {:induction false} FilterNothing(m: Memory, done: seq<Record>)
    ensures RememberAll(m, []) == m && done + Filtered(m, []) == done
  {
  }

  class StoppageFilter {
    const enabled: bool
    const shards: array<Memory>
    var redis: Store

    ghost predicate Valid()
      reads this, shards
    {
      shards.Length == SHARD_COUNT && InPlace(shards[..])
    }

    /** What all shards remember together. */
    ghost function Remembered(): Memory
      requires shards.Length == SHARD_COUNT
      reads this, shards
    {
      Union(shards[..], SHARD_COUNT)
    }

    constructor (enabled: bool, redis: Store)
      ensures Valid() && fresh(shards) && Remembered() == map[] && this.enabled == enabled && this.redis == redis
    {
      this.enabled, this.redis := enabled, redis;
      var empty: Memory := map[];
      shards := new Memory[SHARD_COUNT](_ => empty);
      new;
      assert InPlace(shards[..]);
      UnionIsRepresented(shards[..], map[]);
    }

    method FilterData(data: seq<Record>) returns (filtered: seq<Record>)
      requires Valid()
      modifies shards
      ensures Valid()
      ensures filtered == if enabled then Filtered(old(Remembered()), data) else data
      ensures Remembered() == if enabled then RememberAll(old(Remembered()), data) else old(Remembered())
    {
      if !enabled || |data| == 0 { return data; }
      filtered := [];
      ghost var m0 := Remembered();
      ghost var m := m0;
      UnionIsRepresented(shards[..], m);
      hide Filtered, RememberAll, Remember, Redundant, Union, Represents, InPlace, ShardIndex;
      assert data[0..] == data && [] + Filtered(m, data) == Filtered(m, data);
      for k := 0 to |data|
        invariant Valid() && shards.Length == SHARD_COUNT && Represents(shards[..], m)
        invariant Filtered(m0, data) == filtered + Filtered(m, data[k..])
        invariant RememberAll(m0, data) == RememberAll(m, data[k..])
      {
        var record := data[k];
        assert data[k..] == [record] + data[k + 1..];
        FilterOne(m, record, data[k + 1..], filtered);
        var kept := Turn(record, m);
        if kept { filtered := filtered + [record]; }
        m := Remember(m, record);
      }
      assert data[|data|..] == [];
      FilterNothing(m, filtered);
      UnionIsRepresented(shards[..], m);
    }

    /** One turn of the loop, under the lock of the record's shard. */
    method Turn(record: Record, ghost m: Memory) returns (kept: bool)
      requires Valid() && Represents(shards[..], m)
      modifies shards
      ensures Valid() && Represents(shards[..], Remember(m, record))
      ensures kept == !Redundant(m, record)
    {
      var imei := record.imei;
      var i := ShardIndex(imei);
      hide ShardIndex;
      ghost var before := shards[..];
      WriteOne(before, m, imei, Stoppage(record));
      assert before[i] == shards[i];
      var isCurrentStoppage := Stoppage(record);
      var exists_ := imei in shards[i];
      var lastWasStoppage := if exists_ then shards[i][imei] else false;
      if !isCurrentStoppage {
        kept := true;
        shards[i] := shards[i][imei := false];
      } else if !exists_ || !lastWasStoppage {
        kept := true;
        shards[i] := shards[i][imei := true];
      } else {
        kept := false;
        assert shards[i][imei := true] == shards[i];
      }
      assert shards[..] == before[i := before[i][imei := isCurrentStoppage]];
    }

    /** A save; when its pipeline fails, only some of its keys may have been set. */
    method SyncToRedis(applied: set<IMEI>)
      requires Valid()
      modifies this`redis
      ensures redis == Saved(old(redis), Remembered(), applied)
    {
      var stateCopy: Memory := map[];
      for i := 0 to SHARD_COUNT
        invariant stateCopy == Union(shards[..], i)
      {
        stateCopy := stateCopy + shards[i];
      }
      if |stateCopy| == 0 {
        SavesNothing(redis, applied);
        return;
      }
      redis := Saved(redis, stateCopy, applied);
    }

    /** One key of a page of the scan, under the lock of its shard. */
    method LoadOne(imei: IMEI, stopped: bool, ghost m: Memory)
      requires Valid() && Represents(shards[..], m)
      modifies shards
      ensures Valid() && Represents(shards[..], m[imei := stopped])
    {
      var i := ShardIndex(imei);
      hide ShardIndex;
      ghost var before := shards[..];
      WriteOne(before, m, imei, stopped);
      assert before[i] == shards[i];
      shards[i] := shards[i][imei := stopped];
      assert shards[..] == before[i := before[i][imei := stopped]];
    }

    /** Loading the keys that a scan listed, all of them or as far as it came, with repeats and keys that have
        expired since. */
    method LoadFromRedis(scanned: seq<IMEI>)
      requires Valid()
      modifies shards
      ensures Valid() && Remembered() == Loaded(old(Remembered()), redis, scanned)
      ensures old(Remembered()) == map[] && (forall imei | imei in redis :: imei in scanned) ==> Remembered() == Decode(redis)
    {
      var store := redis;
      ghost var m := Remembered();
      UnionIsRepresented(shards[..], m);
      assert m == map[] && (forall imei | imei in store :: imei in scanned) ==> Loaded(m, store, scanned) == Decode(store) by {
        if m == map[] && forall imei | imei in store :: imei in scanned { LoadedIsDecoded(store, scanned); }
      }
      assert InPlace(shards[..]) && scanned[..0] == [];
      hide InPlace, Represents, Union;
      for k := 0 to |scanned|
        invariant Valid() && shards.Length == SHARD_COUNT && Represents(shards[..], Loaded(m, store, scanned[..k]))
      {
        assert scanned[..k + 1][..k] == scanned[..k];
        if scanned[k] in store { LoadOne(scanned[k], store[scanned[k]] == "1", Loaded(m, store, scanned[..k])); }
      }
      assert scanned[..|scanned|] == scanned;
      UnionIsRepresented(shards[..], Loaded(m, store, scanned));
    }
  }
}
