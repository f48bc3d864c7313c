/**
 The two ways a Teltonika packet reaches the workers: over TCP, where the session queues its records, and
 as an HTTP body, which is parsed, sorted and queued.  PathsAgree shows that the workers get the same
 records, in the same order of times, and PacketsReachTheWorkers what these carry of what a device encoded.
 */
module Paths {
  import opened Options
  import opened Words
  import opened Bytes
  import opened Codec
  import opened WireFormat
  import opened Packet
  import opened DateTime
  import opened RecordLayout

  type IMEI = seq<byte>

  // ---------- payload formats ----------

  datatype Format = Unknown | HooshnicJSON | TeltonikaAVL | TeltonikaQueued

  /** The characters {"_teltonika": as bytes. */
  const QUEUED_PREFIX: seq<byte> := [123, 34, 95, 116, 101, 108, 116, 111, 110, 105, 107, 97, 34, 58]

  function DetectFormat(data: seq<byte>): Format {
    if QUEUED_PREFIX <= data then TeltonikaQueued
    else if |data| >= 9 && data[..4] == [0, 0, 0, 0] && data[8] in {0x08, 0x8E, 0x10} then TeltonikaAVL
    else if data != [] && (data[0] == 91 || data[0] == 123) then HooshnicJSON
    else Unknown
  }

  predicate Spells(data: seq<byte>, text: string) {
    |data| >= |text| && forall i | 0 <= i < |text| :: data[i] == text[i] as int
  }

  predicate LooksBinary(data: seq<byte>) {
    |data| >= 9 && data[0] == data[1] == data[2] == data[3] == 0 && (data[8] == 0x08 || data[8] == 0x8E || data[8] == 0x10)
  }

  /** A queued envelope is known by its first member, a binary packet by its preamble and codec, any other text by an
      opening bracket or brace; nothing else is recognised. */
  lemma {:induction false} FormatsAreExactly(data: seq<byte>)
    ensures DetectFormat(data) == TeltonikaQueued <==> Spells(data, "{\"_teltonika\":")
    ensures DetectFormat(data) == TeltonikaAVL <==> LooksBinary(data)
    ensures DetectFormat(data) == HooshnicJSON <==>
              (Spells(data, "[") || Spells(data, "{")) && !Spells(data, "{\"_teltonika\":")
  {
    var text := "{\"_teltonika\":";
    assert |QUEUED_PREFIX| == |text| && forall i | 0 <= i < |text| :: QUEUED_PREFIX[i] == text[i] as int;
    assert QUEUED_PREFIX <= data <==> Spells(data, text);
    if |data| >= 4 { assert data[..4] == [data[0], data[1], data[2], data[3]]; }
    assert Spells(data, "[") <==> data != [] && data[0] == 91;
    assert Spells(data, "{") <==> data != [] && data[0] == 123;
  }

  /** Every packet with records that the parser accepts is recognised as one. */
  lemma {:induction false} AcceptedPacketsAreDetected(data: seq<byte>)
    requires ReadPacket(data).err == None && ReadPacket(data).records != []
    ensures DetectFormat(data) == TeltonikaAVL
  {
    assert data[0] == data[..4][0] == 0;
    var payload := AcceptedPayload(data);
    hide ReadPacket, Decoded, FromBigEndian, Framed;
    assert data[8] == payload[0];
    KnownCodec(payload);
  }

  lemma {:induction false} KnownCodec(payload: seq<byte>)
    requires ReadPayload(payload).err == None && ReadPayload(payload).records != []
    ensures payload != [] && payload[0] in {0x08, 0x8E, 0x10}
  {
    var s, codecID := payload[2..|payload| - 1], payload[0];
    assert LayoutForCodec(codecID).Err? ==> Decoded(s, codecID).Err?;
  }

  /** Without records the codec does not matter: the same empty packet is accepted under any codec. */
  lemma EmptyPacketsAreAccepted(codecID: byte)
    ensures ReadPacket(Framed(EncodePayload([], codecID))) == Parsed(codecID, [], None)
  {
    var frame := Framed(EncodePayload([], codecID));
    assert frame + [] == frame;
    PacketRoundTrip([], codecID, []);
  }

  // ---------- parsed records ----------

  /** A record as the workers see it; the coordinates are the device's own integers. */
  datatype GPS = GPS(lat: int, lon: int, speed: nat, status: nat, ew: nat, ns: nat, dateTime: string, imei: IMEI, rawData: seq<byte>)

  const DEFAULT_OFFSET: int := 12600

  /** The offset in seconds that is used for a configured one. */
  function Offset(tz: int): int { if tz == 0 then DEFAULT_OFFSET else tz }

  function Signed64(n: nat): int { if n < 0x8000_0000_0000_0000 then n else n - 0x1_0000_0000_0000_0000 }

  /** Seconds between the start of year 0 and the start of 1970. */
  const EPOCH: int := 62167219200

  function Instant(timestampMs: nat, tz: int): int { EPOCH + Signed64(timestampMs) / 1000 + tz }

  /** One record; its date-time is written in the calendar carried back and on without end. */
  function ToParsed(rec: Record, imei: IMEI, tz: int): GPS {
    GPS(rec.lat, rec.lon, rec.speed, if 239 in rec.ios && rec.ios[239] == 1 then 1 else 0,
        if rec.lon < 0 then 0 else 1, if rec.lat < 0 then 0 else 1, FormatTime(Instant(rec.timestampMs, tz)), imei, rec.rawBytes)
  }

  function AllParsed(recs: seq<Record>, imei: IMEI, tz: int): (r: seq<GPS>)
    ensures |r| == |recs| && forall g | g in r :: g.imei == imei
  {
    if recs == [] then [] else [ToParsed(recs[0], imei, tz)] + AllParsed(recs[1..], imei, tz)
  }

  method TeltonikaRecordsToParsed(recs: seq<Record>, imei: IMEI, tz: int) returns (out: seq<GPS>)
    ensures out == AllParsed(recs, imei, Offset(tz))
  {
    hide ToParsed;
    var offset := if tz == 0 then DEFAULT_OFFSET else tz;
    out := [];
    assert recs[0..] == recs;
    for k := 0 to |recs|
      invariant AllParsed(recs, imei, offset) == out + AllParsed(recs[k..], imei, offset)
    {
      assert recs[k..][1..] == recs[k + 1..];
      out := out + [ToParsed(recs[k], imei, offset)];
    }
  }

  // ---------- sorting ----------

  predicate Sorted(rs: seq<GPS>) { forall i, j | 0 <= i < j < |rs| :: !Less(rs[j].dateTime, rs[i].dateTime) }

  /** Any result of sorting, stable or not. */
  predicate IsSortOf(rs: seq<GPS>, out: seq<GPS>) { multiset(rs) == multiset(out) && Sorted(out) }

  lemma LessTrans(a: string, b: string, c: string)
    ensures Less(a, b) && Less(b, c) ==> Less(a, c)
    ensures !Less(b, a) && !Less(c, b) ==> !Less(c, a)
  {
    if a != [] && b != [] && c != [] { LessTrans(a[1..], b[1..], c[1..]); }
  }

  lemma LessTotal(a: string, b: string)
    ensures Less(a, b) || Less(b, a) || a == b
  {
    if a != [] && b != [] && a[0] == b[0] {
      LessTotal(a[1..], b[1..]);
      assert a == [a[0]] + a[1..] && b == [b[0]] + b[1..];
    }
  }

  /** A record put where it belongs in a sorted list. */
  function Inserted(g: GPS, rs: seq<GPS>): seq<GPS> {
    if rs == [] || !Less(rs[0].dateTime, g.dateTime) then [g] + rs else [rs[0]] + Inserted(g, rs[1..])
  }

  lemma {:induction false} InsertedSame(g: GPS, rs: seq<GPS>)
    ensures multiset(Inserted(g, rs)) == multiset(rs) + multiset{g}
    decreases |rs|
  {
    hide Less;
    if rs != [] && Less(rs[0].dateTime, g.dateTime) {
      InsertedSame(g, rs[1..]);
      assert rs == [rs[0]] + rs[1..];
    }
  }

  /** A key that no record of a list comes before. */
  predicate Least(key: string, rs: seq<GPS>) { forall r | r in rs :: !Less(r.dateTime, key) }

  lemma SortedCons(g: GPS, rs: seq<GPS>)
    requires Sorted(rs) && Least(g.dateTime, rs)
    ensures Sorted([g] + rs)
  {
    hide Less;
  }

  lemma LeastEarlier(a: string, b: string, rs: seq<GPS>)
    requires !Less(b, a) && Least(b, rs)
    ensures Least(a, rs)
  {
    forall r | r in rs ensures !Less(r.dateTime, a) { LessTrans(a, b, r.dateTime); }
  }

  lemma HeadLeast(rs: seq<GPS>)
    requires Sorted(rs) && rs != []
    ensures Least(rs[0].dateTime, rs)
  {
    NotLess(rs[0].dateTime);
    hide Less;
  }

  lemma {:induction false} InsertedSorted(g: GPS, rs: seq<GPS>)
    requires Sorted(rs)
    ensures Sorted(Inserted(g, rs))
    decreases |rs|
  {
    hide Less;
    if rs == [] {
    } else if !Less(rs[0].dateTime, g.dateTime) {
      HeadLeast(rs);
      LeastEarlier(g.dateTime, rs[0].dateTime, rs);
      SortedCons(g, rs);
    } else {
      var rest := Inserted(g, rs[1..]);
      InsertedSorted(g, rs[1..]);
      InsertedSame(g, rs[1..]);
      HeadLeast(rs);
      NotBoth(rs[0].dateTime, g.dateTime);
      forall r | r in rest ensures !Less(r.dateTime, rs[0].dateTime) { assert r in multiset(rest); }
      SortedCons(rs[0], rest);
    }
  }

  lemma NotBoth(a: string, b: string)
    ensures !(Less(a, b) && Less(b, a))
  {
  }

  /** Stands for the library's sort by date-time; the properties below hold for any result of sorting. */
  method SortByDateTime(rs: seq<GPS>) returns (out: seq<GPS>)
    ensures IsSortOf(rs, out)
  {
    out := [];
    for k := 0 to |rs|
      invariant multiset(out) == multiset(rs[..k]) && Sorted(out)
    {
      assert rs[..k + 1] == rs[..k] + [rs[k]];
      InsertedSame(rs[k], out);
      InsertedSorted(rs[k], out);
      out := Inserted(rs[k], out);
    }
    assert rs[..|rs|] == rs;
  }

  // ---------- lists up to order ----------

  function Map<T>(rs: seq<GPS>, f: GPS -> T): (r: seq<T>)
    ensures |r| == |rs| && forall i | 0 <= i < |rs| :: r[i] == f(rs[i])
  {
    if rs == [] then [] else [f(rs[0])] + Map(rs[1..], f)
  }

  lemma MapConcat<T>(a: seq<GPS>, b: seq<GPS>, f: GPS -> T)
    ensures Map(a + b, f) == Map(a, f) + Map(b, f)
  {
  }

  /** The first record of one list, found in another with the same records. */
  lemma Without<T>(left: seq<T>, x: T, right: seq<T>)
    ensures multiset(left + right) == multiset(left + ([x] + right)) - multiset{x}
  {
    assert multiset(left + ([x] + right)) == multiset(left) + multiset{x} + multiset(right);
  }

  lemma Tail<T>(a: seq<T>)
    requires a != []
    ensures multiset(a[1..]) == multiset(a) - multiset{a[0]}
  {
    assert a == [a[0]] + a[1..];
  }

  lemma Found(a: seq<GPS>, b: seq<GPS>) returns (left: seq<GPS>, right: seq<GPS>)
    requires a != [] && multiset(a) == multiset(b)
    ensures b == left + ([a[0]] + right) && multiset(a[1..]) == multiset(left + right)
  {
    assert a[0] in multiset(b);
    var i :| 0 <= i < |b| && b[i] == a[0];
    left, right := b[..i], b[i + 1..];
    assert b == left + ([b[i]] + right);
    Tail(a);
    Without(left, b[i], right);
  }

  /** A map keeps sameness up to order. */
  lemma Together<T>(x: T, left: seq<T>, right: seq<T>, all: seq<T>)
    requires multiset(all) == multiset(left + right)
    ensures multiset([x] + all) == multiset(left + ([x] + right))
  {
  }

  lemma MapFirst<T>(g: GPS, rs: seq<GPS>, f: GPS -> T)
    ensures Map([g] + rs, f) == [f(g)] + Map(rs, f)
  {
    assert ([g] + rs)[1..] == rs;
  }

  lemma {:induction false} MapSame<T>(a: seq<GPS>, b: seq<GPS>, f: GPS -> T)
    requires multiset(a) == multiset(b)
    ensures multiset(Map(a, f)) == multiset(Map(b, f))
    decreases |a|
  {
    if a == [] {
      assert |b| == |multiset(b)| == 0;
    } else {
      var left, right := Found(a, b);
      MapSame(a[1..], left + right, f);
      MapConcat(left, right, f);
      MapConcat(left, [a[0]] + right, f);
      MapFirst(a[0], right, f);
      MapFirst(a[0], a[1..], f);
      assert a == [a[0]] + a[1..];
      hide Map;
      Together(f(a[0]), Map(left, f), Map(right, f), Map(a[1..], f));
    }
  }

  const KEY: GPS -> string := (g: GPS) => g.dateTime

  function Keys(rs: seq<GPS>): seq<string> { Map(rs, KEY) }

  predicate SortedKeys(ks: seq<string>) { forall i, j | 0 <= i < j < |ks| :: !Less(ks[j], ks[i]) }

  lemma HeadIsLeast(a: seq<string>, b: seq<string>)
    requires SortedKeys(a) && a != [] && b != [] && multiset(a) == multiset(b)
    ensures !Less(b[0], a[0])
  {
    assert b[0] in multiset(a);
    NotLess(b[0]);
  }

  lemma SortedTail(a: seq<string>)
    requires SortedKeys(a) && a != []
    ensures SortedKeys(a[1..])
  {
  }

  lemma SameSize<T>(a: seq<T>, b: seq<T>)
    requires multiset(a) == multiset(b)
    ensures |a| == |b|
  {
    assert |a| == |multiset(a)| && |b| == |multiset(b)|;
  }

  lemma {:induction false} SortedOnce(a: seq<string>, b: seq<string>)
    requires SortedKeys(a) && SortedKeys(b) && multiset(a) == multiset(b)
    ensures a == b
    decreases |a|
  {
    SameSize(a, b);
    if a != [] {
      hide Less, SortedKeys;
      HeadIsLeast(a, b);
      HeadIsLeast(b, a);
      LessTotal(a[0], b[0]);
      Tail(a);
      Tail(b);
      SortedTail(a);
      SortedTail(b);
      SortedOnce(a[1..], b[1..]);
      SameFirst(a, b);
    }
  }

  lemma SameFirst<T>(a: seq<T>, b: seq<T>)
    requires a != [] && b != [] && a[0] == b[0] && a[1..] == b[1..]
    ensures a == b
  {
    assert a == [a[0]] + a[1..] && b == [b[0]] + b[1..];
  }

  // ---------- the queue ----------

  /** What of a record survives the queue: its original bytes are not serialized. */
  function Stored(g: GPS): GPS { g.(rawData := []) }

  /** A record that carries no IMEI gets that of its envelope. */
  function Filled(g: GPS, imei: IMEI): GPS { if g.imei == [] then g.(imei := imei) else g }

  function Unqueue(imei: IMEI): GPS -> GPS { (g: GPS) => Filled(Stored(g), imei) }

  function Unqueued(rs: seq<GPS>, imei: IMEI): seq<GPS> { Map(rs, Unqueue(imei)) }

  /** What the queue changes of a record: its original bytes are gone, and a missing IMEI is that of the envelope. */
  lemma {:induction false} QueueKeeps(rs: seq<GPS>, imei: IMEI, k: nat)
    requires k < |rs|
    ensures var (g, h) := (rs[k], Unqueued(rs, imei)[k]);
            && h.imei == (if |g.imei| == 0 then imei else g.imei) && h.rawData == []
            && h.lat == g.lat && h.lon == g.lon && h.speed == g.speed && h.status == g.status && h.ew == g.ew && h.ns == g.ns
            && h.dateTime == g.dateTime
  {
    assert Unqueued(rs, imei)[k] == Filled(Stored(rs[k]), imei);
  }

  /** What a worker makes of a queued envelope. */
  method UnmarshalTeltonikaEnvelope(imei: IMEI, records: seq<GPS>) returns (out: seq<GPS>)
    ensures IsSortOf(Unqueued(records, imei), out)
  {
    var filled: seq<GPS> := [];
    for k := 0 to |records|
      invariant filled == Unqueued(records, imei)[..k]
    {
      var g := Stored(records[k]);
      if g.imei == [] { g := g.(imei := imei); }
      filled := filled + [g];
    }
    assert filled == Unqueued(records, imei);
    out := SortByDateTime(filled);
  }

  // ---------- the two paths ----------

  /** What a worker may get for a packet that came over TCP. */
  ghost predicate OverTCP(recs: seq<Record>, imei: IMEI, tz: int, out: seq<GPS>) {
    IsSortOf(Unqueued(AllParsed(recs, imei, Offset(tz)), imei), out)
  }

  /** What a worker may get for one that came as an HTTP body: it is sorted before it is queued as well. */
  ghost predicate OverHTTP(recs: seq<Record>, imei: IMEI, tz: int, out: seq<GPS>) {
    exists queued :: IsSortOf(AllParsed(recs, imei, Offset(tz)), queued) && IsSortOf(Unqueued(queued, imei), out)
  }

  /** Over TCP a packet that makes the parser panic ends the process; None is one that gives the workers nothing. */
  method SendOverTCP(frame: seq<byte>, imei: IMEI, tz: int) returns (out: Ending<Option<seq<GPS>>>)
    ensures out.Panicked? <==> PacketPanics(frame, 0)
    ensures out.Returned? ==>
              var p := ReadPacket(frame);
              if p.err.Some? || p.records == [] then out.value == None
              else out.value.Some? && OverTCP(p.records, imei, tz, out.value.value)
  {
    hide PacketPanics, ReadPacket;
    var parse := ParsePacket(frame, []);
    if parse.Panicked? { return Panicked; }
    if parse.value.err.Some? { return Returned(None); }
    var parsed := TeltonikaRecordsToParsed(parse.value.records, imei, tz);
    if |parsed| == 0 { return Returned(None); }
    var received := UnmarshalTeltonikaEnvelope(imei, parsed);
    return Returned(Some(received));
  }

  /** The records that parsing an HTTP body gives, by its format; other stands for the parsers of text bodies,
      and spare for what the body's array holds behind it.  A panic is recovered and answered like an error. */
  method ParseWithIMEI(body: seq<byte>, spare: seq<byte>, imei: IMEI, tz: int,
                       other: (Format, seq<byte>) -> Option<seq<GPS>>) returns (queued: Option<seq<GPS>>)
    ensures match DetectFormat(body)
            case Unknown => queued == None
            case TeltonikaAVL =>
              var p := ReadPacket(body);
              if p.err.Some? then queued == None
              else queued.Some? && IsSortOf(AllParsed(p.records, imei, Offset(tz)), queued.value)
            case format => queued == other(format, body)
  {
    hide PacketPanics, ReadPacket;
    var format := DetectFormat(body);
    match format {
      case Unknown => return None;
      case TeltonikaAVL =>
        PanicIsAnError(body, |spare|);
        var parse := ParsePacket(body, spare);
        if parse.Panicked? || parse.value.err.Some? { return None; }
        var parsed := TeltonikaRecordsToParsed(parse.value.records, imei, tz);
        var sorted := SortByDateTime(parsed);
        return Some(sorted);
      case _ => return other(format, body);
    }
  }

  lemma PanicIsAnError(body: seq<byte>, spare: nat)
    ensures PacketPanics(body, spare) ==> ReadPacket(body).err.Some?
  {
    hide PacketPanics, ReadPacket;
    if ReadPacket(body).err == None { AcceptedPacketsReturn(body, spare); }
  }

  /** An octet-stream request; None is one that is answered with an error. */
  method SendOverHTTP(body: seq<byte>, spare: seq<byte>, imei: IMEI, tz: int,
                      other: (Format, seq<byte>) -> Option<seq<GPS>>) returns (out: Option<seq<GPS>>)
    ensures imei == [] ==> out == None
    ensures imei != [] && DetectFormat(body) == Unknown ==> out == None
    ensures imei != [] && DetectFormat(body) == TeltonikaAVL ==>
              var p := ReadPacket(body);
              if p.err.Some? || p.records == [] then out == None
              else out.Some? && OverHTTP(p.records, imei, tz, out.value)
    ensures imei != [] && DetectFormat(body) in {HooshnicJSON, TeltonikaQueued} ==>
              var rs := other(DetectFormat(body), body);
              if rs == None || rs.value == [] then out == None
              else out.Some? && IsSortOf(Unqueued(rs.value, imei), out.value)
  {
    if imei == [] { return None; }
    hide ReadPacket, DetectFormat;
    var queued := ParseWithIMEI(body, spare, imei, tz, other);
    if queued == None { return None; }
    assert |multiset(queued.value)| == |queued.value|;
    SortSize(AllParsed(ReadPacket(body).records, imei, Offset(tz)), queued.value);
    if |queued.value| == 0 { return None; }
    var received := UnmarshalTeltonikaEnvelope(imei, queued.value);
    return Some(received);
  }

  lemma SortSize(rs: seq<GPS>, out: seq<GPS>)
    ensures IsSortOf(rs, out) ==> |rs| == |out|
  {
    assert |multiset(rs)| == |rs| && |multiset(out)| == |out|;
  }

  /** The same packet from the same device reaches the workers as the same records on either way, sorted,
      with the same times in the same order. */
  lemma {:induction false} PathsAgree(recs: seq<Record>, imei: IMEI, tz: int, tcp: seq<GPS>, http: seq<GPS>)
    requires OverTCP(recs, imei, tz, tcp) && OverHTTP(recs, imei, tz, http)
    ensures multiset(tcp) == multiset(http) && Sorted(tcp) && Sorted(http) && Keys(tcp) == Keys(http)
  {
    var parsed := AllParsed(recs, imei, Offset(tz));
    var queued :| IsSortOf(parsed, queued) && IsSortOf(Unqueued(queued, imei), http);
    MapSame(parsed, queued, Unqueue(imei));
    MapSame(tcp, http, KEY);
    SortedOnce(Keys(tcp), Keys(http));
  }

  // ---------- from the wire to the workers ----------

  /** Whole seconds since the start of 1970; the timestamp counts milliseconds in 64 bits with a sign. */
  function UnixSeconds(ms: nat): int {
    if ms < 0x8000_0000_0000_0000 then ms / 1000 else (ms - 0x1_0000_0000_0000_0000) / 1000
  }

  /** The last entry with this id has this value. */
  ghost predicate LastIs(es: seq<IO>, id: nat, value: nat) {
    exists k :: 0 <= k < |es| && es[k] == IO(id, value) && forall j | k < j < |es| :: es[j].id != id
  }

  lemma InstantIs(ms: nat, tz: int)
    ensures Instant(ms, tz) == 62167219200 + UnixSeconds(ms) + tz
  {
  }

  /** Field by field, what a decoded record is turned into. */
  predicate Maps(rec: Record, g: GPS, imei: IMEI, tz: int) {
    && g.lat == rec.lat && g.lon == rec.lon && g.speed == rec.speed && g.imei == imei && g.rawData == rec.rawBytes
    && g.status == (if 239 in rec.ios && rec.ios[239] == 1 then 1 else 0)
    && g.ns == (if rec.lat < 0 then 0 else 1) && g.ew == (if rec.lon < 0 then 0 else 1)
    && g.dateTime == FormatTime(62167219200 + UnixSeconds(rec.timestampMs) + tz)
  }

  lemma {:induction false} OneIsMapped(rec: Record, imei: IMEI, tz: int)
    ensures Maps(rec, ToParsed(rec, imei, tz), imei, tz)
  {
    InstantIs(rec.timestampMs, tz);
    hide FormatTime, Instant, UnixSeconds;
  }

  lemma {:induction false} FieldsAreMapped(recs: seq<Record>, imei: IMEI, tz: int, k: nat)
    requires k < |recs|
    ensures Maps(recs[k], AllParsed(recs, imei, tz)[k], imei, tz)
  {
    hide ToParsed, Maps, AllParsed;
    ParsedAt(recs, imei, tz, k);
    OneIsMapped(recs[k], imei, tz);
  }

  /** A worker's record carries what a device encoded: the speed, the signed coordinates with their directions, the
      ignition as the last entry with id 239 has it, and the local date and time; not the original bytes. */
  ghost predicate Carries(g: GPS, w: Wire, imei: IMEI, tz: int) {
    && g.speed == w.head.speed && SignedReading(g.lat, w.head.lat) && SignedReading(g.lon, w.head.lon)
    && g.ns == (if g.lat < 0 then 0 else 1) && g.ew == (if g.lon < 0 then 0 else 1)
    && g.status == (if LastIs(Entries(w.block), 239, 1) then 1 else 0)
    && g.dateTime == FormatTime(62167219200 + UnixSeconds(w.head.timestampMs) + if tz == 0 then 12600 else tz)
    && g.imei == imei && g.rawData == []
  }

  /** The list is, up to order, one record for each encoded one. */
  ghost predicate Carried(out: seq<GPS>, ws: seq<Wire>, imei: IMEI, tz: int) {
    exists gs: seq<GPS> :: |gs| == |ws| && multiset(gs) == multiset(out) && forall k | 0 <= k < |ws| :: Carries(gs[k], ws[k], imei, tz)
  }

  lemma {:induction false} IgnitionIs(es: seq<IO>, id: nat, value: nat)
    ensures id in AddIOs(map[], es) && AddIOs(map[], es)[id] == value <==> LastIs(es, id, value)
  {
    LastEntryWins(map[], es, id);
    hide AddIOs;
    if id in AddIOs(map[], es) {
      var k := LastOccurrence(es, id);
      assert AddIOs(map[], es)[id] == es[k].value;
    }
  }

  lemma LastOccurrence(es: seq<IO>, id: nat) returns (k: nat)
    requires exists e :: e in es && e.id == id
    ensures k < |es| && es[k].id == id && forall j | k < j < |es| :: es[j].id != id
    decreases |es|
  {
    var last := |es| - 1;
    if es[last].id == id {
      k := last;
    } else {
      assert es == es[..last] + [es[last]];
      k := LastOccurrence(es[..last], id);
    }
  }

  lemma {:induction false} MeaningAt(ws: seq<Wire>, codecID: byte, k: nat) returns (raw: seq<byte>)
    requires AllFit(ws, codecID) && k < |ws|
    ensures WireFits(ws[k], LayoutForCodec(codecID).value) && Meanings(ws, codecID)[k] == RecordOf(ws[k], raw)
    decreases k
  {
    hide RecordOf, EncodeRecord, WireFits;
    if k == 0 {
      raw := EncodeRecord(ws[0], LayoutForCodec(codecID).value);
    } else {
      raw := MeaningAt(ws[1..], codecID, k - 1);
    }
  }

  predicate Means(rec: Record, w: Wire) {
    && rec.speed == w.head.speed && rec.timestampMs == w.head.timestampMs
    && SignedReading(rec.lat, w.head.lat) && SignedReading(rec.lon, w.head.lon)
    && rec.ios == AddIOs(map[], Entries(w.block))
  }

  lemma {:induction false} RecordMeans(w: Wire, raw: seq<byte>)
    requires HeadFits(w.head)
    ensures Means(RecordOf(w, raw), w)
  {
    Widths();
    hide Pow256, Signed32, SignedReading, AddIOs, Entries;
    CoordinatesAreSigned(w.head.lat);
    CoordinatesAreSigned(w.head.lon);
  }

  predicate Ignited(ios: map<nat, nat>) { 239 in ios && ios[239] == 1 }

  lemma {:induction false} IgnitionIsCarried(rec: Record, g: GPS, w: Wire, imei: IMEI, tz: int)
    requires Means(rec, w) && Maps(rec, g, imei, tz)
    ensures g.status == if LastIs(Entries(w.block), 239, 1) then 1 else 0
  {
    IgnitionIs(Entries(w.block), 239, 1);
    assert Ignited(rec.ios) <==> LastIs(Entries(w.block), 239, 1);
    hide FormatTime, AddIOs, Entries, LastIs, SignedReading, UnixSeconds;
  }

  lemma {:induction false} MappedCarries(rec: Record, g: GPS, c: GPS, w: Wire, imei: IMEI, tz: int)
    requires Means(rec, w) && Maps(rec, g, imei, Offset(tz)) && c == g.(rawData := [])
    requires g.status == if LastIs(Entries(w.block), 239, 1) then 1 else 0
    ensures Carries(c, w, imei, tz)
  {
    hide FormatTime, AddIOs, Entries, LastIs, SignedReading, UnixSeconds;
  }

  lemma MapsTheIMEI(rec: Record, g: GPS, imei: IMEI, tz: int)
    requires Maps(rec, g, imei, tz)
    ensures g.imei == imei
  {
    hide FormatTime, UnixSeconds;
  }

  lemma QueuedIs(g: GPS, imei: IMEI)
    requires g.imei == imei
    ensures Filled(Stored(g), imei) == g.(rawData := [])
  {
  }

  lemma {:induction false} ParsedCarries(w: Wire, raw: seq<byte>, imei: IMEI, tz: int)
    requires HeadFits(w.head)
    ensures Carries(Filled(Stored(ToParsed(RecordOf(w, raw), imei, Offset(tz))), imei), w, imei, tz)
  {
    hide *;
    RecordMeans(w, raw);
    OneIsMapped(RecordOf(w, raw), imei, Offset(tz));
    var rec := RecordOf(w, raw);
    var g := ToParsed(rec, imei, Offset(tz));
    IgnitionIsCarried(rec, g, w, imei, Offset(tz));
    MapsTheIMEI(rec, g, imei, Offset(tz));
    QueuedIs(g, imei);
    MappedCarries(rec, g, g.(rawData := []), w, imei, tz);
  }

  lemma {:induction false} ParsedAt(recs: seq<Record>, imei: IMEI, tz: int, k: nat)
    requires k < |recs|
    ensures AllParsed(recs, imei, tz)[k] == ToParsed(recs[k], imei, tz)
    decreases |recs|
  {
    hide ToParsed;
    if k > 0 { ParsedAt(recs[1..], imei, tz, k - 1); }
  }

  lemma {:induction false} OneIsCarried(ws: seq<Wire>, codecID: byte, imei: IMEI, tz: int, k: nat)
    requires AllFit(ws, codecID) && k < |ws|
    ensures Carries(Unqueued(AllParsed(Meanings(ws, codecID), imei, Offset(tz)), imei)[k], ws[k], imei, tz)
  {
    var raw := MeaningAt(ws, codecID, k);
    hide Meanings, AllFit, RecordOf, Carries, BlockFits, AllParsed, ToParsed, Stored, Filled;
    ParsedAt(Meanings(ws, codecID), imei, Offset(tz), k);
    ParsedCarries(ws[k], raw, imei, tz);
  }

  /** A packet of any encoded records is recognised and never panics, and either way the workers get those records,
      each once, sorted. */
  lemma {:induction false} PacketsReachTheWorkers(ws: seq<Wire>, codecID: byte, imei: IMEI, tz: int, out: seq<GPS>)
    requires Packable(ws, codecID) && ws != []
    ensures var frame := Framed(EncodePayload(ws, codecID));
            && DetectFormat(frame) == TeltonikaAVL && !PacketPanics(frame, 0)
            && ReadPacket(frame).err == None && |ReadPacket(frame).records| == |ws|
            && (OverTCP(ReadPacket(frame).records, imei, tz, out) || OverHTTP(ReadPacket(frame).records, imei, tz, out) ==>
                  Carried(out, ws, imei, tz) && Sorted(out))
  {
    var frame := Framed(EncodePayload(ws, codecID));
    PacketRoundTrip(ws, codecID, []);
    assert frame + [] == frame;
    var recs := Meanings(ws, codecID);
    hide ReadPacket, Framed, EncodePayload, PacketPanics, DetectFormat, Meanings, AllFit, Carries, Sorted, EncodeRecords, AllParsed;
    AcceptedPacketsAreDetected(frame);
    AcceptedPacketsReturn(frame, 0);
    var parsed := AllParsed(recs, imei, Offset(tz));
    var gs := Unqueued(parsed, imei);
    forall k | 0 <= k < |ws| ensures Carries(gs[k], ws[k], imei, tz) { OneIsCarried(ws, codecID, imei, tz, k); }
    if OverHTTP(recs, imei, tz, out) {
      var queued :| IsSortOf(parsed, queued) && IsSortOf(Unqueued(queued, imei), out);
      MapSame(parsed, queued, Unqueue(imei));
    }
  }

  /** The records a worker gets are in the order of their times, when all of these have four-digit years. */
  lemma SortedMeansByTime(rs: seq<GPS>, times: seq<int>, i: nat, j: nat)
    requires Sorted(rs) && |times| == |rs| && i < j < |rs|
    requires forall k | 0 <= k < |rs| :: FourDigitYear(times[k]) && rs[k].dateTime == FormatTime(times[k])
    ensures times[i] <= times[j]
  {
    hide FormatTime, FourDigitYear, Less;
    StringOrderIsTimeOrder(times[j], times[i]);
  }

  /** Two timestamps a second apart that a device can send, in milliseconds, under the default offset: the
      earlier one is the last second of the year 9999. */
  const LATE_TIMESTAMPS: (nat, nat) := (253402288199000, 253402288200000)

  /** The condition on the years is needed: these two are sorted the wrong way round. */
  lemma LateTimestampsTurnBack()
    ensures var (s, t) := (Instant(LATE_TIMESTAMPS.0, DEFAULT_OFFSET), Instant(LATE_TIMESTAMPS.1, DEFAULT_OFFSET));
            t == s + 1 && YearOf(s) < 10000 <= YearOf(t) && Less(FormatTime(t), FormatTime(s))
  {
    hide Less, FormatTime, YearOf;
    TurnAtTenThousand(Instant(LATE_TIMESTAMPS.1, DEFAULT_OFFSET));
  }

  /** Two with the top bit set, which the program takes for times before 1970: the earlier one is the last second
      of the year -2. */
  const EARLY_TIMESTAMPS: (nat, nat) := (18446681874941750616, 18446681874941751616)

  lemma EarlyTimestampsTurnBack()
    ensures var (s, t) := (Instant(EARLY_TIMESTAMPS.0, DEFAULT_OFFSET), Instant(EARLY_TIMESTAMPS.1, DEFAULT_OFFSET));
            t == s + 1 && YearOf(s) < -1 <= YearOf(t) && Less(FormatTime(t), FormatTime(s))
  {
    hide Less, FormatTime, YearOf;
    TurnAtMinusOne(Instant(EARLY_TIMESTAMPS.1, DEFAULT_OFFSET));
  }
}
