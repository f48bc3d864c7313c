/**
 The Teltonika AVL codec: records of three layouts inside a checksummed packet.

 The methods decode as the program does, byte by byte with a moving offset.  They are proved against
 functions that read the wire form of a record, and those functions accept exactly the byte strings
 that the encoders below them produce.
 */
module Codec {
  import opened Options
  import opened Words
  import opened Bytes

  // ---------- results ----------

  datatype Error =
    | RecordTooShort | UnsupportedCodec | MissingEventID | MissingGeneration
    | EndOfIOBlock | EndOfIOID | EndOfIOValue | MissingVariableLength | EndOfVariableValue
    | PacketTooShort | InvalidPreamble | InvalidLength | Truncated | CRCMismatch
    | PayloadTooShort | CountMismatch | EndOfRecords(index: nat) | BadRecord(index: nat, cause: Error) | TrailingBytes

  datatype Result<+T> = Ok(value: T) | Err(error: Error) {
    predicate IsFailure() { Err? }
    function PropagateFailure<U>(): Result<U> requires Err? { Err(error) }
    function Extract(): T requires Ok? { value }
  }

  // ---------- layouts ----------

  datatype Layout = Layout(eventIDWidth: nat, countWidth: nat, idWidth: nat, hasGeneration: bool, hasVariableIO: bool)

  function LayoutForCodec(codecID: byte): Result<Layout> {
    if codecID == 0x08 then Ok(Layout(1, 1, 1, false, false))
    else if codecID == 0x8E then Ok(Layout(2, 2, 2, false, true))
    else if codecID == 0x10 then Ok(Layout(2, 1, 2, true, false))
    else Err(UnsupportedCodec)
  }

  /** The widths the readers distinguish: one byte, or two. */
  predicate Sane(cfg: Layout) {
    1 <= cfg.eventIDWidth <= 2 && 1 <= cfg.countWidth <= 2 && 1 <= cfg.idWidth <= 2
  }

  // ---------- decoded values ----------

  /** Coordinates are the raw signed numbers, in units of 1e-7 degree. */
  datatype Record = Record(
    timestampMs: nat, priority: nat, lat: int, lon: int, altitude: nat, angle: nat,
    satellites: nat, speed: nat, ios: map<nat, nat>, rawBytes: seq<byte>)

  datatype IO = IO(id: nat, value: nat)

  datatype VariableIO = VariableIO(id: nat, data: seq<byte>)

  datatype Head = Head(
    timestampMs: nat, priority: nat, lon: nat, lat: nat, altitude: nat, angle: nat, satellites: nat, speed: nat)

  /** Everything an IO block carries, including what the decoder skips over. */
  datatype Block = Block(eventID: nat, generation: nat, total: nat, groups: seq<seq<IO>>, variable: seq<VariableIO>)

  datatype Wire = Wire(head: Head, block: Block)

  function Signed32(n: nat): int { if n < 0x8000_0000 then n else n - 0x1_0000_0000 }

  function AddIOs(ios: map<nat, nat>, entries: seq<IO>): map<nat, nat>
    decreases |entries|
  {
    if entries == [] then ios else AddIOs(ios[entries[0].id := entries[0].value], entries[1..])
  }

  /** A variable value contributes its first eight bytes. */
  function VariableValue(data: seq<byte>): nat {
    FromBigEndian(if |data| <= 8 then data else data[..8])
  }

  function VariableEntries(vs: seq<VariableIO>): seq<IO> {
    if vs == [] then [] else [IO(vs[0].id, VariableValue(vs[0].data))] + VariableEntries(vs[1..])
  }

  function Flatten<T>(groups: seq<seq<T>>): seq<T> {
    if groups == [] then [] else groups[0] + Flatten(groups[1..])
  }

  /** All id/value pairs of a block in wire order. */
  function Entries(b: Block): seq<IO> {
    Flatten(b.groups) + VariableEntries(b.variable)
  }

  function RecordWith(h: Head, ios: map<nat, nat>, raw: seq<byte>): Record {
    Record(h.timestampMs, h.priority, Signed32(h.lat), Signed32(h.lon), h.altitude, h.angle, h.satellites, h.speed, ios, raw)
  }

  function RecordOf(w: Wire, raw: seq<byte>): Record { RecordWith(w.head, AddIOs(map[], Entries(w.block)), raw) }

  // ---------- the grammar ----------

  /** A number of the given width, and what follows it. */
  function Take(s: seq<byte>, width: nat, short: Error): Result<(nat, seq<byte>)> {
    if |s| < width then Err(short) else Ok((FromBigEndian(s[..width]), s[width..]))
  }

  function TakeBytes(s: seq<byte>, n: nat, short: Error): Result<(seq<byte>, seq<byte>)> {
    if |s| < n then Err(short) else Ok((s[..n], s[n..]))
  }

  /** n entries of one fixed value size. */
  function WireGroup(s: seq<byte>, idWidth: nat, size: nat, n: nat): (r: Result<(seq<IO>, seq<byte>)>)
    ensures r.Ok? ==> |r.value.0| == n && |r.value.1| <= |s|
    decreases n
  {
    if n == 0 then Ok(([], s)) else
      var (id, s1) :- Take(s, idWidth, EndOfIOID);
      var (value, s2) :- Take(s1, size, EndOfIOValue);
      var (rest, t) :- WireGroup(s2, idWidth, size, n - 1);
      Ok(([IO(id, value)] + rest, t))
  }

  /** One counted group for each value size. */
  function WireGroups(s: seq<byte>, cfg: Layout, sizes: seq<nat>): (r: Result<(seq<seq<IO>>, seq<byte>)>)
    ensures r.Ok? ==> |r.value.0| == |sizes| && |r.value.1| <= |s|
    decreases |sizes|
  {
    if sizes == [] then Ok(([], s)) else
      var (n, s1) :- Take(s, cfg.countWidth, EndOfIOBlock);
      var (group, s2) :- WireGroup(s1, cfg.idWidth, sizes[0], n);
      var (rest, t) :- WireGroups(s2, cfg, sizes[1..]);
      Ok(([group] + rest, t))
  }

  /** n entries that carry their own length. */
  function WireVariable(s: seq<byte>, idWidth: nat, n: nat): (r: Result<(seq<VariableIO>, seq<byte>)>)
    ensures r.Ok? ==> |r.value.0| == n && |r.value.1| <= |s|
    decreases n
  {
    if n == 0 then Ok(([], s)) else
      var (id, s1) :- Take(s, idWidth, EndOfIOID);
      var (length, s2) :- Take(s1, 2, MissingVariableLength);
      var (data, s3) :- TakeBytes(s2, length, EndOfVariableValue);
      var (rest, t) :- WireVariable(s3, idWidth, n - 1);
      Ok(([VariableIO(id, data)] + rest, t))
  }

  const SIZES: seq<nat> := [1, 2, 4, 8]

  function WireCountedVariable(s: seq<byte>, cfg: Layout): (r: Result<(seq<VariableIO>, seq<byte>)>)
    ensures r.Ok? ==> |r.value.1| <= |s|
  {
    if !cfg.hasVariableIO then Ok(([], s)) else
      var (n, s1) :- Take(s, cfg.countWidth, EndOfIOBlock);
      WireVariable(s1, cfg.idWidth, n)
  }

  function WireBlock(s: seq<byte>, cfg: Layout): (r: Result<(Block, seq<byte>)>)
    ensures r.Ok? ==> |r.value.1| <= |s|
  {
    var (eventID, s1) :- Take(s, cfg.eventIDWidth, MissingEventID);
    var (generation, s2) :- Take(s1, if cfg.hasGeneration then 1 else 0, MissingGeneration);
    var (total, s3) :- Take(s2, cfg.countWidth, EndOfIOBlock);
    var (groups, s4) :- WireGroups(s3, cfg, SIZES);
    var (variable, t) :- WireCountedVariable(s4, cfg);
    Ok((Block(eventID, generation, total, groups, variable), t))
  }

  function WireHead(s: seq<byte>): (h: Head)
    requires |s| == 24
  {
    Head(FromBigEndian(s[0..8]), s[8], FromBigEndian(s[9..13]), FromBigEndian(s[13..17]),
         FromBigEndian(s[17..19]), FromBigEndian(s[19..21]), s[21], FromBigEndian(s[22..24]))
  }

  /** A record at the start of s; behind a header that s does not hold in full there is no event ID. */
  function WireRecord(s: seq<byte>, codecID: byte): (r: Result<(Wire, seq<byte>)>)
    ensures r.Ok? ==> |r.value.1| + 24 <= |s|
  {
    if |s| < 9 then Err(RecordTooShort) else
      var cfg :- LayoutForCodec(codecID);
      var (head, s1) :- TakeBytes(s, 24, MissingEventID);
      var (block, t) :- WireBlock(s1, cfg);
      Ok((Wire(WireHead(head), block), t))
  }

  // ---------- readers at an offset ----------

  function ReadIOCount(buf: seq<byte>, off: nat, width: nat): (r: Result<(nat, nat)>) {
    if width == 1 then
      if off >= |buf| then Err(EndOfIOBlock) else Ok((buf[off], off + 1))
    else
      if off + 2 > |buf| then Err(EndOfIOBlock) else Ok((FromBigEndian(buf[off..off + 2]), off + 2))
  }

  function ReadIOID(buf: seq<byte>, off: nat, width: nat): (r: Result<(nat, nat)>) {
    if width == 1 then
      if off >= |buf| then Err(EndOfIOID) else Ok((buf[off], off + 1))
    else
      if off + 2 > |buf| then Err(EndOfIOID) else Ok((FromBigEndian(buf[off..off + 2]), off + 2))
  }

  function ReadEventID(buf: seq<byte>, off: nat, width: nat): (r: Result<(nat, nat)>) {
    if width == 1 then
      if off >= |buf| then Err(MissingEventID) else Ok((buf[off], off + 1))
    else
      if off + 2 > |buf| then Err(MissingEventID) else Ok((FromBigEndian(buf[off..off + 2]), off + 2))
  }

  function ReadGeneration(buf: seq<byte>, off: nat, present: bool): (r: Result<(nat, nat)>) {
    if !present then Ok((0, off))
    else if off >= |buf| then Err(MissingGeneration)
    else Ok((buf[off], off + 1))
  }

  /** The result of reading at an offset, as the grammar reports it. */
  function Rest<T>(buf: seq<byte>, r: Result<(T, nat)>): Result<(T, seq<byte>)>
    requires r.Ok? ==> r.value.1 <= |buf|
  {
    if r.Err? then Err(r.error) else Ok((r.value.0, buf[r.value.1..]))
  }

  lemma ReadersTake(buf: seq<byte>, off: nat, width: nat)
    requires off <= |buf| && 1 <= width <= 2
    ensures ReadIOCount(buf, off, width).Ok? ==> ReadIOCount(buf, off, width).value.1 <= |buf|
    ensures ReadIOID(buf, off, width).Ok? ==> ReadIOID(buf, off, width).value.1 <= |buf|
    ensures ReadEventID(buf, off, width).Ok? ==> ReadEventID(buf, off, width).value.1 <= |buf|
    ensures Rest(buf, ReadIOCount(buf, off, width)) == Take(buf[off..], width, EndOfIOBlock)
    ensures Rest(buf, ReadIOID(buf, off, width)) == Take(buf[off..], width, EndOfIOID)
    ensures Rest(buf, ReadEventID(buf, off, width)) == Take(buf[off..], width, MissingEventID)
  {
    Tail(buf, off, width);
    if off < |buf| { OneByte(buf, off); }
  }

  lemma Tail(buf: seq<byte>, off: nat, n: nat)
    requires off <= |buf|
    ensures |buf[off..]| == |buf| - off
    ensures off + n <= |buf| ==> buf[off..][..n] == buf[off..off + n] && buf[off..][n..] == buf[off + n..]
  {
  }

  lemma OneByte(buf: seq<byte>, off: nat)
    requires off < |buf|
    ensures FromBigEndian(buf[off..off + 1]) == buf[off]
  {
    var s := buf[off..off + 1];
    assert s == [buf[off]] && s[..0] == [];
    assert FromBigEndian([]) == 0;
  }

  // ---------- the decoder ----------

  function Prepend<T>(done: seq<T>, r: Result<(seq<T>, seq<byte>)>): Result<(seq<T>, seq<byte>)> {
    if r.Ok? then Ok((done + r.value.0, r.value.1)) else r
  }

  lemma AddIOsConcat(ios: map<nat, nat>, a: seq<IO>, b: seq<IO>)
    ensures AddIOs(ios, a + b) == AddIOs(AddIOs(ios, a), b)
    decreases |a|
  {
    if a == [] {
      assert a + b == b;
    } else {
      assert (a + b)[1..] == a[1..] + b;
      AddIOsConcat(ios[a[0].id := a[0].value], a[1..], b);
    }
  }

  lemma NothingToAdd(ios: map<nat, nat>)
    ensures AddIOs(ios, []) == ios && VariableEntries([]) == [] && Flatten<IO>([]) == []
  {
  }

  lemma AddIOsSnoc(ios: map<nat, nat>, a: seq<IO>, e: IO)
    ensures AddIOs(ios, a + [e]) == AddIOs(ios, a)[e.id := e.value]
  {
    AddIOsConcat(ios, a, [e]);
  }

  lemma PrependMore<T>(done: seq<T>, x: T, tail: Result<(seq<T>, seq<byte>)>)
    ensures Prepend(done + [x], tail) == Prepend(done, Prepend([x], tail))
  {
    if tail.Ok? { assert done + [x] + tail.value.0 == done + ([x] + tail.value.0); }
  }

  lemma FlattenSnoc<T>(groups: seq<seq<T>>, g: seq<T>)
    ensures Flatten(groups + [g]) == Flatten(groups) + g
  {
    if groups == [] {
      assert Flatten([g]) == g + Flatten([]) == g;
    } else {
      assert (groups + [g])[1..] == groups[1..] + [g];
      FlattenSnoc(groups[1..], g);
    }
  }

  lemma PrependNone<T>(r: Result<(seq<T>, seq<byte>)>)
    ensures Prepend([], r) == r
  {
    if r.Ok? { assert [] + r.value.0 == r.value.0; }
  }

  lemma GroupUnfolds(s: seq<byte>, idWidth: nat, size: nat, n: nat)
    ensures WireGroup(s, idWidth, size, n) ==
              if n == 0 then Ok(([], s)) else
                var id := Take(s, idWidth, EndOfIOID);
                if id.Err? then Err(id.error) else
                  var v := Take(id.value.1, size, EndOfIOValue);
                  if v.Err? then Err(v.error) else
                    Prepend([IO(id.value.0, v.value.0)], WireGroup(v.value.1, idWidth, size, n - 1))
  {
  }

  lemma VariableUnfolds(s: seq<byte>, idWidth: nat, n: nat)
    ensures WireVariable(s, idWidth, n) ==
              if n == 0 then Ok(([], s)) else
                var id := Take(s, idWidth, EndOfIOID);
                if id.Err? then Err(id.error) else
                  var length := Take(id.value.1, 2, MissingVariableLength);
                  if length.Err? then Err(length.error) else
                    var data := TakeBytes(length.value.1, length.value.0, EndOfVariableValue);
                    if data.Err? then Err(data.error) else
                      Prepend([VariableIO(id.value.0, data.value.0)], WireVariable(data.value.1, idWidth, n - 1))
  {
  }

  /** What a method that fills the map and moves the offset makes of a list the grammar reads. */
  predicate Filled(buf: seq<byte>, r: Result<(map<nat, nat>, nat)>, before: map<nat, nat>,
                   g: Result<(seq<IO>, seq<byte>)>) {
    if g.Err? then r == Err(g.error)
    else && r.Ok? && r.value.0 == AddIOs(before, g.value.0)
         && r.value.1 <= |buf| && buf[r.value.1..] == g.value.1
  }

  /** The entries of one group, written into the map. */
  method ParseEntries(buf: seq<byte>, start: nat, idWidth: nat, valueSize: nat, n: nat, before: map<nat, nat>)
      returns (r: Result<(map<nat, nat>, nat)>)
    requires start <= |buf| && 1 <= idWidth <= 2
    ensures Filled(buf, r, before, WireGroup(buf[start..], idWidth, valueSize, n))
  {
    hide WireGroup, FromBigEndian, AddIOs, ReadIOID;
    var off: nat := start;
    var ios := before;
    ghost var whole := WireGroup(buf[start..], idWidth, valueSize, n);
    ghost var done: seq<IO> := [];
    PrependNone(whole);
    NothingToAdd(before);
    for i := 0 to n
      invariant off <= |buf|
      invariant whole == Prepend(done, WireGroup(buf[off..], idWidth, valueSize, n - i))
      invariant ios == AddIOs(before, done)
    {
      GroupUnfolds(buf[off..], idWidth, valueSize, n - i);
      ReadersTake(buf, off, idWidth);
      var idRead := ReadIOID(buf, off, idWidth);
      if idRead.Err? { return Err(idRead.error); }
      var id, next := idRead.value.0, idRead.value.1;
      Tail(buf, next, valueSize);
      if next + valueSize > |buf| { return Err(EndOfIOValue); }
      var val := FromBigEndian(buf[next..next + valueSize]);
      PrependMore(done, IO(id, val), WireGroup(buf[next + valueSize..], idWidth, valueSize, n - i - 1));
      AddIOsSnoc(before, done, IO(id, val));
      done := done + [IO(id, val)];
      off := next + valueSize;
      ios := ios[id := val];
    }
    GroupUnfolds(buf[off..], idWidth, valueSize, 0);
    assert done + [] == done;
    return Ok((ios, off));
  }

  /** The closure parseGroup: one counted group. */
  method ParseGroup(buf: seq<byte>, start: nat, cfg: Layout, valueSize: nat, before: map<nat, nat>)
      returns (r: Result<(map<nat, nat>, nat)>)
    requires start <= |buf| && Sane(cfg)
    ensures var c := Take(buf[start..], cfg.countWidth, EndOfIOBlock);
            if c.Err? then r == Err(c.error)
            else Filled(buf, r, before, WireGroup(c.value.1, cfg.idWidth, valueSize, c.value.0))
  {
    ReadersTake(buf, start, cfg.countWidth);
    var count := ReadIOCount(buf, start, cfg.countWidth);
    if count.Err? { return Err(count.error); }
    r := ParseEntries(buf, count.value.1, cfg.idWidth, valueSize, count.value.0, before);
  }

  /** The first eight bytes of a variable value, shifted in one by one. */
  method ParseVariableValue(buf: seq<byte>, off: nat, length: nat) returns (val: nat)
    requires off + length <= |buf|
    ensures val == VariableValue(buf[off..off + length])
  {
    val := 0;
    var j := 0;
    while j < length && j < 8
      invariant j <= length && j <= 8
      invariant val == FromBigEndian(buf[off..off + j])
    {
      assert buf[off..off + j + 1][..j] == buf[off..off + j];
      val := val * 256 + buf[off + j];
      j := j + 1;
    }
    if length > 8 { assert buf[off..off + length][..8] == buf[off..off + 8]; }
  }

  /** The variable-length entries, written into the map. */
  method ParseVariable(buf: seq<byte>, start: nat, idWidth: nat, n: nat, before: map<nat, nat>)
      returns (r: Result<(map<nat, nat>, nat)>)
    requires start <= |buf| && 1 <= idWidth <= 2
    ensures var v := WireVariable(buf[start..], idWidth, n);
            Filled(buf, r, before, if v.Err? then Err(v.error) else Ok((VariableEntries(v.value.0), v.value.1)))
  {
    hide WireVariable, FromBigEndian, AddIOs, VariableEntries, VariableValue, ReadIOID, Take, TakeBytes, Prepend;
    var off: nat := start;
    var ios := before;
    ghost var whole := WireVariable(buf[start..], idWidth, n);
    ghost var done: seq<VariableIO> := [];
    PrependNone(whole);
    NothingToAdd(before);
    for i := 0 to n
      invariant off <= |buf|
      invariant whole == Prepend(done, WireVariable(buf[off..], idWidth, n - i))
      invariant ios == AddIOs(before, VariableEntries(done))
    {
      OneVariable(buf, off, idWidth, n - i, done);
      var idRead := ReadIOID(buf, off, idWidth);
      if idRead.Err? { return Err(idRead.error); }
      var id, next := idRead.value.0, idRead.value.1;
      if next + 2 > |buf| { return Err(MissingVariableLength); }
      var length := FromBigEndian(buf[next..next + 2]);
      var from := next + 2;
      if from + length > |buf| { return Err(EndOfVariableValue); }
      var val := ParseVariableValue(buf, from, length);
      ghost var entry := VariableIO(id, buf[from..from + length]);
      PrependMore(done, entry, WireVariable(buf[from + length..], idWidth, n - i - 1));
      VariableEntriesSnoc(done, entry);
      AddIOsSnoc(before, VariableEntries(done), IO(id, val));
      done := done + [entry];
      off := from + length;
      ios := ios[id := val];
    }
    NoVariable(buf[off..], idWidth, done);
    return Ok((ios, off));
  }

  /** One entry, read at an offset behind the entries done. */
  lemma OneVariable(buf: seq<byte>, off: nat, idWidth: nat, n: nat, done: seq<VariableIO>)
    requires off <= |buf| && 1 <= idWidth <= 2 && n > 0
    ensures var whole := Prepend(done, WireVariable(buf[off..], idWidth, n));
            var id := ReadIOID(buf, off, idWidth);
            if id.Err? then whole == Err(id.error)
            else
              var next := id.value.1;
              && off <= next <= |buf|
              && if next + 2 > |buf| then whole == Err(MissingVariableLength)
                 else
                   var length := FromBigEndian(buf[next..next + 2]);
                   if next + 2 + length > |buf| then whole == Err(EndOfVariableValue)
                   else
                     var entry := VariableIO(id.value.0, buf[next + 2..next + 2 + length]);
                     whole == Prepend(done, Prepend([entry], WireVariable(buf[next + 2 + length..], idWidth, n - 1)))
  {
    hide WireVariable, FromBigEndian;
    VariableUnfolds(buf[off..], idWidth, n);
    ReadersTake(buf, off, idWidth);
    var id := ReadIOID(buf, off, idWidth);
    if id.Ok? {
      var next := id.value.1;
      Tail(buf, next, 2);
      if next + 2 <= |buf| { Tail(buf, next + 2, FromBigEndian(buf[next..next + 2])); }
    }
  }

  lemma NoVariable(s: seq<byte>, idWidth: nat, done: seq<VariableIO>)
    ensures Prepend(done, WireVariable(s, idWidth, 0)) == Ok((done, s))
  {
    assert done + [] == done;
  }

  lemma VariableEntriesSnoc(vs: seq<VariableIO>, v: VariableIO)
    ensures VariableEntries(vs + [v]) == VariableEntries(vs) + [IO(v.id, VariableValue(v.data))]
  {
    if vs == [] {
      assert [v][1..] == [];
    } else {
      assert (vs + [v])[1..] == vs[1..] + [v];
      VariableEntriesSnoc(vs[1..], v);
    }
  }

  lemma GroupsUnfold(s: seq<byte>, cfg: Layout, sizes: seq<nat>)
    ensures WireGroups(s, cfg, sizes) ==
              if sizes == [] then Ok(([], s)) else
                var c := Take(s, cfg.countWidth, EndOfIOBlock);
                if c.Err? then Err(c.error) else
                  var g := WireGroup(c.value.1, cfg.idWidth, sizes[0], c.value.0);
                  if g.Err? then Err(g.error) else
                    Prepend([g.value.0], WireGroups(g.value.1, cfg, sizes[1..]))
  {
  }

  /** The loop over the four value sizes. */
  method ParseGroups(buf: seq<byte>, start: nat, cfg: Layout) returns (r: Result<(map<nat, nat>, nat)>)
    requires start <= |buf| && Sane(cfg)
    ensures var g := WireGroups(buf[start..], cfg, SIZES);
            Filled(buf, r, map[], if g.Err? then Err(g.error) else Ok((Flatten(g.value.0), g.value.1)))
  {
    hide WireGroups, WireGroup, AddIOs, FromBigEndian, Flatten;
    var off: nat := start;
    var ios: map<nat, nat> := map[];
    ghost var whole := WireGroups(buf[start..], cfg, SIZES);
    ghost var done: seq<seq<IO>> := [];
    PrependNone(whole);
    NothingToAdd(ios);
    assert SIZES[0..] == SIZES;
    for k := 0 to |SIZES|
      invariant off <= |buf|
      invariant whole == Prepend(done, WireGroups(buf[off..], cfg, SIZES[k..]))
      invariant ios == AddIOs(map[], Flatten(done))
    {
      GroupsUnfold(buf[off..], cfg, SIZES[k..]);
      assert SIZES[k..][1..] == SIZES[k + 1..] && SIZES[k..][0] == SIZES[k];
      ghost var c := Take(buf[off..], cfg.countWidth, EndOfIOBlock);
      var g := ParseGroup(buf, off, cfg, SIZES[k], ios);
      if g.Err? { return Err(g.error); }
      ghost var group := WireGroup(c.value.1, cfg.idWidth, SIZES[k], c.value.0).value.0;
      ios, off := g.value.0, g.value.1;
      PrependMore(done, group, WireGroups(buf[off..], cfg, SIZES[k + 1..]));
      FlattenSnoc(done, group);
      AddIOsConcat(map[], Flatten(done), group);
      done := done + [group];
    }
    GroupsUnfold(buf[off..], cfg, []);
    assert done + [] == done;
    return Ok((ios, off));
  }

  method ParseIOBlock(buf: seq<byte>, start: nat, cfg: Layout) returns (r: Result<(map<nat, nat>, nat)>)
    requires Sane(cfg)
    ensures start > |buf| ==> r == Err(MissingEventID)
    ensures start <= |buf| ==>
              var b := WireBlock(buf[start..], cfg);
              Filled(buf, r, map[], if b.Err? then Err(b.error) else Ok((Entries(b.value.0), b.value.1)))
  {
    if start > |buf| {
      var past := ReadEventID(buf, start, cfg.eventIDWidth);
      return Err(past.error);
    }
    hide WireGroups, WireVariable, AddIOs, FromBigEndian, Flatten, VariableEntries;
    ReadersTake(buf, start, cfg.eventIDWidth);
    var event := ReadEventID(buf, start, cfg.eventIDWidth);
    if event.Err? { return Err(event.error); }
    GenerationTakes(buf, event.value.1, cfg.hasGeneration);
    var generation := ReadGeneration(buf, event.value.1, cfg.hasGeneration);
    if generation.Err? { return Err(generation.error); }
    ReadersTake(buf, generation.value.1, cfg.countWidth);
    var total := ReadIOCount(buf, generation.value.1, cfg.countWidth);
    if total.Err? { return Err(total.error); }
    var g := ParseGroups(buf, total.value.1, cfg);
    if g.Err? { return Err(g.error); }
    ghost var groups := WireGroups(buf[total.value.1..], cfg, SIZES).value.0;
    var ios, off := g.value.0, g.value.1;
    if cfg.hasVariableIO {
      ReadersTake(buf, off, cfg.countWidth);
      var count := ReadIOCount(buf, off, cfg.countWidth);
      if count.Err? { return Err(count.error); }
      r := ParseVariable(buf, count.value.1, cfg.idWidth, count.value.0, ios);
      if r.Ok? {
        ghost var vs := WireVariable(buf[count.value.1..], cfg.idWidth, count.value.0).value.0;
        AddIOsConcat(map[], Flatten(groups), VariableEntries(vs));
      }
      return;
    }
    NothingToAdd(ios);
    assert Flatten(groups) + [] == Flatten(groups);
    return Ok((ios, off));
  }

  lemma GenerationTakes(buf: seq<byte>, off: nat, present: bool)
    requires off <= |buf|
    ensures ReadGeneration(buf, off, present).Ok? ==> ReadGeneration(buf, off, present).value.1 <= |buf|
    ensures Rest(buf, ReadGeneration(buf, off, present))
         == Take(buf[off..], if present then 1 else 0, MissingGeneration)
  {
    Tail(buf, off, if present then 1 else 0);
    if present && off < |buf| { OneByte(buf, off); }
    assert FromBigEndian(buf[off..][..0]) == 0;
  }

  /** What the decoder returns for a buffer: the record, its own bytes, and how many they are. */
  function Decoded(buf: seq<byte>, codecID: byte): (r: Result<(Record, nat)>)
    ensures r.Ok? ==> 24 <= r.value.1 <= |buf|
  {
    var (w, t) :- WireRecord(buf, codecID);
    var n := |buf| - |t|;
    Ok((RecordOf(w, buf[..n]), n))
  }

  /** The fixed header ends at byte 24, but only 9 bytes are asked for before it is sliced: with fewer than
      24 bytes up to the capacity of the buffer the slice panics. */
  predicate HeaderPanics(length: nat, behind: nat) { 9 <= length && length + behind < 24 }

  /** How the decoder ends on a buffer with more bytes behind it. */
  function DecodeEnding(buf: seq<byte>, behind: nat, codecID: byte): Ending<Result<(Record, nat)>> {
    if HeaderPanics(|buf|, behind) then Panicked else Returned(Decoded(buf, codecID))
  }

  /** Decoding from the fixed header on. */
  lemma DecodedParts(buf: seq<byte>, codecID: byte)
    requires |buf| >= 9
    ensures var cfg := LayoutForCodec(codecID);
            if cfg.Err? then Decoded(buf, codecID) == Err(cfg.error)
            else if |buf| < 24 then Decoded(buf, codecID) == Err(MissingEventID)
            else
              var b := WireBlock(buf[24..], cfg.value);
              if b.Err? then Decoded(buf, codecID) == Err(b.error)
              else
                var n := |buf| - |b.value.1|;
                Decoded(buf, codecID) == Ok((RecordOf(Wire(WireHead(buf[..24]), b.value.0), buf[..n]), n))
  {
    hide WireBlock, WireHead, RecordOf;
  }

  lemma HeaderSlice(buf: seq<byte>, behind: seq<byte>)
    requires |buf| >= 9
    ensures var gps := Slice(buf, behind, 9, 24);
            && (gps.Panicked? <==> HeaderPanics(|buf|, |behind|))
            && (gps.Returned? ==> |gps.value| == 15)
            && (|buf| >= 24 ==> gps.Returned? && buf[..9] + gps.value == buf[..24])
  {
    if |buf| >= 24 { assert (buf + behind)[9..24] == buf[9..24]; }
  }

  lemma ShortRecord(buf: seq<byte>, codecID: byte)
    requires |buf| < 9
    ensures Decoded(buf, codecID) == Err(RecordTooShort)
  {
  }

  lemma NoLayout(buf: seq<byte>, codecID: byte)
    requires |buf| >= 9 && LayoutForCodec(codecID).Err?
    ensures Decoded(buf, codecID) == Err(LayoutForCodec(codecID).error)
  {
    hide LayoutForCodec;
  }

  /** What reading the IO block behind the header makes of a record. */
  ghost predicate BlockRead(buf: seq<byte>, cfg: Layout, r: Result<(map<nat, nat>, nat)>) {
    if 24 > |buf| then r == Err(MissingEventID)
    else
      var b := WireBlock(buf[24..], cfg);
      Filled(buf, r, map[], if b.Err? then Err(b.error) else Ok((Entries(b.value.0), b.value.1)))
  }

  lemma BlockFails(buf: seq<byte>, codecID: byte, r: Result<(map<nat, nat>, nat)>)
    requires |buf| >= 9 && LayoutForCodec(codecID).Ok? && r.Err? && BlockRead(buf, LayoutForCodec(codecID).value, r)
    ensures Decoded(buf, codecID) == Err(r.error)
  {
    DecodedParts(buf, codecID);
    hide Decoded, WireBlock, WireHead, LayoutForCodec, Entries, AddIOs, RecordOf;
  }

  lemma BlockDecodes(buf: seq<byte>, codecID: byte, r: Result<(map<nat, nat>, nat)>)
    requires |buf| >= 9 && LayoutForCodec(codecID).Ok? && r.Ok? && BlockRead(buf, LayoutForCodec(codecID).value, r)
    ensures var (ios, end) := r.value;
            |buf| >= 24 && end <= |buf| && Decoded(buf, codecID) == Ok((RecordWith(WireHead(buf[..24]), ios, buf[..end]), end))
  {
    var b := WireBlock(buf[24..], LayoutForCodec(codecID).value);
    hide WireBlock, WireHead, LayoutForCodec, Entries, AddIOs, Filled, Decoded, RecordOf, RecordWith;
    assert |buf| >= 24;
    FilledEnds(buf, r, b);
    hide BlockRead;
    DecodedWhole(buf, codecID);
    RecordIs(WireHead(buf[..24]), b.value.0, buf[..r.value.1]);
  }

  lemma DecodedWhole(buf: seq<byte>, codecID: byte)
    requires |buf| >= 24 && LayoutForCodec(codecID).Ok? && WireBlock(buf[24..], LayoutForCodec(codecID).value).Ok?
    ensures var (block, t) := WireBlock(buf[24..], LayoutForCodec(codecID).value).value;
            var n := |buf| - |t|;
            n >= 0 && Decoded(buf, codecID) == Ok((RecordOf(Wire(WireHead(buf[..24]), block), buf[..n]), n))
  {
    DecodedParts(buf, codecID);
    hide Decoded, WireBlock, WireHead, LayoutForCodec, RecordOf;
  }

  lemma RecordIs(h: Head, block: Block, raw: seq<byte>)
    ensures RecordOf(Wire(h, block), raw) == RecordWith(h, AddIOs(map[], Entries(block)), raw)
  {
    hide Signed32, Entries, AddIOs;
  }

  lemma FilledEnds(buf: seq<byte>, r: Result<(map<nat, nat>, nat)>, b: Result<(Block, seq<byte>)>)
    requires r.Ok? && Filled(buf, r, map[], if b.Err? then Err(b.error) else Ok((Entries(b.value.0), b.value.1)))
    ensures b.Ok? && r.value.0 == AddIOs(map[], Entries(b.value.0))
    ensures r.value.1 <= |buf| && r.value.1 == |buf| - |b.value.1|
  {
    hide AddIOs, Entries;
    assert |buf[r.value.1..]| == |buf| - r.value.1;
  }

  /** The header slice may hold bytes from behind the buffer; no record is made of them. */
  method DecodeRecord(buf: seq<byte>, behind: seq<byte>, codecID: byte) returns (r: Ending<Result<(Record, nat)>>)
    ensures r == DecodeEnding(buf, |behind|, codecID)
    ensures r.Panicked? <==> |buf| >= 9 && |buf| + |behind| < 24
  {
    hide Decoded, WireBlock, WireRecord, WireHead, Signed32, FromBigEndian, Entries, Slice, Filled;
    if |buf| < 9 {
      ShortRecord(buf, codecID);
      return Returned(Err(RecordTooShort));
    }
    HeaderSlice(buf, behind);
    var gps := Slice(buf, behind, 9, 24);
    if gps.Panicked? { return Panicked; }
    var h := WireHead(buf[..9] + gps.value);
    var cfg := LayoutForCodec(codecID);
    if cfg.Err? {
      NoLayout(buf, codecID);
      return Returned(Err(cfg.error));
    }
    var b := ParseIOBlock(buf, 24, cfg.value);
    assert BlockRead(buf, cfg.value, b);
    if b.Err? {
      BlockFails(buf, codecID, b);
      return Returned(Err(b.error));
    }
    BlockDecodes(buf, codecID, b);
    return Returned(Ok((Record(h.timestampMs, h.priority, Signed32(h.lat), Signed32(h.lon), h.altitude, h.angle,
                               h.satellites, h.speed, b.value.0, buf[..b.value.1]), b.value.1)));
  }
}
