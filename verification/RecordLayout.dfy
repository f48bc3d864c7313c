/**
 Where the parts of a record stand, byte by byte: the fixed header, and the IO block of each codec.

 The grammar and the encoders are written over one layout table and one list of fields.  Here the same is
 said of the bytes themselves, so that neither the table nor the order of the fields can be taken for another.
 */
module RecordLayout {
  import opened Words
  import opened Bytes
  import opened Codec
  import opened WireFormat

  // ---------- numbers ----------

  /** The first byte of a number weighs most. */
  lemma {:induction false} FirstByteWeighsMost(x: byte, s: seq<byte>)
    ensures FromBigEndian([x] + s) == x * Pow256(|s|) + FromBigEndian(s)
  {
    var all := [x] + s;
    if s == [] {
      assert all[..|all| - 1] == [];
      assert FromBigEndian([]) == 0 && Pow256(0) == 1;
    } else {
      var front, last := s[..|s| - 1], s[|s| - 1];
      FirstByteWeighsMost(x, front);
      assert all[..|all| - 1] == [x] + front && all[|all| - 1] == last;
      assert Pow256(|s|) == 256 * Pow256(|front|);
      Scaled(x, Pow256(|front|));
    }
  }

  lemma Scaled(x: nat, p: nat)
    ensures 256 * (x * p) == x * (256 * p)
  {
  }

  /** n is v read as a signed number of 32 bits. */
  predicate SignedReading(n: int, v: nat) {
    -0x8000_0000 <= n < 0x8000_0000 && (n == v || n == v - 0x1_0000_0000)
  }

  // ---------- the fixed header ----------

  lemma HeaderIs(s: seq<byte>, h: Head)
    requires |s| >= 24 && h == WireHead(s[..24])
    ensures h.timestampMs == FromBigEndian(s[0..8]) && h.priority == s[8]
    ensures h.lon == FromBigEndian(s[9..13]) && h.lat == FromBigEndian(s[13..17])
    ensures h.altitude == FromBigEndian(s[17..19]) && h.angle == FromBigEndian(s[19..21])
    ensures h.satellites == s[21] && h.speed == FromBigEndian(s[22..24])
  {
    hide FromBigEndian;
    var f := s[..24];
    assert f[0..8] == s[0..8] && f[9..13] == s[9..13] && f[13..17] == s[13..17];
    assert f[17..19] == s[17..19] && f[19..21] == s[19..21] && f[22..24] == s[22..24];
  }

  lemma HeaderOfDecoded(s: seq<byte>, codecID: byte)
    requires Decoded(s, codecID).Ok?
    ensures |s| >= 24
    ensures exists block, raw :: Decoded(s, codecID).value.0 == RecordOf(Wire(WireHead(s[..24]), block), raw)
  {
    hide WireBlock, WireHead, RecordOf;
  }

  lemma CoordinatesAreSigned(v: nat)
    requires v < 0x1_0000_0000
    ensures SignedReading(Signed32(v), v)
  {
  }

  /** Each field of a decoded record is the number at its place in the buffer, and the coordinates are signed. */
  lemma {:induction false} FieldsAreInPlace(s: seq<byte>, codecID: byte)
    requires Decoded(s, codecID).Ok?
    ensures |s| >= 24
    ensures var rec := Decoded(s, codecID).value.0;
            && rec.timestampMs == FromBigEndian(s[0..8]) && rec.priority == s[8]
            && SignedReading(rec.lon, FromBigEndian(s[9..13])) && SignedReading(rec.lat, FromBigEndian(s[13..17]))
            && rec.altitude == FromBigEndian(s[17..19]) && rec.angle == FromBigEndian(s[19..21])
            && rec.satellites == s[21] && rec.speed == FromBigEndian(s[22..24])
  {
    HeaderOfDecoded(s, codecID);
    hide Decoded, FromBigEndian, WireHead, Entries, AddIOs, Signed32, SignedReading, Pow256;
    var h := WireHead(s[..24]);
    HeaderIs(s, h);
    Widths();
    CoordinatesAreSigned(h.lon);
    CoordinatesAreSigned(h.lat);
  }

  /** And each field that is encoded is put at its place. */
  lemma {:induction false} EncodedFieldsAreInPlace(raw: seq<byte>, w: Wire, codecID: byte)
    requires Encodes(raw, w, codecID)
    ensures |raw| >= 24
    ensures var h := w.head;
            && h.timestampMs == FromBigEndian(raw[0..8]) && h.priority == raw[8]
            && h.lon == FromBigEndian(raw[9..13]) && h.lat == FromBigEndian(raw[13..17])
            && h.altitude == FromBigEndian(raw[17..19]) && h.angle == FromBigEndian(raw[19..21])
            && h.satellites == raw[21] && h.speed == FromBigEndian(raw[22..24])
  {
    HeadComplete(w.head);
    hide EncodeHead, HeadFits, BlockFits, EncodeBlock, WireHead, LayoutForCodec;
    assert raw[..24] == EncodeHead(w.head);
    HeaderIs(raw, w.head);
  }

  /** What is refused before the IO block is read. */
  lemma HeadersAreChecked(s: seq<byte>, codecID: byte)
    ensures |s| < 9 ==> Decoded(s, codecID) == Err(RecordTooShort)
    ensures |s| >= 9 && codecID != 0x08 && codecID != 0x8E && codecID != 0x10 ==> Decoded(s, codecID) == Err(UnsupportedCodec)
    ensures 9 <= |s| < 24 && (codecID == 0x08 || codecID == 0x8E || codecID == 0x10) ==>
              Decoded(s, codecID) == Err(MissingEventID)
  {
    hide WireBlock;
  }

  // ---------- the parts of an IO block ----------

  lemma Front(a: seq<byte>, t: seq<byte>, short: Error)
    ensures Take(a + t, |a|, short) == Ok((FromBigEndian(a), t))
    ensures TakeBytes(a + t, |a|, short) == Ok((a, t))
  {
    SplitAt(a + t, a, t);
  }

  /** An entry is its id and then its value. */
  lemma EntryThenRest(id: seq<byte>, v: seq<byte>, t: seq<byte>, n: nat)
    requires n > 0
    ensures WireGroup(id + (v + t), |id|, |v|, n) ==
              Prepend([Entry(id, v)], WireGroup(t, |id|, |v|, n - 1))
  {
    GroupUnfolds(id + (v + t), |id|, |v|, n);
    hide *;
    Front(id, v + t, EndOfIOID);
    Front(v, t, EndOfIOValue);
  }

  lemma OneEntry(id: seq<byte>, v: seq<byte>, t: seq<byte>)
    ensures WireGroup(id + (v + t), |id|, |v|, 1) == Ok(([Entry(id, v)], t))
  {
    NoMoreEntries(t, |id|, |v|);
    EntryThenRest(id, v, t, 1);
    hide WireGroup, Entry;
    PrependOnto(Entry(id, v), [], t);
    assert [Entry(id, v)] + [] == [Entry(id, v)];
  }

  lemma TwoEntries(id: seq<byte>, v: seq<byte>, id': seq<byte>, v': seq<byte>, t: seq<byte>)
    requires |id'| == |id| && |v'| == |v|
    ensures WireGroup(id + (v + (id' + (v' + t))), |id|, |v|, 2) == Ok(([Entry(id, v), Entry(id', v')], t))
  {
    hide WireGroup, Entry;
    EntryThenRest(id, v, id' + (v' + t), 2);
    OneEntry(id', v', t);
    PrependOnto(Entry(id, v), [Entry(id', v')], t);
    assert [Entry(id, v)] + [Entry(id', v')] == [Entry(id, v), Entry(id', v')];
  }

  lemma NoMoreEntries(t: seq<byte>, idWidth: nat, size: nat)
    ensures WireGroup(t, idWidth, size, 0) == Ok(([], t))
  {
  }

  /** A group stands behind its count. */
  lemma CountedGroup(cfg: Layout, count: seq<byte>, s: seq<byte>, t: seq<byte>, es: seq<IO>, size: nat, sizes: seq<nat>)
    requires |count| == cfg.countWidth && WireGroup(s, cfg.idWidth, size, FromBigEndian(count)) == Ok((es, t))
    ensures WireGroups(count + s, cfg, [size] + sizes) == Prepend([es], WireGroups(t, cfg, sizes))
  {
    var all := [size] + sizes;
    GroupsUnfold(count + s, cfg, all);
    assert all[0] == size && all[1..] == sizes;
    hide *;
    Front(count, s, EndOfIOBlock);
  }

  function Entry(id: seq<byte>, v: seq<byte>): IO { IO(FromBigEndian(id), FromBigEndian(v)) }

  lemma PrependOnto<T>(x: T, xs: seq<T>, t: seq<byte>)
    ensures Prepend([x], Ok((xs, t))) == Ok(([x] + xs, t))
  {
  }

  /** The byte strings of a block with two entries of one byte and one entry of each other size. */
  datatype Parts = Parts(
    event: seq<byte>, generation: seq<byte>, total: seq<byte>, one: seq<byte>, two: seq<byte>,
    idA: seq<byte>, a: seq<byte>, idB: seq<byte>, b: seq<byte>, id2: seq<byte>, v2: seq<byte>,
    id4: seq<byte>, v4: seq<byte>, id8: seq<byte>, v8: seq<byte>)

  predicate PartsFit(p: Parts, cfg: Layout) {
    && |p.event| == cfg.eventIDWidth && |p.generation| == (if cfg.hasGeneration then 1 else 0)
    && |p.total| == |p.one| == |p.two| == cfg.countWidth && FromBigEndian(p.one) == 1 && FromBigEndian(p.two) == 2
    && |p.idA| == |p.idB| == |p.id2| == |p.id4| == |p.id8| == cfg.idWidth
    && |p.a| == |p.b| == 1 && |p.v2| == 2 && |p.v4| == 4 && |p.v8| == 8
  }

  function GroupBytes(p: Parts, t: seq<byte>): seq<byte> {
    p.two + (p.idA + (p.a + (p.idB + (p.b + (p.one + (p.id2 + (p.v2 + (p.one + (p.id4 + (p.v4 + (p.one + (p.id8 + (p.v8 + t)))))))))))))
  }

  function GroupsOf(p: Parts): seq<seq<IO>> {
    [[Entry(p.idA, p.a), Entry(p.idB, p.b)], [Entry(p.id2, p.v2)], [Entry(p.id4, p.v4)], [Entry(p.id8, p.v8)]]
  }

  lemma GroupsAreRead(cfg: Layout, p: Parts, t: seq<byte>)
    requires PartsFit(p, cfg)
    ensures WireGroups(GroupBytes(p, t), cfg, [1, 2, 4, 8]) == Ok((GroupsOf(p), t))
  {
    var s8 := p.one + (p.id8 + (p.v8 + t));
    var s4 := p.one + (p.id4 + (p.v4 + s8));
    var s2 := p.one + (p.id2 + (p.v2 + s4));
    var g1, g2, g4, g8 := [Entry(p.idA, p.a), Entry(p.idB, p.b)], [Entry(p.id2, p.v2)], [Entry(p.id4, p.v4)], [Entry(p.id8, p.v8)];
    GroupsUnfold(t, cfg, []);
    hide WireGroups, Prepend, FromBigEndian, Entry;
    OneEntry(p.id8, p.v8, t);
    OneEntry(p.id4, p.v4, s8);
    OneEntry(p.id2, p.v2, s4);
    TwoEntries(p.idA, p.a, p.idB, p.b, s2);
    CountedGroup(cfg, p.one, p.id8 + (p.v8 + t), t, g8, 8, []);
    CountedGroup(cfg, p.one, p.id4 + (p.v4 + s8), s8, g4, 4, [8]);
    CountedGroup(cfg, p.one, p.id2 + (p.v2 + s4), s4, g2, 2, [4, 8]);
    CountedGroup(cfg, p.two, p.idA + (p.a + (p.idB + (p.b + s2))), s2, g1, 1, [2, 4, 8]);
    assert [8] + [] == [8] && [4] + [8] == [4, 8] && [2] + [4, 8] == [2, 4, 8] && [1] + [2, 4, 8] == [1, 2, 4, 8];
    PrependOnto(g8, [], t);
    PrependOnto(g4, [g8], t);
    PrependOnto(g2, [g4, g8], t);
    PrependOnto(g1, [g2, g4, g8], t);
    assert [g8] + [] == [g8] && [g4] + [g8] == [g4, g8] && [g2] + [g4, g8] == [g2, g4, g8];
    assert [g1] + [g2, g4, g8] == [g1, g2, g4, g8];
  }

  lemma BlockIsRead(cfg: Layout, p: Parts, t: seq<byte>)
    requires PartsFit(p, cfg)
    ensures var b := WireBlock(p.event + (p.generation + (p.total + GroupBytes(p, t))), cfg);
            var v := WireCountedVariable(t, cfg);
            if v.Err? then b == Err(v.error)
            else && b.Ok? && b.value.0.groups == GroupsOf(p) && b.value.0.variable == v.value.0 && b.value.1 == v.value.1
  {
    hide Take, WireGroups, WireCountedVariable, FromBigEndian, GroupBytes, GroupsOf;
    var s3 := GroupBytes(p, t);
    Front(p.event, p.generation + (p.total + s3), MissingEventID);
    Front(p.generation, p.total + s3, MissingGeneration);
    Front(p.total, s3, EndOfIOBlock);
    GroupsAreRead(cfg, p, t);
  }

  /** A variable entry is its id, the two bytes of its length, and its data. */
  lemma VariableIsRead(id: seq<byte>, length: seq<byte>, data: seq<byte>, t: seq<byte>)
    requires |length| == 2 && FromBigEndian(length) == |data|
    ensures WireVariable(id + (length + (data + t)), |id|, 1) == Ok(([VariableIO(FromBigEndian(id), data)], t))
  {
    VariableUnfolds(id + (length + (data + t)), |id|, 1);
    NoMoreVariable(t, |id|);
    hide *;
    Front(id, length + (data + t), EndOfIOID);
    Front(length, data + t, MissingVariableLength);
    Front(data, t, EndOfVariableValue);
    var e := VariableIO(FromBigEndian(id), data);
    PrependOnto(e, [], t);
    assert [e] + [] == [e];
  }

  lemma NoMoreVariable(t: seq<byte>, idWidth: nat)
    ensures WireVariable(t, idWidth, 0) == Ok(([], t))
  {
  }

  lemma CountedVariable(cfg: Layout, count: seq<byte>, s: seq<byte>)
    requires cfg.hasVariableIO && |count| == cfg.countWidth
    ensures WireCountedVariable(count + s, cfg) == WireVariable(s, cfg.idWidth, FromBigEndian(count))
  {
    hide WireVariable, FromBigEndian, Take;
    Front(count, s, EndOfIOBlock);
  }

  // ---------- what the entries mean ----------

  function MapOf(p: Parts): map<nat, nat> {
    map[][FromBigEndian(p.idA) := FromBigEndian(p.a)][FromBigEndian(p.idB) := FromBigEndian(p.b)]
         [FromBigEndian(p.id2) := FromBigEndian(p.v2)][FromBigEndian(p.id4) := FromBigEndian(p.v4)]
         [FromBigEndian(p.id8) := FromBigEndian(p.v8)]
  }

  lemma FlattenFirst<T>(g: seq<T>, groups: seq<seq<T>>)
    ensures Flatten([g] + groups) == g + Flatten(groups) && Flatten<T>([]) == []
  {
    assert ([g] + groups)[1..] == groups;
  }

  lemma FlattenFour<T>(a: seq<T>, b: seq<T>, c: seq<T>, d: seq<T>)
    ensures Flatten([a, b, c, d]) == a + (b + (c + d))
  {
    FlattenFirst(d, []);
    FlattenFirst(c, [d]);
    FlattenFirst(b, [c, d]);
    FlattenFirst(a, [b, c, d]);
    hide Flatten;
    assert [d] + [] == [d] && [c] + [d] == [c, d] && [b] + [c, d] == [b, c, d] && [a] + [b, c, d] == [a, b, c, d];
    assert d + [] == d;
  }

  lemma FiveAdded(e1: IO, e2: IO, e3: IO, e4: IO, e5: IO)
    ensures AddIOs(map[], [e1, e2] + ([e3] + ([e4] + [e5]))) ==
              map[][e1.id := e1.value][e2.id := e2.value][e3.id := e3.value][e4.id := e4.value][e5.id := e5.value]
  {
    NothingToAdd(map[]);
    AddIOsSnoc(map[], [], e1);
    AddIOsSnoc(map[], [e1], e2);
    AddIOsSnoc(map[], [e1, e2], e3);
    AddIOsSnoc(map[], [e1, e2, e3], e4);
    AddIOsSnoc(map[], [e1, e2, e3, e4], e5);
    hide AddIOs;
    assert [] + [e1] == [e1] && [e1] + [e2] == [e1, e2] && [e1, e2] + [e3] == [e1, e2, e3];
    assert [e1, e2, e3] + [e4] == [e1, e2, e3, e4];
    assert [e1, e2, e3, e4] + [e5] == [e1, e2] + ([e3] + ([e4] + [e5]));
  }

  /** The IO map of a block's groups, with the variable entry on top when there is one. */
  lemma GroupEntriesAre(p: Parts, b: Block)
    requires b.groups == GroupsOf(p)
    ensures AddIOs(map[], Flatten(b.groups)) == MapOf(p)
  {
    hide Flatten, AddIOs, FromBigEndian;
    var a, b', e2, e4, e8 := Entry(p.idA, p.a), Entry(p.idB, p.b), Entry(p.id2, p.v2), Entry(p.id4, p.v4), Entry(p.id8, p.v8);
    FlattenFour([a, b'], [e2], [e4], [e8]);
    FiveAdded(a, b', e2, e4, e8);
  }

  lemma OneVariableEntry(v: VariableIO)
    ensures VariableEntries([v]) == [IO(v.id, VariableValue(v.data))]
  {
    assert [v][1..] == [];
  }

  lemma VariableEntryOnTop(b: Block)
    ensures b.variable == [] ==> Entries(b) == Flatten(b.groups)
    ensures forall v | b.variable == [v] ::
              AddIOs(map[], Entries(b)) ==
                AddIOs(map[], Flatten(b.groups))[v.id := FromBigEndian(if |v.data| <= 8 then v.data else v.data[..8])]
  {
    var es := Flatten(b.groups);
    hide Flatten, AddIOs, FromBigEndian;
    assert es + [] == es;
    forall v | b.variable == [v]
      ensures AddIOs(map[], Entries(b)) ==
                AddIOs(map[], es)[v.id := FromBigEndian(if |v.data| <= 8 then v.data else v.data[..8])]
    {
      OneVariableEntry(v);
      AddIOsSnoc(map[], es, IO(v.id, VariableValue(v.data)));
    }
  }

  // ---------- whole records ----------

  /** How wide the parts are, by codec. */
  predicate WidthsOf(p: Parts, codecID: byte) {
    && |p.event| == (if codecID == 0x08 then 1 else 2)
    && |p.generation| == (if codecID == 0x10 then 1 else 0)
    && |p.total| == |p.one| == |p.two| == (if codecID == 0x8E then 2 else 1)
    && |p.idA| == |p.idB| == |p.id2| == |p.id4| == |p.id8| == (if codecID == 0x08 then 1 else 2)
    && FromBigEndian(p.one) == 1 && FromBigEndian(p.two) == 2
    && |p.a| == |p.b| == 1 && |p.v2| == 2 && |p.v4| == 4 && |p.v8| == 8
  }

  /** The bytes of a record up to its variable entries. */
  function RecordBytes(head: seq<byte>, p: Parts, t: seq<byte>): seq<byte> {
    head + (p.event + (p.generation + (p.total + GroupBytes(p, t))))
  }

  lemma PartsByCodec(p: Parts, codecID: byte)
    requires codecID in {0x08, 0x8E, 0x10} && WidthsOf(p, codecID)
    ensures LayoutForCodec(codecID).Ok? && PartsFit(p, LayoutForCodec(codecID).value)
    ensures LayoutForCodec(codecID).value.hasVariableIO <==> codecID == 0x8E
  {
    hide FromBigEndian;
  }

  lemma BlockMakesRecord(head: seq<byte>, s: seq<byte>, codecID: byte)
    requires |head| == 24 && LayoutForCodec(codecID).Ok? && WireBlock(s, LayoutForCodec(codecID).value).Ok?
    ensures var (block, t) := WireBlock(s, LayoutForCodec(codecID).value).value;
            var d := Decoded(head + s, codecID);
            d.Ok? && d.value.1 == 24 + |s| - |t| && d.value.0.ios == AddIOs(map[], Entries(block))
  {
    SplitAt(head + s, head, s);
    DecodedWhole(head + s, codecID);
    hide Decoded, WireBlock, WireHead, LayoutForCodec, Entries, AddIOs;
  }

  /** Codec 8 and codec 16: the ids and values stand where the parts say, and nothing is read behind them. */
  lemma {:induction false} PlainRecordsAreLaidOut(codecID: byte, head: seq<byte>, p: Parts, t: seq<byte>)
    requires codecID in {0x08, 0x10} && |head| == 24 && WidthsOf(p, codecID)
    ensures var s := RecordBytes(head, p, t);
            Decoded(s, codecID).Ok? && Decoded(s, codecID).value.1 == |s| - |t| && Decoded(s, codecID).value.0.ios == MapOf(p)
  {
    PartsByCodec(p, codecID);
    hide *;
    var cfg := LayoutForCodec(codecID).value;
    NoVariablePart(cfg, t);
    BlockIsRead(cfg, p, t);
    var s := p.event + (p.generation + (p.total + GroupBytes(p, t)));
    BlockMakesRecord(head, s, codecID);
    RecordBytesAre(head, p, t);
    var b := WireBlock(s, cfg).value.0;
    VariableEntryOnTop(b);
    GroupEntriesAre(p, b);
  }

  lemma NoVariablePart(cfg: Layout, t: seq<byte>)
    requires !cfg.hasVariableIO
    ensures WireCountedVariable(t, cfg) == Ok(([], t))
  {
  }

  lemma RecordBytesAre(head: seq<byte>, p: Parts, t: seq<byte>)
    requires |head| == 24
    ensures RecordBytes(head, p, t) == head + (p.event + (p.generation + (p.total + GroupBytes(p, t))))
    ensures |RecordBytes(head, p, t)| == 24 + |p.event + (p.generation + (p.total + GroupBytes(p, t)))|
  {
    hide GroupBytes;
  }

  /** Codec 8 Extended: behind the groups come the variable entries, each with its id, its length and its data, of
      which the first eight bytes count. */
  lemma {:induction false} ExtendedRecordsAreLaidOut(codecID: byte, head: seq<byte>, p: Parts, id: seq<byte>, length: seq<byte>, data: seq<byte>, t: seq<byte>)
    requires codecID == 0x8E && |head| == 24 && WidthsOf(p, codecID) && |id| == |length| == 2 && FromBigEndian(length) == |data|
    ensures var s := RecordBytes(head, p, p.one + (id + (length + (data + t))));
            && Decoded(s, codecID).Ok? && Decoded(s, codecID).value.1 == |s| - |t|
            && Decoded(s, codecID).value.0.ios ==
                 MapOf(p)[FromBigEndian(id) := FromBigEndian(if |data| <= 8 then data else data[..8])]
  {
    PartsByCodec(p, codecID);
    var cfg := LayoutForCodec(codecID).value;
    assert |p.one| == cfg.countWidth && |id| == cfg.idWidth && FromBigEndian(p.one) == 1;
    hide *;
    var rest := p.one + (id + (length + (data + t)));
    VariableIsRead(id, length, data, t);
    CountedVariable(cfg, p.one, id + (length + (data + t)));
    BlockIsRead(cfg, p, rest);
    var s := p.event + (p.generation + (p.total + GroupBytes(p, rest)));
    BlockMakesRecord(head, s, codecID);
    RecordBytesAre(head, p, rest);
    var b := WireBlock(s, cfg).value.0;
    VariableEntryOnTop(b);
    GroupEntriesAre(p, b);
  }
}
