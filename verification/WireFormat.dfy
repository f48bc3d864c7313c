/**
 What a record looks like on the wire.

 The encoders are written from the layout table alone.  RecordsAreExactlyEncodings shows that the
 decoder accepts precisely their output: a buffer decodes to a record if and only if it starts with
 the encoding of that record.
 */
module WireFormat {
  import opened Words
  import opened Bytes
  import opened Codec

  // ---------- what can be encoded ----------

  predicate EntryFits(e: IO, idWidth: nat, size: nat) {
    e.id < Pow256(idWidth) && e.value < Pow256(size)
  }

  predicate EntriesFit(es: seq<IO>, idWidth: nat, size: nat) {
    es != [] ==> EntryFits(es[0], idWidth, size) && EntriesFit(es[1..], idWidth, size)
  }

  predicate GroupsFit(groups: seq<seq<IO>>, cfg: Layout, sizes: seq<nat>) {
    && |groups| == |sizes|
    && (groups != [] ==>
          && |groups[0]| < Pow256(cfg.countWidth) && EntriesFit(groups[0], cfg.idWidth, sizes[0])
          && GroupsFit(groups[1..], cfg, sizes[1..]))
  }

  predicate VariableFit(vs: seq<VariableIO>, idWidth: nat) {
    vs != [] ==> vs[0].id < Pow256(idWidth) && |vs[0].data| < Pow256(2) && VariableFit(vs[1..], idWidth)
  }

  predicate CountedFits(vs: seq<VariableIO>, cfg: Layout) {
    if cfg.hasVariableIO then |vs| < Pow256(cfg.countWidth) && VariableFit(vs, cfg.idWidth) else vs == []
  }

  function GenerationWidth(cfg: Layout): nat { if cfg.hasGeneration then 1 else 0 }

  predicate BlockFits(b: Block, cfg: Layout) {
    && b.eventID < Pow256(cfg.eventIDWidth) && b.generation < Pow256(GenerationWidth(cfg))
    && b.total < Pow256(cfg.countWidth) && GroupsFit(b.groups, cfg, SIZES) && CountedFits(b.variable, cfg)
  }

  predicate HeadFits(h: Head) {
    && h.timestampMs < Pow256(8) && h.priority < Pow256(1) && h.lon < Pow256(4) && h.lat < Pow256(4)
    && h.altitude < Pow256(2) && h.angle < Pow256(2) && h.satellites < Pow256(1) && h.speed < Pow256(2)
  }

  predicate WireFits(w: Wire, cfg: Layout) { HeadFits(w.head) && BlockFits(w.block, cfg) }

  // ---------- encoding ----------

  function EncodeEntries(es: seq<IO>, idWidth: nat, size: nat): (s: seq<byte>)
    requires EntriesFit(es, idWidth, size)
  {
    if es == [] then [] else
      ToBigEndian(es[0].id, idWidth) + (ToBigEndian(es[0].value, size) + EncodeEntries(es[1..], idWidth, size))
  }

  function EncodeGroups(groups: seq<seq<IO>>, cfg: Layout, sizes: seq<nat>): seq<byte>
    requires GroupsFit(groups, cfg, sizes)
  {
    if groups == [] then [] else
      ToBigEndian(|groups[0]|, cfg.countWidth)
      + (EncodeEntries(groups[0], cfg.idWidth, sizes[0]) + EncodeGroups(groups[1..], cfg, sizes[1..]))
  }

  function EncodeVariable(vs: seq<VariableIO>, idWidth: nat): seq<byte>
    requires VariableFit(vs, idWidth)
  {
    if vs == [] then [] else
      ToBigEndian(vs[0].id, idWidth)
      + (ToBigEndian(|vs[0].data|, 2) + (vs[0].data + EncodeVariable(vs[1..], idWidth)))
  }

  function EncodeCounted(vs: seq<VariableIO>, cfg: Layout): seq<byte>
    requires CountedFits(vs, cfg)
  {
    if cfg.hasVariableIO then ToBigEndian(|vs|, cfg.countWidth) + EncodeVariable(vs, cfg.idWidth) else []
  }

  function EncodeBlock(b: Block, cfg: Layout): seq<byte>
    requires BlockFits(b, cfg)
  {
    ToBigEndian(b.eventID, cfg.eventIDWidth)
    + (ToBigEndian(b.generation, GenerationWidth(cfg))
    + (ToBigEndian(b.total, cfg.countWidth)
    + (EncodeGroups(b.groups, cfg, SIZES) + EncodeCounted(b.variable, cfg))))
  }

  function EncodeHead(h: Head): (s: seq<byte>)
    requires HeadFits(h)
    ensures |s| == 24
  {
    ToBigEndian(h.timestampMs, 8) + (ToBigEndian(h.priority, 1) + (ToBigEndian(h.lon, 4) + (ToBigEndian(h.lat, 4)
    + (ToBigEndian(h.altitude, 2) + (ToBigEndian(h.angle, 2) + (ToBigEndian(h.satellites, 1) + ToBigEndian(h.speed, 2)))))))
  }

  function EncodeRecord(w: Wire, cfg: Layout): seq<byte>
    requires WireFits(w, cfg)
  {
    EncodeHead(w.head) + EncodeBlock(w.block, cfg)
  }

  // ---------- numbers and byte strings ----------

  lemma {:induction false} TakeIff(s: seq<byte>, width: nat, short: Error, v: nat, t: seq<byte>)
    ensures Take(s, width, short) == Ok((v, t)) <==> v < Pow256(width) && s == ToBigEndian(v, width) + t
  {
    hide FromBigEndian, ToBigEndian, Pow256;
    if |s| >= width {
      RewriteBigEndian(s[..width]);
    }
    if v < Pow256(width) { SplitAt(s, ToBigEndian(v, width), t); }
  }

  lemma TakeBytesIff(s: seq<byte>, n: nat, short: Error, a: seq<byte>, t: seq<byte>)
    ensures TakeBytes(s, n, short) == Ok((a, t)) <==> |a| == n && s == a + t
  {
    SplitAt(s, a, t);
  }

  // ---------- groups ----------

  lemma {:induction false} GroupSound(s: seq<byte>, idWidth: nat, size: nat, n: nat)
    requires WireGroup(s, idWidth, size, n).Ok?
    ensures var (es, t) := WireGroup(s, idWidth, size, n).value;
            EntriesFit(es, idWidth, size) && s == EncodeEntries(es, idWidth, size) + t
    decreases n
  {
    GroupUnfolds(s, idWidth, size, n);
    if n == 0 {
      assert [] + s == s;
    } else {
      hide *;
      var (id, s1) := Take(s, idWidth, EndOfIOID).value;
      var (v, s2) := Take(s1, size, EndOfIOValue).value;
      TakeIff(s, idWidth, EndOfIOID, id, s1);
      TakeIff(s1, size, EndOfIOValue, v, s2);
      GroupSound(s2, idWidth, size, n - 1);
      var (rest, t) := WireGroup(s2, idWidth, size, n - 1).value;
      PrependOne(IO(id, v), rest, t);
      EntriesUnfold(idWidth, size, IO(id, v), rest);
      AssocThree(ToBigEndian(id, idWidth), ToBigEndian(v, size), EncodeEntries(rest, idWidth, size), t);
    }
  }

  lemma {:induction false} GroupComplete(es: seq<IO>, idWidth: nat, size: nat, t: seq<byte>)
    requires EntriesFit(es, idWidth, size)
    ensures WireGroup(EncodeEntries(es, idWidth, size) + t, idWidth, size, |es|) == Ok((es, t))
    decreases |es|
  {
    var s := EncodeEntries(es, idWidth, size) + t;
    GroupUnfolds(s, idWidth, size, |es|);
    if es == [] {
      assert s == t;
    } else {
      var e, rest := es[0], es[1..];
      assert es == [e] + rest;
      hide *;
      EntriesUnfold(idWidth, size, e, rest);
      var s2 := EncodeEntries(rest, idWidth, size) + t;
      var s1 := ToBigEndian(e.value, size) + s2;
      AssocThree(ToBigEndian(e.id, idWidth), ToBigEndian(e.value, size), EncodeEntries(rest, idWidth, size), t);
      TakeIff(s, idWidth, EndOfIOID, e.id, s1);
      TakeIff(s1, size, EndOfIOValue, e.value, s2);
      GroupComplete(rest, idWidth, size, t);
      PrependOne(e, rest, t);
    }
  }

  lemma EntriesUnfold(idWidth: nat, size: nat, e: IO, rest: seq<IO>)
    ensures EntriesFit([e] + rest, idWidth, size) <==>
              e.id < Pow256(idWidth) && e.value < Pow256(size) && EntriesFit(rest, idWidth, size)
    ensures EntriesFit([e] + rest, idWidth, size) ==>
              EncodeEntries([e] + rest, idWidth, size) ==
                ToBigEndian(e.id, idWidth) + (ToBigEndian(e.value, size) + EncodeEntries(rest, idWidth, size))
  {
    hide ToBigEndian, Pow256;
    var es := [e] + rest;
    assert es[0] == e && es[1..] == rest;
  }

  lemma PrependOne<T>(x: T, xs: seq<T>, t: seq<byte>)
    ensures Prepend([x], Ok((xs, t))) == Ok(([x] + xs, t))
  {
  }

  lemma AssocThree(a: seq<byte>, b: seq<byte>, c: seq<byte>, t: seq<byte>)
    ensures (a + (b + c)) + t == a + (b + (c + t))
  {
    Assoc(a, b + c, t);
    Assoc(b, c, t);
  }

  lemma {:induction false} GroupsSound(s: seq<byte>, cfg: Layout, sizes: seq<nat>)
    requires WireGroups(s, cfg, sizes).Ok?
    ensures var (gs, t) := WireGroups(s, cfg, sizes).value;
            GroupsFit(gs, cfg, sizes) && s == EncodeGroups(gs, cfg, sizes) + t
    decreases |sizes|
  {
    GroupsUnfold(s, cfg, sizes);
    if sizes == [] {
      assert [] + s == s;
    } else {
      hide *;
      var (n, s1) := Take(s, cfg.countWidth, EndOfIOBlock).value;
      TakeIff(s, cfg.countWidth, EndOfIOBlock, n, s1);
      GroupSound(s1, cfg.idWidth, sizes[0], n);
      var (g, s2) := WireGroup(s1, cfg.idWidth, sizes[0], n).value;
      GroupsSound(s2, cfg, sizes[1..]);
      var (rest, t) := WireGroups(s2, cfg, sizes[1..]).value;
      PrependOne(g, rest, t);
      EncodedGroupsUnfold(cfg, sizes, g, rest);
      AssocThree(ToBigEndian(n, cfg.countWidth), EncodeEntries(g, cfg.idWidth, sizes[0]),
                 EncodeGroups(rest, cfg, sizes[1..]), t);
    }
  }

  lemma {:induction false} GroupsComplete(gs: seq<seq<IO>>, cfg: Layout, sizes: seq<nat>, t: seq<byte>)
    requires GroupsFit(gs, cfg, sizes)
    ensures WireGroups(EncodeGroups(gs, cfg, sizes) + t, cfg, sizes) == Ok((gs, t))
    decreases |gs|
  {
    var s := EncodeGroups(gs, cfg, sizes) + t;
    GroupsUnfold(s, cfg, sizes);
    if gs == [] {
      assert s == t;
    } else {
      var g, rest := gs[0], gs[1..];
      assert gs == [g] + rest;
      hide *;
      EncodedGroupsUnfold(cfg, sizes, g, rest);
      var s2 := EncodeGroups(rest, cfg, sizes[1..]) + t;
      var s1 := EncodeEntries(g, cfg.idWidth, sizes[0]) + s2;
      AssocThree(ToBigEndian(|g|, cfg.countWidth), EncodeEntries(g, cfg.idWidth, sizes[0]),
                 EncodeGroups(rest, cfg, sizes[1..]), t);
      TakeIff(s, cfg.countWidth, EndOfIOBlock, |g|, s1);
      GroupComplete(g, cfg.idWidth, sizes[0], s2);
      GroupsComplete(rest, cfg, sizes[1..], t);
      PrependOne(g, rest, t);
    }
  }

  lemma EncodedGroupsUnfold(cfg: Layout, sizes: seq<nat>, g: seq<IO>, rest: seq<seq<IO>>)
    requires sizes != []
    ensures GroupsFit([g] + rest, cfg, sizes) <==>
              |g| < Pow256(cfg.countWidth) && EntriesFit(g, cfg.idWidth, sizes[0]) && GroupsFit(rest, cfg, sizes[1..])
    ensures GroupsFit([g] + rest, cfg, sizes) ==>
              EncodeGroups([g] + rest, cfg, sizes) ==
                ToBigEndian(|g|, cfg.countWidth)
                + (EncodeEntries(g, cfg.idWidth, sizes[0]) + EncodeGroups(rest, cfg, sizes[1..]))
  {
    hide ToBigEndian, Pow256, EncodeEntries, EntriesFit;
    var gs := [g] + rest;
    assert gs[0] == g && gs[1..] == rest;
  }

  // ---------- variable entries ----------

  lemma {:induction false} VariableSound(s: seq<byte>, idWidth: nat, n: nat)
    requires WireVariable(s, idWidth, n).Ok?
    ensures var (vs, t) := WireVariable(s, idWidth, n).value;
            VariableFit(vs, idWidth) && s == EncodeVariable(vs, idWidth) + t
    decreases n
  {
    VariableUnfolds(s, idWidth, n);
    if n == 0 {
      assert [] + s == s;
    } else {
      hide *;
      var (id, s1) := Take(s, idWidth, EndOfIOID).value;
      var (length, s2) := Take(s1, 2, MissingVariableLength).value;
      var (data, s3) := TakeBytes(s2, length, EndOfVariableValue).value;
      TakeIff(s, idWidth, EndOfIOID, id, s1);
      TakeIff(s1, 2, MissingVariableLength, length, s2);
      TakeBytesIff(s2, length, EndOfVariableValue, data, s3);
      VariableSound(s3, idWidth, n - 1);
      var (rest, t) := WireVariable(s3, idWidth, n - 1).value;
      PrependOne(VariableIO(id, data), rest, t);
      VariableEncodingUnfold(idWidth, VariableIO(id, data), rest);
      AssocFour(ToBigEndian(id, idWidth), ToBigEndian(length, 2), data, EncodeVariable(rest, idWidth), t);
    }
  }

  lemma {:induction false} VariableComplete(vs: seq<VariableIO>, idWidth: nat, t: seq<byte>)
    requires VariableFit(vs, idWidth)
    ensures WireVariable(EncodeVariable(vs, idWidth) + t, idWidth, |vs|) == Ok((vs, t))
    decreases |vs|
  {
    var s := EncodeVariable(vs, idWidth) + t;
    if vs == [] {
      assert s == t;
    } else {
      var v, rest := vs[0], vs[1..];
      assert vs == [v] + rest;
      hide *;
      VariableEncodingUnfold(idWidth, v, rest);
      var s3 := EncodeVariable(rest, idWidth) + t;
      AssocFour(ToBigEndian(v.id, idWidth), ToBigEndian(|v.data|, 2), v.data, EncodeVariable(rest, idWidth), t);
      VariableStep(s, v, idWidth, |vs|, s3);
      VariableComplete(rest, idWidth, t);
      PrependOne(v, rest, t);
    }
  }

  lemma VariableStep(s: seq<byte>, v: VariableIO, idWidth: nat, n: nat, s3: seq<byte>)
    requires n > 0 && v.id < Pow256(idWidth) && |v.data| < Pow256(2)
    requires s == ToBigEndian(v.id, idWidth) + (ToBigEndian(|v.data|, 2) + (v.data + s3))
    ensures WireVariable(s, idWidth, n) == Prepend([v], WireVariable(s3, idWidth, n - 1))
  {
    VariableUnfolds(s, idWidth, n);
    hide *;
    var s2 := v.data + s3;
    var s1 := ToBigEndian(|v.data|, 2) + s2;
    TakeIff(s, idWidth, EndOfIOID, v.id, s1);
    TakeIff(s1, 2, MissingVariableLength, |v.data|, s2);
    TakeBytesIff(s2, |v.data|, EndOfVariableValue, v.data, s3);
  }

  lemma VariableEncodingUnfold(idWidth: nat, v: VariableIO, rest: seq<VariableIO>)
    ensures VariableFit([v] + rest, idWidth) <==>
              v.id < Pow256(idWidth) && |v.data| < Pow256(2) && VariableFit(rest, idWidth)
    ensures VariableFit([v] + rest, idWidth) ==>
              EncodeVariable([v] + rest, idWidth) ==
                ToBigEndian(v.id, idWidth) + (ToBigEndian(|v.data|, 2) + (v.data + EncodeVariable(rest, idWidth)))
  {
    hide ToBigEndian, Pow256;
    var vs := [v] + rest;
    assert vs[0] == v && vs[1..] == rest;
  }

  lemma AssocFour(a: seq<byte>, b: seq<byte>, c: seq<byte>, d: seq<byte>, t: seq<byte>)
    ensures (a + (b + (c + d))) + t == a + (b + (c + (d + t)))
  {
    Assoc(a, b + (c + d), t);
    AssocThree(b, c, d, t);
  }

  // ---------- blocks ----------

  lemma CountedSound(s: seq<byte>, cfg: Layout)
    requires WireCountedVariable(s, cfg).Ok?
    ensures var (vs, t) := WireCountedVariable(s, cfg).value;
            CountedFits(vs, cfg) && s == EncodeCounted(vs, cfg) + t
  {
    if cfg.hasVariableIO {
      hide Take, WireVariable, ToBigEndian, Pow256, EncodeVariable, VariableFit;
      var (n, s1) := Take(s, cfg.countWidth, EndOfIOBlock).value;
      TakeIff(s, cfg.countWidth, EndOfIOBlock, n, s1);
      VariableSound(s1, cfg.idWidth, n);
      var (vs, t) := WireVariable(s1, cfg.idWidth, n).value;
      Assoc(ToBigEndian(n, cfg.countWidth), EncodeVariable(vs, cfg.idWidth), t);
    } else {
      assert [] + s == s;
    }
  }

  lemma CountedComplete(vs: seq<VariableIO>, cfg: Layout, t: seq<byte>)
    requires CountedFits(vs, cfg)
    ensures WireCountedVariable(EncodeCounted(vs, cfg) + t, cfg) == Ok((vs, t))
  {
    var s := EncodeCounted(vs, cfg) + t;
    if cfg.hasVariableIO {
      hide Take, WireVariable, ToBigEndian, Pow256, EncodeVariable, VariableFit;
      var s1 := EncodeVariable(vs, cfg.idWidth) + t;
      Assoc(ToBigEndian(|vs|, cfg.countWidth), EncodeVariable(vs, cfg.idWidth), t);
      TakeIff(s, cfg.countWidth, EndOfIOBlock, |vs|, s1);
      VariableComplete(vs, cfg.idWidth, t);
    } else {
      assert s == t;
    }
  }

  lemma BlockSound(s: seq<byte>, cfg: Layout)
    requires WireBlock(s, cfg).Ok?
    ensures var (b, t) := WireBlock(s, cfg).value;
            BlockFits(b, cfg) && s == EncodeBlock(b, cfg) + t
  {
    hide Take, WireGroups, WireCountedVariable, ToBigEndian, Pow256, EncodeGroups, EncodeCounted, GroupsFit, CountedFits;
    var w := GenerationWidth(cfg);
    var (event, s1) := Take(s, cfg.eventIDWidth, MissingEventID).value;
    var (generation, s2) := Take(s1, w, MissingGeneration).value;
    var (total, s3) := Take(s2, cfg.countWidth, EndOfIOBlock).value;
    var (gs, s4) := WireGroups(s3, cfg, SIZES).value;
    var (vs, t) := WireCountedVariable(s4, cfg).value;
    TakeIff(s, cfg.eventIDWidth, MissingEventID, event, s1);
    TakeIff(s1, w, MissingGeneration, generation, s2);
    TakeIff(s2, cfg.countWidth, EndOfIOBlock, total, s3);
    GroupsSound(s3, cfg, SIZES);
    CountedSound(s4, cfg);
    AssocFive(ToBigEndian(event, cfg.eventIDWidth), ToBigEndian(generation, w), ToBigEndian(total, cfg.countWidth),
              EncodeGroups(gs, cfg, SIZES), EncodeCounted(vs, cfg), t);
  }

  lemma BlockComplete(b: Block, cfg: Layout, t: seq<byte>)
    requires BlockFits(b, cfg)
    ensures WireBlock(EncodeBlock(b, cfg) + t, cfg) == Ok((b, t))
  {
    hide Take, WireGroups, WireCountedVariable, ToBigEndian, Pow256, EncodeGroups, EncodeCounted, GroupsFit, CountedFits;
    var w := GenerationWidth(cfg);
    var s4 := EncodeCounted(b.variable, cfg) + t;
    var s3 := EncodeGroups(b.groups, cfg, SIZES) + s4;
    var s2 := ToBigEndian(b.total, cfg.countWidth) + s3;
    var s1 := ToBigEndian(b.generation, w) + s2;
    var s := EncodeBlock(b, cfg) + t;
    AssocFive(ToBigEndian(b.eventID, cfg.eventIDWidth), ToBigEndian(b.generation, w), ToBigEndian(b.total, cfg.countWidth),
              EncodeGroups(b.groups, cfg, SIZES), EncodeCounted(b.variable, cfg), t);
    TakeIff(s, cfg.eventIDWidth, MissingEventID, b.eventID, s1);
    TakeIff(s1, w, MissingGeneration, b.generation, s2);
    TakeIff(s2, cfg.countWidth, EndOfIOBlock, b.total, s3);
    GroupsComplete(b.groups, cfg, SIZES, s4);
    CountedComplete(b.variable, cfg, t);
  }

  lemma AssocFive(a: seq<byte>, b: seq<byte>, c: seq<byte>, d: seq<byte>, e: seq<byte>, t: seq<byte>)
    ensures (a + (b + (c + (d + e)))) + t == a + (b + (c + (d + (e + t))))
  {
    Assoc(a, b + (c + (d + e)), t);
    AssocFour(b, c, d, e, t);
  }

  // ---------- the fixed header ----------

  lemma HeadNumbers(s: seq<byte>)
    requires |s| == 24
    ensures HeadFits(WireHead(s))
  {
    Widths();
  }

  lemma HeadSound(s: seq<byte>)
    requires |s| == 24
    ensures HeadFits(WireHead(s)) && EncodeHead(WireHead(s)) == s
  {
    HeadNumbers(s);
    hide FromBigEndian, ToBigEndian, Pow256;
    RewriteBigEndian(s[0..8]);
    OneByte(s, 8);
    RewriteBigEndian(s[8..9]);
    RewriteBigEndian(s[9..13]);
    RewriteBigEndian(s[13..17]);
    RewriteBigEndian(s[17..19]);
    RewriteBigEndian(s[19..21]);
    OneByte(s, 21);
    RewriteBigEndian(s[21..22]);
    RewriteBigEndian(s[22..24]);
    HeaderPieces(s);
  }

  lemma HeaderPieces(s: seq<byte>)
    requires |s| == 24
    ensures s == s[0..8] + (s[8..9] + (s[9..13] + (s[13..17] + (s[17..19] + (s[19..21] + (s[21..22] + s[22..24]))))))
  {
    assert s[8..] == s[8..9] + s[9..];
    assert s[9..] == s[9..13] + s[13..];
    assert s[13..] == s[13..17] + s[17..];
    assert s[17..] == s[17..19] + s[19..];
    assert s[19..] == s[19..21] + (s[21..22] + s[22..24]);
  }

  lemma HeadComplete(h: Head)
    requires HeadFits(h)
    ensures WireHead(EncodeHead(h)) == h
  {
    hide FromBigEndian, ToBigEndian, Pow256;
    var s := EncodeHead(h);
    assert s[0..8] == ToBigEndian(h.timestampMs, 8) && s[9..13] == ToBigEndian(h.lon, 4);
    assert s[8..9] == ToBigEndian(h.priority, 1) && s[13..17] == ToBigEndian(h.lat, 4);
    assert s[17..19] == ToBigEndian(h.altitude, 2) && s[19..21] == ToBigEndian(h.angle, 2);
    assert s[21..22] == ToBigEndian(h.satellites, 1) && s[22..24] == ToBigEndian(h.speed, 2);
    OneByte(s, 8);
    OneByte(s, 21);
  }

  // ---------- records ----------

  /** Some record's encoding under the layout of the codec. */
  predicate Encodes(raw: seq<byte>, w: Wire, codecID: byte) {
    LayoutForCodec(codecID).Ok? && WireFits(w, LayoutForCodec(codecID).value)
    && raw == EncodeRecord(w, LayoutForCodec(codecID).value)
  }

  lemma RecordSound(s: seq<byte>, codecID: byte)
    requires WireRecord(s, codecID).Ok?
    ensures var (w, t) := WireRecord(s, codecID).value;
            exists raw :: Encodes(raw, w, codecID) && s == raw + t
  {
    var cfg := LayoutForCodec(codecID).value;
    var (w, t) := WireRecord(s, codecID).value;
    HeadSound(s[..24]);
    BlockSound(s[24..], cfg);
    hide WireRecord, WireHead, WireBlock, EncodeHead, EncodeBlock, LayoutForCodec;
    Assoc(EncodeHead(w.head), EncodeBlock(w.block, cfg), t);
    assert s == s[..24] + s[24..];
    assert Encodes(EncodeRecord(w, cfg), w, codecID);
  }

  lemma RecordComplete(raw: seq<byte>, w: Wire, codecID: byte, t: seq<byte>)
    requires Encodes(raw, w, codecID)
    ensures WireRecord(raw + t, codecID) == Ok((w, t))
  {
    var cfg := LayoutForCodec(codecID).value;
    HeadComplete(w.head);
    BlockComplete(w.block, cfg, t);
    Assoc(EncodeHead(w.head), EncodeBlock(w.block, cfg), t);
    SplitAt(raw + t, EncodeHead(w.head), EncodeBlock(w.block, cfg) + t);
  }

  lemma {:induction false} DecodedComplete(raw: seq<byte>, w: Wire, codecID: byte, t: seq<byte>)
    requires Encodes(raw, w, codecID)
    ensures Decoded(raw + t, codecID) == Ok((RecordOf(w, raw), |raw|))
  {
    hide *;
    RecordComplete(raw, w, codecID, t);
    DecodedUnfolds(raw + t, codecID, w, t);
    SplitAt(raw + t, raw, t);
  }

  lemma DecodedUnfolds(s: seq<byte>, codecID: byte, w: Wire, t: seq<byte>)
    requires WireRecord(s, codecID) == Ok((w, t))
    ensures |t| <= |s| && Decoded(s, codecID) == Ok((RecordOf(w, s[..|s| - |t|]), |s| - |t|))
  {
    hide WireRecord, RecordOf;
  }

  lemma {:induction false} DecodedSound(s: seq<byte>, codecID: byte) returns (w: Wire)
    requires Decoded(s, codecID).Ok?
    ensures var (rec, n) := Decoded(s, codecID).value;
            Encodes(s[..n], w, codecID) && rec == RecordOf(w, s[..n])
  {
    RecordSound(s, codecID);
    hide WireRecord, Encodes, RecordOf;
    w := WireRecord(s, codecID).value.0;
    var t := WireRecord(s, codecID).value.1;
    var raw :| Encodes(raw, w, codecID) && s == raw + t;
    assert s[..|raw|] == raw;
  }

  /**
   The decoder accepts exactly the encodings: a buffer decodes to rec, using n bytes, if and only if
   its first n bytes are the encoding of some wire record, and rec is what that wire record means.
   */
  lemma {:induction false} RecordsAreExactlyEncodings(s: seq<byte>, codecID: byte, rec: Record, n: nat)
    ensures Decoded(s, codecID) == Ok((rec, n)) <==>
              n <= |s| && exists w :: Encodes(s[..n], w, codecID) && rec == RecordOf(w, s[..n])
  {
    hide Encodes, RecordOf, WireRecord;
    if Decoded(s, codecID) == Ok((rec, n)) {
      var w := DecodedSound(s, codecID);
    }
    if n <= |s| {
      forall w | Encodes(s[..n], w, codecID) ensures Decoded(s, codecID) == Ok((RecordOf(w, s[..n]), n)) {
        DecodedComplete(s[..n], w, codecID, s[n..]);
        assert s == s[..n] + s[n..];
      }
    }
  }

  /** A record's own bytes decode to it alone, and whatever follows them. */
  lemma {:induction false} RawBytesDecodeAlone(s: seq<byte>, codecID: byte, t: seq<byte>)
    requires Decoded(s, codecID).Ok?
    ensures var (rec, n) := Decoded(s, codecID).value;
            rec.rawBytes == s[..n] && Decoded(rec.rawBytes + t, codecID) == Ok((rec, n))
  {
    var w := DecodedSound(s, codecID);
    hide Encodes, WireRecord;
    DecodedComplete(s[..Decoded(s, codecID).value.1], w, codecID, t);
  }

  /** The shortest record of each codec. */
  function MinRecord(codecID: byte): nat {
    if codecID == 0x08 then 30 else if codecID == 0x8E then 38 else 32
  }

  lemma {:induction false} RecordsAreLong(s: seq<byte>, codecID: byte)
    requires Decoded(s, codecID).Ok?
    ensures Decoded(s, codecID).value.1 >= MinRecord(codecID)
  {
    var w := DecodedSound(s, codecID);
    hide Decoded, WireFits, EncodeRecord;
    EncodingsAreLong(w, codecID);
  }

  lemma EncodingsAreLong(w: Wire, codecID: byte)
    requires LayoutForCodec(codecID).Ok? && WireFits(w, LayoutForCodec(codecID).value)
    ensures |EncodeRecord(w, LayoutForCodec(codecID).value)| >= MinRecord(codecID)
  {
    hide BlockFits, EncodeBlock, HeadFits, EncodeHead;
    BlocksAreLong(w.block, LayoutForCodec(codecID).value);
  }

  lemma BlocksAreLong(b: Block, cfg: Layout)
    requires BlockFits(b, cfg)
    ensures |EncodeBlock(b, cfg)| >=
              cfg.eventIDWidth + GenerationWidth(cfg) + (5 + if cfg.hasVariableIO then 1 else 0) * cfg.countWidth
  {
    hide ToBigEndian, Pow256, EncodeGroups, GroupsFit, EncodeVariable, VariableFit;
    GroupsAreLong(b.groups, cfg, SIZES);
  }

  lemma {:induction false} GroupsAreLong(gs: seq<seq<IO>>, cfg: Layout, sizes: seq<nat>)
    requires GroupsFit(gs, cfg, sizes)
    ensures |EncodeGroups(gs, cfg, sizes)| >= |sizes| * cfg.countWidth
  {
    hide ToBigEndian, Pow256, EncodeEntries, EntriesFit;
    if gs != [] { GroupsAreLong(gs[1..], cfg, sizes[1..]); }
  }

  // ---------- the IO map ----------

  /** The decoded map holds, under each id, the value of the last entry with that id. */
  lemma {:induction false} LastEntryWins(ios: map<nat, nat>, es: seq<IO>, id: nat)
    ensures id in AddIOs(ios, es) <==> id in ios || exists e :: e in es && e.id == id
    ensures forall k | 0 <= k < |es| && es[k].id == id && (forall j | k < j < |es| :: es[j].id != id) ::
              AddIOs(ios, es)[id] == es[k].value
    ensures (forall e | e in es :: e.id != id) && id in ios ==> AddIOs(ios, es)[id] == ios[id]
    decreases |es|
  {
    if es != [] {
      var first, rest := es[0], es[1..];
      assert es == [first] + rest;
      LastEntryWins(ios[first.id := first.value], rest, id);
      forall k | 0 <= k < |es| && es[k].id == id && (forall j | k < j < |es| :: es[j].id != id)
        ensures AddIOs(ios, es)[id] == es[k].value
      {
        if k == 0 {
          forall e | e in rest ensures e.id != id {
            var j :| 0 <= j < |rest| && rest[j] == e;
            assert es[j + 1] == e;
          }
        } else {
          assert rest[k - 1] == es[k];
          assert forall j | k - 1 < j < |rest| :: rest[j] == es[j + 1];
        }
      }
    }
  }

  /** With distinct ids the map is exactly the list of entries. */
  lemma DistinctIDsAreAllKept(es: seq<IO>)
    requires forall i, j | 0 <= i < j < |es| :: es[i].id != es[j].id
    ensures forall id, v :: (id in AddIOs(map[], es) && AddIOs(map[], es)[id] == v) <==> IO(id, v) in es
  {
    forall id, v
      ensures (id in AddIOs(map[], es) && AddIOs(map[], es)[id] == v) <==> IO(id, v) in es
    {
      LastEntryWins(map[], es, id);
      if k :| 0 <= k < |es| && es[k].id == id {
        assert AddIOs(map[], es)[id] == es[k].value;
      }
    }
  }
}
