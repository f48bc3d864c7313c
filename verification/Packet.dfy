/** The Teltonika AVL packet: preamble, length, a counted list of records, and a checksum. */
module Packet {
  import opened Options
  import opened Words
  import opened Bytes
  import opened Codec
  import opened WireFormat
  import Crc

  const MAX_DATA_FIELD_LENGTH := 2048

  /** The three results of ParsePacket; err is None on success. */
  datatype Parsed = Parsed(codecID: byte, records: seq<Record>, err: Option<Error>)

  // ---------- specification ----------

  /** n records read one after the other; the records read before an error are kept. */
  function ReadRecords(s: seq<byte>, codecID: byte, n: nat, index: nat): (seq<Record>, Option<Error>)
    decreases n
  {
    if n == 0 then ([], if s == [] then None else Some(TrailingBytes))
    else if s == [] then ([], Some(EndOfRecords(index)))
    else
      var r := Decoded(s, codecID);
      if r.Err? then ([], Some(BadRecord(index, r.error))) else
        var (rest, err) := ReadRecords(s[r.value.1..], codecID, n - 1, index + 1);
        ([r.value.0] + rest, err)
  }

  /** The records are dropped when the list ends early, and kept for every other error. */
  function ReadPayload(payload: seq<byte>): Parsed {
    if |payload| < 3 then Parsed(0, [], Some(PayloadTooShort))
    else if payload[1] != payload[|payload| - 1] then Parsed(0, [], Some(CountMismatch))
    else
      var (records, err) := ReadRecords(payload[2..|payload| - 1], payload[0], payload[1], 0);
      Parsed(payload[0], if err.Some? && err.value.EndOfRecords? then [] else records, err)
  }

  function ReadPacket(data: seq<byte>): Parsed {
    if |data| < 12 then Parsed(0, [], Some(PacketTooShort))
    else if data[..4] != [0, 0, 0, 0] then Parsed(0, [], Some(InvalidPreamble))
    else
      var length := FromBigEndian(data[4..8]);
      if length == 0 || length > MAX_DATA_FIELD_LENGTH then Parsed(0, [], Some(InvalidLength))
      else if |data| < 12 + length then Parsed(0, [], Some(Truncated))
      else
        var payload := data[8..8 + length];
        if FromBigEndian(data[8 + length..12 + length]) != NumberOf(Crc.Checksum(payload), 16)
        then Parsed(0, [], Some(CRCMismatch))
        else ReadPayload(payload)
  }

  // ---------- panics ----------

  /** Whether the record loop slices a header past the capacity: at some record it reaches, too few bytes are
      left in the payload and behind it. */
  predicate RecordsPanic(s: seq<byte>, behind: nat, codecID: byte, n: nat)
    decreases n
  {
    n > 0 && s != [] &&
    (HeaderPanics(|s|, behind) ||
     (Decoded(s, codecID).Ok? && RecordsPanic(s[Decoded(s, codecID).value.1..], behind, codecID, n - 1)))
  }

  /** behind counts the bytes from the payload's end to the capacity; the last count byte adds one. */
  predicate PayloadPanics(payload: seq<byte>, behind: nat) {
    && |payload| >= 3 && payload[1] == payload[|payload| - 1]
    && RecordsPanic(payload[2..|payload| - 1], behind + 1, payload[0], payload[1])
  }

  /** The header and checksum checks that stand before the payload is looked at. */
  predicate HeaderAccepted(data: seq<byte>) {
    && |data| >= 12 && data[..4] == [0, 0, 0, 0]
    && 0 < FromBigEndian(data[4..8]) <= 2048 && |data| >= 12 + FromBigEndian(data[4..8])
    && var length := FromBigEndian(data[4..8]);
       FromBigEndian(data[8 + length..12 + length]) == NumberOf(Crc.Checksum(data[8..8 + length]), 16)
  }

  /** Whether parsing data panics when its array has spare bytes behind it. */
  predicate PacketPanics(data: seq<byte>, spare: nat) {
    HeaderAccepted(data) &&
    var length := FromBigEndian(data[4..8]);
    PayloadPanics(data[8..8 + length], |data| - 8 - length + spare)
  }

  function PacketEnding(data: seq<byte>, spare: nat): Ending<Parsed> {
    if PacketPanics(data, spare) then Panicked else Returned(ReadPacket(data))
  }

  // ---------- the parser ----------

  method ParsePacket(data: seq<byte>, spare: seq<byte>) returns (r: Ending<Parsed>)
    ensures r == PacketEnding(data, |spare|)
  {
    hide ReadPayload, PayloadPanics, FromBigEndian, NumberOf, Crc.Checksum;
    if |data| < 12 { return Returned(Parsed(0, [], Some(PacketTooShort))); }
    if data[0] != 0 || data[1] != 0 || data[2] != 0 || data[3] != 0 {
      assert data[..4] != [0, 0, 0, 0] by {
        assert data[..4] == [data[0], data[1], data[2], data[3]];
      }
      return Returned(Parsed(0, [], Some(InvalidPreamble)));
    }
    assert data[..4] == [0, 0, 0, 0];
    var dataFieldLen := FromBigEndian(data[4..8]);
    if dataFieldLen == 0 || dataFieldLen > MAX_DATA_FIELD_LENGTH { return Returned(Parsed(0, [], Some(InvalidLength))); }
    var expectedLen := 8 + dataFieldLen + 4;
    if |data| < expectedLen { return Returned(Parsed(0, [], Some(Truncated))); }
    var payload := data[8..8 + dataFieldLen];
    var crcBytes := data[8 + dataFieldLen..8 + dataFieldLen + 4];
    var computedCRC := Crc.CRC16IBM(payload);
    if FromBigEndian(crcBytes) != NumberOf(computedCRC, 16) { return Returned(Parsed(0, [], Some(CRCMismatch))); }
    r := ParsePayload(payload, data[8 + dataFieldLen..] + spare);
  }

  method ParsePayload(payload: seq<byte>, behind: seq<byte>) returns (r: Ending<Parsed>)
    ensures r == if PayloadPanics(payload, |behind|) then Panicked else Returned(ReadPayload(payload))
  {
    hide Decoded, HeaderPanics;
    if |payload| < 3 { return Returned(Parsed(0, [], Some(PayloadTooShort))); }
    var codecID := payload[0];
    var numRecords, numRecords2 := payload[1], payload[|payload| - 1];
    if numRecords != numRecords2 { return Returned(Parsed(0, [], Some(CountMismatch))); }
    var off: nat, end := 2, |payload| - 1;
    var records: seq<Record> := [];
    ghost var whole := ReadRecords(payload[2..end], codecID, numRecords, 0);
    ghost var panics := RecordsPanic(payload[2..end], |behind| + 1, codecID, numRecords);
    assert [] + whole.0 == whole.0;
    for i := 0 to numRecords
      invariant 2 <= off <= end
      invariant var tail := ReadRecords(payload[off..end], codecID, numRecords - i, i);
                whole == (records + tail.0, tail.1)
      invariant panics == RecordsPanic(payload[off..end], |behind| + 1, codecID, numRecords - i)
    {
      if off >= end { return Returned(Parsed(codecID, [], Some(EndOfRecords(i)))); }
      var decoded := DecodeRecord(payload[off..end], payload[end..] + behind, codecID);
      if decoded.Panicked? { return Panicked; }
      if decoded.value.Err? {
        assert records + [] == records;
        return Returned(Parsed(codecID, records, Some(BadRecord(i, decoded.value.error))));
      }
      OneMore(payload, off, end, codecID, numRecords - i, i, records);
      records := records + [decoded.value.value.0];
      off := off + decoded.value.value.1;
    }
    assert records + [] == records;
    if off != end { return Returned(Parsed(codecID, records, Some(TrailingBytes))); }
    return Returned(Parsed(codecID, records, None));
  }

  lemma {:induction false} OneMore(payload: seq<byte>, off: nat, end: nat, codecID: byte, n: nat, i: nat, records: seq<Record>)
    requires off < end <= |payload| && n > 0 && Decoded(payload[off..end], codecID).Ok?
    ensures var (rec, used) := Decoded(payload[off..end], codecID).value;
            var here := ReadRecords(payload[off..end], codecID, n, i);
            var rest := ReadRecords(payload[off + used..end], codecID, n - 1, i + 1);
            && payload[off..end][used..] == payload[off + used..end]
            && records + here.0 == records + [rec] + rest.0 && here.1 == rest.1
  {
    hide Decoded;
    var (rec, used) := Decoded(payload[off..end], codecID).value;
    assert payload[off..end][used..] == payload[off + used..end];
    var rest := ReadRecords(payload[off + used..end], codecID, n - 1, i + 1);
    assert records + ([rec] + rest.0) == records + [rec] + rest.0;
  }

  // ---------- packets are exactly encoded record lists ----------

  function EncodeRecords(ws: seq<Wire>, codecID: byte): seq<byte>
    requires AllFit(ws, codecID)
  {
    if ws == [] then [] else
      EncodeRecord(ws[0], LayoutForCodec(codecID).value) + EncodeRecords(ws[1..], codecID)
  }

  predicate AllFit(ws: seq<Wire>, codecID: byte) {
    ws != [] ==> && LayoutForCodec(codecID).Ok? && WireFits(ws[0], LayoutForCodec(codecID).value)
                 && AllFit(ws[1..], codecID)
  }

  function Meanings(ws: seq<Wire>, codecID: byte): (records: seq<Record>)
    requires AllFit(ws, codecID)
    ensures |records| == |ws|
  {
    if ws == [] then [] else
      [RecordOf(ws[0], EncodeRecord(ws[0], LayoutForCodec(codecID).value))] + Meanings(ws[1..], codecID)
  }

  /** A payload that fits in a packet. */
  predicate Packable(ws: seq<Wire>, codecID: byte) {
    |ws| <= 255 && AllFit(ws, codecID) && |EncodeRecords(ws, codecID)| + 3 <= 2048
  }

  function EncodePayload(ws: seq<Wire>, codecID: byte): (payload: seq<byte>)
    requires Packable(ws, codecID)
    ensures 3 <= |payload| <= 2048
  {
    var records := EncodeRecords(ws, codecID);
    [codecID, |ws|] + records + [|ws|]
  }

  /** A payload with its preamble, length and checksum. */
  function Framed(payload: seq<byte>): (s: seq<byte>)
    requires 1 <= |payload| <= 2048
    ensures |s| == |payload| + 12
  {
    Widths();
    Crc.ChecksumFits(payload);
    NumberBound(Crc.Checksum(payload), 16);
    Pow2Table();
    [0, 0, 0, 0] + (ToBigEndian(|payload|, 4) + (payload + ToBigEndian(NumberOf(Crc.Checksum(payload), 16), 4)))
  }

  lemma {:induction false} ReadRecordsUnfolds(s: seq<byte>, codecID: byte, n: nat, index: nat)
    requires n > 0 && s != [] && Decoded(s, codecID).Ok?
    ensures var (rec, used) := Decoded(s, codecID).value;
            var rest := ReadRecords(s[used..], codecID, n - 1, index + 1);
            ReadRecords(s, codecID, n, index) == ([rec] + rest.0, rest.1)
  {
    hide Decoded;
  }

  lemma ListUnfolds(raw: seq<byte>, w: Wire, rest: seq<Wire>, codecID: byte)
    requires Encodes(raw, w, codecID) && AllFit(rest, codecID)
    ensures AllFit([w] + rest, codecID)
    ensures EncodeRecords([w] + rest, codecID) == raw + EncodeRecords(rest, codecID)
    ensures Meanings([w] + rest, codecID) == [RecordOf(w, raw)] + Meanings(rest, codecID)
  {
    hide WireFits, EncodeRecord, RecordOf;
    assert ([w] + rest)[0] == w && ([w] + rest)[1..] == rest;
  }

  lemma FirstFits(ws: seq<Wire>, codecID: byte) returns (raw: seq<byte>)
    requires ws != [] && AllFit(ws, codecID)
    ensures Encodes(raw, ws[0], codecID) && |raw| >= 24 && AllFit(ws[1..], codecID) && ws == [ws[0]] + ws[1..]
  {
    hide BlockFits, EncodeBlock, HeadFits, EncodeHead;
    raw := EncodeRecord(ws[0], LayoutForCodec(codecID).value);
  }

  lemma {:induction false} RecordsComplete(ws: seq<Wire>, codecID: byte, index: nat)
    requires AllFit(ws, codecID)
    ensures ReadRecords(EncodeRecords(ws, codecID), codecID, |ws|, index) == (Meanings(ws, codecID), None)
    decreases |ws|
  {
    if ws != [] {
      hide *;
      var raw := FirstFits(ws, codecID);
      var w, rest := ws[0], ws[1..];
      ListUnfolds(raw, w, rest, codecID);
      var t := EncodeRecords(rest, codecID);
      DecodedComplete(raw, w, codecID, t);
      SplitAt(raw + t, raw, t);
      ReadRecordsUnfolds(raw + t, codecID, |ws|, index);
      RecordsComplete(rest, codecID, index + 1);
    }
  }

  lemma {:induction false} NothingRead(s: seq<byte>, codecID: byte, n: nat, index: nat)
    requires ReadRecords(s, codecID, n, index).1 == None
    ensures n == 0 ==> s == [] && ReadRecords(s, codecID, n, index).0 == []
    ensures n > 0 ==> s != [] && Decoded(s, codecID).Ok?
    ensures AllFit([], codecID) && EncodeRecords([], codecID) == [] && Meanings([], codecID) == []
  {
  }

  lemma {:induction false} RecordsSound(s: seq<byte>, codecID: byte, n: nat, index: nat) returns (ws: seq<Wire>)
    requires ReadRecords(s, codecID, n, index).1 == None
    ensures |ws| == n && AllFit(ws, codecID) && s == EncodeRecords(ws, codecID)
    ensures ReadRecords(s, codecID, n, index).0 == Meanings(ws, codecID)
    decreases n
  {
    hide *;
    NothingRead(s, codecID, n, index);
    ws := [];
    if n > 0 {
      var used := Decoded(s, codecID).value.1;
      ReadRecordsUnfolds(s, codecID, n, index);
      var w := DecodedSound(s, codecID);
      var rest := RecordsSound(s[used..], codecID, n - 1, index + 1);
      ListUnfolds(s[..used], w, rest, codecID);
      ws := [w] + rest;
      assert s == s[..used] + s[used..];
    }
  }

  // ---------- whole packets ----------

  lemma {:induction false} PayloadSound(payload: seq<byte>) returns (ws: seq<Wire>)
    requires |payload| <= 2048 && ReadPayload(payload).err == None
    ensures var p := ReadPayload(payload);
            Packable(ws, p.codecID) && payload == EncodePayload(ws, p.codecID) && p.records == Meanings(ws, p.codecID)
  {
    hide ReadRecords, EncodeRecords, AllFit, Meanings;
    var inner := payload[2..|payload| - 1];
    ws := RecordsSound(inner, payload[0], payload[1], 0);
    assert payload == [payload[0], |ws|] + inner + [|ws|];
  }

  lemma PayloadParts(ws: seq<Wire>, codecID: byte)
    requires Packable(ws, codecID)
    ensures var payload := EncodePayload(ws, codecID);
            && payload[0] == codecID && payload[1] == |ws| == payload[|payload| - 1]
            && payload[2..|payload| - 1] == EncodeRecords(ws, codecID)
  {
    hide EncodeRecords, AllFit;
  }

  lemma PayloadReads(payload: seq<byte>, codecID: byte, n: nat, inner: seq<byte>)
    requires |payload| >= 3 && payload[0] == codecID && payload[1] == n == payload[|payload| - 1]
    requires payload[2..|payload| - 1] == inner && ReadRecords(inner, codecID, n, 0).1 == None
    ensures ReadPayload(payload) == Parsed(codecID, ReadRecords(inner, codecID, n, 0).0, None)
  {
    hide ReadRecords;
  }

  lemma {:induction false} PayloadComplete(ws: seq<Wire>, codecID: byte)
    requires Packable(ws, codecID)
    ensures ReadPayload(EncodePayload(ws, codecID)) == Parsed(codecID, Meanings(ws, codecID), None)
  {
    RecordsComplete(ws, codecID, 0);
    PayloadParts(ws, codecID);
    hide *;
    PayloadReads(EncodePayload(ws, codecID), codecID, |ws|, EncodeRecords(ws, codecID));
  }

  lemma NextPiece(a: seq<byte>, rest: seq<byte>, data: seq<byte>, i: nat)
    requires i <= |data|
    ensures a + rest <= data[i..] <==>
              i + |a| <= |data| && data[i..i + |a|] == a && rest <= data[i + |a|..]
  {
    PrefixConcat(a, rest, data[i..]);
    if i + |a| <= |data| {
      assert data[i..][..|a|] == data[i..i + |a|] && data[i..][|a|..] == data[i + |a|..];
    }
  }

  lemma LastPiece(a: seq<byte>, data: seq<byte>, i: nat)
    requires i <= |data|
    ensures a <= data[i..] <==> i + |a| <= |data| && data[i..i + |a|] == a
  {
    if i + |a| <= |data| { assert data[i..][..|a|] == data[i..i + |a|]; }
  }

  /** Four pieces in a row at the front of a buffer. */
  lemma {:induction false} PiecesInARow(a: seq<byte>, b: seq<byte>, c: seq<byte>, d: seq<byte>, data: seq<byte>)
    ensures var i, j, k := |a|, |a| + |b|, |a| + |b| + |c|;
            a + (b + (c + d)) <= data <==>
              |data| >= k + |d| && data[..i] == a && data[i..j] == b && data[j..k] == c && data[k..k + |d|] == d
  {
    var i, j, k := |a|, |a| + |b|, |a| + |b| + |c|;
    assert data[0..] == data;
    NextPiece(a, b + (c + d), data, 0);
    if i <= |data| {
      assert data[0..i] == data[..i];
      NextPiece(b, c + d, data, i);
      if j <= |data| {
        NextPiece(c, d, data, j);
        if k <= |data| { LastPiece(d, data, k); }
      }
    }
  }

  /** The bytes of a frame: four zeros, the length and the checksum as four bytes each. */
  lemma {:induction false} FrameBytes(payload: seq<byte>)
    requires 1 <= |payload| <= 2048
    ensures var n, c := |payload|, NumberOf(Crc.Checksum(payload), 16);
            c < 0x1_0000 && Framed(payload) == [0, 0, 0, 0] + ([0, 0, n / 256, n % 256] + (payload + [0, 0, c / 256, c % 256]))
  {
    var n, c := |payload|, NumberOf(Crc.Checksum(payload), 16);
    Crc.ChecksumFits(payload);
    NumberBound(Crc.Checksum(payload), 16);
    Pow2Table();
    hide NumberOf, Crc.Checksum, Pow2, ToBigEndian;
    FourBytes(n);
    FourBytes(c);
  }

  /** What a frame around a payload looks like from the front of a buffer. */
  lemma {:induction false} FrameIff(data: seq<byte>, payload: seq<byte>)
    requires 1 <= |payload| <= 2048
    ensures Framed(payload) <= data <==>
              && |data| >= 12 + |payload| && data[..4] == [0, 0, 0, 0] && FromBigEndian(data[4..8]) == |payload|
              && data[8..8 + |payload|] == payload
              && FromBigEndian(data[8 + |payload|..12 + |payload|]) == NumberOf(Crc.Checksum(payload), 16)
  {
    Widths();
    Crc.ChecksumFits(payload);
    NumberBound(Crc.Checksum(payload), 16);
    Pow2Table();
    var n, v := |payload|, NumberOf(Crc.Checksum(payload), 16);
    var a, b, c := [0, 0, 0, 0], ToBigEndian(n, 4), ToBigEndian(v, 4);
    assert Framed(payload) == a + (b + (payload + c));
    hide *;
    PiecesInARow(a, b, payload, c, data);
    if |data| >= 12 + n {
      NumberAt(n, 4, data[4..8]);
      NumberAt(v, 4, data[8 + n..12 + n]);
    }
  }

  lemma NumberAt(v: nat, width: nat, s: seq<byte>)
    requires |s| == width && v < Pow256(width)
    ensures s == ToBigEndian(v, width) <==> FromBigEndian(s) == v
  {
    hide FromBigEndian, ToBigEndian, Pow256;
    NumberPrefix(v, width, s);
    assert s[..width] == s;
  }

  /**
   ParsePacket succeeds on exactly the buffers that start with an encoded packet, and returns exactly
   the records that were encoded.
   */
  lemma PacketsAreExactlyEncodings(data: seq<byte>, codecID: byte, records: seq<Record>)
    ensures ReadPacket(data) == Parsed(codecID, records, None) <==>
              exists ws :: && Packable(ws, codecID) && Framed(EncodePayload(ws, codecID)) <= data
                           && records == Meanings(ws, codecID)
  {
    hide ReadPacket, Framed, EncodePayload, Meanings, AllFit, EncodeRecords;
    if ReadPacket(data) == Parsed(codecID, records, None) {
      var ws := PacketSound(data);
    }
    forall ws | Packable(ws, codecID) && Framed(EncodePayload(ws, codecID)) <= data
      ensures ReadPacket(data) == Parsed(codecID, Meanings(ws, codecID), None)
    {
      StartsWithPacket(data, ws, codecID);
    }
  }

  lemma StartsWithPacket(data: seq<byte>, ws: seq<Wire>, codecID: byte)
    requires Packable(ws, codecID) && Framed(EncodePayload(ws, codecID)) <= data
    ensures ReadPacket(data) == Parsed(codecID, Meanings(ws, codecID), None)
  {
    hide ReadPacket, Framed, EncodePayload, Meanings, AllFit, EncodeRecords;
    var frame := Framed(EncodePayload(ws, codecID));
    assert data == frame + data[|frame|..];
    PacketRoundTrip(ws, codecID, data[|frame|..]);
  }

  /** An accepted packet is a frame around the payload it announces. */
  lemma {:induction false} AcceptedPayload(data: seq<byte>) returns (payload: seq<byte>)
    requires ReadPacket(data).err == None
    ensures 3 <= |payload| <= 2048 && |payload| == FromBigEndian(data[4..8])
    ensures |data| >= 12 + |payload| && payload == data[8..8 + |payload|]
    ensures Framed(payload) <= data && ReadPayload(payload) == ReadPacket(data)
  {
    hide FromBigEndian, ReadRecords, Framed;
    payload := data[8..8 + FromBigEndian(data[4..8])];
    FrameIff(data, payload);
  }

  lemma PacketSound(data: seq<byte>) returns (ws: seq<Wire>)
    requires ReadPacket(data).err == None
    ensures var p := ReadPacket(data);
            && Packable(ws, p.codecID) && Framed(EncodePayload(ws, p.codecID)) <= data
            && p.records == Meanings(ws, p.codecID)
  {
    hide *;
    var payload := AcceptedPayload(data);
    ws := PayloadSound(payload);
  }

  /** Any list of records that fits a packet is returned from its encoding, whatever follows it. */
  lemma {:induction false} PacketRoundTrip(ws: seq<Wire>, codecID: byte, t: seq<byte>)
    requires Packable(ws, codecID)
    ensures ReadPacket(Framed(EncodePayload(ws, codecID)) + t) == Parsed(codecID, Meanings(ws, codecID), None)
  {
    var payload := EncodePayload(ws, codecID);
    PayloadComplete(ws, codecID);
    hide *;
    FrameIff(Framed(payload) + t, payload);
    PayloadIsRead(Framed(payload) + t, payload);
  }

  lemma PayloadIsRead(data: seq<byte>, payload: seq<byte>)
    requires 1 <= |payload| <= 2048 && |data| >= 12 + |payload| && data[..4] == [0, 0, 0, 0]
    requires FromBigEndian(data[4..8]) == |payload| && data[8..8 + |payload|] == payload
    requires FromBigEndian(data[8 + |payload|..12 + |payload|]) == NumberOf(Crc.Checksum(payload), 16)
    ensures ReadPacket(data) == ReadPayload(payload)
  {
    hide ReadPayload, FromBigEndian, NumberOf, Crc.Checksum;
  }

  // ---------- tiling ----------

  function RawConcat(records: seq<Record>): seq<byte> {
    if records == [] then [] else records[0].rawBytes + RawConcat(records[1..])
  }

  /** Every record decodes from its own bytes. */
  predicate AllDecodeAlone(records: seq<Record>, codecID: byte) {
    forall r | r in records :: Decoded(r.rawBytes, codecID) == Ok((r, |r.rawBytes|))
  }

  lemma {:induction false} RawTiles(s: seq<byte>, codecID: byte, n: nat, index: nat)
    requires ReadRecords(s, codecID, n, index).1 == None
    ensures var records := ReadRecords(s, codecID, n, index).0;
            |records| == n && s == RawConcat(records) && AllDecodeAlone(records, codecID)
    ensures |s| >= n * MinRecord(codecID)
    decreases n
  {
    hide Decoded, MinRecord, ReadRecords;
    NothingRead(s, codecID, n, index);
    if n > 0 {
      ReadRecordsUnfolds(s, codecID, n, index);
      var (rec, used) := Decoded(s, codecID).value;
      var rest := ReadRecords(s[used..], codecID, n - 1, index + 1).0;
      RawTiles(s[used..], codecID, n - 1, index + 1);
      RecordsAreLong(s, codecID);
      TileStep(s, codecID, rec, used, rest);
      Times(n, MinRecord(codecID));
    }
  }

  lemma Times(n: nat, m: nat)
    requires n > 0
    ensures n * m == (n - 1) * m + m
  {
  }

  lemma {:induction false} TileStep(s: seq<byte>, codecID: byte, rec: Record, used: nat, rest: seq<Record>)
    requires Decoded(s, codecID) == Ok((rec, used)) && AllDecodeAlone(rest, codecID) && s[used..] == RawConcat(rest)
    ensures s == RawConcat([rec] + rest) && AllDecodeAlone([rec] + rest, codecID)
  {
    hide Decoded;
    RawBytesDecodeAlone(s, codecID, []);
    assert rec.rawBytes + [] == rec.rawBytes && s == s[..used] + s[used..];
    assert ([rec] + rest)[1..] == rest;
  }

  /** The most records a packet of each codec can hold. */
  function MaxRecords(codecID: byte): nat {
    if codecID == 0x08 then 68 else if codecID == 0x8E then 53 else 63
  }

  /**
   The records of a packet tile its payload between the two counts, each record's bytes decode to it
   alone, and there are never more than 68, 53 or 63 of them.
   */
  lemma {:induction false} RecordsTileThePayload(data: seq<byte>)
    requires ReadPacket(data).err == None
    ensures var p := ReadPacket(data);
            var end := 8 + FromBigEndian(data[4..8]) - 1;
            && 10 <= end < |data| && RawConcat(p.records) == data[10..end]
            && |p.records| == data[9] == data[end] && p.codecID == data[8] && |p.records| <= MaxRecords(p.codecID)
            && AllDecodeAlone(p.records, p.codecID)
  {
    hide Decoded, FromBigEndian, ReadRecords, Framed, ReadPacket, AllDecodeAlone, RawConcat;
    var payload := AcceptedPayload(data);
    var end := |payload| - 1;
    RawTiles(payload[2..end], payload[0], payload[1], 0);
    SliceOfSlice(data, payload, 8, 2, end);
    ManyRecords(payload[1], payload[0], end - 2);
  }

  lemma ManyRecords(n: nat, codecID: byte, size: nat)
    requires n * MinRecord(codecID) <= size <= 2048 - 3
    ensures n <= MaxRecords(codecID)
  {
  }

  // ---------- which packets panic ----------

  /** Whole records, then a rest from which another record is asked but whose header the capacity cuts off. */
  predicate CutOff(s: seq<byte>, ws: seq<Wire>, rest: seq<byte>, behind: nat, codecID: byte, n: nat) {
    |ws| < n && AllFit(ws, codecID) && s == EncodeRecords(ws, codecID) + rest
    && 9 <= |rest| && |rest| + behind < 24
  }

  lemma PanicUnfolds(s: seq<byte>, behind: nat, codecID: byte, n: nat)
    requires n > 0 && s != []
    ensures Decoded(s, codecID).Ok? ==>
              RecordsPanic(s, behind, codecID, n) ==
                RecordsPanic(s[Decoded(s, codecID).value.1..], behind, codecID, n - 1)
    ensures Decoded(s, codecID).Err? ==> RecordsPanic(s, behind, codecID, n) == HeaderPanics(|s|, behind)
  {
    hide Decoded;
  }

  lemma {:induction false} PanicSound(s: seq<byte>, behind: nat, codecID: byte, n: nat) returns (ws: seq<Wire>, rest: seq<byte>)
    requires RecordsPanic(s, behind, codecID, n)
    ensures CutOff(s, ws, rest, behind, codecID, n)
    decreases n
  {
    ws, rest := [], s;
    hide Decoded;
    assert n > 0 && s != [] && (Decoded(s, codecID).Err? ==> HeaderPanics(|s|, behind));
    NoneEncoded(s, codecID);
    if Decoded(s, codecID).Ok? {
      hide *;
      var used := Decoded(s, codecID).value.1;
      PanicUnfolds(s, behind, codecID, n);
      var w := DecodedSound(s, codecID);
      var tail;
      tail, rest := PanicSound(s[used..], behind, codecID, n - 1);
      CutOffLater(s, used, w, tail, rest, behind, codecID, n);
      ws := [w] + tail;
    }
  }

  lemma NoneEncoded(s: seq<byte>, codecID: byte)
    ensures AllFit([], codecID) && s == EncodeRecords([], codecID) + s
  {
    assert [] + s == s;
  }

  lemma CutOffLater(s: seq<byte>, used: nat, w: Wire, ws: seq<Wire>, rest: seq<byte>, behind: nat, codecID: byte, n: nat)
    requires used <= |s| && n > 0 && Encodes(s[..used], w, codecID)
    requires CutOff(s[used..], ws, rest, behind, codecID, n - 1)
    ensures CutOff(s, [w] + ws, rest, behind, codecID, n)
  {
    hide *;
    CutOffParts(s[used..], ws, rest, behind, codecID, n - 1);
    ListUnfolds(s[..used], w, ws, codecID);
    assert s == s[..used] + s[used..];
    Assoc(s[..used], EncodeRecords(ws, codecID), rest);
    MakeCutOff(s, [w] + ws, rest, behind, codecID, n);
  }

  lemma {:induction false} PanicComplete(s: seq<byte>, ws: seq<Wire>, rest: seq<byte>, behind: nat, codecID: byte, n: nat)
    requires CutOff(s, ws, rest, behind, codecID, n)
    ensures RecordsPanic(s, behind, codecID, n)
    decreases |ws|
  {
    hide *;
    CutOffParts(s, ws, rest, behind, codecID, n);
    if ws == [] {
      NoneEncoded(rest, codecID);
      PanicNow(s, behind, codecID, n);
    } else {
      var w, tail := ws[0], ws[1..];
      var raw := FirstFits(ws, codecID);
      ListUnfolds(raw, w, tail, codecID);
      var t := EncodeRecords(tail, codecID) + rest;
      Assoc(raw, EncodeRecords(tail, codecID), rest);
      DecodedComplete(raw, w, codecID, t);
      SplitAt(raw + t, raw, t);
      PanicUnfolds(s, behind, codecID, n);
      MakeCutOff(t, tail, rest, behind, codecID, n - 1);
      PanicComplete(t, tail, rest, behind, codecID, n - 1);
    }
  }

  lemma PanicNow(s: seq<byte>, behind: nat, codecID: byte, n: nat)
    requires n > 0 && HeaderPanics(|s|, behind)
    ensures RecordsPanic(s, behind, codecID, n)
  {
    hide Decoded;
  }

  lemma CutOffParts(s: seq<byte>, ws: seq<Wire>, rest: seq<byte>, behind: nat, codecID: byte, n: nat)
    requires CutOff(s, ws, rest, behind, codecID, n)
    ensures |ws| < n && AllFit(ws, codecID) && s == EncodeRecords(ws, codecID) + rest && HeaderPanics(|rest|, behind)
  {
    hide AllFit, EncodeRecords;
  }

  lemma MakeCutOff(s: seq<byte>, ws: seq<Wire>, rest: seq<byte>, behind: nat, codecID: byte, n: nat)
    requires |ws| < n && AllFit(ws, codecID) && s == EncodeRecords(ws, codecID) + rest && HeaderPanics(|rest|, behind)
    ensures CutOff(s, ws, rest, behind, codecID, n)
  {
    hide AllFit, EncodeRecords;
  }

  ghost predicate SomeCutOff(s: seq<byte>, behind: nat, codecID: byte, n: nat) {
    exists ws, rest :: CutOff(s, ws, rest, behind, codecID, n)
  }

  /** The record loop panics exactly on whole records followed by a rest of at least 9 bytes that, with the
      bytes behind it, is shorter than a header, when another record was announced. */
  lemma {:induction false} LoopPanicsExactly(s: seq<byte>, behind: nat, codecID: byte, n: nat)
    ensures RecordsPanic(s, behind, codecID, n) <==> SomeCutOff(s, behind, codecID, n)
  {
    hide RecordsPanic, CutOff;
    if RecordsPanic(s, behind, codecID, n) {
      var ws, rest := PanicSound(s, behind, codecID, n);
    }
    forall ws, rest | CutOff(s, ws, rest, behind, codecID, n) ensures RecordsPanic(s, behind, codecID, n) {
      PanicComplete(s, ws, rest, behind, codecID, n);
    }
  }

  lemma PayloadPanicsAt(data: seq<byte>, length: nat, behind: nat)
    requires 8 + length <= |data|
    ensures PayloadPanics(data[8..8 + length], behind) <==>
              length >= 3 && data[9] == data[7 + length] && RecordsPanic(data[10..7 + length], behind + 1, data[8], data[9])
  {
    hide RecordsPanic;
    var payload := data[8..8 + length];
    if length >= 3 { SliceOfSlice(data, payload, 8, 2, length - 1); }
  }

  /** A packet that passes the checks of header, checksum and counts and whose records are cut off. */
  ghost predicate IsCutOff(data: seq<byte>, spare: nat) {
    HeaderAccepted(data) &&
    var end := 7 + FromBigEndian(data[4..8]);
    end >= 10 && data[9] == data[end] && SomeCutOff(data[10..end], |data| - end + spare, data[8], data[9])
  }

  /** A packet panics exactly when it is cut off like that. */
  lemma {:induction false} PacketsPanicExactly(data: seq<byte>, spare: nat)
    ensures PacketPanics(data, spare) <==> IsCutOff(data, spare)
  {
    if HeaderAccepted(data) {
      var length := FromBigEndian(data[4..8]);
      PacketPanicsAt(data, spare, length);
    }
  }

  lemma {:induction false} PacketPanicsAt(data: seq<byte>, spare: nat, length: nat)
    requires HeaderAccepted(data) && length == FromBigEndian(data[4..8])
    ensures PacketPanics(data, spare) <==> IsCutOff(data, spare)
  {
    var behind := |data| - 8 - length + spare;
    hide PayloadPanics, FromBigEndian, SomeCutOff, RecordsPanic;
    PayloadPanicsAt(data, length, behind);
    if length >= 3 {
      LoopPanicsExactly(data[10..7 + length], behind + 1, data[8], data[9]);
      assert behind + 1 == |data| - (7 + length) + spare;
    }
  }

  lemma FramedIsAccepted(payload: seq<byte>)
    requires 1 <= |payload| <= 2048
    ensures HeaderAccepted(Framed(payload)) && FromBigEndian(Framed(payload)[4..8]) == |payload|
    ensures Framed(payload)[8..8 + |payload|] == payload
  {
    FrameIff(Framed(payload), payload);
    hide FromBigEndian, Framed, NumberOf;
  }

  /** Records and a rest that announce more records than there are. */
  function ShortPayload(codecID: byte, n: byte, ws: seq<Wire>, rest: seq<byte>): seq<byte>
    requires AllFit(ws, codecID)
  {
    [codecID, n] + (EncodeRecords(ws, codecID) + rest) + [n]
  }

  /** A packet in an array of its own length panics behind any whole records on any rest of 9 to 18 bytes. */
  lemma {:induction false} ShortRestsPanic(codecID: byte, n: byte, ws: seq<Wire>, rest: seq<byte>)
    requires |ws| < n && AllFit(ws, codecID) && 9 <= |rest| <= 18
    requires |ShortPayload(codecID, n, ws, rest)| <= 2048
    ensures PacketPanics(Framed(ShortPayload(codecID, n, ws, rest)), 0)
  {
    var payload := ShortPayload(codecID, n, ws, rest);
    var data := Framed(payload);
    ShortPayloadIs(codecID, n, ws, rest);
    hide *;
    FramedIsAccepted(payload);
    ShortIsCutOff(data, payload, codecID, n, ws, rest);
    PacketsPanicExactly(data, 0);
  }

  lemma ShortPayloadIs(codecID: byte, n: byte, ws: seq<Wire>, rest: seq<byte>)
    requires AllFit(ws, codecID)
    ensures var payload := ShortPayload(codecID, n, ws, rest);
            && |payload| >= 3 + |rest| && payload[0] == codecID && payload[1] == n == payload[|payload| - 1]
            && payload[2..|payload| - 1] == EncodeRecords(ws, codecID) + rest
  {
    hide AllFit, EncodeRecords;
  }

  lemma ShortIsCutOff(data: seq<byte>, payload: seq<byte>, codecID: byte, n: byte, ws: seq<Wire>, rest: seq<byte>)
    requires |ws| < n && AllFit(ws, codecID) && 9 <= |rest| <= 18
    requires |payload| >= 3 && payload[0] == codecID && payload[1] == n == payload[|payload| - 1]
    requires payload[2..|payload| - 1] == EncodeRecords(ws, codecID) + rest
    requires HeaderAccepted(data) && |data| == |payload| + 12 && FromBigEndian(data[4..8]) == |payload|
    requires data[8..8 + |payload|] == payload
    ensures IsCutOff(data, 0)
  {
    var s := EncodeRecords(ws, codecID) + rest;
    hide *;
    EndsOfPart(data, payload);
    MakeCutOff(s, ws, rest, 5, codecID, n) by { HeaderIsCut(|rest|); }
    SomeIsCutOff(data, |payload|, s, ws, rest, codecID, n);
  }

  lemma HeaderIsCut(length: nat)
    requires 9 <= length <= 18
    ensures HeaderPanics(length, 5)
  {
  }

  lemma EndsOfPart(data: seq<byte>, payload: seq<byte>)
    requires |payload| >= 3 && 8 + |payload| <= |data| && data[8..8 + |payload|] == payload
    ensures data[8] == payload[0] && data[9] == payload[1] && data[7 + |payload|] == payload[|payload| - 1]
    ensures data[10..7 + |payload|] == payload[2..|payload| - 1]
  {
    var part := data[8..8 + |payload|];
    assert data[8] == part[0] && data[9] == part[1] && data[7 + |payload|] == part[|payload| - 1];
    SliceOfSlice(data, payload, 8, 2, |payload| - 1);
  }

  lemma SomeIsCutOff(data: seq<byte>, length: nat, s: seq<byte>, ws: seq<Wire>, rest: seq<byte>, codecID: byte, n: byte)
    requires HeaderAccepted(data) && |data| == length + 12 && FromBigEndian(data[4..8]) == length && length >= 3
    requires data[8] == codecID && data[9] == n == data[7 + length] && data[10..7 + length] == s
    requires CutOff(s, ws, rest, 5, codecID, n)
    ensures IsCutOff(data, 0)
  {
    hide CutOff, HeaderAccepted, FromBigEndian;
  }

  /** The shortest such packet: twelve bytes of payload that announce one record of nine bytes. */
  lemma TwelveBytesPanic(codecID: byte, rest: seq<byte>)
    requires |rest| == 9
    ensures PacketPanics(Framed([codecID, 1] + rest + [1]), 0)
  {
    assert [] + rest == rest;
    assert ShortPayload(codecID, 1, [], rest) == [codecID, 1] + rest + [1];
    hide PacketPanics, Framed;
    ShortRestsPanic(codecID, 1, [], rest);
  }

  lemma {:induction false} PanicsAreErrors(s: seq<byte>, behind: nat, codecID: byte, n: nat, index: nat)
    requires RecordsPanic(s, behind, codecID, n)
    ensures ReadRecords(s, codecID, n, index).1 != None && behind < 15
    decreases n
  {
    if Decoded(s, codecID).Ok? {
      hide Decoded;
      var used := Decoded(s, codecID).value.1;
      if RecordsPanic(s[used..], behind, codecID, n - 1) { PanicsAreErrors(s[used..], behind, codecID, n - 1, index + 1); }
    } else {
      hide Decoded;
    }
  }

  /** An accepted packet never panics, and with ten spare bytes none does. */
  lemma {:induction false} AcceptedPacketsReturn(data: seq<byte>, spare: nat)
    requires ReadPacket(data).err == None || spare >= 10
    ensures PacketEnding(data, spare) == Returned(ReadPacket(data))
  {
    hide RecordsPanic, ReadRecords, FromBigEndian;
    if HeaderAccepted(data) {
      var length := FromBigEndian(data[4..8]);
      var payload := data[8..8 + length];
      if PayloadPanics(payload, |data| - 8 - length + spare) {
        PanicsAreErrors(payload[2..length - 1], |data| - 8 - length + spare + 1, payload[0], payload[1], 0);
      }
    }
  }

  // ---------- corruption ----------

  /** A packet whose payload was changed within sixteen consecutive bits is rejected. */
  lemma {:induction false} BurstsAreRejected(good: seq<byte>, bad: seq<byte>, t: seq<byte>, i: nat)
    requires 1 <= |good| <= 2048 && |bad| == |good|
    requires Crc.DifferInBurst(Crc.Bits(good), Crc.Bits(bad), i)
    ensures var frame := Framed(good);
            ReadPacket(frame[..8] + bad + frame[8 + |good|..] + t) == Parsed(0, [], Some(CRCMismatch))
  {
    var frame := Framed(good);
    hide *;
    var data := frame[..8] + bad + frame[8 + |good|..] + t;
    Replaced(frame, bad, t, |good|);
    RejectedAs(good, bad, i, data);
  }

  lemma {:induction false} RejectedAs(good: seq<byte>, bad: seq<byte>, i: nat, data: seq<byte>)
    requires 1 <= |good| <= 2048 && |bad| == |good|
    requires Crc.DifferInBurst(Crc.Bits(good), Crc.Bits(bad), i)
    requires var frame, n := Framed(good), |good|;
             && |data| >= 12 + n && data[..4] == frame[..4] && data[4..8] == frame[4..8] && data[8..8 + n] == bad
             && data[8 + n..12 + n] == frame[8 + n..12 + n]
    ensures ReadPacket(data) == Parsed(0, [], Some(CRCMismatch))
  {
    hide *;
    FrameIff(Framed(good), good);
    Crc.BurstsAreDetected(good, bad, i);
    ChecksumNumbersDiffer(good, bad);
    Mismatch(data, bad);
  }

  lemma {:induction false} ChecksumNumbersDiffer(a: seq<byte>, b: seq<byte>)
    requires Crc.Checksum(a) != Crc.Checksum(b)
    ensures NumberOf(Crc.Checksum(a), 16) != NumberOf(Crc.Checksum(b), 16)
  {
    hide Crc.Checksum, Digits, NumberOf;
    Crc.ChecksumFits(a);
    Crc.ChecksumFits(b);
    DigitsOfNumber(Crc.Checksum(a), 16);
    DigitsOfNumber(Crc.Checksum(b), 16);
  }

  lemma Replaced(frame: seq<byte>, bad: seq<byte>, t: seq<byte>, n: nat)
    requires |frame| == 12 + n && |bad| == n
    ensures var data := frame[..8] + bad + frame[8 + n..] + t;
            && |data| >= 12 + n && data[..4] == frame[..4] && data[4..8] == frame[4..8] && data[8..8 + n] == bad
            && data[8 + n..12 + n] == frame[8 + n..12 + n]
  {
  }

  lemma Mismatch(data: seq<byte>, payload: seq<byte>)
    requires 1 <= |payload| <= 2048 && |data| >= 12 + |payload|
    requires data[..4] == [0, 0, 0, 0] && FromBigEndian(data[4..8]) == |payload| && data[8..8 + |payload|] == payload
    requires FromBigEndian(data[8 + |payload|..12 + |payload|]) != NumberOf(Crc.Checksum(payload), 16)
    ensures ReadPacket(data) == Parsed(0, [], Some(CRCMismatch))
  {
    hide FromBigEndian, ReadPayload;
  }
}
