/**
 Reading frames off a TCP stream: the IMEI header, then frames of a preamble, a length, a payload and a
 checksum, from a stream that arrives in pieces of any size.
 */
module Framing {
  import opened Options
  import opened Words
  import opened Bytes
  import opened Codec
  import opened Packet
  import Crc

  const MAX_IMEI_LENGTH := 32

  /** Some bytes and what follows them, when the stream holds that many. */
  function Full(s: seq<byte>, n: nat): Option<(seq<byte>, seq<byte>)> {
    if |s| < n then None else Some((s[..n], s[n..]))
  }

  function FirstIMEI(s: seq<byte>): Option<(seq<byte>, seq<byte>)> {
    match Full(s, 2)
    case None => None
    case Some((lenBuf, rest)) =>
      var n := FromBigEndian(lenBuf);
      if n == 0 || n > MAX_IMEI_LENGTH then None else Full(rest, n)
  }

  lemma {:induction false} LengthBytes(s: seq<byte>, n: byte)
    requires |s| == 2
    ensures FromBigEndian(s) == n <==> s == [0, n]
  {
    Widths();
    TwoBytes(FromBigEndian(s));
    TwoBytes(n);
    RewriteBigEndian(s);
    hide FromBigEndian, ToBigEndian, Pow256;
  }

  lemma FirstIMEIIs(s: seq<byte>, imei: seq<byte>, t: seq<byte>)
    ensures FirstIMEI(s) == Some((imei, t)) <==>
              && |s| >= 2 && 1 <= |imei| <= 32 && FromBigEndian(s[..2]) == |imei|
              && |s[2..]| >= |imei| && s[2..][..|imei|] == imei && s[2..][|imei|..] == t
  {
    hide FromBigEndian;
  }

  /** An IMEI is read exactly behind two bytes that hold its length, which is 1 to 32. */
  lemma {:induction false} IMEIsAreRead(s: seq<byte>, imei: seq<byte>, t: seq<byte>)
    ensures FirstIMEI(s) == Some((imei, t)) <==> 1 <= |imei| <= 32 && s == [0, |imei|] + (imei + t)
  {
    FirstIMEIIs(s, imei, t);
    hide *;
    if 1 <= |imei| <= 32 {
      var head: seq<byte> := [0, |imei|];
      SplitAt(s, head, imei + t);
      if |s| >= 2 {
        LengthBytes(s[..2], |imei|);
        SplitAt(s[2..], imei, t);
      }
    }
  }

  /** The next frame; None ends the session, for whatever reason. */
  function FirstFrame(s: seq<byte>): (r: Option<(seq<byte>, seq<byte>)>)
    ensures r.Some? ==> |r.value.0| >= 13 && s == r.value.0 + r.value.1
  {
    match Full(s, 8)
    case None => None
    case Some((header, rest)) =>
      if header[..4] != [0, 0, 0, 0] then None
      else
        var n := FromBigEndian(header[4..8]);
        if n == 0 || n > MAX_DATA_FIELD_LENGTH then None
        else match Full(rest, n + 4)
             case None => None
             case Some((payload, tail)) => Some((header + payload, tail))
  }

  /** Every frame of a stream, up to the first that cannot be read. */
  function ReadFrames(s: seq<byte>): seq<seq<byte>>
    decreases |s|
  {
    match FirstFrame(s)
    case None => []
    case Some((frame, rest)) => [frame] + ReadFrames(rest)
  }

  /** What remains behind them. */
  function Unread(s: seq<byte>): seq<byte>
    decreases |s|
  {
    match FirstFrame(s)
    case None => s
    case Some((_, rest)) => Unread(rest)
  }

  // ---------- frames ----------

  /** A preamble, a length between 1 and 2048, and as many bytes and four more. */
  predicate IsFrame(f: seq<byte>) {
    && |f| >= 13
    && f[..4] == [0, 0, 0, 0]
    && 0 < FromBigEndian(f[4..8]) <= 2048
    && |f| == 12 + FromBigEndian(f[4..8])
  }

  /** The reader takes a frame off the stream exactly when the stream starts with one. */
  lemma FramesAreRead(s: seq<byte>, f: seq<byte>, t: seq<byte>)
    ensures FirstFrame(s) == Some((f, t)) <==> IsFrame(f) && s == f + t
  {
    if |s| >= 8 {
      var header, rest := s[..8], s[8..];
      assert header[..4] == s[..4] && header[4..8] == s[4..8];
      if IsFrame(f) && s == f + t {
        assert f[..4] == s[..4] && f[4..8] == s[4..8];
        var n := FromBigEndian(f[4..8]);
        assert rest[..n + 4] == f[8..] && rest[n + 4..] == t;
        assert header + f[8..] == f;
      }
      if FirstFrame(s) == Some((f, t)) {
        assert f[..4] == header[..4] && f[4..8] == header[4..8];
      }
    }
  }

  function Concat(fs: seq<seq<byte>>): seq<byte> { if fs == [] then [] else fs[0] + Concat(fs[1..]) }

  predicate AllFrames(fs: seq<seq<byte>>) { fs != [] ==> IsFrame(fs[0]) && AllFrames(fs[1..]) }

  /** Any number of frames, one behind the other, is read back as those frames, and every byte is consumed. */
  lemma {:induction false} FramingRoundTrip(fs: seq<seq<byte>>, t: seq<byte>)
    requires AllFrames(fs) && FirstFrame(t) == None
    ensures ReadFrames(Concat(fs) + t) == fs && Unread(Concat(fs) + t) == t
    decreases |fs|
  {
    if fs == [] {
      assert [] + t == t;
    } else {
      FramingRoundTrip(fs[1..], t);
      Assoc(fs[0], Concat(fs[1..]), t);
      FramesAreRead(Concat(fs) + t, fs[0], Concat(fs[1..]) + t);
      hide FirstFrame, IsFrame;
    }
  }

  /** Whatever is read is frames, and with what remains it is the stream. */
  lemma {:induction false} ReadingLosesNothing(s: seq<byte>)
    ensures AllFrames(ReadFrames(s)) && s == Concat(ReadFrames(s)) + Unread(s) && FirstFrame(Unread(s)) == None
    decreases |s|
  {
    match FirstFrame(s)
    case None => assert [] + s == s;
    case Some((f, t)) =>
      FramesAreRead(s, f, t);
      ReadingLosesNothing(t);
      hide FirstFrame, IsFrame;
      assert ([f] + ReadFrames(t))[1..] == ReadFrames(t);
      Assoc(f, Concat(ReadFrames(t)), Unread(t));
  }

  /** A frame never fails the parser's checks of length, preamble and truncation. */
  lemma {:induction false} FramesPassTheHeaderChecks(f: seq<byte>)
    requires IsFrame(f)
    ensures var err := ReadPacket(f).err;
            err != Some(PacketTooShort) && err != Some(InvalidPreamble) && err != Some(InvalidLength) && err != Some(Truncated)
  {
    var n := FromBigEndian(f[4..8]);
    var payload := f[8..8 + n];
    if FromBigEndian(f[8 + n..12 + n]) == NumberOf(Crc.Checksum(payload), 16) {
      PayloadErrors(payload);
    }
  }

  lemma {:induction false} PayloadErrors(payload: seq<byte>)
    ensures var err := ReadPayload(payload).err;
            err != Some(PacketTooShort) && err != Some(InvalidPreamble) && err != Some(InvalidLength) && err != Some(Truncated)
  {
    if |payload| >= 3 { RecordErrors(payload[2..|payload| - 1], payload[0], payload[1], 0); }
  }

  lemma RecordErrors(s: seq<byte>, codecID: byte, n: nat, index: nat)
    ensures var err := ReadRecords(s, codecID, n, index).1;
            err == None || err.value.TrailingBytes? || err.value.EndOfRecords? || err.value.BadRecord?
    decreases n
  {
    hide Decoded;
    if n > 0 && s != [] && Decoded(s, codecID).Ok? {
      RecordErrors(s[Decoded(s, codecID).value.1..], codecID, n - 1, index + 1);
    }
  }

  // ---------- the connection ----------

  /** What a peer sent, in the pieces in which it arrives. */
  class Connection {
    var chunks: seq<seq<byte>>

    constructor (chunks: seq<seq<byte>>)
      ensures this.chunks == chunks
    {
      this.chunks := chunks;
    }

    /** The bytes still to be read. */
    function Stream(): seq<byte>
      reads this
    {
      Concat(chunks)
    }

    /** At most max bytes of the next piece; the end of the stream when there is none. */
    method Read(max: nat) returns (piece: Option<seq<byte>>)
      requires max > 0
      modifies this
      ensures old(chunks) == [] ==> piece == None && chunks == []
      ensures old(chunks) != [] ==> piece.Some? && |piece.value| <= max && old(Stream()) == piece.value + Stream()
      ensures old(chunks) != [] ==> |Stream()| + |chunks| < |old(Stream())| + |old(chunks)|
    {
      if chunks == [] { return None; }
      var first := chunks[0];
      if |first| <= max {
        chunks := chunks[1..];
        return Some(first);
      }
      var rest := [first[max..]] + chunks[1..];
      assert rest[1..] == chunks[1..];
      Assoc(first[..max], first[max..], Concat(chunks[1..]));
      assert first[..max] + first[max..] == first;
      chunks := rest;
      return Some(first[..max]);
    }

    /** Exactly n bytes, in as many reads as it takes; None when the stream ends first. */
    method ReadFull(n: nat) returns (r: Option<seq<byte>>)
      modifies this
      ensures match Full(old(Stream()), n)
              case None => r == None
              case Some((bytes, rest)) => r == Some(bytes) && Stream() == rest
    {
      var buffer: seq<byte> := [];
      ghost var whole := Stream();
      assert [] + whole == whole;
      while |buffer| < n
        invariant |buffer| <= n && whole == buffer + Stream()
        decreases |Stream()| + |chunks|
      {
        var piece := Read(n - |buffer|);
        if piece == None { return None; }
        Assoc(buffer, piece.value, Stream());
        buffer := buffer + piece.value;
      }
      assert whole[..n] == buffer && whole[n..] == Stream();
      return Some(buffer);
    }

    method ReadIMEI() returns (imei: Option<seq<byte>>)
      modifies this
      ensures match FirstIMEI(old(Stream()))
              case None => imei == None
              case Some((bytes, rest)) => imei == Some(bytes) && Stream() == rest
    {
      var lenBuf := ReadFull(2);
      if lenBuf == None { return None; }
      var imeiLen := FromBigEndian(lenBuf.value);
      if imeiLen == 0 || imeiLen > MAX_IMEI_LENGTH { return None; }
      imei := ReadFull(imeiLen);
    }

    method ReadFrame() returns (frame: Option<seq<byte>>)
      modifies this
      ensures match FirstFrame(old(Stream()))
              case None => frame == None
              case Some((bytes, rest)) => frame == Some(bytes) && Stream() == rest
    {
      var header := ReadFull(8);
      if header == None { return None; }
      if header.value[..4] != [0, 0, 0, 0] { return None; }
      var dataFieldLen := FromBigEndian(header.value[4..8]);
      if dataFieldLen == 0 || dataFieldLen > MAX_DATA_FIELD_LENGTH { return None; }
      var payload := ReadFull(dataFieldLen + 4);
      if payload == None { return None; }
      return Some(header.value + payload.value);
    }
  }
}
