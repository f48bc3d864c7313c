/**
 One device session: the IMEI handshake, then a frame, its acknowledgement and its job, until the stream
 ends, a write fails, the server is cancelled, or a frame makes the decoder panic.  Nothing in a session
 recovers, so a panic ends the whole process.

 The device's side is Conversation: what an honest device gets back for the packets it encodes.
 */
module Session {
  import opened Options
  import opened Words
  import opened Bytes
  import opened Codec
  import opened WireFormat
  import opened Packet
  import opened Framing

  type IMEI = seq<byte>

  /** The work behind an acknowledgement; the records stand for the queue envelope built from them. */
  datatype Job = Job(imei: IMEI, frame: seq<byte>, records: seq<Record>)

  /** Crashed is the end of the process. */
  datatype Event = Sent(bytes: seq<byte>) | Submitted(job: Job) | Crashed

  /** What the environment does around one frame: cancellation before it, whether its envelope can be
      marshalled, and whether the acknowledgement can be written. */
  datatype Turn = Turn(cancelled: bool, marshals: bool, written: bool)

  // ---------- specification ----------

  function Ack(count: nat): seq<byte>
    requires count <= 255
  {
    Widths();
    ToBigEndian(count, 4)
  }

  /** A frame fills its array, so the parser has no spare bytes behind it. */
  predicate FramePanics(frame: seq<byte>) { PacketPanics(frame, 0) }

  /** The acknowledged count and the job of a frame that does not panic; one that does not parse counts zero. */
  function Validated(imei: IMEI, frame: seq<byte>, marshals: bool): (r: (nat, Option<Job>))
    ensures r.0 <= 255 && (r.1.Some? <==> r.0 > 0) && (r.1.Some? ==> |r.1.value.records| == r.0)
  {
    var p := ReadPacket(frame);
    if p.err.Some? || p.records == [] || !marshals then (0, None) else
      RecordsTileThePayload(frame);
      (|p.records|, Some(Job(imei, frame, p.records)))
  }

  /** The events of one frame that does not panic. */
  function Answer(imei: IMEI, frame: seq<byte>, turn: Turn): seq<Event> {
    var (accepted, job) := Validated(imei, frame, turn.marshals);
    if !turn.written then []
    else if job.Some? then [Sent(Ack(accepted)), Submitted(job.value)]
    else [Sent(Ack(accepted))]
  }

  /** The events from one frame on, while frames can be read. */
  function Serve(imei: IMEI, s: seq<byte>, env: nat -> Turn, k: nat): seq<Event>
    decreases |s|
  {
    if env(k).cancelled then []
    else match FirstFrame(s)
         case None => []
         case Some((frame, rest)) =>
           if FramePanics(frame) then [Crashed]
           else Answer(imei, frame, env(k)) + if env(k).written then Serve(imei, rest, env, k + 1) else []
  }

  predicate Allowed(allow: set<IMEI>, imei: IMEI) { allow == {} || imei in allow }

  /** A whole session; greeted is whether the one-byte answer to the IMEI can be written. */
  function Converse(allow: set<IMEI>, s: seq<byte>, greeted: bool, env: nat -> Turn): seq<Event> {
    match FirstIMEI(s)
    case None => []
    case Some((imei, rest)) =>
      if !greeted then []
      else if !Allowed(allow, imei) then [Sent([0x00])]
      else [Sent([0x01])] + Serve(imei, rest, env, 0)
  }

  // ---------- the session itself ----------

  class Session {
    const allow: set<IMEI>
    const conn: Connection
    var events: seq<Event>

    constructor (allow: set<IMEI>, conn: Connection)
      ensures this.allow == allow && this.conn == conn && events == []
    {
      this.allow, this.conn, events := allow, conn, [];
    }

    method WriteBytes(bytes: seq<byte>, ok: bool)
      modifies this
      ensures events == if ok then old(events) + [Sent(bytes)] else old(events)
    {
      if ok { events := events + [Sent(bytes)]; }
    }

    method ValidateFrame(imei: IMEI, frame: seq<byte>, marshals: bool) returns (r: Ending<(nat, Option<Job>)>)
      ensures r == if FramePanics(frame) then Panicked else Returned(Validated(imei, frame, marshals))
    {
      hide PacketPanics, ReadPacket;
      var parsed := ParsePacket(frame, []);
      if parsed.Panicked? { return Panicked; }
      var Parsed(_, records, err) := parsed.value;
      if err.Some? { return Returned((0, None)); }
      if |records| == 0 { return Returned((0, None)); }
      if !marshals { return Returned((0, None)); }
      return Returned((|records|, Some(Job(imei, frame, records))));
    }

    method Run(greeted: bool, env: nat -> Turn)
      modifies this, conn
      ensures events == old(events) + Converse(allow, old(conn.Stream()), greeted, env)
    {
      ghost var start, before := conn.Stream(), events;
      ConverseIs(allow, start, greeted, env, before);
      hide *;
      var imei := conn.ReadIMEI();
      if imei == None { return; }
      if !Allowed(allow, imei.value) {
        WriteBytes([0x00], greeted);
        return;
      }
      WriteBytes([0x01], greeted);
      if !greeted { return; }
      ServeFrames(imei.value, env);
    }

    method ServeFrames(imei: IMEI, env: nat -> Turn)
      modifies this, conn
      ensures events == old(events) + Serve(imei, old(conn.Stream()), env, 0)
    {
      ghost var whole := Serve(imei, conn.Stream(), env, 0);
      var k: nat := 0;
      assert events + whole == events + whole;
      hide Answer, Validated, FramePanics, FirstFrame;
      while true
        invariant old(events) + whole == events + Serve(imei, conn.Stream(), env, k)
        decreases |conn.Stream()|
      {
        NothingServed(imei, conn.Stream(), env, k, events);
        if env(k).cancelled { return; }
        ghost var before := conn.Stream();
        var frame := conn.ReadFrame();
        if frame == None { return; }
        ghost var done := events;
        OneServed(imei, before, env, k, done);
        var validated := ValidateFrame(imei, frame.value, env(k).marshals);
        if validated.Panicked? {
          events := events + [Crashed];
          return;
        }
        var (accepted, job) := validated.value;
        if !env(k).written { return; }
        WriteBytes(Ack(accepted), env(k).written);
        if job.Some? { events := events + [Submitted(job.value)]; }
        AnswerIs(imei, frame.value, env(k), done);
        k := k + 1;
      }
    }
  }

  lemma ConverseIs(allow: set<IMEI>, s: seq<byte>, greeted: bool, env: nat -> Turn, done: seq<Event>)
    ensures done + Converse(allow, s, greeted, env) ==
              match FirstIMEI(s)
              case None => done
              case Some((imei, rest)) =>
                if !greeted then done
                else if !Allowed(allow, imei) then done + [Sent([0x00])]
                else done + [Sent([0x01])] + Serve(imei, rest, env, 0)
  {
    hide FirstIMEI, Serve;
  }

  lemma NothingServed(imei: IMEI, s: seq<byte>, env: nat -> Turn, k: nat, done: seq<Event>)
    ensures env(k).cancelled || FirstFrame(s) == None ==> done + Serve(imei, s, env, k) == done
  {
  }

  lemma OneServed(imei: IMEI, s: seq<byte>, env: nat -> Turn, k: nat, done: seq<Event>)
    requires !env(k).cancelled && FirstFrame(s).Some?
    ensures var (frame, rest) := FirstFrame(s).value;
            done + Serve(imei, s, env, k) ==
              if FramePanics(frame) then done + [Crashed]
              else if env(k).written then done + Answer(imei, frame, env(k)) + Serve(imei, rest, env, k + 1) else done
  {
    var (frame, rest) := FirstFrame(s).value;
    ServedFirst(imei, s, env, k);
    hide *;
    Behind(done, Answer(imei, frame, env(k)), Serve(imei, rest, env, k + 1));
    assert done + [] == done;
  }

  lemma Behind<T>(a: seq<T>, b: seq<T>, c: seq<T>)
    ensures a + (b + c) == a + b + c
  {
  }

  lemma ServedFirst(imei: IMEI, s: seq<byte>, env: nat -> Turn, k: nat)
    requires !env(k).cancelled && FirstFrame(s).Some?
    ensures var (frame, rest) := FirstFrame(s).value;
            Serve(imei, s, env, k) ==
              if FramePanics(frame) then [Crashed]
              else if env(k).written then Answer(imei, frame, env(k)) + Serve(imei, rest, env, k + 1) else []
  {
    var frame := FirstFrame(s).value.0;
    assert !env(k).written ==> Answer(imei, frame, env(k)) + [] == [];
    hide Answer, FramePanics, FirstFrame;
  }

  lemma AnswerIs(imei: IMEI, frame: seq<byte>, turn: Turn, done: seq<Event>)
    requires turn.written
    ensures var (accepted, job) := Validated(imei, frame, turn.marshals);
            done + Answer(imei, frame, turn) ==
              if job.Some? then done + [Sent(Ack(accepted))] + [Submitted(job.value)] else done + [Sent(Ack(accepted))]
  {
    hide Validated, Ack;
  }

  // ---------- the protocol ----------

  /** Acknowledgements, and behind one that is not zero the job with as many records; a crash is the last event. */
  predicate Protocol(es: seq<Event>) {
    es != [] && es != [Crashed] ==>
      && es[0].Sent?
      && (exists n: nat :: n <= 255 && es[0] == Sent(Ack(n)))
      && if |es| > 1 && es[1].Submitted? then
           0 < |es[1].job.records| <= 255 && es[0] == Sent(Ack(|es[1].job.records|)) && Protocol(es[2..])
         else Protocol(es[1..])
  }

  lemma {:induction false} ServeFollowsTheProtocol(imei: IMEI, s: seq<byte>, env: nat -> Turn, k: nat)
    ensures Protocol(Serve(imei, s, env, k))
    ensures Serve(imei, s, env, k) != [] ==> !Serve(imei, s, env, k)[0].Submitted?
    decreases |s|
  {
    if !env(k).cancelled && FirstFrame(s).Some? && !FramePanics(FirstFrame(s).value.0) && env(k).written {
      var (frame, rest) := FirstFrame(s).value;
      ServeFollowsTheProtocol(imei, rest, env, k + 1);
      ServeOne(imei, s, env, k);
      hide FirstFrame, Serve, FramePanics;
      AnswerThenProtocol(imei, frame, env(k), Serve(imei, rest, env, k + 1));
    }
  }

  lemma AnswerThenProtocol(imei: IMEI, frame: seq<byte>, turn: Turn, rest: seq<Event>)
    requires turn.written && Protocol(rest) && (rest != [] ==> !rest[0].Submitted?)
    ensures Protocol(Answer(imei, frame, turn) + rest) && (Answer(imei, frame, turn) + rest)[0].Sent?
  {
    var (accepted, job) := Validated(imei, frame, turn.marshals);
    hide Validated, Ack;
    var es := Answer(imei, frame, turn) + rest;
    assert es[0] == Sent(Ack(accepted));
    if job.Some? {
      assert es[1] == Submitted(job.value) && es[2..] == rest;
    } else {
      assert es[1..] == rest;
    }
  }

  /** How many of these frames are answered before the session is cancelled, a write fails, or one panics. */
  function Served(fs: seq<seq<byte>>, env: nat -> Turn, k: nat): (n: nat)
    ensures n <= |fs|
  {
    if fs == [] || env(k).cancelled || FramePanics(fs[0]) || !env(k).written then 0 else 1 + Served(fs[1..], env, k + 1)
  }

  function Answers(imei: IMEI, fs: seq<seq<byte>>, env: nat -> Turn, k: nat): seq<Event> {
    if fs == [] then [] else Answer(imei, fs[0], env(k)) + Answers(imei, fs[1..], env, k + 1)
  }

  /** What ends the session behind the answered frames: the process, when the next frame panics. */
  function Last(fs: seq<seq<byte>>, env: nat -> Turn, k: nat): seq<Event> {
    if fs != [] && !env(k).cancelled && FramePanics(fs[0]) then [Crashed] else []
  }

  /** One answer to each of the first n frames, and what ends the session behind them. */
  function Told(imei: IMEI, fs: seq<seq<byte>>, env: nat -> Turn, k: nat, n: nat): seq<Event>
    requires n <= |fs|
  {
    Answers(imei, fs[..n], env, k) + Last(fs[n..], env, k + n)
  }

  lemma OneToldFirst(imei: IMEI, fs: seq<seq<byte>>, env: nat -> Turn, k: nat, n: nat)
    requires fs != [] && n < |fs|
    ensures Told(imei, fs, env, k, 1 + n) == Answer(imei, fs[0], env(k)) + Told(imei, fs[1..], env, k + 1, n)
  {
    hide Answer, Last;
    assert fs[..1 + n][0] == fs[0] && fs[..1 + n][1..] == fs[1..][..n] && fs[1 + n..] == fs[1..][n..];
    var a, b, c := Answer(imei, fs[0], env(k)), Answers(imei, fs[1..][..n], env, k + 1), Last(fs[1..][n..], env, k + 1 + n);
    assert k + (1 + n) == k + 1 + n && a + (b + c) == (a + b) + c;
  }

  /** The events of a list of frames. */
  function Transcript(imei: IMEI, fs: seq<seq<byte>>, env: nat -> Turn, k: nat): seq<Event> {
    if fs == [] || env(k).cancelled then []
    else if FramePanics(fs[0]) then [Crashed]
    else if env(k).written then Answer(imei, fs[0], env(k)) + Transcript(imei, fs[1..], env, k + 1)
    else []
  }

  lemma {:induction false} ServeIsTranscript(imei: IMEI, s: seq<byte>, env: nat -> Turn, k: nat)
    ensures Serve(imei, s, env, k) == Transcript(imei, ReadFrames(s), env, k)
    decreases |s|
  {
    if FirstFrame(s).Some? && !env(k).cancelled {
      var (f, rest) := FirstFrame(s).value;
      ServeOne(imei, s, env, k);
      hide Answer, FirstFrame, Serve, ReadFrames, FramePanics;
      ServeIsTranscript(imei, rest, env, k + 1);
      assert ([f] + ReadFrames(rest))[1..] == ReadFrames(rest);
    }
  }

  lemma NoneAnswered(imei: IMEI, fs: seq<seq<byte>>, env: nat -> Turn, k: nat)
    requires fs == [] || env(k).cancelled || FramePanics(fs[0]) || !env(k).written
    ensures Served(fs, env, k) == 0 && Transcript(imei, fs, env, k) == Told(imei, fs, env, k, 0)
  {
    hide FramePanics;
    assert fs[..0] == [] && fs[0..] == fs && k + 0 == k;
    assert !env(k).written && fs != [] ==> Answer(imei, fs[0], env(k)) == [];
  }

  lemma {:induction false} TranscriptIsTold(imei: IMEI, fs: seq<seq<byte>>, env: nat -> Turn, k: nat)
    ensures Transcript(imei, fs, env, k) == Told(imei, fs, env, k, Served(fs, env, k))
    decreases |fs|
  {
    hide Answer, FramePanics, Told;
    if fs == [] || env(k).cancelled || FramePanics(fs[0]) || !env(k).written {
      NoneAnswered(imei, fs, env, k);
    } else {
      TranscriptIsTold(imei, fs[1..], env, k + 1);
      OneToldFirst(imei, fs, env, k, Served(fs[1..], env, k + 1));
    }
  }

  /** Each frame of the stream gets one answer, in order, up to the point where the session ends; it ends with
      the process exactly when the next frame is read and panics. */
  lemma EveryFrameIsAnswered(imei: IMEI, s: seq<byte>, env: nat -> Turn, k: nat)
    ensures var fs := ReadFrames(s);
            var n := Served(fs, env, k);
            Serve(imei, s, env, k) == Answers(imei, fs[..n], env, k) + Last(fs[n..], env, k + n)
  {
    hide Serve, ReadFrames, Transcript, Answers, Last;
    ServeIsTranscript(imei, s, env, k);
    TranscriptIsTold(imei, ReadFrames(s), env, k);
  }

  lemma ServeOne(imei: IMEI, s: seq<byte>, env: nat -> Turn, k: nat)
    requires FirstFrame(s).Some? && !env(k).cancelled
    ensures var (f, rest) := FirstFrame(s).value;
            && ReadFrames(s) == [f] + ReadFrames(rest)
            && Serve(imei, s, env, k) ==
                 if FramePanics(f) then [Crashed]
                 else if env(k).written then Answer(imei, f, env(k)) + Serve(imei, rest, env, k + 1)
                 else []
  {
    hide FirstFrame, Validated, FramePanics;
  }

  /** An allowed device whose first frame holds whole records and then a rest of 9 to 18 bytes gets its 0x01
      and no acknowledgement: the process ends. */
  lemma {:induction false} ShortRestsEndTheProcess(allow: set<IMEI>, imei: IMEI, codecID: byte, n: byte, ws: seq<Wire>, rest: seq<byte>,
                                                   t: seq<byte>, env: nat -> Turn)
    requires 1 <= |imei| <= 32 && (allow == {} || imei in allow) && !env(0).cancelled
    requires |ws| < n && AllFit(ws, codecID) && 9 <= |rest| <= 18
    requires |ShortPayload(codecID, n, ws, rest)| <= 2048
    ensures Converse(allow, Handshake(imei) + (Framed(ShortPayload(codecID, n, ws, rest)) + t), true, env) == [Sent([0x01]), Crashed]
  {
    var payload := ShortPayload(codecID, n, ws, rest);
    hide *;
    ShortRestsPanic(codecID, n, ws, rest);
    FramedIsFrame(payload);
    PanicEndsTheProcess(allow, imei, Framed(payload), t, env);
  }

  lemma PanicEndsTheProcess(allow: set<IMEI>, imei: IMEI, frame: seq<byte>, t: seq<byte>, env: nat -> Turn)
    requires 1 <= |imei| <= 32 && (allow == {} || imei in allow) && !env(0).cancelled
    requires IsFrame(frame) && PacketPanics(frame, 0)
    ensures Converse(allow, Handshake(imei) + (frame + t), true, env) == [Sent([0x01]), Crashed]
  {
    hide *;
    HandshakeIsRead(imei, frame + t);
    FramesAreRead(frame + t, frame, t);
    PanicIsServed(imei, frame, frame + t, t, env);
    ServesTheRest(allow, imei, Handshake(imei) + (frame + t), frame + t, env);
    assert [Sent([0x01])] + [Crashed] == [Sent([0x01]), Crashed];
  }

  lemma PanicIsServed(imei: IMEI, frame: seq<byte>, s: seq<byte>, t: seq<byte>, env: nat -> Turn)
    requires FirstFrame(s) == Some((frame, t)) && PacketPanics(frame, 0) && !env(0).cancelled
    ensures Serve(imei, s, env, 0) == [Crashed]
  {
    hide FirstFrame, PacketPanics;
  }

  lemma ServesTheRest(allow: set<IMEI>, imei: IMEI, s: seq<byte>, rest: seq<byte>, env: nat -> Turn)
    requires FirstIMEI(s) == Some((imei, rest)) && (allow == {} || imei in allow)
    ensures Converse(allow, s, true, env) == [Sent([0x01])] + Serve(imei, rest, env, 0)
  {
    hide FirstIMEI, Serve;
  }

  /** A device that is not on the list gets 0x00 and nothing else, whatever it sends; when its greeting cannot be
      written no device is served. */
  lemma {:induction false} StrangersAreTurnedAway(allow: set<IMEI>, imei: IMEI, t: seq<byte>, env: nat -> Turn)
    requires allow != {} && imei !in allow && 1 <= |imei| <= 32
    ensures Converse(allow, Handshake(imei) + t, true, env) == [Sent([0x00])]
    ensures forall list :: Converse(list, Handshake(imei) + t, false, env) == []
  {
    HandshakeIsRead(imei, t);
    hide FirstIMEI, Handshake, Serve;
  }

  // ---------- an honest device ----------

  /** A packet as a device builds it: its codec and its records. */
  datatype Packed = Packed(codecID: byte, ws: seq<Wire>)

  predicate AllPackable(ps: seq<Packed>) { ps != [] ==> Packable(ps[0].ws, ps[0].codecID) && AllPackable(ps[1..]) }

  function FrameOf(p: Packed): seq<byte>
    requires Packable(p.ws, p.codecID)
  {
    Framed(EncodePayload(p.ws, p.codecID))
  }

  function FramesOf(ps: seq<Packed>): seq<seq<byte>>
    requires AllPackable(ps)
  {
    if ps == [] then [] else [FrameOf(ps[0])] + FramesOf(ps[1..])
  }

  function Handshake(imei: IMEI): seq<byte>
    requires 1 <= |imei| <= 32
  {
    Widths();
    ToBigEndian(|imei|, 2) + imei
  }

  /** What the device gets: one byte, then for each packet the number of its records and a job holding them. */
  function Conversation(imei: IMEI, ps: seq<Packed>): seq<Event>
    requires AllPackable(ps)
  {
    if ps == [] then []
    else
      var n := |ps[0].ws|;
      var rest := Conversation(imei, ps[1..]);
      if n == 0 then [Sent(Ack(0))] + rest
      else [Sent(Ack(n)), Submitted(Job(imei, FrameOf(ps[0]), Meanings(ps[0].ws, ps[0].codecID)))] + rest
  }

  /** The bytes a device sends first. */
  lemma {:induction false} HandshakeBytes(imei: IMEI)
    requires 1 <= |imei| <= 32
    ensures Handshake(imei) == [0, |imei|] + imei
  {
    TwoBytes(|imei|);
  }

  /** The four bytes of an acknowledgement. */
  lemma {:induction false} AckIs(count: byte)
    ensures Ack(count) == [0, 0, 0, count]
  {
    FourBytes(count);
  }

  lemma AnswerWith(imei: IMEI, frame: seq<byte>, marshals: bool, answer: seq<Event>)
    requires answer == Answer(imei, frame, Turn(false, marshals, true))
    ensures var p := ReadPacket(frame);
            if p.err == None && marshals && p.records != [] then
              |p.records| <= 255 && answer == [Sent(Ack(|p.records|)), Submitted(Job(imei, frame, p.records))]
            else answer == [Sent(Ack(0))]
  {
    hide ReadPacket, Ack;
  }

  /** A frame is answered with the number of its records in four bytes, and zero when it does not parse, holds none, or
      its envelope cannot be marshalled; behind a number other than zero comes the job with those records. */
  lemma {:induction false} FramesAreAnswered(imei: IMEI, frame: seq<byte>, marshals: bool)
    ensures var p := ReadPacket(frame);
            var answer := Answer(imei, frame, Turn(false, marshals, true));
            if p.err == None && marshals && p.records != [] then
              && |p.records| <= 255
              && answer == [Sent([0, 0, 0, |p.records|]), Submitted(Job(imei, frame, p.records))]
            else answer == [Sent([0, 0, 0, 0])]
  {
    var n := |ReadPacket(frame).records|;
    hide *;
    AnswerWith(imei, frame, marshals, Answer(imei, frame, Turn(false, marshals, true)));
    AckIs(0);
    if n <= 255 { AckIs(n); }
  }

  lemma HandshakeIsRead(imei: IMEI, t: seq<byte>)
    requires 1 <= |imei| <= 32
    ensures FirstIMEI(Handshake(imei) + t) == Some((imei, t))
  {
    Widths();
    var a := ToBigEndian(|imei|, 2);
    var s := Handshake(imei) + t;
    assert s[..2] == a && s[2..] == imei + t;
    assert (imei + t)[..|imei|] == imei && (imei + t)[|imei|..] == t;
  }

  lemma FramedIsFrame(payload: seq<byte>)
    requires 1 <= |payload| <= 2048
    ensures IsFrame(Framed(payload))
  {
    FrameIff(Framed(payload), payload);
  }

  lemma {:induction false} PackedIsAnswered(imei: IMEI, p: Packed, turn: Turn)
    requires Packable(p.ws, p.codecID) && turn == Turn(false, true, true)
    ensures IsFrame(FrameOf(p)) && !FramePanics(FrameOf(p))
    ensures Answer(imei, FrameOf(p), turn) ==
              if p.ws == [] then [Sent(Ack(0))]
              else [Sent(Ack(|p.ws|)), Submitted(Job(imei, FrameOf(p), Meanings(p.ws, p.codecID)))]
  {
    hide EncodePayload, Framed, IsFrame, ReadPacket, Meanings, Packable, Ack, PacketPanics;
    PacketRoundTrip(p.ws, p.codecID, []);
    assert FrameOf(p) + [] == FrameOf(p);
    AcceptedPacketsReturn(FrameOf(p), 0);
    PayloadSize(p);
    FramedIsFrame(EncodePayload(p.ws, p.codecID));
  }

  lemma PayloadSize(p: Packed)
    requires Packable(p.ws, p.codecID)
    ensures 1 <= |EncodePayload(p.ws, p.codecID)| <= 2048 && |p.ws| <= 255
  {
  }

  lemma {:induction false} PacketsAreServed(imei: IMEI, ps: seq<Packed>, env: nat -> Turn, k: nat)
    requires AllPackable(ps) && forall i :: env(i) == Turn(false, true, true)
    ensures Serve(imei, Concat(FramesOf(ps)), env, k) == Conversation(imei, ps)
    decreases |ps|
  {
    if ps == [] {
      assert FirstFrame([]) == None;
    } else {
      var f, rest := FrameOf(ps[0]), Concat(FramesOf(ps[1..]));
      PacketsAreServed(imei, ps[1..], env, k + 1);
      PackedIsAnswered(imei, ps[0], env(k));
      assert ([f] + FramesOf(ps[1..]))[1..] == FramesOf(ps[1..]);
      hide FrameOf, FirstFrame, IsFrame, Packable, Meanings, Ack, FramePanics, Serve, Answer;
      FramesAreRead(f + rest, f, rest);
      ServeNext(imei, f + rest, env, k);
    }
  }

  lemma ServeNext(imei: IMEI, s: seq<byte>, env: nat -> Turn, k: nat)
    requires FirstFrame(s).Some? && !env(k).cancelled && env(k).written && !FramePanics(FirstFrame(s).value.0)
    ensures var (f, rest) := FirstFrame(s).value;
            Serve(imei, s, env, k) == Answer(imei, f, env(k)) + Serve(imei, rest, env, k + 1)
  {
    hide FirstFrame, FramePanics, Answer;
  }

  /** An allowed device that sends its IMEI and any packets it encoded gets 0x01 and one count per packet,
      and the records of each are handed on. */
  lemma {:induction false} DeviceConversation(allow: set<IMEI>, imei: IMEI, ps: seq<Packed>, env: nat -> Turn)
    requires 1 <= |imei| <= 32 && (allow == {} || imei in allow) && AllPackable(ps)
    requires forall i :: env(i) == Turn(false, true, true)
    ensures Converse(allow, Handshake(imei) + Concat(FramesOf(ps)), true, env) == [Sent([0x01])] + Conversation(imei, ps)
  {
    hide Handshake, FirstIMEI;
    HandshakeIsRead(imei, Concat(FramesOf(ps)));
    PacketsAreServed(imei, ps, env, 0);
  }
}
