// What a station reads in the daemon's 802.11 answers, by a decoder that follows the frame layout of the standard, and
// which answer every input gets.

module DaemonAnswers {
  import opened Bytes
  import opened DaemonModel
  import opened DaemonInputs
  import opened DaemonInvariants
  import opened DaemonEffects
  import opened DaemonLaws
  import Framing

  // ---------------------------------------------------------------- the station's decoder

  /** An information element. */
  datatype Element = Element(id: byte, data: seq<byte>)

  datatype Answer =
    | Probed(interval: u16, capability: u16, elements: seq<Element>)
    | Authenticated(algorithm: u16, sequence: u16, status: u16)
    | Associated(again: bool, capability: u16, status: u16, association: u16, elements: seq<Element>)
    | Paired(stage: byte, data: seq<byte>)
    | Welcomed(wcid: byte)
    | Unreadable

  /** An answer with its addresses and the transmit queue entry it goes out on. */
  datatype Reply = Reply(receiver: seq<byte>, sender: seq<byte>, bss: seq<byte>, wcid: byte, answer: Answer)

  function Elements(b: seq<byte>): Option<seq<Element>>
    decreases |b|
  {
    if b == [] then Some([])
    else if |b| < 2 || |b| < 2 + b[1] as int then None
    else
      var n := 2 + b[1] as int;
      match Elements(b[n..])
      case None => None
      case Some(rest) => Some([Element(b[0], b[2..n])] + rest)
  }

  /** Type management, the subtype, no flags, no duration, no sequence number. */
  predicate IsManagement(frame: seq<byte>, subtype: nat) {
    && |frame| >= 24 && frame[0] % 16 == 0 && frame[0] / 16 == subtype
    && frame[1..4] == [0, 0, 0] && frame[22..24] == [0, 0]
  }

  function AnswerIn(frame: seq<byte>): Answer {
    if |frame| < 24 then Unreadable
    else
      var body := frame[24..];
      if IsManagement(frame, 5) && |body| >= 12 && Elements(body[12..]).Some? then
        Probed(Read16(body, 8), Read16(body, 10), Elements(body[12..]).value)
      else if IsManagement(frame, 11) && |body| == 6 then
        Authenticated(Read16(body, 0), Read16(body, 2), Read16(body, 4))
      else if (IsManagement(frame, 1) || IsManagement(frame, 3)) && |body| >= 6 && Elements(body[6..]).Some? then
        Associated(IsManagement(frame, 3), Read16(body, 0), Read16(body, 2), Read16(body, 4), Elements(body[6..]).value)
      else if IsManagement(frame, 7) && |body| >= 2 && body[0] == 0x70 then Paired(body[1], body[2..])
      else if IsManagement(frame, 13) && |body| == 8 && body[..6] == [0x7f, 0x00, 0x17, 0xf2, 0x08, 0x11] then
        Welcomed(body[6])
      else Unreadable
  }

  function ReadFrame(frame: seq<byte>, wcid: byte): Reply {
    if |frame| < 24 then Reply([], [], [], wcid, Unreadable)
    else Reply(frame[4..10], frame[10..16], frame[16..22], wcid, AnswerIn(frame))
  }

  ghost function Replies(out: seq<Output>): (r: seq<Reply>)
    ensures |r| == |out|
    ensures forall i :: 0 <= i < |out| && out[i].WlanTx? ==> r[i] == ReadFrame(out[i].frame, out[i].wcid)
  {
    seq(|out|, i requires 0 <= i < |out| =>
      if out[i].WlanTx? then ReadFrame(out[i].frame, out[i].wcid) else Reply([], [], [], 0, Unreadable))
  }

  // ---------------------------------------------------------------- what is due

  /** The sequence number after the requested one, which wraps; 2 when none, or zero, was requested. */
  function NextAuthentication(body: seq<byte>): nat {
    if |body| < 4 || (body[2] == 0 && body[3] == 0) then 2 else (body[2] as int + 256 * body[3] as int + 1) % 0x1_0000
  }

  const MICROSOFT: seq<byte> :=
    [0x00, 0x50, 0xf2, 0x11, 0x01, 0x10, 0x00, 0x24, 0x9d, 0x99, 0x00, 0x00, 0x00, 0x00, 0x00, 0x00]

  const PAIRING: seq<byte> := [0x00, 0x45, 0x55, 0x01, 0x0f, 0x8f, 0xff, 0x87, 0x1f]

  const NO_SSID := Element(0, [])

  /** The answer to each kind of request; every one comes from us, to the sender. */
  ghost function AnswersDue(s: State, d: Meaning): seq<(byte, Answer)> {
    match d
    case Greeting(src) => if Opens(s, src) then [(Entry(s, src), Welcomed(Entry(s, src)))] else []
    case Probe(src, emptySsid) =>
      if emptySsid then
        [(Entry(s, src), Probed(100, 0xc631, [NO_SSID, Element(3, [s.radio.channel]), Element(0xdd, MICROSOFT)]))]
      else []
    case PairRequest(src, firstStage) => if firstStage then [(255, Paired(2, PAIRING))] else []
    case Authentication(src, body) =>
      var algorithm := if |body| >= 2 then body[0] as int + 256 * body[1] as int else 0;
      [(Entry(s, src), Authenticated(algorithm, NextAuthentication(body), 0))]
    case Association(src, again) =>
      if Was(s, src).sessionInitialized then []
      else [(255, Associated(again, 0, 0, 0xc001, [NO_SSID, NO_SSID, NO_SSID, NO_SSID]))]
    case _ => []
  }

  ghost function RepliesDue(c: Config, s: State, d: Meaning): (r: seq<Reply>)
    ensures |r| == |AnswersDue(s, d)| <= 1
  {
    if AnswersDue(s, d) == [] then []
    else var (wcid, answer) := AnswersDue(s, d)[0]; [Reply(d.src, c.ourMac, c.ourMac, wcid, answer)]
  }

  // ---------------------------------------------------------------- the five builders

  lemma HeaderReads(fc: byte, dst: Mac, ourMac: Mac, body: seq<byte>, wcid: byte)
    requires fc % 16 == 0
    ensures var frame := Management(fc, dst, ourMac) + body;
            && |frame| >= 24 && frame[24..] == body
            && ReadFrame(frame, wcid) == Reply(dst, ourMac, ourMac, wcid, AnswerIn(frame))
            && forall n: nat :: IsManagement(frame, n) <==> n == fc / 16
  {
    var h, frame := Management(fc, dst, ourMac), Management(fc, dst, ourMac) + body;
    assert frame[1..4] == [0, 0, 0] && frame[22..24] == [0, 0];
    assert frame[4..10] == dst && frame[10..16] == ourMac && frame[16..22] == ourMac;
  }

  /** One element more in front. */
  lemma ElementsCons(b: seq<byte>, id: byte, data: seq<byte>, rest: seq<byte>, more: seq<Element>, all: seq<Element>)
    requires |data| < 256 && b == [id, |data|] + data + rest
    requires Elements(rest) == Some(more) && all == [Element(id, data)] + more
    ensures Elements(b) == Some(all)
  {
    assert b[2..2 + |data|] == data && b[2 + |data|..] == rest;
  }

  lemma ProbeElements(channel: byte)
    ensures Elements([0x00, 0x00, 0x03, 0x01, channel] + VENDOR_IE) ==
            Some([NO_SSID, Element(3, [channel]), Element(0xdd, MICROSOFT)])
  {
    var vendor := [Element(0xdd, MICROSOFT)];
    ElementsCons(VENDOR_IE, 0xdd, MICROSOFT, [], [], vendor);
    var tail := [0x03, 0x01, channel] + VENDOR_IE;
    ElementsCons(tail, 3, [channel], VENDOR_IE, vendor, [Element(3, [channel])] + vendor);
    ElementsCons([0x00, 0x00, 0x03, 0x01, channel] + VENDOR_IE, 0, [], tail, [Element(3, [channel])] + vendor,
                 [NO_SSID, Element(3, [channel]), Element(0xdd, MICROSOFT)]);
  }

  lemma {:induction false} EmptyElements(n: nat)
    ensures Elements(Zeros(2 * n)) == Some(Repeat(n, NO_SSID))
  {
    if n > 0 {
      EmptyElements(n - 1);
      ElementsCons(Zeros(2 * n), 0, [], Zeros(2 * (n - 1)), Repeat(n - 1, NO_SSID), Repeat(n, NO_SSID));
    }
  }

  lemma FourEmpty()
    ensures Elements(Zeros(8)) == Some([NO_SSID, NO_SSID, NO_SSID, NO_SSID])
  {
    EmptyElements(4);
    assert Repeat(4, NO_SSID) == [NO_SSID, NO_SSID, NO_SSID, NO_SSID];
  }

  lemma ProbeReads(dst: Mac, ourMac: Mac, channel: byte, wcid: byte)
    ensures ReadFrame(ProbeResponse(dst, ourMac, channel), wcid) ==
            Reply(dst, ourMac, ourMac, wcid,
                  Probed(100, 0xc631, [NO_SSID, Element(3, [channel]), Element(0xdd, MICROSOFT)]))
  {
    var fixed := Zeros(8) + [0x64, 0x00, 0x31, 0xc6];
    var elements := [0x00, 0x00, 0x03, 0x01, channel] + VENDOR_IE;
    HeaderReads(0x50, dst, ourMac, fixed + elements, wcid);
    assert ProbeResponse(dst, ourMac, channel) == Management(0x50, dst, ourMac) + (fixed + elements);
    assert (fixed + elements)[12..] == elements;
    ProbeElements(channel);
  }

  lemma AuthReads(dst: Mac, ourMac: Mac, request: seq<byte>, wcid: byte)
    ensures ReadFrame(AuthResponse(dst, ourMac, request), wcid) ==
            Reply(dst, ourMac, ourMac, wcid,
                  Authenticated(if |request| >= 2 then request[0] as int + 256 * request[1] as int else 0,
                                NextAuthentication(request), 0))
  {
    var algorithm: u16 := if |request| >= 2 then request[0] as int + 256 * request[1] as int else 0;
    var body := Le16(algorithm) + Le16(NextAuthentication(request)) + Le16(0);
    HeaderReads(0xb0, dst, ourMac, body, wcid);
    assert AuthResponse(dst, ourMac, request) == Management(0xb0, dst, ourMac) + body;
    assert body[0] == algorithm % 256 && body[1] == algorithm / 256;
    assert body[2] == NextAuthentication(request) % 256 && body[3] == NextAuthentication(request) / 256;
  }

  lemma AssocReads(dst: Mac, ourMac: Mac, again: bool, wcid: byte)
    ensures ReadFrame(AssocResponse(dst, ourMac, again), wcid) ==
            Reply(dst, ourMac, ourMac, wcid, Associated(again, 0, 0, 0xc001, [NO_SSID, NO_SSID, NO_SSID, NO_SSID]))
  {
    var fixed := [0x00, 0x00, 0x00, 0x00, 0x01, 0xc0];
    var body := fixed + Zeros(8);
    HeaderReads(if again then 0x30 else 0x10, dst, ourMac, body, wcid);
    assert AssocResponse(dst, ourMac, again) == Management(if again then 0x30 else 0x10, dst, ourMac) + body;
    assert body[6..] == Zeros(8) && Read16(body, 0) == 0 && Read16(body, 2) == 0 && Read16(body, 4) == 0xc001;
    FourEmpty();
  }

  lemma PairReads(dst: Mac, ourMac: Mac, wcid: byte)
    ensures ReadFrame(PairResponse(dst, ourMac), wcid) == Reply(dst, ourMac, ourMac, wcid, Paired(2, PAIRING))
  {
    HeaderReads(0x70, dst, ourMac, PAIR_PAYLOAD, wcid);
    assert PAIR_PAYLOAD[2..] == PAIRING;
  }

  lemma GreetingReads(dst: Mac, ourMac: Mac, w: byte, wcid: byte)
    ensures ReadFrame(ActionResponse(dst, ourMac, w), wcid) == Reply(dst, ourMac, ourMac, wcid, Welcomed(w))
  {
    HeaderReads(0xd0, dst, ourMac, [0x7f, 0x00, 0x17, 0xf2, 0x08, 0x11, w, 0x00], wcid);
  }

  // ---------------------------------------------------------------- the answer to every input

  lemma FramesRead(c: Config, s: State, d: Meaning)
    ensures Replies(FramesDue(c, s, d)) == RepliesDue(c, s, d)
  {
    match d {
      case Greeting(src) => GreetingReads(src, c.ourMac, Entry(s, src), Entry(s, src));
      case Probe(src, _) => ProbeReads(src, c.ourMac, s.radio.channel, Entry(s, src));
      case PairRequest(src, _) => PairReads(src, c.ourMac, 255);
      case Authentication(src, body) => AuthReads(src, c.ourMac, body, Entry(s, src));
      case Association(src, again) => AssocReads(src, c.ourMac, again, 255);
      case _ =>
    }
  }

  /** The packet of each answer reaches the sender of the request. */
  ghost predicate ReachSender(out: seq<Output>, m: Mac) {
    forall i :: 0 <= i < |out| ==> out[i].WlanTx? && Framing.Reaches(out[i].frame, m, out[i].wcid)
  }

  lemma FramesReach(c: Config, s: State, d: Meaning)
    ensures FramesDue(c, s, d) != [] ==> ReachSender(FramesDue(c, s, d), d.src)
  {
    var out := FramesDue(c, s, d);
    if out != [] {
      assert out == [WlanTx(out[0].frame, out[0].wcid)];
      DueReaches(c, s, d, out[0].frame, out[0].wcid);
    }
  }

  lemma DueReaches(c: Config, s: State, d: Meaning, frame: seq<byte>, wcid: byte)
    requires FramesDue(c, s, d) == [WlanTx(frame, wcid)]
    ensures Framing.Reaches(frame, d.src, wcid)
  {
    assert [WlanTx(frame, wcid)][0] == FramesDue(c, s, d)[0];
    var request := if d.Authentication? then d.body else [];
    var again := d.Association? && d.again;
    Framing.ResponsesReach(d.src, c.ourMac, s.radio.channel, request, again, Entry(s, d.src), wcid);
  }

  /** Every input gets exactly the answers that are due, as a station reads them: an authentication frame to us one
      success with its algorithm and the next sequence number, on the sender's WCID; a probe without a name our channel;
      a (re)association outside a session one success; the first pairing stage the second; a first greeting the WCID;
      anything else no frame at all. */
  lemma AnswersOfStep(c: Config, s: State, i: Stimulus)
    requires Inv(s)
    ensures Replies(Only(New(s, Step(c, s, i)), Frames)) == RepliesDue(c, s, MeaningOf(c, i))
    ensures var out := Only(New(s, Step(c, s, i)), Frames); out != [] ==> ReachSender(out, MeaningOf(c, i).src)
  {
    StepSends(c, s, i, Frames);
    FramesRead(c, s, MeaningOf(c, i));
    FramesReach(c, s, MeaningOf(c, i));
  }
}
