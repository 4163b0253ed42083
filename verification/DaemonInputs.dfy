// What an input asks of the daemon, read off the bytes of the transfer: the reference the theorems about single steps
// speak in.

module DaemonInputs {
  import opened Bytes
  import opened DaemonModel

  datatype Meaning =
    | Message(src: Mac, gip: seq<byte>)
    | Greeting(src: Mac)
    | Probe(src: Mac, emptySsid: bool)
    | PairRequest(src: Mac, firstStage: bool)
    | Authentication(src: Mac, body: seq<byte>)
    | Association(src: Mac, again: bool)
    | Lost(slot: byte)
    | Button
    | WakeUp
    | Nothing

  /** Directed probes and requests to pair, to authenticate or to associate. */
  predicate IsPairing(d: Meaning) { d.Probe? || d.PairRequest? || d.Authentication? || d.Association? }

  /** Whether a transfer brings an 802.11 frame. Its first word has the length in bits 0 to 13, the 802.11 flag in bit
      19, the event type in bits 20 to 23, the port in bits 27 to 29 and the information type in bits 30 and 31. */
  predicate BringsFrame(buf: seq<byte>) {
    |buf| >= 60 && ((buf[3] / 8 == 0 && buf[2] / 8 % 2 == 1) || (buf[3] / 8 == 8 + 1 && buf[2] / 16 == 0x0c))
  }

  /** Behind the word: 32 bytes of RxWi, the 24-byte header, the body and a four-byte end marker. */
  function BodyOf(buf: seq<byte>): seq<byte>
    requires |buf| >= 60
  {
    if |buf| > 64 then buf[60..|buf| - 4] else []
  }

  predicate Begins(body: seq<byte>, head: seq<byte>) { |head| <= |body| && body[..|head|] == head }

  /** The type and subtype bits of the frame control field. */
  function FrameMeaning(ourMac: Mac, buf: seq<byte>): Meaning
    requires |buf| >= 60
  {
    var src, body := buf[46..52], BodyOf(buf);
    if buf[40..46] != ourMac && buf[52..58] != ourMac then Nothing
    else if buf[36] / 4 == 0x88 / 4 then (if |body| > 4 then Message(src, body[4..]) else Nothing)
    else if buf[36] / 4 == 0xd0 / 4 then
      (if Begins(body, [0x7f, 0x00, 0x17, 0xf2, 0x08]) then Greeting(src) else Nothing)
    else if buf[36] / 4 == 0x40 / 4 then Probe(src, Begins(body, [0x00, 0x00]))
    else if buf[36] / 4 == 0x70 / 4 then PairRequest(src, Begins(body, [0x70, 0x01]))
    else if buf[36] / 4 == 0xb0 / 4 then Authentication(src, body)
    else if buf[36] / 4 == 0x00 / 4 then Association(src, false)
    else if buf[36] / 4 == 0x20 / 4 then Association(src, true)
    else Nothing
  }

  /** Event 0x0e names a lost client, event 0x04 is the button of the dongle. */
  function NoticeMeaning(handleClientLost: bool, buf: seq<byte>): Meaning
    requires |buf| >= 8
  {
    if buf[3] / 8 != 8 + 1 then Nothing
    else if buf[2] / 16 == 0x0e && handleClientLost && 1 <= buf[4] <= 8 then Lost(buf[4] - 1)
    else if buf[2] / 16 == 0x04 then Button
    else Nothing
  }

  function MeaningOf(c: Config, i: Stimulus): Meaning {
    match i
    case Tick(_, _) => WakeUp
    case UsbIn(_, buf) =>
      if BringsFrame(buf) then FrameMeaning(c.ourMac, buf)
      else if |buf| >= 8 then NoticeMeaning(c.handleClientLost, buf)
      else Nothing
  }

  // ---------------------------------------------------------------- what the daemon does about it

  function Delivered(c: Config, s: State, src: Mac, gip: seq<byte>): State {
    var (u, w, k) := PeerFor(s, src);
    if k >= MAX_SLOTS then u
    else Dispatch(if u.peers[w].handshakeDone then u else BeaconAfterHandshake(c, Handshake(u, w, k)), w, k, gip)
  }

  function Greeted(c: Config, s: State, src: Mac): State {
    var (u, w, k) := PeerFor(s, src);
    if k >= MAX_SLOTS || u.peers[w].handshakeDone then u
    else Handshake(Log(u, WlanTx(ActionResponse(src, c.ourMac, u.peers[w].wcid), u.peers[w].wcid)), w, k)
  }

  function PairAnswered(c: Config, s: State, src: Mac): State {
    var t := Log(s, WlanTx(PairResponse(src, c.ourMac), NO_WCID));
    if !c.multiPair then SetBeacon(c, t, false)
    else if ActiveSlots(t.slots) < 8 then SetBeacon(c, t, true)
    else t
  }

  /** What a transfer does, by its meaning. */
  function Handled(c: Config, s: State, now: nat, d: Meaning): State {
    match d
    case Message(src, gip) => Delivered(c, s, src, gip)
    case Greeting(src) => Greeted(c, s, src)
    case Probe(src, emptySsid) => if emptySsid then SendProbeResponse(c, Lock(s, now), src) else Lock(s, now)
    case PairRequest(src, firstStage) => if firstStage then PairAnswered(c, Lock(s, now), src) else Lock(s, now)
    case Authentication(src, body) => SendAuthResponse(c, Lock(s, now), src, body)
    case Association(src, again) => OnAssocRequest(c, Lock(s, now), src, again)
    case Lost(slot) => OnClientLost(c, s, (slot + 1) % 256)
    case Button => SetBeacon(c, s, true)
    case WakeUp => s
    case Nothing => s
  }

  // ---------------------------------------------------------------- the fields of the first word

  lemma WordTop(b: seq<byte>)
    requires |b| >= 4
    ensures Read32(b, 0) / 0x100_0000 == b[3] && Read32(b, 0) / 0x1_0000 == b[2] as int + 256 * b[3] as int
  {
    var low: nat := b[0] as int + 0x100 * b[1] as int;
    assert low < 0x1_0000;
    assert Read32(b, 0) == low + 0x1_0000 * (b[2] as int + 256 * b[3] as int);
  }

  lemma Shifted(v: nat)
    ensures v / 0x4000_0000 == v / 0x100_0000 / 64 && v / 0x800_0000 == v / 0x100_0000 / 8
    ensures v / 0x8_0000 == v / 0x1_0000 / 8 && v / 0x10_0000 == v / 0x1_0000 / 16
  {
  }

  lemma LowBits(low: byte, high: byte)
    ensures (low as int + 256 * high as int) / 8 % 2 == low as int / 8 % 2
    ensures (low as int + 256 * high as int) / 16 % 16 == low as int / 16
  {
    assert (low as int + 256 * high as int) / 8 == low as int / 8 + 32 * high as int;
    assert (low as int + 256 * high as int) / 16 == low as int / 16 + 16 * high as int;
  }

  lemma TopBits(b: byte)
    ensures b / 64 == 0 && b / 8 % 8 == 0 <==> b / 8 == 0
    ensures b / 64 == 1 && b / 8 % 8 == 1 <==> b / 8 == 9
  {
  }

  lemma WordFields(b: seq<byte>)
    requires |b| >= 4
    ensures var v := Read32(b, 0);
            && (v / 0x4000_0000 == 0 && v / 0x800_0000 % 8 == 0 <==> b[3] / 8 == 0)
            && (v / 0x4000_0000 == 1 && v / 0x800_0000 % 8 == 1 <==> b[3] / 8 == 9)
            && v / 0x8_0000 % 2 == b[2] / 8 % 2 && v / 0x10_0000 % 16 == b[2] / 16
  {
    WordTop(b);
    Shifted(Read32(b, 0));
    LowBits(b[2], b[3]);
    TopBits(b[3]);
  }

  lemma ControlFields(low: byte, high: byte)
    ensures var fc := low as int + 256 * high as int;
            fc / 4 % 4 == low as int / 4 % 4 && fc / 16 % 16 == low as int / 16
  {
    assert (low as int + 256 * high as int) / 4 == low as int / 4 + 64 * high as int;
    assert (low as int + 256 * high as int) / 16 == low as int / 16 + 16 * high as int;
  }

  lemma ControlByte(low: byte)
    ensures low / 4 == (low / 16 as int) * 4 + low / 4 % 4
  {
  }

  lemma Unpacks(buf: seq<byte>)
    ensures Receive(buf) ==
            if BringsFrame(buf) then
              Wlan(Frame(buf[36] / 4 % 4, buf[36] / 16, buf[40..46], buf[46..52], buf[52..58], BodyOf(buf)))
            else if |buf| >= 8 && buf[3] / 8 == 9 then Cpu(buf[2] / 16, buf[4])
            else Other
  {
    if |buf| >= 8 { WordFields(buf); }
    if |buf| >= 60 { ControlFields(buf[36], buf[37]); }
  }

  lemma FrameIs(c: Config, s: State, now: nat, buf: seq<byte>)
    requires BringsFrame(buf)
    ensures Step(c, s, UsbIn(now, buf)) == Handled(c, s, now, FrameMeaning(c.ourMac, buf))
  {
    Unpacks(buf);
    ControlByte(buf[36]);
    var f := Frame(buf[36] / 4 % 4, buf[36] / 16, buf[40..46], buf[46..52], buf[52..58], BodyOf(buf));
    FrameReacts(c, s, now, f, buf);
  }

  lemma HeadBytes(body: seq<byte>)
    ensures Begins(body, [0x7f, 0x00, 0x17, 0xf2, 0x08]) <==> IsXboxAction(body)
    ensures Begins(body, [0x00, 0x00]) <==> StartsWith2(body, 0x00, 0x00)
    ensures Begins(body, [0x70, 0x01]) <==> StartsWith2(body, 0x70, 0x01)
  {
    if |body| >= 5 { assert body[..5] == [body[0], body[1], body[2], body[3], body[4]]; }
    if |body| >= 2 { assert body[..2] == [body[0], body[1]]; }
  }

  /** The frame that a transfer brings. */
  ghost predicate Brought(f: Frame, buf: seq<byte>) {
    && BringsFrame(buf) && buf[36] / 4 == 4 * f.subtype + f.kind && f.kind < 4
    && f.dst == buf[40..46] && f.src == buf[46..52] && f.bss == buf[52..58] && f.body == BodyOf(buf)
  }

  lemma FrameReacts(c: Config, s: State, now: nat, f: Frame, buf: seq<byte>)
    requires Brought(f, buf)
    ensures OnFrame(c, s, now, f) == Handled(c, s, now, FrameMeaning(c.ourMac, buf))
  {
    if ToUs(c, f) {
      if f.kind == 0 {
        ManagementMeans(c, f, buf);
        ManagementReacts(c, s, now, f);
      } else {
        DataReacts(c, s, now, f, buf);
      }
    }
  }

  lemma DataReacts(c: Config, s: State, now: nat, f: Frame, buf: seq<byte>)
    requires Brought(f, buf) && ToUs(c, f) && f.kind != 0
    ensures OnFrame(c, s, now, f) == Handled(c, s, now, FrameMeaning(c.ourMac, buf))
  {
    if f.kind == 2 && f.subtype == 8 {
      assert FrameMeaning(c.ourMac, buf) == if |f.body| > 4 then Message(f.src, f.body[4..]) else Nothing;
    } else {
      assert FrameMeaning(c.ourMac, buf) == Nothing;
    }
  }

  ghost function ManagementMeaning(f: Frame): Meaning {
    if f.subtype == 13 then (if IsXboxAction(f.body) then Greeting(f.src) else Nothing)
    else if f.subtype == 4 then Probe(f.src, StartsWith2(f.body, 0x00, 0x00))
    else if f.subtype == 7 then PairRequest(f.src, StartsWith2(f.body, 0x70, 0x01))
    else if f.subtype == 11 then Authentication(f.src, f.body)
    else if f.subtype == 0 then Association(f.src, false)
    else if f.subtype == 2 then Association(f.src, true)
    else Nothing
  }

  lemma ManagementMeans(c: Config, f: Frame, buf: seq<byte>)
    requires Brought(f, buf) && ToUs(c, f) && f.kind == 0
    ensures FrameMeaning(c.ourMac, buf) == ManagementMeaning(f)
  {
    HeadBytes(f.body);
  }

  lemma ManagementReacts(c: Config, s: State, now: nat, f: Frame)
    ensures OnManagement(c, s, now, f) == Handled(c, s, now, ManagementMeaning(f))
  {
    if f.subtype == 13 {
      if IsXboxAction(f.body) { GreetingIs(c, s, f.src, f.body); }
    } else if f.subtype == 7 {
      PairIs(c, Lock(s, now), f.src, f.body);
      assert OnManagement(c, s, now, f) == OnPairRequest(c, Lock(s, now), f.src, f.body);
    } else {
      RequestReacts(c, s, now, f);
    }
  }

  lemma RequestReacts(c: Config, s: State, now: nat, f: Frame)
    requires f.subtype != 13 && f.subtype != 7
    ensures OnManagement(c, s, now, f) == Handled(c, s, now, ManagementMeaning(f))
  {
  }

  lemma GreetingIs(c: Config, s: State, src: Mac, body: seq<byte>)
    requires |body| >= 5
    ensures OnAction(c, s, src, body) == Greeted(c, s, src)
  {
  }

  lemma PairIs(c: Config, s: State, src: Mac, body: seq<byte>)
    ensures OnPairRequest(c, s, src, body) == if StartsWith2(body, 0x70, 0x01) then PairAnswered(c, s, src) else s
  {
  }

  /** Every transfer is handled by what its bytes mean. */
  lemma StepReacts(c: Config, s: State, i: Stimulus)
    requires i.UsbIn?
    ensures Step(c, s, i) == Handled(c, s, i.now, MeaningOf(c, i))
  {
    if BringsFrame(i.buf) { FrameIs(c, s, i.now, i.buf); } else { Unpacks(i.buf); }
  }
}
