// A controller's own view of the daemon: what its state frames turn into, and how it gets its slot back.

module DaemonSession {
  import opened Bytes
  import opened Gip
  import opened EventLines
  import opened DaemonModel
  import opened DaemonInvariants
  import opened DaemonRuns
  import opened DaemonTheorems

  /** Slot k's controller: entry k + 1, past its handshake. */
  ghost predicate Known(s: State, k: nat, m: Mac) {
    k < 8 && s.peers[k + 1].active && s.peers[k + 1].handshakeDone && s.peers[k + 1].mac == m
  }

  lemma FindsKnown(s: State, k: nat, m: Mac, xs: seq<Mac>)
    requires TableIs(s.peers, s.nextWcid, xs) && Known(s, k, m)
    ensures Find(s.peers, m) == k + 1
  {
    var v: nat := Find(s.peers, m);
    if v < k + 1 { TableMacsDiffer(s.peers, s.nextWcid, xs, v, k + 1); }
  }

  /** For a known controller the table lookup changes nothing and yields its own entry and slot. */
  lemma KnownPeerFor(s: State, k: nat, m: Mac, xs: seq<Mac>)
    requires PeersOk(s) && TableIs(s.peers, s.nextWcid, xs) && Known(s, k, m)
    ensures PeerFor(s, m) == (s, k + 1, k)
  {
    FindsKnown(s, k, m, xs);
    assert PeerOk(s.peers[k + 1], k + 1);
    assert PeerSlot(s, k + 1) == (s, k);
  }

  // ---------------------------------------------------------------- input frames

  ghost predicate IsData(c: Config, f: Frame) { ToUs(c, f) && f.kind == 2 && f.subtype == 8 && |f.body| > 4 }

  /** QoS control and alignment, then an input frame as the controller packs it, then whatever else arrived. */
  ghost predicate CarriesInput(body: seq<byte>, payload: seq<byte>) {
    exists lead: seq<byte>, cmd: byte, flags: byte, sequence: byte, trailing: seq<byte> ::
      CarriesInputAs(body, payload, lead, cmd, flags, sequence, trailing)
  }

  ghost predicate CarriesInputAs(body: seq<byte>, payload: seq<byte>, lead: seq<byte>, cmd: byte, flags: byte,
                                 sequence: byte, trailing: seq<byte>) {
    && |lead| == 4 && |payload| < 256 && (cmd == CMD_INPUT || cmd == CMD_INPUT_OVERFLOW)
    && body == lead + (BuildGip(4 + |payload|, cmd, flags, sequence, payload).value + trailing)
  }

  lemma AckIsInvisible(s: State, w: byte, cmd: byte, device: byte, sequence: byte, length: byte)
    requires w < 128
    ensures var t := SendAck(s, w, cmd, device, sequence, length);
            t.slots == s.slots && EventsOf(t.log) == EventsOf(s.log)
  {
    if s.peers[w].active {
      var p := s.peers[w];
      var payload := [0, cmd, TYPE_REQUEST * 16 + device % 16, length, 0, 0, 0, 0, 0];
      var gip := BuildGip(68, CMD_ACKNOWLEDGE, TYPE_REQUEST % 16 * 16 + device % 16, sequence, payload).value;
      LogSnoc(s.log, GipTx(p.wcid, p.mac, gip));
    }
  }

  lemma InputDispatched(s: State, w: byte, k: byte, gip: seq<byte>, g: GipInput)
    requires w < 128 && k < 8 && s.slots[k].active && |gip| >= 4
    requires (gip[0] == CMD_INPUT || gip[0] == CMD_INPUT_OVERFLOW) && DecodeInput(GipPayload(gip)) == Some(g)
    ensures var t := Dispatch(s, w, k, gip);
            && EventsOf(t.log) == EventsOf(s.log) + [Input(k, g)]
            && t.slots == s.slots[k := s.slots[k].(report := GipToHid(g, s.slots[k].guidePressed))]
  {
    AckIsInvisible(s, w, gip[0], gip[1] % 16, gip[2], gip[3]);
    var acked := if gip[1] / 16 % 2 == 1 then SendAck(s, w, gip[0], gip[1] % 16, gip[2], gip[3]) else s;
    LogSnoc(acked.log, Notify(Input(k, g)));
  }

  lemma CarriedInput(body: seq<byte>, payload: seq<byte>)
    requires CarriesInput(body, payload)
    ensures |body| >= 8 && (body[4..][0] == CMD_INPUT || body[4..][0] == CMD_INPUT_OVERFLOW)
    ensures GipPayload(body[4..]) == payload
  {
    var lead, cmd, flags, sequence, trailing :| CarriesInputAs(body, payload, lead, cmd, flags, sequence, trailing);
    var gip := BuildGip(4 + |payload|, cmd, flags, sequence, payload).value + trailing;
    GipFrameRoundTrip(4 + |payload|, cmd, flags, sequence, payload, trailing);
    assert body[4..] == gip;
  }

  /** An input frame from the controller of an active slot is reported as exactly the state in its payload's bytes, and
      the report shows that state: sticks, triggers, pad and buttons. */
  lemma InputReported(c: Config, s: State, now: nat, f: Frame, k: byte, payload: seq<byte>, g: GipInput, xs: seq<Mac>)
    requires Inv(s) && TableIs(s.peers, s.nextWcid, xs) && k < 8 && s.slots[k].active && f.src == s.peers[k + 1].mac
    requires IsData(c, f) && CarriesInput(f.body, payload) && DecodeInput(payload) == Some(g)
    ensures var t := OnFrame(c, s, now, f);
            && EventsOf(t.log) == EventsOf(s.log) + [Input(k, g)]
            && t.slots == s.slots[k := s.slots[k].(report := GipToHid(g, s.slots[k].guidePressed))]
            && ShowsState(t.slots[k].report, g, s.slots[k].guidePressed) && ReadsState(g, payload)
  {
    CarriedInput(f.body, payload);
    KnownPeerFor(s, k, f.src, xs);
    InputDispatched(s, k + 1, k, f.body[4..], g);
    ReportShows(g, s.slots[k].guidePressed);
    DecodesBytes(payload);
  }

  /** What is reported for a state with triggers in range: the state, unless a bare one is taken for a wrapped one. */
  ghost function Reported(wrapper: seq<byte>, g: GipInput, tail: seq<byte>): GipInput {
    if wrapper == [] && TakenForWrapped(g, tail) then Late(g, tail) else g
  }

  /** That it is the state, in terms of the state and the bytes behind it. */
  ghost predicate Survives(wrapper: seq<byte>, g: GipInput, tail: seq<byte>) {
    wrapper != [] || !TakenForWrapped(g, tail) || Echo14(g, tail) || (Echo16(g, tail) && ToU16(g.rx) > 4095)
  }

  lemma ReportedIsDecoded(wrapper: seq<byte>, g: GipInput, tail: seq<byte>)
    requires RealisticTriggers(g)
    requires wrapper == [] || (|wrapper| == 8 && wrapper[4] == CMD_INPUT && wrapper[7] >= 14 && |tail| >= 2)
    ensures DecodeInput(wrapper + Encode14(g) + tail) == Some(Reported(wrapper, g, tail))
    ensures Reported(wrapper, g, tail) == g <==> Survives(wrapper, g, tail)
  {
    if wrapper == [] {
      assert wrapper + Encode14(g) + tail == Encode14(g) + tail;
      BareDecodes(g, tail);
      PlausibleRoundTrip(g, tail);
    } else {
      WrappedRoundTrip(wrapper, g, tail);
    }
  }

  /** Hence every 14-byte encoding with triggers in range, wrapped or bare, whatever trails it, is reported once; and it
      arrives unchanged if and only if it is wrapped, does not look wrapped, or is repeated eight bytes on. */
  lemma ControllerStateArrives(c: Config, s: State, now: nat, f: Frame, k: byte, wrapper: seq<byte>, tail: seq<byte>,
                               g: GipInput, xs: seq<Mac>)
    requires Inv(s) && TableIs(s.peers, s.nextWcid, xs) && k < 8 && s.slots[k].active && f.src == s.peers[k + 1].mac
    requires IsData(c, f) && CarriesInput(f.body, wrapper + Encode14(g) + tail) && RealisticTriggers(g)
    requires wrapper == [] || (|wrapper| == 8 && wrapper[4] == CMD_INPUT && wrapper[7] >= 14 && |tail| >= 2)
    ensures var t, read := OnFrame(c, s, now, f), Reported(wrapper, g, tail);
            && EventsOf(t.log) == EventsOf(s.log) + [Input(k, read)]
            && ShowsState(t.slots[k].report, read, s.slots[k].guidePressed)
            && (read == g <==> Survives(wrapper, g, tail))
  {
    ReportedIsDecoded(wrapper, g, tail);
    InputReported(c, s, now, f, k, wrapper + Encode14(g) + tail, Reported(wrapper, g, tail), xs);
  }

  // ---------------------------------------------------------------- losing and regaining a slot

  /** The one frame that reactivates a slot: the controller's own CTRL_ADDED. */
  ghost predicate IsComeback(c: Config, i: Stimulus, m: Mac) {
    i.UsbIn? && Receive(i.buf).Wlan? &&
    var f := Receive(i.buf).f;
    IsData(c, f) && f.src == m && |f.body| >= 8 && f.body[4] == CMD_CTRL_ADDED
  }

  lemma DispatchRevives(s: State, w: byte, k: byte, gip: seq<byte>)
    requires w < 128 && k < 8 && !s.slots[k].active
    ensures Dispatch(s, w, k, gip).slots[k].active <==> |gip| >= 4 && gip[0] == CMD_CTRL_ADDED
  {
    if |gip| >= 4 {
      AckIsInvisible(s, w, gip[0], gip[1] % 16, gip[2], gip[3]);
      var acked := if gip[1] / 16 % 2 == 1 then SendAck(s, w, gip[0], gip[1] % 16, gip[2], gip[3]) else s;
      AnnounceWorks(acked, w, k);
    }
  }

  lemma OwnFrameRevives(c: Config, s: State, i: Stimulus, k: byte, xs: seq<Mac>)
    requires Inv(s) && TableIs(s.peers, s.nextWcid, xs)
    requires i.UsbIn? && Receive(i.buf).Wlan? && IsSession(c, Receive(i.buf).f) && Known(s, k, Receive(i.buf).f.src)
    requires !s.slots[k].active
    ensures Step(c, s, i).slots[k].active <==> IsComeback(c, i, Receive(i.buf).f.src)
  {
    var f := Receive(i.buf).f;
    KnownPeerFor(s, k, f.src, xs);
    DispatchRevives(s, k + 1, k, if |f.body| > 4 then f.body[4..] else []);
  }

  lemma ForeignFrameKeepsSlot(c: Config, s: State, i: Stimulus, k: byte, m: Mac)
    requires Inv(s) && k < 8 && Known(s, k, m)
    requires i.UsbIn? && Receive(i.buf).Wlan? && IsSession(c, Receive(i.buf).f) && Receive(i.buf).f.src != m
    ensures Step(c, s, i).slots[k] == s.slots[k]
  {
    var f := Receive(i.buf).f;
    PeerForIsElsewhere(s, k, m, f.src);
    if f.kind == 2 { DataWorks(c, s, f.src, f.body); } else { ActionWorks(c, s, f.src, f.body); }
  }

  lemma PeerForIsElsewhere(s: State, k: byte, m: Mac, src: Mac)
    requires Inv(s) && k < 8 && Known(s, k, m) && src != m
    ensures PeerFor(s, src).2 != k
  {
    InvPeerFor(s, src);
    PeerForWorks(s, src, k);
  }

  /** A slot whose controller has already shaken hands comes back exactly with that controller's CTRL_ADDED:
      a new handshake frame, an announce or input alone does not do it. */
  lemma ComebackOnlyByCtrlAdded(c: Config, s: State, i: Stimulus, k: byte, m: Mac, xs: seq<Mac>)
    requires Inv(s) && TableIs(s.peers, s.nextWcid, xs) && k < 8 && Known(s, k, m) && !s.slots[k].active
    ensures Step(c, s, i).slots[k].active <==> IsComeback(c, i, m)
  {
    match i {
      case Tick(now, efuse) => TickIsSilent(c, s, now, efuse);
      case UsbIn(now, buf) =>
        match Receive(buf) {
          case Other =>
          case Cpu(eventType, first) => CpuNeverRevives(c, s, eventType, first, k);
          case Wlan(f) =>
            if IsSession(c, f) {
              if f.src == m { OwnFrameRevives(c, s, i, k, xs); } else { ForeignFrameKeepsSlot(c, s, i, k, m); }
            } else if ToUs(c, f) && f.kind == 0 && f.subtype != 13 {
              ManagementAnswers(c, s, now, f);
            }
        }
    }
  }

  lemma CpuNeverRevives(c: Config, s: State, eventType: nat, first: byte, k: byte)
    requires k < 8 && !s.slots[k].active
    ensures !OnCpu(c, s, eventType, first).slots[k].active
  {
    SetBeaconAnswers(c, s, true);
    if 0 < first < 9 {
      SetBeaconAnswers(c, OnDisconnect(s, first - 1), true);
    }
  }
}
