// A slot of the daemon as the fold of its own events: what is shown to the system is decided by what was reported.

module DaemonSlots {
  import opened Bytes
  import opened Gip
  import opened EventLines
  import opened DaemonModel
  import opened DaemonInvariants
  import opened DaemonRuns
  import opened DaemonTheorems
  import opened DaemonSession
  import opened Agreement

  ghost function GuideBit(pressed: bool): set<nat> { if pressed then {10} else {} }

  /** Centred sticks, released triggers, a neutral pad and no button but the guide. */
  ghost function Resting(pressed: bool): HidReport { HidReport(GuideBit(pressed), 8, 0, 0, 0, 0, 0, 0) }

  ghost function Vacant(pressed: bool): Slot {
    Slot(false, 0, pressed, HidReport(GuideBit(pressed), 0, 0, 0, 0, 0, 0, 0))
  }

  /** What an event of its own does to a slot. */
  ghost function SlotAfter(slot: Slot, e: Event): Slot {
    match e
    case Connected(k) => Slot(true, k, slot.guidePressed, Resting(slot.guidePressed))
    case Disconnected(_) => Vacant(false)
    case Input(_, g) => slot.(report := GipToHid(g, slot.guidePressed))
    case Guide(_, pressed) =>
      slot.(guidePressed := pressed,
            report := slot.report.(buttons := slot.report.buttons - {10} + GuideBit(pressed)))
    case HidUnavailable => slot
  }

  ghost predicate Concerns(e: Event, k: byte) { !e.HidUnavailable? && e.slot == k }

  ghost function SlotOf(es: seq<Event>, k: byte): Slot {
    if es == [] then Vacant(false)
    else
      var before, e := SlotOf(es[..|es| - 1], k), es[|es| - 1];
      if Concerns(e, k) then SlotAfter(before, e) else before
  }

  lemma SlotSnoc(es: seq<Event>, e: Event, k: byte)
    ensures SlotOf(es + [e], k) == if Concerns(e, k) then SlotAfter(SlotOf(es, k), e) else SlotOf(es, k)
  {
    assert (es + [e])[..|es|] == es;
  }

  /** A slot that is offline is vacant, apart from its guide button; one that is online carries its own number; and in
      both the guide bit is lit exactly while the guide flag is set. */
  ghost predicate InShape(slot: Slot, online: bool, k: byte) {
    && slot.active == online && (10 in slot.report.buttons <==> slot.guidePressed)
    && (if online then slot.clientId == k else slot == Vacant(slot.guidePressed))
  }

  lemma ShapeAfter(slot: Slot, e: Event, online: bool, k: byte)
    requires InShape(slot, online, k) && Concerns(e, k)
    requires (e.Connected? ==> !online) && (e.Disconnected? || e.Input? ==> online)
    ensures InShape(SlotAfter(slot, e), if e.Connected? then true else if e.Disconnected? then false else online, k)
  {
    match e {
      case Input(_, g) => LitIsLights(g.buttons, slot.guidePressed, 10);
      case Guide(_, pressed) => assert GuideBit(slot.guidePressed) - {10} + GuideBit(pressed) == GuideBit(pressed);
      case _ =>
    }
  }

  lemma {:induction false} SlotShape(es: seq<Event>, k: byte)
    requires Grammatical(es) && k < 8
    ensures InShape(SlotOf(es, k), Online(es, k), k)
  {
    if es != [] {
      var n := |es| - 1;
      SlotShape(es[..n], k);
      assert es == es[..n] + [es[n]];
      EventSnoc(es[..n], es[n]);
      if Concerns(es[n], k) { ShapeAfter(SlotOf(es[..n], k), es[n], Online(es[..n], k), k); }
    }
  }

  // ---------------------------------------------------------------- every handler follows its events

  ghost predicate Mirrors(s: State, j: byte) { j < 8 && s.slots[j] == SlotOf(EventsOf(s.log), j) }

  /** If slot `j` was what its events make of it, it still is. */
  ghost predicate KeepsFollowing(s: State, t: State, j: byte) { Mirrors(s, j) ==> Mirrors(t, j) }

  lemma NotifyFollows(s: State, k: byte, slot: Slot, e: Event, j: byte)
    requires k < 8 && j < 8 && Concerns(e, k)
    requires j == k && Mirrors(s, j) ==> slot == SlotAfter(s.slots[k], e)
    ensures KeepsFollowing(s, Log(SetSlot(s, k, slot), Notify(e)), j)
  {
    LogSnoc(s.log, Notify(e));
    SlotSnoc(EventsOf(s.log), e, j);
  }

  lemma ConnectFollows(s: State, k: byte, j: byte)
    requires EventsOk(s) && j < 8
    ensures KeepsFollowing(s, OnConnect(s, k), j)
  {
    if k < 8 && !s.slots[k].active {
      SlotShape(EventsOf(s.log), k);
      NotifyFollows(s, k, s.slots[k].(active := true, clientId := k, report := s.slots[k].report.(hat := 8)),
                    Connected(k), j);
    }
  }

  lemma DisconnectFollows(s: State, k: byte, j: byte)
    requires j < 8
    ensures KeepsFollowing(s, OnDisconnect(s, k), j)
  {
    if k < 8 && s.slots[k].active { NotifyFollows(s, k, ZERO_SLOT, Disconnected(k), j); }
  }

  lemma InputFollows(s: State, k: byte, payload: seq<byte>, j: byte)
    requires j < 8
    ensures KeepsFollowing(s, OnInput(s, k, payload), j)
  {
    if k < 8 && s.slots[k].active && DecodeInput(payload).Some? {
      var g := DecodeInput(payload).value;
      NotifyFollows(s, k, s.slots[k].(report := GipToHid(g, s.slots[k].guidePressed)), Input(k, g), j);
    }
  }

  lemma GuideFollows(s: State, k: byte, pressed: bool, j: byte)
    requires j < 8
    ensures KeepsFollowing(s, OnGuide(s, k, pressed), j)
  {
    if k < 8 {
      var slot := s.slots[k];
      var b := slot.report.buttons;
      assert SetGuide(b, pressed) == b - {10} + GuideBit(pressed);
      NotifyFollows(s, k, slot.(guidePressed := pressed, report := slot.report.(buttons := SetGuide(b, pressed))),
                    Guide(k, pressed), j);
    }
  }

  lemma CommandFollows(s: State, w: byte, k: byte, gip: seq<byte>, j: byte)
    requires EventsOk(s) && w < 128 && j < 8 && |gip| >= 4
    ensures KeepsFollowing(s, Command(s, w, k, gip), j)
  {
    var cmd := gip[0];
    if cmd == CMD_CTRL_ADDED { ConnectFollows(s, k, j); }
    else if cmd == CMD_CTRL_LOST { DisconnectFollows(s, k, j); }
    else if cmd == CMD_ANNOUNCE { AnnounceIsStill(s, w); }
    else if cmd == CMD_INPUT || cmd == CMD_INPUT_OVERFLOW { InputFollows(s, k, GipPayload(gip), j); }
    else if cmd == CMD_GUIDE_BTN && GipPayload(gip) != [] { GuideFollows(s, k, gip[4] != 0, j); }
  }

  lemma DispatchFollows(s: State, w: byte, k: byte, gip: seq<byte>, j: byte)
    requires EventsOk(s) && w < 128 && j < 8
    ensures KeepsFollowing(s, Dispatch(s, w, k, gip), j)
  {
    if k < 8 && |gip| >= 4 {
      AckIsStill(s, w, gip[0], gip[1] % 16, gip[2], gip[3]);
      var acked := if gip[1] / 16 % 2 == 1 then SendAck(s, w, gip[0], gip[1] % 16, gip[2], gip[3]) else s;
      CommandFollows(acked, w, k, gip, j);
    }
  }

  lemma HandshakeFollows(s: State, w: byte, k: byte, j: byte)
    requires EventsOk(s) && w < 128 && j < 8
    ensures KeepsFollowing(s, Handshake(s, w, k), j)
  {
    ConnectFollows(s, k, j);
    assert Still(OnConnect(s, k), Handshake(s, w, k));
  }

  lemma DataFollows(c: Config, s: State, src: Mac, body: seq<byte>, j: byte)
    requires Inv(s) && |body| > 4 && j < 8
    ensures KeepsFollowing(s, OnData(c, s, src, body), j)
  {
    InvPeerFor(s, src);
    var (u, w, k) := PeerFor(s, src);
    if k < 8 {
      if u.peers[w].handshakeDone {
        DispatchFollows(u, w, k, body[4..], j);
      } else {
        FirstDataFollows(c, u, w, k, body[4..], j);
      }
    }
  }

  lemma FirstDataFollows(c: Config, u: State, w: byte, k: byte, gip: seq<byte>, j: byte)
    requires Inv(u) && 1 <= w <= 8 && k == w - 1 && u.peers[w].active && u.peers[w].slot == k && j < 8
    ensures KeepsFollowing(u, Dispatch(BeaconAfterHandshake(c, Handshake(u, w, k)), w, k, gip), j)
  {
    var h := Handshake(u, w, k);
    HandshakeFollows(u, w, k, j);
    InvFirstData(c, u, w, k);
    SetBeaconIsStill(c, h, if !c.multiPair then false else ActiveSlots(h.slots) < 8);
    DispatchFollows(BeaconAfterHandshake(c, h), w, k, gip, j);
  }

  lemma ActionFollows(c: Config, s: State, src: Mac, body: seq<byte>, j: byte)
    requires Inv(s) && j < 8
    ensures KeepsFollowing(s, OnAction(c, s, src, body), j)
  {
    InvPeerFor(s, src);
    var (u, w, k) := PeerFor(s, src);
    if |body| >= 5 && k < 8 && !u.peers[w].handshakeDone {
      var o := WlanTx(ActionResponse(src, c.ourMac, u.peers[w].wcid), u.peers[w].wcid);
      LogSnoc(u.log, o);
      InvLog(u, o);
      HandshakeFollows(Log(u, o), w, k, j);
    }
  }

  lemma CpuFollows(c: Config, s: State, eventType: nat, first: byte, j: byte)
    requires j < 8
    ensures KeepsFollowing(s, OnCpu(c, s, eventType, first), j)
  {
    SetBeaconIsStill(c, s, true);
    if 0 < first < 9 {
      DisconnectFollows(s, first - 1, j);
      SetBeaconIsStill(c, OnDisconnect(s, first - 1), true);
    }
  }

  lemma FrameFollows(c: Config, s: State, now: nat, f: Frame, j: byte)
    requires Inv(s) && j < 8
    ensures KeepsFollowing(s, OnFrame(c, s, now, f), j)
  {
    if ToUs(c, f) {
      if f.kind == 2 && |f.body| > 4 { DataFollows(c, s, f.src, f.body, j); }
      else if f.kind == 0 && f.subtype == 13 { ActionFollows(c, s, f.src, f.body, j); }
      else if f.kind == 0 { ManagementIsStill(c, s, now, f); }
    }
  }

  lemma StepFollows(c: Config, s: State, i: Stimulus, j: byte)
    requires Inv(s) && j < 8
    ensures KeepsFollowing(s, Step(c, s, i), j)
  {
    match i {
      case Tick(now, efuse) => BenignTick(c, s, now, efuse);
      case UsbIn(now, buf) =>
        match Receive(buf) {
          case Other =>
          case Cpu(eventType, first) => CpuFollows(c, s, eventType, first, j);
          case Wlan(f) => FrameFollows(c, s, now, f, j);
        }
    }
  }

  /** After any run every slot - active or not, its guide flag and its whole report - is the fold of its own events: it
      opens at rest, shows each input, lights and clears the guide bit alone, and is wiped by a disconnect. */
  lemma {:induction false} SlotIsItsEvents(c: Config, inputs: seq<Stimulus>, k: byte)
    requires k < 8
    ensures Run(c, inputs).slots[k] == SlotOf(EventsOf(Run(c, inputs).log), k)
    ensures InShape(Run(c, inputs).slots[k], Online(EventsOf(Run(c, inputs).log), k), k)
  {
    InvRun(c, inputs);
    SlotShape(EventsOf(Run(c, inputs).log), k);
    if inputs != [] {
      var n := |inputs| - 1;
      SlotIsItsEvents(c, inputs[..n], k);
      InvRun(c, inputs[..n]);
      StepFollows(c, Run(c, inputs[..n]), inputs[n], k);
    }
  }
}
