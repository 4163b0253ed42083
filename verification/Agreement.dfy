// The bridge's slots against the daemon's, over whole runs, with the text on the wire in between.

module Agreement {
  import opened Bytes
  import opened Gip
  import opened EventLines
  import opened DaemonModel
  import opened DaemonInvariants
  import opened DaemonRuns
  import opened DaemonTheorems
  import opened DaemonSession
  import opened Bridge

  ghost predicate AgreesAt(slots: seq<Slot>, r: Replica, j: byte) {
    |slots| == 8 && j < 8 && r[j] == BridgeSlot(slots[j].active, slots[j].guidePressed, slots[j].report)
  }

  /** The bridge after the events of a run, in order. */
  ghost function Replay(es: seq<Event>): Replica {
    if es == [] then Repeat(8, EMPTY_SLOT) else Apply(Replay(es[..|es| - 1]), es[|es| - 1])
  }

  lemma ReplaySnoc(es: seq<Event>, e: Event)
    ensures Replay(es + [e]) == Apply(Replay(es), e)
  {
    assert (es + [e])[..|es|] == es;
  }

  /** No guide press is reported for slot `j` while the stream itself says it is offline. */
  ghost predicate QuietGuides(es: seq<Event>, j: byte) {
    es == [] || (QuietGuides(es[..|es| - 1], j) && (es[|es| - 1] == Guide(j, true) ==> Online(es[..|es| - 1], j)))
  }

  lemma QuietSnoc(es: seq<Event>, e: Event, j: byte)
    ensures QuietGuides(es + [e], j) <==> QuietGuides(es, j) && (e == Guide(j, true) ==> Online(es, j))
  {
    assert (es + [e])[..|es|] == es;
  }

  lemma {:induction false} QuietPrefix(a: seq<Event>, b: seq<Event>, j: byte)
    requires a <= b && QuietGuides(b, j)
    ensures QuietGuides(a, j)
    decreases |b|
  {
    if a != b {
      assert a <= b[..|b| - 1];
      QuietPrefix(a, b[..|b| - 1], j);
    }
  }

  /** Slot `j` of the replayed stream is slot `j` of the daemon. */
  ghost predicate Sync(s: State, j: byte) { AgreesAt(s.slots, Replay(EventsOf(s.log)), j) }

  ghost predicate Quiet(s: State, j: byte) { QuietGuides(EventsOf(s.log), j) }

  /** Agreement and quiet of slot `j` are kept, each for itself, unless the guide of the idle slot was `pressed`. */
  ghost predicate TracksFrom(s: State, t: State, j: byte, pressed: bool) {
    (Sync(s, j) ==> (Sync(t, j) <==> !pressed)) && (Quiet(s, j) ==> (Quiet(t, j) <==> !pressed))
  }

  lemma TracksTrans(s: State, t: State, u: State, j: byte, pressed: bool)
    requires TracksFrom(s, t, j, false) && TracksFrom(t, u, j, pressed)
    ensures TracksFrom(s, u, j, pressed)
  {
  }

  /** A GIP message whose payload presses the guide button. */
  predicate IsGuidePress(gip: seq<byte>) { |gip| >= 5 && gip[0] == CMD_GUIDE_BTN && gip[3] > 0 && gip[4] != 0 }

  /** The guard a caller can check before a step: a guide press in a data frame to us, sent by the controller of slot
      `j`, which has shaken hands but whose slot is not active. */
  ghost predicate PressesIdleGuide(c: Config, s: State, i: Stimulus, j: byte) {
    i.UsbIn? && Receive(i.buf).Wlan? && IsData(c, Receive(i.buf).f) && FromIdle(s, Receive(i.buf).f.src, j)
    && IsGuidePress(Receive(i.buf).f.body[4..])
  }

  ghost predicate FromIdle(s: State, src: Mac, j: byte) { j < 8 && Known(s, j, src) && !s.slots[j].active }

  ghost predicate Still(s: State, t: State) { s.slots == t.slots && EventsOf(s.log) == EventsOf(t.log) }

  lemma {:induction false} IdleSlotsAreEmpty(es: seq<Event>)
    ensures forall k :: 0 <= k < 8 && !Replay(es)[k].active ==> Replay(es)[k] == EMPTY_SLOT
  {
    if es != [] {
      IdleSlotsAreEmpty(es[..|es| - 1]);
    }
  }

  lemma ApplyElsewhere(r: Replica, e: Event, j: byte)
    requires j < 8 && !e.HidUnavailable? && e.slot != j
    ensures Apply(r, e)[j] == r[j]
  {
  }

  /** A slot of the daemon and its event: the other slots keep what they had, this one needs the event to say as
      much. */
  lemma NotifyTracks(s: State, k: byte, slot: Slot, e: Event, j: byte)
    requires k < 8 && j < 8 && !e.HidUnavailable? && e.slot == k
    requires j == k && Sync(s, k) ==>
               Apply(Replay(EventsOf(s.log)), e)[k] == BridgeSlot(slot.active, slot.guidePressed, slot.report)
    requires e == Guide(j, true) ==> Online(EventsOf(s.log), j)
    ensures TracksFrom(s, Log(SetSlot(s, k, slot), Notify(e)), j, false)
  {
    LogSnoc(s.log, Notify(e));
    ReplaySnoc(EventsOf(s.log), e);
    QuietSnoc(EventsOf(s.log), e, j);
    if j != k { ApplyElsewhere(Replay(EventsOf(s.log)), e, j); }
  }

  lemma ConnectTracks(s: State, k: byte, j: byte)
    requires j < 8
    ensures TracksFrom(s, OnConnect(s, k), j, false)
  {
    if k < 8 && !s.slots[k].active {
      IdleSlotsAreEmpty(EventsOf(s.log));
      var slot := s.slots[k].(active := true, clientId := k, report := s.slots[k].report.(hat := 8));
      NotifyTracks(s, k, slot, Connected(k), j);
    }
  }

  lemma DisconnectTracks(s: State, k: byte, j: byte)
    requires j < 8
    ensures TracksFrom(s, OnDisconnect(s, k), j, false)
  {
    if k < 8 && s.slots[k].active {
      NotifyTracks(s, k, ZERO_SLOT, Disconnected(k), j);
    }
  }

  lemma InputTracks(s: State, k: byte, payload: seq<byte>, j: byte)
    requires j < 8
    ensures TracksFrom(s, OnInput(s, k, payload), j, false)
  {
    if k < 8 && s.slots[k].active && DecodeInput(payload).Some? {
      var g := DecodeInput(payload).value;
      NotifyTracks(s, k, s.slots[k].(report := GipToHid(g, s.slots[k].guidePressed)), Input(k, g), j);
    }
  }

  lemma IdleGuideEvents(s: State, k: byte, pressed: bool)
    requires EventsOk(s) && k < 8 && !s.slots[k].active
    ensures var t := OnGuide(s, k, pressed);
            && (Sync(s, k) ==> Replay(EventsOf(t.log))[k] == Replay(EventsOf(s.log))[k])
            && (Quiet(s, k) ==> (Quiet(t, k) <==> !pressed))
  {
    LogSnoc(s.log, Notify(Guide(k, pressed)));
    ReplaySnoc(EventsOf(s.log), Guide(k, pressed));
    QuietSnoc(EventsOf(s.log), Guide(k, pressed), k);
  }

  lemma IdleGuideSlot(s: State, k: byte, pressed: bool)
    requires k < 8 && Sync(s, k) && !s.slots[k].active
    ensures AgreesAt(OnGuide(s, k, pressed).slots, Replay(EventsOf(s.log)), k) <==> !pressed
  {
    IdleSlotsAreEmpty(EventsOf(s.log));
    var r, t := Replay(EventsOf(s.log)), OnGuide(s, k, pressed);
    assert r[k] == BridgeSlot(s.slots[k].active, s.slots[k].guidePressed, s.slots[k].report) && r[k] == EMPTY_SLOT;
    if pressed {
      assert t.slots[k].guidePressed && !r[k].guidePressed;
    } else {
      assert SetGuide(ZERO_REPORT.buttons, false) == ZERO_REPORT.buttons;
      assert t.slots[k] == s.slots[k];
    }
  }

  /** The one place where the two programs differ: the daemon sets the flag of an inactive slot, the bridge ignores
      it. */
  lemma GuideTracks(s: State, k: byte, pressed: bool, j: byte)
    requires EventsOk(s) && j < 8
    ensures TracksFrom(s, OnGuide(s, k, pressed), j, j == k && pressed && !s.slots[j].active)
  {
    if k < 8 {
      if j == k && !s.slots[k].active {
        IdleGuideEvents(s, k, pressed);
        if Sync(s, k) { IdleGuideSlot(s, k, pressed); }
      } else {
        var slot := s.slots[k];
        var report := slot.report.(buttons := SetGuide(slot.report.buttons, pressed));
        NotifyTracks(s, k, slot.(guidePressed := pressed, report := report), Guide(k, pressed), j);
      }
    }
  }

  lemma {:induction false} NoNewEvents(a: seq<Output>, b: seq<Output>)
    requires a <= b && forall i :: |a| <= i < |b| ==> !b[i].Notify?
    ensures EventsOf(b) == EventsOf(a)
    decreases |b|
  {
    if a != b {
      assert a <= b[..|b| - 1];
      NoNewEvents(a, b[..|b| - 1]);
    }
  }

  lemma AckIsStill(s: State, w: byte, cmd: byte, device: byte, sequence: byte, length: byte)
    requires w < 128
    ensures Still(s, SendAck(s, w, cmd, device, sequence, length))
  {
    AckWorks(s, w, cmd, device, sequence, length, NO_SLOT);
    NoNewEvents(s.log, SendAck(s, w, cmd, device, sequence, length).log);
  }

  lemma AnnounceIsStill(s: State, w: byte)
    requires w < 128
    ensures Still(s, Announce(s, w))
  {
    AnnounceWorks(s, w, NO_SLOT);
    NoNewEvents(s.log, Announce(s, w).log);
  }

  lemma SetBeaconIsStill(c: Config, s: State, enabled: bool)
    ensures Still(s, SetBeacon(c, s, enabled))
  {
    BenignSetBeacon(c, s, enabled);
  }

  lemma PressIsPayload(gip: seq<byte>)
    requires |gip| >= 4
    ensures IsGuidePress(gip) <==> gip[0] == CMD_GUIDE_BTN && GipPayload(gip) != [] && gip[4] != 0
  {
  }

  lemma CommandTracks(s: State, w: byte, k: byte, gip: seq<byte>, j: byte)
    requires EventsOk(s) && w < 128 && j < 8 && |gip| >= 4
    ensures TracksFrom(s, Command(s, w, k, gip), j, j == k && IsGuidePress(gip) && !s.slots[j].active)
  {
    PressIsPayload(gip);
    var cmd := gip[0];
    if cmd == CMD_CTRL_ADDED { ConnectTracks(s, k, j); }
    else if cmd == CMD_CTRL_LOST { DisconnectTracks(s, k, j); }
    else if cmd == CMD_ANNOUNCE { AnnounceIsStill(s, w); }
    else if cmd == CMD_INPUT || cmd == CMD_INPUT_OVERFLOW { InputTracks(s, k, GipPayload(gip), j); }
    else if cmd == CMD_GUIDE_BTN && GipPayload(gip) != [] { GuideTracks(s, k, gip[4] != 0, j); }
  }

  lemma DispatchTracks(s: State, w: byte, k: byte, gip: seq<byte>, j: byte)
    requires EventsOk(s) && w < 128 && k < 8 && j < 8
    ensures TracksFrom(s, Dispatch(s, w, k, gip), j, j == k && IsGuidePress(gip) && !s.slots[j].active)
  {
    if |gip| >= 4 {
      AckIsStill(s, w, gip[0], gip[1] % 16, gip[2], gip[3]);
      var acked := if gip[1] / 16 % 2 == 1 then SendAck(s, w, gip[0], gip[1] % 16, gip[2], gip[3]) else s;
      CommandTracks(acked, w, k, gip, j);
    }
  }

  lemma HandshakeTracks(s: State, w: byte, k: byte, j: byte)
    requires w < 128 && j < 8
    ensures TracksFrom(s, Handshake(s, w, k), j, false)
  {
    ConnectTracks(s, k, j);
    assert Still(OnConnect(s, k), Handshake(s, w, k));
  }

  lemma FoundSender(s: State, src: Mac)
    requires PeersOk(s) && Find(s.peers, src) != 0
    ensures var w: byte, t := Find(s.peers, src), PeerFor(s, src);
            if s.peers[w].handshakeDone then w <= 8 && t == (s, w, w - 1) && Known(s, w - 1, src)
            else t.1 == w && !t.0.peers[w].handshakeDone
  {
    var w := Find(s.peers, src);
    assert PeerOk(s.peers[w], w);
    assert Remember(s, src) == (s, w);
  }

  lemma AddedSender(s: State, src: Mac)
    requires PeersOk(s) && Find(s.peers, src) == 0
    ensures var (u, w, k) := PeerFor(s, src); !u.peers[w].handshakeDone
  {
    var (t, w) := Remember(s, src);
    assert t.peers == s.peers[w := NewPeer(src, w)];
  }

  /** A sender past its handshake was in the table already, and nothing is touched by looking it up. */
  lemma OldSender(s: State, src: Mac)
    requires PeersOk(s)
    ensures var (u, w, k) := PeerFor(s, src);
            u.peers[w].handshakeDone ==> u == s && k < 8 && k == w - 1 && Known(s, k, src)
  {
    if Find(s.peers, src) != 0 { FoundSender(s, src); } else { AddedSender(s, src); }
  }

  /** A sender that has not shaken hands is not known under any slot. */
  lemma NewSender(s: State, src: Mac, xs: seq<Mac>, j: byte)
    requires Inv(s) && TableIs(s.peers, s.nextWcid, xs) && !PeerFor(s, src).0.peers[PeerFor(s, src).1].handshakeDone
    ensures !FromIdle(s, src, j)
  {
    if FromIdle(s, src, j) { KnownPeerFor(s, j, src, xs); }
  }

  lemma OnlySlot(s: State, k: byte, src: Mac, xs: seq<Mac>, j: byte)
    requires Inv(s) && TableIs(s.peers, s.nextWcid, xs) && k < 8 && j < 8 && Known(s, k, src)
    ensures FromIdle(s, src, j) <==> j == k && !s.slots[j].active
  {
    KnownPeerFor(s, k, src, xs);
    if FromIdle(s, src, j) { KnownPeerFor(s, j, src, xs); }
  }

  lemma DataTracks(c: Config, s: State, src: Mac, body: seq<byte>, xs: seq<Mac>, j: byte)
    requires Inv(s) && TableIs(s.peers, s.nextWcid, xs) && |body| > 4 && j < 8
    ensures TracksFrom(s, OnData(c, s, src, body), j, FromIdle(s, src, j) && IsGuidePress(body[4..]))
  {
    OldSender(s, src);
    var (u, w, k) := PeerFor(s, src);
    if u.peers[w].handshakeDone {
      OnlySlot(s, k, src, xs, j);
      DispatchTracks(s, w, k, body[4..], j);
    } else {
      NewSender(s, src, xs, j);
      NewSenderTracks(c, s, src, body, j);
    }
  }

  lemma NewSenderTracks(c: Config, s: State, src: Mac, body: seq<byte>, j: byte)
    requires Inv(s) && |body| > 4 && j < 8 && !PeerFor(s, src).0.peers[PeerFor(s, src).1].handshakeDone
    ensures TracksFrom(s, OnData(c, s, src, body), j, false)
  {
    InvPeerFor(s, src);
    var (u, w, k) := PeerFor(s, src);
    if k < 8 {
      FirstDataTracks(c, u, w, k, body[4..], j);
      TracksTrans(s, u, OnData(c, s, src, body), j, false);
    }
  }

  lemma FirstDataTracks(c: Config, u: State, w: byte, k: byte, gip: seq<byte>, j: byte)
    requires Inv(u) && 1 <= w <= 8 && k == w - 1 && u.peers[w].active && u.peers[w].slot == k && j < 8
    ensures TracksFrom(u, Dispatch(BeaconAfterHandshake(c, Handshake(u, w, k)), w, k, gip), j, false)
  {
    HandshakeTracks(u, w, k, j);
    InvFirstData(c, u, w, k);
    var h := Handshake(u, w, k);
    var v := BeaconAfterHandshake(c, h);
    SetBeaconIsStill(c, h, if !c.multiPair then false else ActiveSlots(h.slots) < 8);
    assert v.slots[k].active;
    DispatchTracks(v, w, k, gip, j);
    TracksTrans(u, v, Dispatch(v, w, k, gip), j, false);
  }

  lemma ActionTracks(c: Config, s: State, src: Mac, body: seq<byte>, j: byte)
    requires Inv(s) && j < 8
    ensures TracksFrom(s, OnAction(c, s, src, body), j, false)
  {
    InvPeerFor(s, src);
    var (u, w, k) := PeerFor(s, src);
    if |body| >= 5 && k < 8 && !u.peers[w].handshakeDone {
      GreetingTracks(c, u, src, w, k, j);
      TracksTrans(s, u, OnAction(c, s, src, body), j, false);
    }
  }

  lemma GreetingTracks(c: Config, u: State, src: Mac, w: byte, k: byte, j: byte)
    requires w < 128 && j < 8
    ensures var o := WlanTx(ActionResponse(src, c.ourMac, u.peers[w].wcid), u.peers[w].wcid);
            TracksFrom(u, Handshake(Log(u, o), w, k), j, false)
  {
    var o := WlanTx(ActionResponse(src, c.ourMac, u.peers[w].wcid), u.peers[w].wcid);
    LogSnoc(u.log, o);
    HandshakeTracks(Log(u, o), w, k, j);
    TracksTrans(u, Log(u, o), Handshake(Log(u, o), w, k), j, false);
  }

  lemma CpuTracks(c: Config, s: State, eventType: nat, first: byte, j: byte)
    requires j < 8
    ensures TracksFrom(s, OnCpu(c, s, eventType, first), j, false)
  {
    if c.handleClientLost && eventType == 0x0e {
      LostTracks(c, s, first, j);
    } else {
      SetBeaconIsStill(c, s, true);
    }
  }

  lemma LostTracks(c: Config, s: State, w: byte, j: byte)
    requires j < 8
    ensures TracksFrom(s, OnClientLost(c, s, w), j, false)
  {
    if 0 < w < 9 {
      DisconnectTracks(s, w - 1, j);
      SetBeaconIsStill(c, OnDisconnect(s, w - 1), true);
    }
  }

  lemma ManagementIsStill(c: Config, s: State, now: nat, f: Frame)
    requires PeersOk(s) && f.subtype != 13
    ensures Still(s, OnManagement(c, s, now, f))
  {
    ManagementAnswers(c, s, now, f);
    NoNewEvents(s.log, OnManagement(c, s, now, f).log);
  }

  lemma FrameTracks(c: Config, s: State, now: nat, f: Frame, xs: seq<Mac>, j: byte)
    requires Inv(s) && TableIs(s.peers, s.nextWcid, xs) && j < 8
    ensures TracksFrom(s, OnFrame(c, s, now, f), j, IsData(c, f) && FromIdle(s, f.src, j) && IsGuidePress(f.body[4..]))
  {
    if ToUs(c, f) {
      if IsData(c, f) { DataTracks(c, s, f.src, f.body, xs, j); }
      else if f.kind == 0 && f.subtype == 13 { ActionTracks(c, s, f.src, f.body, j); }
      else if f.kind == 0 { ManagementIsStill(c, s, now, f); }
    }
  }

  /** If the two programs agree on a slot, they agree on it after any step if and only if the step is not a guide press
      of that idle slot's own controller - and only such a step puts one into the event stream. */
  lemma StepTracks(c: Config, s: State, i: Stimulus, xs: seq<Mac>, j: byte)
    requires Inv(s) && TableIs(s.peers, s.nextWcid, xs) && j < 8
    ensures TracksFrom(s, Step(c, s, i), j, PressesIdleGuide(c, s, i, j))
  {
    match i {
      case Tick(now, efuse) => BenignTick(c, s, now, efuse);
      case UsbIn(now, buf) =>
        match Receive(buf) {
          case Other =>
          case Cpu(eventType, first) => CpuTracks(c, s, eventType, first, j);
          case Wlan(f) => FrameTracks(c, s, now, f, xs, j);
        }
    }
  }

  // ---------------------------------------------------------------- agreement over runs

  lemma {:induction false} EventsGrow(a: seq<Output>, b: seq<Output>)
    requires a <= b
    ensures EventsOf(a) <= EventsOf(b)
    decreases |b|
  {
    if a != b {
      assert a <= b[..|b| - 1];
      EventsGrow(a, b[..|b| - 1]);
    }
  }

  lemma {:induction false} LogGrows(c: Config, inputs: seq<Stimulus>, n: nat)
    requires n <= |inputs|
    ensures EventsOf(Run(c, inputs[..n]).log) <= EventsOf(Run(c, inputs).log)
    decreases |inputs|
  {
    if n == |inputs| {
      assert inputs[..n] == inputs;
    } else {
      var before, last := inputs[..|inputs| - 1], inputs[|inputs| - 1];
      assert before[..n] == inputs[..n];
      LogGrows(c, before, n);
      InvRun(c, before);
      StepCauses(c, Run(c, before), last);
      EventsGrow(Run(c, before).log, Run(c, inputs).log);
    }
  }

  lemma InitSyncs(c: Config, j: byte)
    requires j < 8
    ensures Sync(Init(c), j) && Quiet(Init(c), j)
  {
  }

  /** No input of the run is a guide press from the controller of slot `j` while that slot is idle. */
  ghost predicate NoIdlePress(c: Config, inputs: seq<Stimulus>, j: byte) {
    inputs == [] ||
    var before := inputs[..|inputs| - 1];
    NoIdlePress(c, before, j) && !PressesIdleGuide(c, Run(c, before), inputs[|inputs| - 1], j)
  }

  /** The two programs agree on slot `j` after every prefix of the run. */
  ghost predicate SyncThroughout(c: Config, inputs: seq<Stimulus>, j: byte) {
    Sync(Run(c, inputs), j) && (inputs == [] || SyncThroughout(c, inputs[..|inputs| - 1], j))
  }

  lemma {:induction false} SyncAtEvery(c: Config, inputs: seq<Stimulus>, n: nat, j: byte)
    requires SyncThroughout(c, inputs, j) && n <= |inputs|
    ensures Sync(Run(c, inputs[..n]), j)
    decreases |inputs|
  {
    if n == |inputs| {
      assert inputs[..n] == inputs;
    } else {
      assert inputs[..|inputs| - 1][..n] == inputs[..n];
      SyncAtEvery(c, inputs[..|inputs| - 1], n, j);
    }
  }

  lemma RunTracks(c: Config, before: seq<Stimulus>, last: Stimulus, j: byte)
    requires j < 8
    ensures TracksFrom(Run(c, before), Step(c, Run(c, before), last), j, PressesIdleGuide(c, Run(c, before), last, j))
  {
    InvRun(c, before);
    FirstContactTable(c, before);
    StepTracks(c, Run(c, before), last, Contacts(c, before), j);
  }

  /** The emitted stream is free of presses of the idle slot exactly if the inputs are, and then the programs agree. */
  lemma {:induction false} InputsDecide(c: Config, inputs: seq<Stimulus>, j: byte)
    requires j < 8
    ensures Quiet(Run(c, inputs), j) <==> NoIdlePress(c, inputs, j)
    ensures NoIdlePress(c, inputs, j) ==> Sync(Run(c, inputs), j)
  {
    if inputs == [] {
      InitSyncs(c, j);
    } else {
      var before, last := inputs[..|inputs| - 1], inputs[|inputs| - 1];
      InputsDecide(c, before, j);
      RunTracks(c, before, last, j);
      LogGrows(c, inputs, |inputs| - 1);
      if Quiet(Run(c, inputs), j) { QuietPrefix(EventsOf(Run(c, before).log), EventsOf(Run(c, inputs).log), j); }
    }
  }

  /** Slot by slot: the replayed stream equals the daemon's slot at every moment of a run if and only if no input of the
      run is a guide press from that slot's own controller while the slot is idle. What the other controllers do does
      not matter. */
  lemma {:induction false} SlotAgreement(c: Config, inputs: seq<Stimulus>, j: byte)
    requires j < 8
    ensures SyncThroughout(c, inputs, j) <==> NoIdlePress(c, inputs, j)
  {
    if inputs == [] {
      InitSyncs(c, j);
    } else {
      var before, last := inputs[..|inputs| - 1], inputs[|inputs| - 1];
      SlotAgreement(c, before, j);
      RunTracks(c, before, last, j);
      InputsDecide(c, before, j);
    }
  }

  ghost predicate EverySlotSyncs(c: Config, inputs: seq<Stimulus>) {
    forall j: byte :: j < 8 ==> SyncThroughout(c, inputs, j)
  }

  ghost predicate NobodyPresses(c: Config, inputs: seq<Stimulus>) {
    forall j: byte :: j < 8 ==> NoIdlePress(c, inputs, j)
  }

  /** Hence all eight slots agree throughout if and only if nobody presses the guide of an idle slot. */
  lemma ReplicaAgreement(c: Config, inputs: seq<Stimulus>)
    ensures EverySlotSyncs(c, inputs) <==> NobodyPresses(c, inputs)
  {
    if EverySlotSyncs(c, inputs) {
      forall j: byte | j < 8 ensures NoIdlePress(c, inputs, j) {
        SlotAgreement(c, inputs, j);
      }
      assert NobodyPresses(c, inputs);
    }
    if NobodyPresses(c, inputs) {
      forall j: byte | j < 8 ensures SyncThroughout(c, inputs, j) {
        SlotAgreement(c, inputs, j);
      }
      assert EverySlotSyncs(c, inputs);
    }
  }

  // ---------------------------------------------------------------- the two programs and the wire

  /** Daemon, datagrams in flight, bridge. */
  datatype System = System(daemon: State, wire: seq<string>, bridge: Replica)

  datatype Action = DaemonStep(i: Stimulus) | Deliver

  function Datagrams(es: seq<Event>): seq<string> {
    if es == [] then [] else Datagrams(es[..|es| - 1]) + [Datagram(es[|es| - 1])]
  }

  ghost function Act(c: Config, sys: System, a: Action): System {
    match a
    case DaemonStep(i) =>
      var t := Step(c, sys.daemon, i);
      var before, after := EventsOf(sys.daemon.log), EventsOf(t.log);
      System(t, sys.wire + (if |before| <= |after| then Datagrams(after[|before|..]) else []), sys.bridge)
    case Deliver =>
      if sys.wire == [] then sys else System(sys.daemon, sys.wire[1..], OnDatagram(sys.bridge, sys.wire[0], true))
  }

  ghost function Play(c: Config, actions: seq<Action>): System {
    if actions == [] then System(Init(c), [], Repeat(8, EMPTY_SLOT))
    else Act(c, Play(c, actions[..|actions| - 1]), actions[|actions| - 1])
  }

  ghost function Inputs(actions: seq<Action>): seq<Stimulus> {
    if actions == [] then []
    else
      match actions[|actions| - 1]
      case DaemonStep(i) => Inputs(actions[..|actions| - 1]) + [i]
      case Deliver => Inputs(actions[..|actions| - 1])
  }

  /** Reading everything still in flight. */
  function Drain(r: Replica, wire: seq<string>): Replica
    decreases |wire|
  {
    if wire == [] then r else Drain(OnDatagram(r, wire[0], true), wire[1..])
  }

  lemma {:induction false} DrainMore(r: Replica, wire: seq<string>, datagram: string)
    ensures Drain(r, wire + [datagram]) == OnDatagram(Drain(r, wire), datagram, true)
    decreases |wire|
  {
    if wire == [] {
      assert [datagram][1..] == [];
      assert wire + [datagram] == [datagram];
    } else {
      assert (wire + [datagram])[1..] == wire[1..] + [datagram];
      DrainMore(OnDatagram(r, wire[0], true), wire[1..], datagram);
    }
  }

  /** One event more at the sending end. */
  lemma DrainEvent(r: Replica, wire: seq<string>, seen: seq<Event>, e: Event)
    requires Drain(r, wire) == Replay(seen)
    ensures Drain(r, wire + [Datagram(e)]) == Replay(seen + [e])
  {
    DrainMore(r, wire, Datagram(e));
    DatagramIsEvent(Replay(seen), e);
    ReplaySnoc(seen, e);
  }

  lemma Associates<T>(a: seq<T>, b: seq<T>, c: seq<T>)
    ensures a + (b + c) == (a + b) + c
  {
  }

  lemma DatagramsSnoc(wire: seq<string>, es: seq<Event>)
    requires es != []
    ensures wire + Datagrams(es) == (wire + Datagrams(es[..|es| - 1])) + [Datagram(es[|es| - 1])]
  {
    Associates(wire, Datagrams(es[..|es| - 1]), [Datagram(es[|es| - 1])]);
  }

  lemma Regroup(seen: seq<Event>, es: seq<Event>)
    requires es != []
    ensures seen + es == (seen + es[..|es| - 1]) + [es[|es| - 1]]
  {
  }

  lemma {:induction false} DrainEvents(r: Replica, wire: seq<string>, seen: seq<Event>, es: seq<Event>)
    requires Drain(r, wire) == Replay(seen)
    ensures Drain(r, wire + Datagrams(es)) == Replay(seen + es)
    decreases |es|
  {
    if es == [] {
      assert wire + Datagrams(es) == wire && seen + es == seen;
    } else {
      var n := |es| - 1;
      DrainEvents(r, wire, seen, es[..n]);
      DatagramsSnoc(wire, es);
      Regroup(seen, es);
      DrainEvent(r, wire + Datagrams(es[..n]), seen + es[..n], es[n]);
    }
  }

  lemma NewEvents(c: Config, s: State, i: Stimulus)
    requires Inv(s)
    ensures EventsOf(s.log) <= EventsOf(Step(c, s, i).log)
  {
    StepCauses(c, s, i);
    EventsGrow(s.log, Step(c, s, i).log);
  }

  lemma StepOnWire(c: Config, sys: System, i: Stimulus)
    requires Inv(sys.daemon) && Drain(sys.bridge, sys.wire) == Replay(EventsOf(sys.daemon.log))
    ensures var next := Act(c, sys, DaemonStep(i)); Drain(next.bridge, next.wire) == Replay(EventsOf(next.daemon.log))
  {
    NewEvents(c, sys.daemon, i);
    DrainMoreEvents(sys.bridge, sys.wire, EventsOf(sys.daemon.log), EventsOf(Step(c, sys.daemon, i).log));
  }

  lemma DrainMoreEvents(r: Replica, wire: seq<string>, before: seq<Event>, after: seq<Event>)
    requires before <= after && Drain(r, wire) == Replay(before)
    ensures Drain(r, wire + Datagrams(after[|before|..])) == Replay(after)
  {
    assert after == before + after[|before|..];
    DrainEvents(r, wire, before, after[|before|..]);
  }

  lemma InputsSnoc(actions: seq<Action>, i: Stimulus)
    requires actions != [] && actions[|actions| - 1] == DaemonStep(i)
    ensures Inputs(actions) == Inputs(actions[..|actions| - 1]) + [i]
    ensures Inputs(actions)[..|Inputs(actions)| - 1] == Inputs(actions[..|actions| - 1])
  {
  }

  lemma {:induction false} WireHoldsTheRest(c: Config, actions: seq<Action>)
    ensures Play(c, actions).daemon == Run(c, Inputs(actions))
    ensures Drain(Play(c, actions).bridge, Play(c, actions).wire) == Replay(EventsOf(Play(c, actions).daemon.log))
  {
    if actions != [] {
      var before, a := actions[..|actions| - 1], actions[|actions| - 1];
      WireHoldsTheRest(c, before);
      if a.DaemonStep? {
        InputsSnoc(actions, a.i);
        InvRun(c, Inputs(before));
        StepOnWire(c, Play(c, before), a.i);
      }
    }
  }

  /** In every interleaving of daemon steps and in-order deliveries, reading what is in flight gives the daemon's
      slot, as long as no input is a guide press from that slot's own controller while the slot is idle. */
  lemma SystemAgreement(c: Config, actions: seq<Action>, j: byte)
    requires j < 8 && NoIdlePress(c, Inputs(actions), j)
    ensures var sys := Play(c, actions); AgreesAt(sys.daemon.slots, Drain(sys.bridge, sys.wire), j)
    ensures var sys := Play(c, actions); sys.wire == [] ==> AgreesAt(sys.daemon.slots, sys.bridge, j)
  {
    WireHoldsTheRest(c, actions);
    InputsDecide(c, Inputs(actions), j);
  }
}
