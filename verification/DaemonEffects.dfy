// What one transfer makes the daemon send and remember, observable by observable: exactly when, and exactly what.

module DaemonEffects {
  import opened Bytes
  import opened Gip
  import opened EventLines
  import opened DaemonModel
  import opened DaemonInputs
  import opened DaemonInvariants
  import opened DaemonRuns

  // ---------------------------------------------------------------- the output of a step, sorted

  datatype View = Events | Commands | Acks | Frames | Clients | Beacons | Switches | Registers

  ghost function ViewOf(o: Output): View {
    match o
    case Notify(_) => Events
    case GipTx(_, _, _) => if IsHostCommand(o) then Commands else Acks
    case WlanTx(_, _) => Frames
    case ClientAdd(_) => Clients
    case RegWrite(_, _) => Registers
    case Beacon(_, _) => Beacons
    case Retune(_, _) => Switches
  }

  ghost function Only(out: seq<Output>, v: View): seq<Output> {
    if out == [] then []
    else
      var before, last := Only(out[..|out| - 1], v), out[|out| - 1];
      if ViewOf(last) == v then before + [last] else before
  }

  lemma OnlySnoc(out: seq<Output>, o: Output, v: View)
    ensures Only(out + [o], v) == Only(out, v) + if ViewOf(o) == v then [o] else []
  {
    assert (out + [o])[..|out|] == out;
  }

  lemma {:induction false} OnlyPlus(a: seq<Output>, b: seq<Output>, v: View)
    ensures Only(a + b, v) == Only(a, v) + Only(b, v)
    decreases |b|
  {
    if b == [] {
      assert a + b == a;
    } else {
      var n := |b| - 1;
      OnlyPlus(a, b[..n], v);
      assert a + b == (a + b[..n]) + [b[n]];
      OnlySnoc(a + b[..n], b[n], v);
    }
  }

  lemma {:induction false} OnlyUniform(out: seq<Output>, x: View, v: View)
    requires forall i :: 0 <= i < |out| ==> ViewOf(out[i]) == x
    ensures Only(out, v) == if v == x then out else []
  {
    if out != [] {
      OnlyUniform(out[..|out| - 1], x, v);
    }
  }

  lemma Beside(a: seq<Output>, b: seq<Output>)
    ensures a == [] ==> a + b == b
    ensures b == [] ==> a + b == a
  {
  }

  lemma EmptyParts(a: seq<Output>, b: seq<Output>, d: seq<Output>)
    ensures [] + d == d && a + [] == a && a + ([] + d) == a + d && a + ([] + []) == a && [] + (b + []) == b
    ensures [] + ([] + d) == d && a + ([] + b) == a + b
  {
  }

  /** Output of one kind, then output of another. */
  lemma TwoKinds(a: seq<Output>, x: View, b: seq<Output>, y: View, v: View)
    requires x != y && forall i :: 0 <= i < |a| ==> ViewOf(a[i]) == x
    requires forall i :: 0 <= i < |b| ==> ViewOf(b[i]) == y
    ensures Only(a + b, v) == if v == x then a else if v == y then b else []
  {
    OnlyPlus(a, b, v);
    OnlyUniform(a, x, v);
    OnlyUniform(b, y, v);
    Beside(Only(a, v), Only(b, v));
  }

  /** A beacon and the register write that goes with it. */
  lemma WrittenView(b: Output, w: Output, v: View)
    requires b.Beacon? && w.RegWrite? && v != Registers
    ensures Only([b] + [w], v) == if v == Beacons then [b] else []
  {
    TwoKinds([b], Beacons, [w], Registers, v);
  }

  /** What a step sends, in order. */
  ghost function New(s: State, t: State): seq<Output> { if |s.log| <= |t.log| then t.log[|s.log|..] else [] }

  ghost predicate Emits(s: State, t: State, out: seq<Output>) { t.log == s.log + out }

  lemma EmitsNew(s: State, t: State, out: seq<Output>)
    requires Emits(s, t, out)
    ensures New(s, t) == out
  {
  }

  lemma EmitsTrans(s: State, t: State, u: State, a: seq<Output>, b: seq<Output>)
    requires Emits(s, t, a) && Emits(t, u, b)
    ensures Emits(s, u, a + b)
  {
  }

  ghost function Notices(es: seq<Event>): (out: seq<Output>)
    ensures |out| == |es| && forall i :: 0 <= i < |out| ==> out[i] == Notify(es[i])
  {
    seq(|es|, i requires 0 <= i < |es| => Notify(es[i]))
  }

  // ---------------------------------------------------------------- the sender

  /** The entry a sender has, or gets. */
  ghost function Entry(s: State, m: Mac): byte { if Find(s.peers, m) != 0 then Find(s.peers, m) else s.nextWcid }

  /** The sender's entry as it stood, a fresh one for a newcomer. */
  ghost function Was(s: State, m: Mac): Peer {
    if Find(s.peers, m) != 0 then s.peers[Find(s.peers, m)] else NewPeer(m, s.nextWcid)
  }

  /** The two register writes of a newcomer. */
  ghost function Allocation(s: State, m: Mac): seq<Output> {
    if Find(s.peers, m) != 0 then []
    else
      var base := WCID_ADDR_BASE + 8 * s.nextWcid;
      [RegWrite(base, Read32(m, 0)), RegWrite(base + 4, Read16(m, 4))]
  }

  lemma WasInTable(s: State, m: Mac)
    requires PeersOk(s)
    ensures 1 <= Entry(s, m) < 128 && Was(s, m).active && Was(s, m).mac == m && PeerOk(Was(s, m), Entry(s, m))
    ensures Was(s, m).wcid == Entry(s, m)
    ensures Entry(s, m) < 127 ==>
              var p := s.peers[Entry(s, m)];
              p.handshakeDone == Was(s, m).handshakeDone && p.initialCommandsSent == Was(s, m).initialCommandsSent &&
              p.sessionInitialized == Was(s, m).sessionInitialized && p.fwClientAdded == Was(s, m).fwClientAdded
  {
    assert PeerOk(s.peers[Entry(s, m)], Entry(s, m));
  }

  lemma RememberIs(s: State, m: Mac)
    requires PeersOk(s)
    ensures var (t, w) := Remember(s, m);
            && w == Entry(s, m) && Emits(s, t, Allocation(s, m)) && t.peers == s.peers[w := Was(s, m)]
            && t.slots == s.slots && t.radio == s.radio && t.hostSeq == s.hostSeq
  {
    if Find(s.peers, m) == 0 {
      AddWcidIs(WithNewPeer(s, m), s.nextWcid, m);
      assert Remember(s, m) == (AddWcid(WithNewPeer(s, m), s.nextWcid, m), s.nextWcid);
    } else {
      assert s.peers[Find(s.peers, m) := s.peers[Find(s.peers, m)]] == s.peers;
    }
  }

  ghost function SeatOf(w: nat): byte { if 1 <= w <= 8 then w - 1 else NO_SLOT }

  lemma SeatIs(t: State, peers: seq<Peer>, w: byte, p: Peer)
    requires |peers| == 128 && 1 <= w < 128 && t.peers == peers[w := p] && p.active && PeerOk(p, w)
    ensures PeerSlot(t, w) == (t.(peers := peers[w := p.(slot := SeatOf(w))]), SeatOf(w))
  {
    PeerSlotIs(t, w);
    assert w > 8 ==> p.(slot := NO_SLOT) == p;
    assert peers[w := p][w := p.(slot := SeatOf(w))] == peers[w := p.(slot := SeatOf(w))];
  }

  lemma SenderIs(s: State, m: Mac)
    requires Inv(s)
    ensures var (u, w, k) := PeerFor(s, m);
            && w == Entry(s, m) && k == SeatOf(w) && Inv(u) && Emits(s, u, Allocation(s, m))
            && u.peers == s.peers[w := Was(s, m).(slot := k)]
            && u.slots == s.slots && u.radio == s.radio && u.hostSeq == s.hostSeq
  {
    RememberIs(s, m);
    WasInTable(s, m);
    InvPeerFor(s, m);
    SeatIs(Remember(s, m).0, s.peers, Entry(s, m), Was(s, m));
  }

  // ---------------------------------------------------------------- what is due

  /** An announce: command 2 of type request from device 0. */
  ghost predicate IsAnnounce(gip: seq<byte>) { |gip| >= 4 && gip[0] == 0x02 && gip[1] == 0x20 }

  /** The type nibble asks for an acknowledgement. */
  ghost predicate AsksAck(gip: seq<byte>) { |gip| >= 4 && gip[1] / 16 % 2 == 1 }

  /** Command 1 to the same device with the sequence number received; nine bytes that repeat command and length. */
  ghost function AckBytes(gip: seq<byte>): seq<byte>
    requires |gip| >= 4
  {
    var kind := 0x20 + gip[1] % 16;
    [0x01, kind, gip[2], 9, 0, gip[0], kind, gip[3], 0, 0, 0, 0, 0]
  }

  /** The events of a message for slot `k`. */
  ghost function MessageEvents(k: byte, open: bool, gip: seq<byte>): seq<Event> {
    if |gip| < 4 then []
    else if gip[0] == 0x0e then (if open then [] else [Connected(k)])
    else if gip[0] == 0x0f then (if open then [Disconnected(k)] else [])
    else if gip[0] == 0x20 || gip[0] == 0x26 then
      (if open && DecodeInput(GipPayload(gip)).Some? then [Input(k, DecodeInput(GipPayload(gip)).value)] else [])
    else if gip[0] == 0x07 then (if gip[3] > 0 && |gip| > 4 then [Guide(k, gip[4] != 0)] else [])
    else []
  }

  /** A session frame of a controller that has not shaken hands opens its slot. */
  ghost predicate Opens(s: State, m: Mac) { Entry(s, m) <= 8 && !Was(s, m).handshakeDone }

  ghost function EventsDue(s: State, d: Meaning): seq<Event> {
    match d
    case Message(src, gip) =>
      var k := SeatOf(Entry(s, src));
      if k >= 8 then []
      else if Opens(s, src) then [Connected(k)] + MessageEvents(k, true, gip)
      else MessageEvents(k, s.slots[k].active, gip)
    case Greeting(src) => if Opens(s, src) then [Connected(SeatOf(Entry(s, src)))] else []
    case Lost(slot) => if slot < 8 && s.slots[slot].active then [Disconnected(slot)] else []
    case _ => []
  }

  /** PowerOn, LED and serial request, when the announce is the controller's first. */
  ghost function CommandsDue(s: State, d: Meaning): seq<Output>
    requires s.hostSeq + 3 < 256
  {
    if d.Message? && Entry(s, d.src) <= 8 && IsAnnounce(d.gip) && !Was(s, d.src).initialCommandsSent then
      InitialCommands(Entry(s, d.src), d.src, s.hostSeq)
    else []
  }

  ghost function AcksDue(s: State, d: Meaning): seq<Output> {
    if d.Message? && Entry(s, d.src) <= 8 && AsksAck(d.gip) then [GipTx(Entry(s, d.src), d.src, AckBytes(d.gip))]
    else []
  }

  /** The firmware hears of a client with the first association request that is answered. */
  ghost function ClientsDue(s: State, d: Meaning): seq<Output> {
    if d.Association? && !Was(s, d.src).sessionInitialized && !Was(s, d.src).fwClientAdded then
      [ClientAdd(Entry(s, d.src))]
    else []
  }

  ghost function FramesDue(c: Config, s: State, d: Meaning): seq<Output> {
    match d
    case Greeting(src) =>
      if Opens(s, src) then [WlanTx(ActionResponse(src, c.ourMac, Entry(s, src)), Entry(s, src))] else []
    case Probe(src, emptySsid) =>
      if emptySsid then [WlanTx(ProbeResponse(src, c.ourMac, s.radio.channel), Entry(s, src))] else []
    case PairRequest(src, firstStage) => if firstStage then [WlanTx(PairResponse(src, c.ourMac), NO_WCID)] else []
    case Authentication(src, body) => [WlanTx(AuthResponse(src, c.ourMac, body), Entry(s, src))]
    case Association(src, again) =>
      if Was(s, src).sessionInitialized then [] else [WlanTx(AssocResponse(src, c.ourMac, again), NO_WCID)]
    case _ => []
  }

  /** Whether the pairing beacon is on afterwards. */
  ghost predicate BeaconDue(c: Config, s: State, d: Meaning) {
    match d
    case Message(src, gip) =>
      if Opens(s, src) then c.multiPair && ActiveSlots(s.slots) + 1 < 8 else s.radio.beaconOn
    case PairRequest(src, firstStage) =>
      if !firstStage then s.radio.beaconOn
      else if c.multiPair then ActiveSlots(s.slots) < 8 || s.radio.beaconOn
      else false
    case Lost(_) => c.multiPair || s.radio.beaconOn
    case Button => true
    case _ => s.radio.beaconOn
  }

  /** It is written exactly when that changes. */
  ghost function BeaconsDue(c: Config, s: State, d: Meaning): seq<Output> {
    if BeaconDue(c, s, d) != s.radio.beaconOn then [Beacon(c.ourMac, s.radio.channel)] else []
  }

  /** Everything a transfer sends, by view; register writes follow the peer table and the beacon. */
  ghost function Due(c: Config, s: State, d: Meaning, v: View): seq<Output>
    requires s.hostSeq + 3 < 256
  {
    match v
    case Events => Notices(EventsDue(s, d))
    case Commands => CommandsDue(s, d)
    case Acks => AcksDue(s, d)
    case Frames => FramesDue(c, s, d)
    case Clients => ClientsDue(s, d)
    case Beacons => BeaconsDue(c, s, d)
    case Switches => []
    case Registers => []
  }

  // ---------------------------------------------------------------- messages

  ghost function AckOut(w: byte, mac: Mac, gip: seq<byte>): seq<Output> {
    if AsksAck(gip) then [GipTx(w, mac, AckBytes(gip))] else []
  }

  ghost function WorkOut(s: State, w: byte, k: byte, gip: seq<byte>): seq<Output>
    requires s.hostSeq + 3 < 256 && w < 128 && k < 8
  {
    if IsAnnounce(gip) then
      (if s.peers[w].initialCommandsSent then [] else InitialCommands(w, s.peers[w].mac, s.hostSeq))
    else Notices(MessageEvents(k, s.slots[k].active, gip))
  }

  ghost function Announced(p: Peer, gip: seq<byte>): Peer {
    if IsAnnounce(gip) then p.(initialCommandsSent := true, sessionInitialized := true) else p
  }

  lemma AckIs(s: State, w: byte, gip: seq<byte>)
    requires PeersOk(s) && 1 <= w < 128 && s.peers[w].active && |gip| >= 4
    ensures SendAck(s, w, gip[0], gip[1] % 16, gip[2], gip[3]) ==
            s.(log := s.log + [GipTx(w, s.peers[w].mac, AckBytes(gip))])
  {
    assert PeerOk(s.peers[w], w);
    var kind := TYPE_REQUEST * 16 + gip[1] % 16;
    assert [CMD_ACKNOWLEDGE, kind, gip[2], 9] + [0, gip[0], kind, gip[3], 0, 0, 0, 0, 0] == AckBytes(gip);
  }

  lemma AnnounceIs(s: State, w: byte, k: byte)
    requires Inv(s) && Owns(s, w, k)
    ensures var t := Announce(s, w);
            && Emits(s, t, if s.peers[w].initialCommandsSent then [] else InitialCommands(w, s.peers[w].mac, s.hostSeq))
            && t.peers == s.peers[w := s.peers[w].(initialCommandsSent := true, sessionInitialized := true)]
            && t.slots == s.slots && t.radio == s.radio
  {
    assert PeerOk(s.peers[w], w);
    if s.peers[w].initialCommandsSent {
      assert s.peers[w].(initialCommandsSent := true) == s.peers[w];
    } else {
      RoomForOneMore(s, w);
      FirstAnnounceIs(s, w);
    }
  }

  lemma CommandIs(s: State, w: byte, k: byte, gip: seq<byte>)
    requires Inv(s) && Owns(s, w, k) && |gip| >= 4
    ensures var t := Command(s, w, k, gip);
            && Emits(s, t, WorkOut(s, w, k, gip)) && t.peers == s.peers[w := Announced(s.peers[w], gip)]
            && t.radio == s.radio
  {
    if IsAnnounce(gip) { AnnounceIs(s, w, k); } else { EventsAre(s, w, k, gip); }
  }

  lemma EventsAre(s: State, w: byte, k: byte, gip: seq<byte>)
    requires w < 128 && k < 8 && |gip| >= 4 && !IsAnnounce(gip)
    ensures var t := Command(s, w, k, gip);
            && Emits(s, t, Notices(MessageEvents(k, s.slots[k].active, gip)))
            && t.peers == s.peers && t.radio == s.radio
    ensures s.peers[w := s.peers[w]] == s.peers
  {
    var es := MessageEvents(k, s.slots[k].active, gip);
    assert GipPayload(gip) != [] <==> gip[3] > 0 && |gip| > 4;
    if es == [] {
      assert Notices(es) == [];
    } else {
      assert Notices(es) == [Notify(es[0])];
    }
  }

  ghost function Acked(s: State, w: byte, gip: seq<byte>): State
    requires w < 128 && |gip| >= 4
  {
    if gip[1] / 16 % 2 == 1 then SendAck(s, w, gip[0], gip[1] % 16, gip[2], gip[3]) else s
  }

  lemma AckedIs(s: State, w: byte, gip: seq<byte>)
    requires Inv(s) && 1 <= w < 128 && s.peers[w].active && |gip| >= 4
    ensures Inv(Acked(s, w, gip))
    ensures Acked(s, w, gip) == s.(log := s.log + AckOut(w, s.peers[w].mac, gip))
  {
    AckIs(s, w, gip);
    InvAck(s, w, gip[0], gip[1] % 16, gip[2], gip[3]);
  }

  lemma DispatchIs(s: State, w: byte, k: byte, gip: seq<byte>)
    requires Inv(s) && Owns(s, w, k)
    ensures var t := Dispatch(s, w, k, gip);
            && Emits(s, t, AckOut(w, s.peers[w].mac, gip) + WorkOut(s, w, k, gip))
            && t.peers == s.peers[w := Announced(s.peers[w], gip)] && t.radio == s.radio
  {
    if |gip| >= 4 {
      AckedIs(s, w, gip);
      var acked := Acked(s, w, gip);
      CommandIs(acked, w, k, gip);
      EmitsTrans(s, acked, Command(acked, w, k, gip), AckOut(w, s.peers[w].mac, gip), WorkOut(acked, w, k, gip));
    } else {
      assert Notices([]) == [] && s.peers[w := s.peers[w]] == s.peers && s.log + ([] + []) == s.log;
    }
  }

  /** The beacon as a switch: what is sent, and what else changes. */
  ghost function BeaconOut(c: Config, s: State, enabled: bool): seq<Output> {
    if s.radio.beaconOn == enabled then []
    else [Beacon(c.ourMac, s.radio.channel)]
         + [RegWrite(BEACON_TIME_CFG, WithBeaconBits(ReadReg(s, BEACON_TIME_CFG)))]
  }

  lemma BeaconIs(c: Config, s: State, enabled: bool)
    ensures var t := SetBeacon(c, s, enabled);
            && Emits(s, t, BeaconOut(c, s, enabled)) && t.radio == s.radio.(beaconOn := enabled)
            && t.peers == s.peers && t.slots == s.slots && t.hostSeq == s.hostSeq
  {
  }

  lemma BeaconView(c: Config, s: State, enabled: bool, v: View)
    requires v != Registers
    ensures Only(BeaconOut(c, s, enabled), v) ==
            if v == Beacons && s.radio.beaconOn != enabled then [Beacon(c.ourMac, s.radio.channel)] else []
  {
    if s.radio.beaconOn != enabled {
      WrittenView(Beacon(c.ourMac, s.radio.channel),
                  RegWrite(BEACON_TIME_CFG, WithBeaconBits(ReadReg(s, BEACON_TIME_CFG))), v);
    }
  }

  lemma {:induction false} OneMoreActive(slots: seq<Slot>, k: nat, slot: Slot)
    requires k < |slots| && !slots[k].active && slot.active
    ensures ActiveSlots(slots[k := slot]) == ActiveSlots(slots) + 1
  {
    var n := |slots| - 1;
    if k < n {
      OneMoreActive(slots[..n], k, slot);
      assert slots[k := slot][..n] == slots[..n][k := slot];
    } else {
      assert slots[k := slot][..n] == slots[..n];
    }
  }

  /** The first session frame: the slot opens and the beacon follows. */
  lemma OpeningIs(s: State, w: byte, k: byte)
    requires Inv(s) && 1 <= w <= 8 && k == w - 1 && s.peers[w].active && s.peers[w].slot == k
    requires !s.peers[w].handshakeDone
    ensures var t := Handshake(s, w, k);
            && Inv(t) && Owns(t, w, k) && Emits(s, t, Notices([Connected(k)])) && t.slots[k].active
            && t.peers == s.peers[w := s.peers[w].(handshakeDone := true)]
            && t.radio == s.radio && t.regs == s.regs && t.hostSeq == s.hostSeq
            && ActiveSlots(t.slots) == ActiveSlots(s.slots) + 1
  {
    InvHandshake(s, w, k);
    assert !s.slots[k].active;
    ConnectIs(s, k);
    assert Handshake(s, w, k) == SetPeer(OnConnect(s, k), w, s.peers[w].(handshakeDone := true));
  }

  lemma ConnectIs(s: State, k: byte)
    requires k < 8 && !s.slots[k].active
    ensures var t := OnConnect(s, k);
            && Emits(s, t, Notices([Connected(k)])) && t.slots[k].active && t == s.(slots := t.slots, log := t.log)
            && ActiveSlots(t.slots) == ActiveSlots(s.slots) + 1
  {
    assert Notices([Connected(k)]) == [Notify(Connected(k))];
    OneMoreActive(s.slots, k, s.slots[k].(active := true, clientId := k, report := s.slots[k].report.(hat := 8)));
  }

  lemma OpenedIs(c: Config, s: State, w: byte, k: byte)
    requires Inv(s) && 1 <= w <= 8 && k == w - 1 && s.peers[w].active && s.peers[w].slot == k
    requires !s.peers[w].handshakeDone
    ensures var h, t := Handshake(s, w, k), BeaconAfterHandshake(c, Handshake(s, w, k));
            var on := c.multiPair && ActiveSlots(s.slots) + 1 < 8;
            && Inv(t) && Owns(t, w, k) && Emits(s, t, Notices([Connected(k)]) + BeaconOut(c, h, on))
            && t.slots[k].active && t.peers == s.peers[w := s.peers[w].(handshakeDone := true)]
            && t.radio == s.radio.(beaconOn := on) && t.hostSeq == s.hostSeq
  {
    var h, on := Handshake(s, w, k), c.multiPair && ActiveSlots(s.slots) + 1 < 8;
    OpeningIs(s, w, k);
    BeaconIs(c, h, on);
    InvFirstData(c, s, w, k);
    EmitsTrans(s, h, SetBeacon(c, h, on), Notices([Connected(k)]), BeaconOut(c, h, on));
  }

  /** What happens before dispatch: to a newcomer the slot opens, to a known controller nothing. */
  ghost function Ready(c: Config, u: State, w: byte, k: byte): State
    requires w < 128
  {
    if u.peers[w].handshakeDone then u else BeaconAfterHandshake(c, Handshake(u, w, k))
  }

  ghost function ReadyOut(c: Config, u: State, w: byte, k: byte): seq<Output>
    requires w < 128
  {
    if u.peers[w].handshakeDone then []
    else Notices([Connected(k)]) + BeaconOut(c, Handshake(u, w, k), c.multiPair && ActiveSlots(u.slots) + 1 < 8)
  }

  lemma ReadyIs(c: Config, u: State, w: byte, k: byte)
    requires Inv(u) && 1 <= w <= 8 && k == w - 1 && u.peers[w].active && u.peers[w].slot == k
    ensures var t, first := Ready(c, u, w, k), !u.peers[w].handshakeDone;
            && Inv(t) && Owns(t, w, k) && Emits(u, t, ReadyOut(c, u, w, k))
            && t.slots[k].active == (first || u.slots[k].active)
            && t.peers == u.peers[w := u.peers[w].(handshakeDone := true)] && t.hostSeq == u.hostSeq
            && t.radio == if first then u.radio.(beaconOn := c.multiPair && ActiveSlots(u.slots) + 1 < 8) else u.radio
  {
    if u.peers[w].handshakeDone {
      assert u.peers[w].(handshakeDone := true) == u.peers[w] && u.peers[w := u.peers[w]] == u.peers;
    } else {
      OpenedIs(c, u, w, k);
    }
  }

  lemma ReadyView(c: Config, u: State, w: byte, k: byte, v: View)
    requires 1 <= w <= 8 && k == w - 1 && v != Registers
    ensures Only(ReadyOut(c, u, w, k), v) == ReadyDue(c, u, w, k, v)
  {
    if !u.peers[w].handshakeDone {
      var h, on := Handshake(u, w, k), c.multiPair && ActiveSlots(u.slots) + 1 < 8;
      OnlyPlus(Notices([Connected(k)]), BeaconOut(c, h, on), v);
      OnlyUniform(Notices([Connected(k)]), Events, v);
      BeaconView(c, h, on, v);
      assert h.radio == u.radio;
    }
  }

  /** A message from the controller of slot `k`, once it is in the table as `u` has it. */
  lemma HandledIs(c: Config, u: State, w: byte, k: byte, gip: seq<byte>)
    requires Inv(u) && 1 <= w <= 8 && k == w - 1 && u.peers[w].active && u.peers[w].slot == k
    ensures var r := Ready(c, u, w, k);
            var t := Dispatch(r, w, k, gip);
            && Inv(r) && Owns(r, w, k)
            && Emits(u, t, ReadyOut(c, u, w, k) + (AckOut(w, u.peers[w].mac, gip) + WorkOut(r, w, k, gip)))
            && t.peers == u.peers[w := Announced(u.peers[w].(handshakeDone := true), gip)] && t.radio == r.radio
  {
    var r := Ready(c, u, w, k);
    ReadyIs(c, u, w, k);
    DispatchIs(r, w, k, gip);
    EmitsTrans(u, r, Dispatch(r, w, k, gip), ReadyOut(c, u, w, k),
               AckOut(w, u.peers[w].mac, gip) + WorkOut(r, w, k, gip));
  }

  lemma WorkView(s: State, w: byte, k: byte, gip: seq<byte>, v: View)
    requires Inv(s) && Owns(s, w, k)
    ensures Only(WorkOut(s, w, k, gip), v) ==
            if v == Events then Notices(MessageEvents(k, s.slots[k].active, gip))
            else if v == Commands && IsAnnounce(gip) && !s.peers[w].initialCommandsSent then
              InitialCommands(w, s.peers[w].mac, s.hostSeq)
            else []
  {
    if IsAnnounce(gip) {
      assert Notices(MessageEvents(k, s.slots[k].active, gip)) == [];
      if !s.peers[w].initialCommandsSent {
        OnlyUniform(InitialCommands(w, s.peers[w].mac, s.hostSeq), Commands, v);
      }
    } else {
      OnlyUniform(WorkOut(s, w, k, gip), Events, v);
    }
  }

  lemma AckView(w: byte, mac: Mac, gip: seq<byte>, v: View)
    ensures Only(AckOut(w, mac, gip), v) == if v == Acks then AckOut(w, mac, gip) else []
  {
    OnlyUniform(AckOut(w, mac, gip), Acks, v);
  }

  lemma AllocationView(s: State, m: Mac, v: View)
    requires v != Registers
    ensures Only(Allocation(s, m), v) == []
  {
    OnlyUniform(Allocation(s, m), Registers, v);
  }

  lemma HandledView(c: Config, u: State, w: byte, k: byte, gip: seq<byte>, v: View)
    requires Inv(u) && 1 <= w <= 8 && k == w - 1 && u.peers[w].active && u.peers[w].slot == k && v != Registers
    ensures var r := Ready(c, u, w, k);
            && Inv(r) && Owns(r, w, k)
            && Only(ReadyOut(c, u, w, k) + (AckOut(w, u.peers[w].mac, gip) + WorkOut(r, w, k, gip)), v) ==
               Only(ReadyOut(c, u, w, k), v)
               + (Only(AckOut(w, u.peers[w].mac, gip), v) + Only(WorkOut(r, w, k, gip), v))
  {
    var r := Ready(c, u, w, k);
    ReadyIs(c, u, w, k);
    OnlyPlus(ReadyOut(c, u, w, k), AckOut(w, u.peers[w].mac, gip) + WorkOut(r, w, k, gip), v);
    OnlyPlus(AckOut(w, u.peers[w].mac, gip), WorkOut(r, w, k, gip), v);
  }

  lemma NoticesPlus(a: seq<Event>, b: seq<Event>)
    ensures Notices(a + b) == Notices(a) + Notices(b)
  {
  }

  /** What the handling of a message sends, from the state in which the sender has its entry. */
  ghost function HandledDue(c: Config, u: State, w: byte, k: byte, gip: seq<byte>, v: View): seq<Output>
    requires u.hostSeq + 3 < 256 && w < 128 && k < 8
  {
    var first, on := !u.peers[w].handshakeDone, c.multiPair && ActiveSlots(u.slots) + 1 < 8;
    match v
    case Events =>
      if first then Notices([Connected(k)]) + Notices(MessageEvents(k, true, gip))
      else Notices(MessageEvents(k, u.slots[k].active, gip))
    case Commands =>
      if IsAnnounce(gip) && !u.peers[w].initialCommandsSent then InitialCommands(w, u.peers[w].mac, u.hostSeq) else []
    case Acks => AckOut(w, u.peers[w].mac, gip)
    case Beacons => if first && u.radio.beaconOn != on then [Beacon(c.ourMac, u.radio.channel)] else []
    case _ => []
  }

  lemma HandledEmits(c: Config, u: State, w: byte, k: byte, gip: seq<byte>, v: View)
    requires Inv(u) && 1 <= w <= 8 && k == w - 1 && u.peers[w].active && u.peers[w].slot == k && v != Registers
    ensures var r := Ready(c, u, w, k);
            && Inv(r) && Owns(r, w, k)
            && Only(ReadyOut(c, u, w, k) + (AckOut(w, u.peers[w].mac, gip) + WorkOut(r, w, k, gip)), v) ==
               HandledDue(c, u, w, k, gip, v)
  {
    HandledView(c, u, w, k, gip, v);
    PartsSum(c, u, w, k, gip, v);
  }

  /** The work's share of a view. */
  ghost function WorkDue(u: State, w: byte, k: byte, gip: seq<byte>, v: View): seq<Output>
    requires u.hostSeq + 3 < 256 && w < 128 && k < 8
  {
    if v == Events then Notices(MessageEvents(k, !u.peers[w].handshakeDone || u.slots[k].active, gip))
    else if v == Commands && IsAnnounce(gip) && !u.peers[w].initialCommandsSent then
      InitialCommands(w, u.peers[w].mac, u.hostSeq)
    else []
  }

  lemma WorkAfterReady(c: Config, u: State, w: byte, k: byte, gip: seq<byte>, v: View)
    requires Inv(u) && 1 <= w <= 8 && k == w - 1 && u.peers[w].active && u.peers[w].slot == k
    ensures var r := Ready(c, u, w, k);
            Inv(r) && Owns(r, w, k) && Only(WorkOut(r, w, k, gip), v) == WorkDue(u, w, k, gip, v)
  {
    ReadyIs(c, u, w, k);
    WorkView(Ready(c, u, w, k), w, k, gip, v);
  }

  lemma PartsSum(c: Config, u: State, w: byte, k: byte, gip: seq<byte>, v: View)
    requires Inv(u) && 1 <= w <= 8 && k == w - 1 && u.peers[w].active && u.peers[w].slot == k && v != Registers
    ensures var r := Ready(c, u, w, k);
            && Inv(r) && Owns(r, w, k)
            && Only(ReadyOut(c, u, w, k), v)
               + (Only(AckOut(w, u.peers[w].mac, gip), v) + Only(WorkOut(r, w, k, gip), v)) ==
               HandledDue(c, u, w, k, gip, v)
  {
    WorkAfterReady(c, u, w, k, gip, v);
    ReadyView(c, u, w, k, v);
    AckView(w, u.peers[w].mac, gip, v);
    SharesSum(c, u, w, k, gip, v);
  }

  ghost function ReadyDue(c: Config, u: State, w: byte, k: byte, v: View): seq<Output>
    requires w < 128
  {
    if u.peers[w].handshakeDone then []
    else if v == Events then Notices([Connected(k)])
    else if v == Beacons && u.radio.beaconOn != (c.multiPair && ActiveSlots(u.slots) + 1 < 8) then
      [Beacon(c.ourMac, u.radio.channel)]
    else []
  }

  lemma SharesSum(c: Config, u: State, w: byte, k: byte, gip: seq<byte>, v: View)
    requires u.hostSeq + 3 < 256 && w < 128 && k < 8
    ensures ReadyDue(c, u, w, k, v)
            + ((if v == Acks then AckOut(w, u.peers[w].mac, gip) else []) + WorkDue(u, w, k, gip, v)) ==
            HandledDue(c, u, w, k, gip, v)
  {
    EmptyParts(ReadyDue(c, u, w, k, v), AckOut(w, u.peers[w].mac, gip), WorkDue(u, w, k, gip, v));
  }

  /** The same in terms of the state before. */
  lemma HandledDueIs(c: Config, s: State, src: Mac, gip: seq<byte>, v: View)
    requires Inv(s) && Entry(s, src) <= 8 && v != Registers
    ensures var (u, w, k) := PeerFor(s, src);
            && Inv(u) && 1 <= w <= 8 && k == w - 1 && u.peers[w].active && u.peers[w].slot == k
            && u.peers[w].mac == src
            && HandledDue(c, u, w, k, gip, v) == Due(c, s, Message(src, gip), v)
  {
    SenderIs(s, src);
    WasInTable(s, src);
    var (u, w, k) := PeerFor(s, src);
    SeatedDue(c, s, u, src, gip, v);
  }

  lemma SeatedDue(c: Config, s: State, u: State, src: Mac, gip: seq<byte>, v: View)
    requires s.hostSeq + 3 < 256 && 1 <= Entry(s, src) <= 8 && u.hostSeq == s.hostSeq
    requires u.slots == s.slots && u.radio == s.radio && Was(s, src).mac == src
    requires u.peers[Entry(s, src)] == Was(s, src).(slot := SeatOf(Entry(s, src)))
    ensures HandledDue(c, u, Entry(s, src), SeatOf(Entry(s, src)), gip, v) == Due(c, s, Message(src, gip), v)
  {
    NoticesPlus([Connected(SeatOf(Entry(s, src)))], MessageEvents(SeatOf(Entry(s, src)), true, gip));
  }

  lemma MessageEmits(c: Config, s: State, src: Mac, gip: seq<byte>, v: View)
    requires Inv(s) && v != Registers
    ensures Only(New(s, Delivered(c, s, src, gip)), v) == Due(c, s, Message(src, gip), v)
  {
    if Entry(s, src) <= 8 { SeatedEmits(c, s, src, gip, v); } else { UnseatedEmits(c, s, src, gip, v); }
  }

  lemma UnseatedEmits(c: Config, s: State, src: Mac, gip: seq<byte>, v: View)
    requires Inv(s) && v != Registers && Entry(s, src) > 8
    ensures Only(New(s, Delivered(c, s, src, gip)), v) == [] == Due(c, s, Message(src, gip), v)
  {
    SenderIs(s, src);
    AllocationView(s, src, v);
    EmitsNew(s, PeerFor(s, src).0, Allocation(s, src));
    UnseatedDue(c, s, src, gip, v);
  }

  lemma UnseatedDue(c: Config, s: State, src: Mac, gip: seq<byte>, v: View)
    requires s.hostSeq + 3 < 256 && Entry(s, src) > 8
    ensures Due(c, s, Message(src, gip), v) == []
  {
    assert Notices([]) == [];
  }

  lemma SeatedEmits(c: Config, s: State, src: Mac, gip: seq<byte>, v: View)
    requires Inv(s) && v != Registers && Entry(s, src) <= 8
    ensures Only(New(s, Delivered(c, s, src, gip)), v) == Due(c, s, Message(src, gip), v)
  {
    SenderIs(s, src);
    AllocationView(s, src, v);
    var (u, w, k) := PeerFor(s, src);
    HandledDueIs(c, s, src, gip, v);
    HandledEmits(c, u, w, k, gip, v);
    HandledIs(c, u, w, k, gip);
    var more := ReadyOut(c, u, w, k) + (AckOut(w, src, gip) + WorkOut(Ready(c, u, w, k), w, k, gip));
    AfterAllocation(s, u, Delivered(c, s, src, gip), Allocation(s, src), more, v);
  }

  lemma AfterAllocation(s: State, u: State, t: State, a: seq<Output>, b: seq<Output>, v: View)
    requires Emits(s, u, a) && Emits(u, t, b) && Only(a, v) == []
    ensures Only(New(s, t), v) == Only(b, v)
  {
    EmitsTrans(s, u, t, a, b);
    EmitsNew(s, t, a + b);
    OnlyPlus(a, b, v);
  }

  // ---------------------------------------------------------------- the other meanings

  /** The greeting's answer and the opening of the slot. */
  lemma GreetedIs(c: Config, u: State, src: Mac, w: byte, k: byte)
    requires Inv(u) && 1 <= w <= 8 && k == w - 1 && u.peers[w].active && u.peers[w].slot == k
    requires !u.peers[w].handshakeDone
    ensures var o := WlanTx(ActionResponse(src, c.ourMac, w), w);
            var t := Handshake(Log(u, o), w, k);
            && Emits(u, t, [o] + Notices([Connected(k)])) && t.radio == u.radio
            && t.peers == u.peers[w := u.peers[w].(handshakeDone := true)]
  {
    var o := WlanTx(ActionResponse(src, c.ourMac, w), w);
    InvLog(u, o);
    OpeningIs(Log(u, o), w, k);
    EmitsTrans(u, Log(u, o), Handshake(Log(u, o), w, k), [o], Notices([Connected(k)]));
  }

  lemma GreetingView(o: Output, k: byte, v: View)
    requires o.WlanTx?
    ensures Only([o] + Notices([Connected(k)]), v) ==
            if v == Frames then [o] else if v == Events then Notices([Connected(k)]) else []
  {
    TwoKinds([o], Frames, Notices([Connected(k)]), Events, v);
  }

  lemma GreetingEmits(c: Config, s: State, src: Mac, v: View)
    requires Inv(s) && v != Registers
    ensures Only(New(s, Greeted(c, s, src)), v) == Due(c, s, Greeting(src), v)
  {
    SenderIs(s, src);
    WasInTable(s, src);
    AllocationView(s, src, v);
    GreetingDue(c, s, src, v);
    var (u, w, k) := PeerFor(s, src);
    if Opens(s, src) {
      var o := WlanTx(ActionResponse(src, c.ourMac, w), w);
      GreetedIs(c, u, src, w, k);
      GreetingView(o, k, v);
      AfterAllocation(s, u, Greeted(c, s, src), Allocation(s, src), [o] + Notices([Connected(k)]), v);
    } else {
      EmitsNew(s, u, Allocation(s, src));
    }
  }

  lemma GreetingDue(c: Config, s: State, src: Mac, v: View)
    requires s.hostSeq + 3 < 256
    ensures Due(c, s, Greeting(src), v) ==
            if !Opens(s, src) then []
            else if v == Frames then [WlanTx(ActionResponse(src, c.ourMac, Entry(s, src)), Entry(s, src))]
            else if v == Events then Notices([Connected(SeatOf(Entry(s, src)))])
            else []
  {
    assert Notices([]) == [];
  }

  /** An answer to the sender itself, on its own WCID. */
  ghost function Replied(s: State, src: Mac, frame: seq<byte>): State {
    var (t, w) := Remember(s, src);
    Log(t, WlanTx(frame, if w != 0 then t.peers[w].wcid else NO_WCID))
  }

  lemma ReplyIs(s: State, src: Mac, frame: seq<byte>)
    requires PeersOk(s)
    ensures var t, u := Remember(s, src).0, Replied(s, src, frame);
            && Emits(t, u, [WlanTx(frame, Entry(s, src))])
            && u.peers == s.peers[Entry(s, src) := Was(s, src)] && u.radio == s.radio && u.slots == s.slots
  {
    RememberIs(s, src);
    WasInTable(s, src);
  }

  lemma ReplyEmits(s: State, src: Mac, frame: seq<byte>, v: View)
    requires PeersOk(s) && v != Registers
    ensures Only(New(s, Replied(s, src, frame)), v) == if v == Frames then [WlanTx(frame, Entry(s, src))] else []
  {
    RememberIs(s, src);
    ReplyIs(s, src, frame);
    AllocationView(s, src, v);
    var o := WlanTx(frame, Entry(s, src));
    OnlyUniform([o], Frames, v);
    AfterAllocation(s, Remember(s, src).0, Replied(s, src, frame), Allocation(s, src), [o], v);
  }

  ghost function ClientOut(s: State, src: Mac): seq<Output> {
    if Was(s, src).fwClientAdded then [] else [ClientAdd(Entry(s, src))]
  }

  lemma AssocIs(c: Config, s: State, src: Mac, again: bool)
    requires PeersOk(s)
    ensures var t, u := Remember(s, src).0, SendAssocResponse(c, s, src, again);
            && Emits(t, u, ClientOut(s, src) + [WlanTx(AssocResponse(src, c.ourMac, again), NO_WCID)])
            && u.peers == s.peers[Entry(s, src) := Was(s, src).(fwClientAdded := true)]
            && u.radio == s.radio && u.slots == s.slots
  {
    RememberIs(s, src);
    WasInTable(s, src);
    var (t, w) := Remember(s, src);
    ClientIs(t, s.peers, w, Was(s, src), ClientOut(s, src));
  }

  lemma ClientIs(t: State, peers: seq<Peer>, w: byte, p: Peer, out: seq<Output>)
    requires |peers| == 128 && 1 <= w < 128 && t.peers == peers[w := p] && p.wcid == w
    requires out == if p.fwClientAdded then [] else [ClientAdd(w)]
    ensures var u := if !p.fwClientAdded then FwClientAdd(t, w) else t;
            && Emits(t, u, out) && u.peers == peers[w := p.(fwClientAdded := true)]
            && u.radio == t.radio && u.slots == t.slots
  {
    if p.fwClientAdded { assert p.(fwClientAdded := true) == p; }
    assert peers[w := p][w := p.(fwClientAdded := true)] == peers[w := p.(fwClientAdded := true)];
  }

  lemma AssocEmits(c: Config, s: State, src: Mac, again: bool, v: View)
    requires PeersOk(s) && s.hostSeq + 3 < 256 && v != Registers
    ensures Only(New(s, OnAssocRequest(c, s, src, again)), v) == Due(c, s, Association(src, again), v)
  {
    AssocDue(c, s, src, again, v);
    if Was(s, src).sessionInitialized {
      EmitsNew(s, s, []);
    } else {
      AssocAnswered(c, s, src, again, v);
    }
  }

  lemma AssocDue(c: Config, s: State, src: Mac, again: bool, v: View)
    requires s.hostSeq + 3 < 256
    ensures Due(c, s, Association(src, again), v) ==
            if Was(s, src).sessionInitialized then []
            else if v == Clients then ClientOut(s, src)
            else if v == Frames then [WlanTx(AssocResponse(src, c.ourMac, again), NO_WCID)]
            else []
  {
    assert Notices([]) == [];
  }

  lemma AssocAnswered(c: Config, s: State, src: Mac, again: bool, v: View)
    requires PeersOk(s) && v != Registers
    ensures Only(New(s, SendAssocResponse(c, s, src, again)), v) ==
            if v == Clients then ClientOut(s, src)
            else if v == Frames then [WlanTx(AssocResponse(src, c.ourMac, again), NO_WCID)]
            else []
  {
    RememberIs(s, src);
    AllocationView(s, src, v);
    AssocIs(c, s, src, again);
    var o := WlanTx(AssocResponse(src, c.ourMac, again), NO_WCID);
    TwoKinds(ClientOut(s, src), Clients, [o], Frames, v);
    AfterAllocation(s, Remember(s, src).0, SendAssocResponse(c, s, src, again), Allocation(s, src),
                    ClientOut(s, src) + [o], v);
  }

  /** A frame and the beacon after it. */
  lemma PairEmits(c: Config, s: State, src: Mac, v: View)
    requires s.hostSeq + 3 < 256 && v != Registers
    ensures Only(New(s, PairAnswered(c, s, src)), v) == Due(c, s, PairRequest(src, true), v)
    ensures PairAnswered(c, s, src).radio == s.radio.(beaconOn := BeaconDue(c, s, PairRequest(src, true)))
    ensures PairAnswered(c, s, src).peers == s.peers && PairAnswered(c, s, src).slots == s.slots
  {
    var o := WlanTx(PairResponse(src, c.ourMac), NO_WCID);
    var on := BeaconDue(c, s, PairRequest(src, true));
    PairSwitches(c, s, src);
    FrameThenBeacon(c, s, o, on, v);
    PairDue(c, s, src, v);
  }

  lemma PairSwitches(c: Config, s: State, src: Mac)
    ensures PairAnswered(c, s, src) ==
            SetBeacon(c, Log(s, WlanTx(PairResponse(src, c.ourMac), NO_WCID)), BeaconDue(c, s, PairRequest(src, true)))
  {
  }

  lemma PairDue(c: Config, s: State, src: Mac, v: View)
    requires s.hostSeq + 3 < 256
    ensures Due(c, s, PairRequest(src, true), v) ==
            if v == Frames then [WlanTx(PairResponse(src, c.ourMac), NO_WCID)]
            else if v == Beacons && BeaconDue(c, s, PairRequest(src, true)) != s.radio.beaconOn then
              [Beacon(c.ourMac, s.radio.channel)]
            else []
  {
    assert Notices([]) == [];
  }

  lemma FrameThenBeacon(c: Config, s: State, o: Output, on: bool, v: View)
    requires o.WlanTx? && v != Registers
    ensures var t := SetBeacon(c, Log(s, o), on);
            && t.radio == s.radio.(beaconOn := on) && t.peers == s.peers && t.slots == s.slots
            && Only(New(s, t), v) ==
               if v == Frames then [o]
               else if v == Beacons && on != s.radio.beaconOn then [Beacon(c.ourMac, s.radio.channel)]
               else []
  {
    var t := Log(s, o);
    BeaconIs(c, t, on);
    BeaconView(c, t, on, v);
    OnlyUniform([o], Frames, v);
    EmitsTrans(s, t, SetBeacon(c, t, on), [o], BeaconOut(c, t, on));
    EmitsNew(s, SetBeacon(c, t, on), [o] + BeaconOut(c, t, on));
    OnlyPlus([o], BeaconOut(c, t, on), v);
  }

  lemma LostIs(s: State, k: byte)
    requires k < 8
    ensures var t := OnDisconnect(s, k);
            && Emits(s, t, if s.slots[k].active then Notices([Disconnected(k)]) else [])
            && t.radio == s.radio && t.peers == s.peers
  {
    assert Notices([Disconnected(k)]) == [Notify(Disconnected(k))];
  }

  lemma LostSends(c: Config, s: State, k: byte, v: View)
    requires k < 8 && v != Registers
    ensures Only(New(s, OnClientLost(c, s, k + 1)), v) == LostShare(c, s, k, v)
    ensures var t := OnClientLost(c, s, k + 1);
            t.radio == s.radio.(beaconOn := BeaconDue(c, s, Lost(k))) && t.peers == s.peers
  {
    var t, out := OnDisconnect(s, k), if s.slots[k].active then Notices([Disconnected(k)]) else [];
    LostIs(s, k);
    OnlyUniform(out, Events, v);
    if c.multiPair {
      EventThenBeacon(c, s, t, out, v);
    } else {
      EmitsNew(s, t, out);
    }
  }

  ghost function LostShare(c: Config, s: State, k: byte, v: View): seq<Output>
    requires k < 8
  {
    if v == Events && s.slots[k].active then Notices([Disconnected(k)])
    else if v == Beacons && c.multiPair && !s.radio.beaconOn then [Beacon(c.ourMac, s.radio.channel)]
    else []
  }

  lemma LostDue(c: Config, s: State, k: byte, v: View)
    requires s.hostSeq + 3 < 256 && k < 8
    ensures Due(c, s, Lost(k), v) == LostShare(c, s, k, v)
  {
    assert Notices([]) == [];
  }

  lemma LostEmits(c: Config, s: State, k: byte, v: View)
    requires s.hostSeq + 3 < 256 && k < 8 && v != Registers
    ensures Only(New(s, OnClientLost(c, s, k + 1)), v) == Due(c, s, Lost(k), v)
  {
    LostSends(c, s, k, v);
    LostDue(c, s, k, v);
  }

  lemma EventThenBeacon(c: Config, s: State, t: State, out: seq<Output>, v: View)
    requires Emits(s, t, out) && t.radio == s.radio && t.peers == s.peers && v != Registers
    requires forall i :: 0 <= i < |out| ==> ViewOf(out[i]) == Events
    ensures var u := SetBeacon(c, t, true);
            && u.radio == s.radio.(beaconOn := true) && u.peers == s.peers
            && Only(New(s, u), v) ==
               if v == Events then out
               else if v == Beacons && !s.radio.beaconOn then [Beacon(c.ourMac, s.radio.channel)]
               else []
  {
    BeaconIs(c, t, true);
    BeaconView(c, t, true, v);
    OnlyUniform(out, Events, v);
    EmitsTrans(s, t, SetBeacon(c, t, true), out, BeaconOut(c, t, true));
    EmitsNew(s, SetBeacon(c, t, true), out + BeaconOut(c, t, true));
    OnlyPlus(out, BeaconOut(c, t, true), v);
    Beside(Only(out, v), Only(BeaconOut(c, t, true), v));
  }

  // ---------------------------------------------------------------- any transfer

  lemma LockKeepsSender(s: State, now: nat, m: Mac)
    ensures var l := Lock(s, now); Entry(l, m) == Entry(s, m) && Was(l, m) == Was(s, m) && Opens(l, m) == Opens(s, m)
  {
  }

  lemma LockIsInvisible(c: Config, s: State, now: nat, d: Meaning, v: View)
    requires Inv(s) && IsPairing(d)
    ensures Inv(Lock(s, now)) && Due(c, Lock(s, now), d, v) == Due(c, s, d, v)
  {
    InvBenign(s, Lock(s, now));
    DueIgnoresLock(c, s, now, d, v);
  }

  lemma DueIgnoresLock(c: Config, s: State, now: nat, d: Meaning, v: View)
    requires s.hostSeq + 3 < 256 && IsPairing(d)
    ensures Due(c, Lock(s, now), d, v) == Due(c, s, d, v)
  {
    LockKeepsSender(s, now, d.src);
  }

  lemma NewIgnoresLock(s: State, now: nat, t: State)
    ensures New(Lock(s, now), t) == New(s, t)
  {
  }

  lemma NothingDue(c: Config, s: State, d: Meaning, v: View)
    requires s.hostSeq + 3 < 256
    requires d.Nothing? || d.WakeUp? || (d.Probe? && !d.emptySsid) || (d.PairRequest? && !d.firstStage)
    ensures Due(c, s, d, v) == [] && Only(New(s, s), v) == []
  {
    assert Notices([]) == [];
  }

  lemma ButtonEmits(c: Config, s: State, v: View)
    requires s.hostSeq + 3 < 256 && v != Registers
    ensures Only(New(s, SetBeacon(c, s, true)), v) == Due(c, s, Button, v)
  {
    BeaconIs(c, s, true);
    BeaconView(c, s, true, v);
    EmitsNew(s, SetBeacon(c, s, true), BeaconOut(c, s, true));
    ButtonDue(c, s, v);
  }

  lemma ButtonDue(c: Config, s: State, v: View)
    requires s.hostSeq + 3 < 256
    ensures Due(c, s, Button, v) ==
            if v == Beacons && s.radio.beaconOn != true then [Beacon(c.ourMac, s.radio.channel)] else []
  {
    assert Notices([]) == [];
  }

  lemma ProbeDue(c: Config, s: State, src: Mac, v: View)
    requires s.hostSeq + 3 < 256
    ensures Due(c, s, Probe(src, true), v) ==
            if v == Frames then [WlanTx(ProbeResponse(src, c.ourMac, s.radio.channel), Entry(s, src))] else []
  {
    assert Notices([]) == [];
  }

  lemma AuthDue(c: Config, s: State, src: Mac, body: seq<byte>, v: View)
    requires s.hostSeq + 3 < 256
    ensures Due(c, s, Authentication(src, body), v) ==
            if v == Frames then [WlanTx(AuthResponse(src, c.ourMac, body), Entry(s, src))] else []
  {
    assert Notices([]) == [];
  }

  lemma ProbeEmits(c: Config, s: State, src: Mac, v: View)
    requires PeersOk(s) && s.hostSeq + 3 < 256 && v != Registers
    ensures Only(New(s, SendProbeResponse(c, s, src)), v) == Due(c, s, Probe(src, true), v)
  {
    var frame := ProbeResponse(src, c.ourMac, s.radio.channel);
    ReplyEmits(s, src, frame, v);
    ProbeDue(c, s, src, v);
    assert SendProbeResponse(c, s, src) == Replied(s, src, frame);
  }

  lemma AuthEmits(c: Config, s: State, src: Mac, body: seq<byte>, v: View)
    requires PeersOk(s) && s.hostSeq + 3 < 256 && v != Registers
    ensures Only(New(s, SendAuthResponse(c, s, src, body)), v) == Due(c, s, Authentication(src, body), v)
  {
    var frame := AuthResponse(src, c.ourMac, body);
    ReplyEmits(s, src, frame, v);
    AuthDue(c, s, src, body, v);
    assert SendAuthResponse(c, s, src, body) == Replied(s, src, frame);
  }

  lemma PairingEmits(c: Config, s: State, now: nat, d: Meaning, v: View)
    requires Inv(s) && IsPairing(d) && v != Registers
    ensures Only(New(s, Handled(c, s, now, d)), v) == Due(c, s, d, v)
  {
    var l := Lock(s, now);
    LockIsInvisible(c, s, now, d, v);
    NewIgnoresLock(s, now, Handled(c, s, now, d));
    match d {
      case Probe(src, emptySsid) => if emptySsid { ProbeEmits(c, l, src, v); } else { NothingDue(c, l, d, v); }
      case PairRequest(src, firstStage) => if firstStage { PairEmits(c, l, src, v); } else { NothingDue(c, l, d, v); }
      case Authentication(src, body) => AuthEmits(c, l, src, body, v);
      case Association(src, again) => AssocEmits(c, l, src, again, v);
    }
  }

  lemma MeansSlot(c: Config, i: Stimulus)
    ensures MeaningOf(c, i).Lost? ==> MeaningOf(c, i).slot < 8
  {
  }

  lemma SessionEmits(c: Config, s: State, now: nat, d: Meaning, v: View)
    requires Inv(s) && (d.Message? || d.Greeting?) && v != Registers
    ensures Only(New(s, Handled(c, s, now, d)), v) == Due(c, s, d, v)
  {
    if d.Message? { MessageEmits(c, s, d.src, d.gip, v); } else { GreetingEmits(c, s, d.src, v); }
  }

  lemma NoticeEmits(c: Config, s: State, now: nat, d: Meaning, v: View)
    requires s.hostSeq + 3 < 256 && v != Registers
    requires (d.Lost? && d.slot < 8) || d.Button? || d.WakeUp? || d.Nothing?
    ensures Only(New(s, Handled(c, s, now, d)), v) == Due(c, s, d, v)
  {
    if d.Lost? {
      LostEmits(c, s, d.slot, v);
      assert d == Lost(d.slot) && Handled(c, s, now, d) == OnClientLost(c, s, d.slot + 1);
    } else if d.Button? {
      ButtonEmits(c, s, v);
      assert Handled(c, s, now, d) == SetBeacon(c, s, true);
    } else {
      NothingDue(c, s, d, v);
      assert Handled(c, s, now, d) == s;
    }
  }

  lemma MeaningEmits(c: Config, s: State, now: nat, d: Meaning, v: View)
    requires Inv(s) && (d.Lost? ==> d.slot < 8) && v != Registers
    ensures Only(New(s, Handled(c, s, now, d)), v) == Due(c, s, d, v)
  {
    if IsPairing(d) {
      PairingEmits(c, s, now, d, v);
    } else if d.Message? || d.Greeting? {
      SessionEmits(c, s, now, d, v);
    } else {
      NoticeEmits(c, s, now, d, v);
    }
  }

  /** Any transfer sends exactly what its meaning makes due, view by view. */
  lemma TransferEmits(c: Config, s: State, i: Stimulus, v: View)
    requires Inv(s) && i.UsbIn? && v != Registers
    ensures Only(New(s, Step(c, s, i)), v) == Due(c, s, MeaningOf(c, i), v)
  {
    var d := MeaningOf(c, i);
    StepReacts(c, s, i);
    MeansSlot(c, i);
    MeaningEmits(c, s, i.now, d, v);
  }

  // ---------------------------------------------------------------- what a transfer leaves behind

  ghost function PeersDue(s: State, d: Meaning): seq<Peer>
    requires PeersOk(s)
  {
    match d
    case Message(src, gip) =>
      var w, p := Entry(s, src), Was(s, src);
      if w <= 8 then s.peers[w := Announced(p.(slot := SeatOf(w), handshakeDone := true), gip)] else s.peers[w := p]
    case Greeting(src) =>
      var w, p := Entry(s, src), Was(s, src);
      if w <= 8 then s.peers[w := p.(slot := SeatOf(w), handshakeDone := true)] else s.peers[w := p]
    case Probe(src, emptySsid) => if emptySsid then s.peers[Entry(s, src) := Was(s, src)] else s.peers
    case Authentication(src, _) => s.peers[Entry(s, src) := Was(s, src)]
    case Association(src, _) =>
      if Was(s, src).sessionInitialized then s.peers else s.peers[Entry(s, src) := Was(s, src).(fwClientAdded := true)]
    case _ => s.peers
  }

  ghost function RadioDue(c: Config, s: State, now: nat, d: Meaning): Radio {
    var r := s.radio.(beaconOn := BeaconDue(c, s, d));
    if IsPairing(d) then r.(lockUntil := now + 5000) else r
  }

  ghost predicate Leaves(c: Config, s: State, now: nat, d: Meaning, t: State)
    requires PeersOk(s)
  {
    t.peers == PeersDue(s, d) && t.radio == RadioDue(c, s, now, d)
  }

  lemma MessageLeaves(c: Config, s: State, src: Mac, gip: seq<byte>, now: nat)
    requires Inv(s)
    ensures Leaves(c, s, now, Message(src, gip), Delivered(c, s, src, gip))
  {
    SenderIs(s, src);
    WasInTable(s, src);
    if Entry(s, src) <= 8 { SeatedLeaves(c, s, src, gip, now); } else { UnseatedSender(s, src); }
  }

  lemma UnseatedSender(s: State, src: Mac)
    requires Inv(s) && Entry(s, src) > 8
    ensures PeerFor(s, src).0.peers == s.peers[Entry(s, src) := Was(s, src)] && PeerFor(s, src).2 >= 8
    ensures PeerFor(s, src).0.radio == s.radio && PeerFor(s, src).0.slots == s.slots
  {
    SenderIs(s, src);
    WasInTable(s, src);
    assert Was(s, src).(slot := NO_SLOT) == Was(s, src);
  }

  lemma Overwrite(peers: seq<Peer>, w: nat, p: Peer, q: Peer)
    requires w < |peers|
    ensures peers[w := p][w := q] == peers[w := q]
  {
  }

  lemma SeatedLeaves(c: Config, s: State, src: Mac, gip: seq<byte>, now: nat)
    requires Inv(s) && 1 <= Entry(s, src) <= 8
    ensures Leaves(c, s, now, Message(src, gip), Delivered(c, s, src, gip))
  {
    SenderIs(s, src);
    WasInTable(s, src);
    var (u, w, k) := PeerFor(s, src);
    SeatedFrom(c, s, u, src, gip, now);
    assert Delivered(c, s, src, gip) == Dispatch(Ready(c, u, w, k), w, k, gip);
  }

  lemma SeatedFrom(c: Config, s: State, u: State, src: Mac, gip: seq<byte>, now: nat)
    requires PeersOk(s) && 1 <= Entry(s, src) <= 8 && Was(s, src).active && Inv(u)
    requires u.peers == s.peers[Entry(s, src) := Was(s, src).(slot := SeatOf(Entry(s, src)))]
    requires u.slots == s.slots && u.radio == s.radio
    ensures var w, k := Entry(s, src), SeatOf(Entry(s, src));
            Leaves(c, s, now, Message(src, gip), Dispatch(Ready(c, u, w, k), w, k, gip))
  {
    var w, k := Entry(s, src), SeatOf(Entry(s, src));
    HandledOver(c, u, s.peers, w, k, Was(s, src).(slot := k), gip);
    SeatedMessage(c, s, src, gip, now, Dispatch(Ready(c, u, w, k), w, k, gip));
  }

  lemma HandledOver(c: Config, u: State, peers: seq<Peer>, w: byte, k: byte, p: Peer, gip: seq<byte>)
    requires Inv(u) && 1 <= w <= 8 && k == w - 1 && u.peers[w].active && u.peers[w].slot == k
    requires |peers| == 128 && u.peers == peers[w := p]
    ensures var t := Dispatch(Ready(c, u, w, k), w, k, gip);
            && t.peers == peers[w := Announced(p.(handshakeDone := true), gip)]
            && t.radio == if p.handshakeDone then u.radio
                          else u.radio.(beaconOn := c.multiPair && ActiveSlots(u.slots) + 1 < 8)
  {
    HandledLeaves(c, u, w, k, gip);
    Overwrite(peers, w, p, Announced(p.(handshakeDone := true), gip));
  }

  lemma SeatedMessage(c: Config, s: State, src: Mac, gip: seq<byte>, now: nat, t: State)
    requires PeersOk(s) && 1 <= Entry(s, src) <= 8
    requires var p := Was(s, src).(slot := SeatOf(Entry(s, src)), handshakeDone := true);
             t.peers == s.peers[Entry(s, src) := Announced(p, gip)]
    requires t.radio == if Was(s, src).handshakeDone then s.radio
                        else s.radio.(beaconOn := c.multiPair && ActiveSlots(s.slots) + 1 < 8)
    ensures Leaves(c, s, now, Message(src, gip), t)
  {
    MessageRadio(c, s, src, gip, now);
  }

  lemma HandledLeaves(c: Config, u: State, w: byte, k: byte, gip: seq<byte>)
    requires Inv(u) && 1 <= w <= 8 && k == w - 1 && u.peers[w].active && u.peers[w].slot == k
    ensures var t := Dispatch(Ready(c, u, w, k), w, k, gip);
            && t.peers == u.peers[w := Announced(u.peers[w].(handshakeDone := true), gip)]
            && t.radio == if u.peers[w].handshakeDone then u.radio
                          else u.radio.(beaconOn := c.multiPair && ActiveSlots(u.slots) + 1 < 8)
  {
    HandledIs(c, u, w, k, gip);
    ReadyIs(c, u, w, k);
  }

  lemma MessageRadio(c: Config, s: State, src: Mac, gip: seq<byte>, now: nat)
    requires 1 <= Entry(s, src) <= 8
    ensures RadioDue(c, s, now, Message(src, gip)) ==
            if Was(s, src).handshakeDone then s.radio
            else s.radio.(beaconOn := c.multiPair && ActiveSlots(s.slots) + 1 < 8)
  {
  }

  lemma GreetingLeaves(c: Config, s: State, src: Mac, now: nat)
    requires Inv(s)
    ensures Leaves(c, s, now, Greeting(src), Greeted(c, s, src))
  {
    if Opens(s, src) { OpenedLeaves(c, s, src, now); } else { UnopenedLeaves(c, s, src, now); }
  }

  lemma UnopenedLeaves(c: Config, s: State, src: Mac, now: nat)
    requires Inv(s) && !Opens(s, src)
    ensures Leaves(c, s, now, Greeting(src), Greeted(c, s, src))
  {
    NotOpened(c, s, src);
    if Entry(s, src) <= 8 {
      SeatedGreeting(c, s, src, now, PeerFor(s, src).0);
    } else {
      UnseatedSender(s, src);
    }
  }

  lemma NotOpened(c: Config, s: State, src: Mac)
    requires Inv(s) && !Opens(s, src)
    ensures Greeted(c, s, src) == PeerFor(s, src).0 && PeerFor(s, src).0.radio == s.radio
    ensures Entry(s, src) <= 8 ==>
              PeerFor(s, src).0.peers ==
              s.peers[Entry(s, src) := Was(s, src).(slot := SeatOf(Entry(s, src)), handshakeDone := true)]
  {
    SenderIs(s, src);
    WasInTable(s, src);
    assert Entry(s, src) <= 8 ==> Was(s, src).(slot := SeatOf(Entry(s, src))) ==
                                  Was(s, src).(slot := SeatOf(Entry(s, src)), handshakeDone := true);
  }

  /** A seated sender past its first session frame: what is left, from its entry and the radio. */
  lemma SeatedGreeting(c: Config, s: State, src: Mac, now: nat, t: State)
    requires PeersOk(s) && Entry(s, src) <= 8 && t.radio == s.radio
    requires t.peers == s.peers[Entry(s, src) := Was(s, src).(slot := SeatOf(Entry(s, src)), handshakeDone := true)]
    ensures Leaves(c, s, now, Greeting(src), t)
  {
  }

  lemma OpenedLeaves(c: Config, s: State, src: Mac, now: nat)
    requires Inv(s) && Opens(s, src)
    ensures Leaves(c, s, now, Greeting(src), Greeted(c, s, src))
  {
    SenderIs(s, src);
    WasInTable(s, src);
    var (u, w, k) := PeerFor(s, src);
    OpenedFrom(c, u, src, w, k);
    var p := Was(s, src).(slot := k);
    Overwrite(s.peers, w, p, p.(handshakeDone := true));
    SeatedGreeting(c, s, src, now, Greeted(c, s, src));
  }

  lemma OpenedFrom(c: Config, u: State, src: Mac, w: byte, k: byte)
    requires Inv(u) && 1 <= w <= 8 && k == w - 1 && u.peers[w].active && u.peers[w].slot == k
    requires !u.peers[w].handshakeDone
    ensures var t := Handshake(Log(u, WlanTx(ActionResponse(src, c.ourMac, u.peers[w].wcid), u.peers[w].wcid)), w, k);
            t.peers == u.peers[w := u.peers[w].(handshakeDone := true)] && t.radio == u.radio
  {
    assert PeerOk(u.peers[w], w);
    GreetedIs(c, u, src, w, k);
  }

  lemma PairingLeaves(c: Config, s: State, now: nat, d: Meaning)
    requires Inv(s) && IsPairing(d)
    ensures Leaves(c, s, now, d, Handled(c, s, now, d))
  {
    var l := Lock(s, now);
    LockKeepsSender(s, now, d.src);
    InvBenign(s, l);
    match d {
      case Probe(src, emptySsid) => ReplyIs(l, src, ProbeResponse(src, c.ourMac, l.radio.channel));
      case Authentication(src, body) => ReplyIs(l, src, AuthResponse(src, c.ourMac, body));
      case PairRequest(src, firstStage) => if firstStage { PairEmits(c, l, src, Frames); }
      case Association(src, again) => AssocIs(c, l, src, again);
    }
  }

  lemma NoticeLeaves(c: Config, s: State, now: nat, d: Meaning)
    requires Inv(s) && ((d.Lost? && d.slot < 8) || d.Button? || d.WakeUp? || d.Nothing?)
    ensures Leaves(c, s, now, d, Handled(c, s, now, d))
  {
    NoticeHandled(c, s, now, d);
    if d.Lost? {
      LostLeaves(c, s, now, d.slot);
    } else if d.Button? {
      ButtonLeaves(c, s, now);
    } else {
      NothingLeaves(c, s, now, d);
    }
  }

  lemma NoticeHandled(c: Config, s: State, now: nat, d: Meaning)
    requires (d.Lost? && d.slot < 8) || d.Button? || d.WakeUp? || d.Nothing?
    ensures d.Lost? ==> d == Lost(d.slot) && Handled(c, s, now, d) == OnClientLost(c, s, d.slot + 1)
    ensures d.Button? ==> d == Button && Handled(c, s, now, d) == SetBeacon(c, s, true)
    ensures d.WakeUp? || d.Nothing? ==> Handled(c, s, now, d) == s
  {
  }

  lemma ButtonLeaves(c: Config, s: State, now: nat)
    requires PeersOk(s)
    ensures Leaves(c, s, now, Button, SetBeacon(c, s, true))
  {
    BeaconIs(c, s, true);
  }

  lemma NothingLeaves(c: Config, s: State, now: nat, d: Meaning)
    requires PeersOk(s) && (d.WakeUp? || d.Nothing?)
    ensures Leaves(c, s, now, d, s)
  {
  }

  lemma LostLeaves(c: Config, s: State, now: nat, k: byte)
    requires PeersOk(s) && k < 8
    ensures Leaves(c, s, now, Lost(k), OnClientLost(c, s, k + 1))
  {
    LostSends(c, s, k, Events);
  }

  /** Any transfer changes the peer table and the radio exactly as its meaning says. */
  lemma TransferLeaves(c: Config, s: State, i: Stimulus)
    requires Inv(s) && i.UsbIn?
    ensures Leaves(c, s, i.now, MeaningOf(c, i), Step(c, s, i))
  {
    var d := MeaningOf(c, i);
    StepReacts(c, s, i);
    MeansSlot(c, i);
    if IsPairing(d) {
      PairingLeaves(c, s, i.now, d);
    } else if d.Message? {
      MessageLeaves(c, s, d.src, d.gip, i.now);
    } else if d.Greeting? {
      GreetingLeaves(c, s, d.src, i.now);
    } else {
      NoticeLeaves(c, s, i.now, d);
    }
  }
}
