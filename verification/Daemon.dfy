// xbox_daemon.c in its own form: global arrays and scalars that the handlers update in place. Every method is proved
// to take the abstract state exactly where the state machine of DaemonModel takes it.

module Daemon {
  import opened Bytes
  import opened Gip
  import opened EventLines
  import opened DaemonModel

  class XboxDaemon {
    const c: Config
    const peers: array<Peer>
    const slots: array<Slot>
    var nextWcid: byte
    var hostSeq: byte
    var channel: byte
    var lockUntil: nat
    var beaconOn: bool
    // Static variables of the channel scan.
    var scanIndex: nat
    var lastSwitch: nat
    var scanMac: Option<Mac>
    // The device: control registers as last written, and everything sent so far.
    var regs: map<nat, u32>
    var log: seq<Output>

    ghost predicate Valid()
      reads this
    {
      peers.Length == 128 && slots.Length == 8
    }

    ghost function S(): State
      reads this, peers, slots
      requires Valid()
    {
      State(peers[..], slots[..], nextWcid, hostSeq,
            Radio(channel, lockUntil, beaconOn, scanIndex, lastSwitch, scanMac), regs, log)
    }

    constructor (c: Config)
      ensures Valid() && this.c == c && S() == Init(c) && fresh(peers) && fresh(slots)
    {
      this.c := c;
      peers := new Peer[128](_ => ZERO_PEER);
      slots := new Slot[8](_ => ZERO_SLOT);
      nextWcid, hostSeq := 1, 0;
      channel := if c.forcedChannel != 0 then c.forcedChannel else 0x2c;
      lockUntil, beaconOn, scanIndex, lastSwitch, scanMac := 0, true, 0, 0, None;
      regs, log := map[], [];
      new;
      assert peers[..] == Repeat(128, ZERO_PEER);
      assert slots[..] == Repeat(8, ZERO_SLOT);
    }

    // -------------------------------------------------------------- single updates

    method Emit(o: Output)
      requires Valid()
      modifies this`log
      ensures Valid() && S() == Log(old(S()), o)
    {
      log := log + [o];
    }

    method PutPeer(w: byte, p: Peer)
      requires Valid() && w < 128
      modifies peers
      ensures Valid() && S() == SetPeer(old(S()), w, p)
    {
      peers[w] := p;
      assert peers[..] == old(peers[..])[w := p];
    }

    method PutSlot(k: byte, slot: Slot)
      requires Valid() && k < 8
      modifies slots
      ensures Valid() && S() == SetSlot(old(S()), k, slot)
    {
      slots[k] := slot;
      assert slots[..] == old(slots[..])[k := slot];
    }

    method WriteRegister(address: nat, value: u32)
      requires Valid()
      modifies this`log, this`regs
      ensures Valid() && S() == WriteReg(old(S()), address, value)
    {
      regs := regs[address := value];
      log := log + [RegWrite(address, value)];
    }

    method ReadRegister(address: nat) returns (value: u32)
      requires Valid()
      ensures value == ReadReg(S(), address)
    {
      value := if address in regs then regs[address] else 0;
    }

    // -------------------------------------------------------------- peers

    method FindPeerByMac(mac: Mac) returns (w: byte)
      requires Valid()
      ensures w == Find(peers[..], mac)
    {
      var i: nat := 1;
      while i < 128
        invariant 1 <= i <= 128
        invariant Find(peers[..], mac) == FindFrom(peers[..], mac, i)
      {
        if peers[i].active && peers[i].mac == mac {
          return i;
        }
        i := i + 1;
      }
      return 0;
    }

    method AddWcidEntry(w: byte, mac: Mac)
      requires Valid()
      modifies this`log, this`regs
      ensures Valid() && S() == AddWcid(old(S()), w, mac)
    {
      var base := WCID_ADDR_BASE + 8 * w;
      WriteRegister(base, Read32(mac, 0));
      WriteRegister(base + 4, Read16(mac, 4));
    }

    method RememberPeer(mac: Mac) returns (w: byte)
      requires Valid()
      modifies this, peers
      ensures Valid() && w < 128 && (S(), w) == Remember(old(S()), mac)
    {
      w := FindPeerByMac(mac);
      if w != 0 {
        return;
      }
      if nextWcid >= PEER_COUNT {
        return 0;
      }
      w := nextWcid;
      AllocatePeer(mac);
      AddWcidEntry(w, mac);
    }

    /** The new entry and the next WCID, which stops at the last entry. */
    method AllocatePeer(mac: Mac)
      requires Valid() && nextWcid < PEER_COUNT
      modifies this`nextWcid, peers
      ensures Valid()
      ensures var was := old(nextWcid);
              var next := if was < PEER_COUNT - 1 then was + 1 else was;
              S() == SetPeer(old(S()), was, NewPeer(mac, was)).(nextWcid := next)
    {
      PutPeer(nextWcid, NewPeer(mac, nextWcid));
      if nextWcid < PEER_COUNT - 1 {
        nextWcid := nextWcid + 1;
      }
    }

    method SlotOfPeer(w: byte) returns (k: byte)
      requires Valid() && w < 128
      modifies peers
      ensures Valid() && (S(), k) == PeerSlot(old(S()), w)
    {
      if peers[w].slot < MAX_SLOTS {
        return peers[w].slot;
      }
      var slot := (peers[w].wcid - 1) % 256;
      if slot >= MAX_SLOTS {
        return NO_SLOT;
      }
      PutPeer(w, peers[w].(slot := slot));
      return slot;
    }

    method ActiveSlotCount() returns (n: nat)
      requires Valid()
      ensures n == ActiveSlots(slots[..])
    {
      n := 0;
      for i := 0 to 8
        invariant n == ActiveSlots(slots[..i])
      {
        assert slots[..i + 1][..i] == slots[..i];
        if slots[i].active {
          n := n + 1;
        }
      }
      assert slots[..8] == slots[..];
    }

    // -------------------------------------------------------------- beacon

    method WriteBeaconFrame(mac: Mac, channel: byte)
      requires Valid()
      modifies this`log, this`regs
      ensures Valid() && S() == WriteBeacon(old(S()), mac, channel)
    {
      Emit(Beacon(mac, channel));
      var config := ReadRegister(BEACON_TIME_CFG);
      WriteRegister(BEACON_TIME_CFG, WithBeaconBits(config));
    }

    method SetPairingBeacon(enabled: bool)
      requires Valid()
      modifies this
      ensures Valid() && S() == SetBeacon(c, old(S()), enabled)
    {
      if beaconOn == enabled {
        return;
      }
      WriteBeaconFrame(c.ourMac, channel);
      beaconOn := enabled;
    }

    // -------------------------------------------------------------- slots and events

    method Connect(k: byte)
      requires Valid()
      modifies this`log, slots
      ensures Valid() && S() == OnConnect(old(S()), k)
    {
      if k >= MAX_SLOTS || slots[k].active {
        return;
      }
      PutSlot(k, slots[k].(active := true, clientId := k, report := slots[k].report.(hat := 8)));
      Emit(Notify(Connected(k)));
    }

    method Disconnect(k: byte)
      requires Valid()
      modifies this`log, slots
      ensures Valid() && S() == OnDisconnect(old(S()), k)
    {
      if k >= MAX_SLOTS || !slots[k].active {
        return;
      }
      PutSlot(k, ZERO_SLOT);
      Emit(Notify(Disconnected(k)));
    }

    method ReportInput(k: byte, payload: seq<byte>)
      requires Valid()
      modifies this`log, slots
      ensures Valid() && S() == OnInput(old(S()), k, payload)
    {
      if k >= MAX_SLOTS || !slots[k].active {
        return;
      }
      var parsed := ParseInput(payload);
      if parsed.None? {
        return;
      }
      var g := parsed.value;
      var report := FillReport(g, slots[k].guidePressed);
      PutSlot(k, slots[k].(report := report));
      Emit(Notify(Input(k, g)));
    }

    method ReportGuide(k: byte, pressed: bool)
      requires Valid()
      modifies this`log, slots
      ensures Valid() && S() == OnGuide(old(S()), k, pressed)
    {
      if k >= MAX_SLOTS {
        return;
      }
      var report := slots[k].report;
      if pressed {
        report := report.(buttons := report.buttons + {HID_BTN_GUIDE});
      } else {
        report := report.(buttons := report.buttons - {HID_BTN_GUIDE});
      }
      PutSlot(k, slots[k].(guidePressed := pressed, report := report));
      Emit(Notify(Guide(k, pressed)));
    }

    // -------------------------------------------------------------- packets to a controller

    method WlanSendGip(w: byte, gip: seq<byte>)
      requires Valid() && w < 128
      modifies this`log
      ensures Valid() && S() == SendGip(old(S()), w, gip)
    {
      if !peers[w].active || gip == [] {
        return;
      }
      var padded := 4 * ((|gip| + 3) / 4);
      if padded > 100 {
        return;
      }
      Emit(GipTx(peers[w].wcid, peers[w].mac, gip));
    }

    method SendFrame(w: byte, cmd: byte, device: byte, kind: byte, sequence: byte, payload: seq<byte>)
      requires Valid() && w < 128 && |payload| < 256
      modifies this`log
      ensures Valid() && S() == SendGipFrame(old(S()), w, cmd, device, kind, sequence, payload)
    {
      var buf := new byte[68](_ => 0);
      var n := GipBuild(buf, cmd, kind % 16 * 16 + device % 16, sequence, payload);
      if n == 0 {
        return;
      }
      WlanSendGip(w, buf[..n]);
    }

    method GipNextSequence() returns (n: byte)
      requires Valid()
      modifies this`hostSeq
      ensures Valid() && S() == old(S()).(hostSeq := n) && n == NextSequence(old(hostSeq))
    {
      hostSeq := (hostSeq + 1) % 256;
      if hostSeq == 0 {
        hostSeq := 1;
      }
      n := hostSeq;
    }

    method SendHostCommand(w: byte, cmd: byte, kind: byte, payload: seq<byte>)
      requires Valid() && w < 128 && |payload| < 256
      modifies this`log, this`hostSeq
      ensures Valid() && S() == SendHost(old(S()), w, cmd, kind, payload)
    {
      var n := GipNextSequence();
      SendFrame(w, cmd, 0, kind, n, payload);
    }

    method SendGipAck(w: byte, cmd: byte, device: byte, sequence: byte, length: byte)
      requires Valid() && w < 128
      modifies this`log
      ensures Valid() && S() == SendAck(old(S()), w, cmd, device, sequence, length)
    {
      if !peers[w].active {
        return;
      }
      SendFrame(w, CMD_ACKNOWLEDGE, device, TYPE_REQUEST, sequence,
                [0, cmd, TYPE_REQUEST * 16 + device % 16, length, 0, 0, 0, 0, 0]);
    }

    // -------------------------------------------------------------- GIP dispatch

    method HandleAnnounce(w: byte)
      requires Valid() && w < 128
      modifies this`log, this`hostSeq, peers
      ensures Valid() && S() == Announce(old(S()), w)
    {
      if !peers[w].initialCommandsSent {
        SendHostCommand(w, CMD_POWER, TYPE_REQUEST, [0x00]);
        SendHostCommand(w, CMD_LED, TYPE_REQUEST, [0x00, 0x01, 0x14]);
        SendHostCommand(w, CMD_SERIAL, TYPE_REQUEST + TYPE_ACK, [0x04]);
        PutPeer(w, peers[w].(initialCommandsSent := true));
      }
      PutPeer(w, peers[w].(sessionInitialized := true));
    }

    method HandleCommand(w: byte, k: byte, gip: seq<byte>)
      requires Valid() && w < 128 && |gip| >= 4
      modifies this`log, this`hostSeq, peers, slots
      ensures Valid() && S() == Command(old(S()), w, k, gip)
    {
      var cmd := gip[0];
      if cmd == CMD_CTRL_ADDED {
        Connect(k);
      } else if cmd == CMD_CTRL_LOST {
        Disconnect(k);
      } else if cmd == CMD_ANNOUNCE {
        if gip[1] % 16 == 0 && gip[1] / 16 == TYPE_REQUEST {
          HandleAnnounce(w);
        }
      } else if cmd == CMD_INPUT || cmd == CMD_INPUT_OVERFLOW {
        ReportInput(k, GipPayload(gip));
      } else if cmd == CMD_GUIDE_BTN {
        if GipPayload(gip) != [] {
          ReportGuide(k, gip[4] != 0);
        }
      }
    }

    method DispatchGip(w: byte, k: byte, gip: seq<byte>)
      requires Valid() && w < 128
      modifies this`log, this`hostSeq, peers, slots
      ensures Valid() && S() == Dispatch(old(S()), w, k, gip)
    {
      if k >= MAX_SLOTS || |gip| < 4 {
        return;
      }
      if gip[1] / 16 % 2 == 1 {
        SendGipAck(w, gip[0], gip[1] % 16, gip[2], gip[3]);
      }
      HandleCommand(w, k, gip);
    }

    // -------------------------------------------------------------- management frames

    /** Appends the body of an association response, with its four empty SSID elements. */
    method BuildAssocResponse(dst: Mac, reassoc: bool) returns (frame: seq<byte>)
      ensures frame == AssocResponse(dst, c.ourMac, reassoc)
    {
      frame := Management(if reassoc then 0x30 else 0x10, dst, c.ourMac) + [0x00, 0x00, 0x00, 0x00, 0x01, 0xc0];
      ghost var head := frame;
      for i := 0 to 4
        invariant frame == head + Zeros(2 * i)
      {
        assert Zeros(2 * i) + [0x00, 0x00] == Zeros(2 * (i + 1));
        frame := frame + [0x00, 0x00];
      }
    }

    method AnswerAssoc(dst: Mac, reassoc: bool)
      requires Valid()
      modifies this, peers
      ensures Valid() && S() == SendAssocResponse(c, old(S()), dst, reassoc)
    {
      var frame := BuildAssocResponse(dst, reassoc);
      var w := RememberPeer(dst);
      if w != 0 && !peers[w].fwClientAdded {
        if peers[w].wcid != 0 {
          Emit(ClientAdd(peers[w].wcid));
        }
        PutPeer(w, peers[w].(fwClientAdded := true));
      }
      Emit(WlanTx(frame, NO_WCID));
    }

    method HandleAssocRequest(src: Mac, reassoc: bool)
      requires Valid()
      modifies this, peers
      ensures Valid() && S() == OnAssocRequest(c, old(S()), src, reassoc)
    {
      var w := FindPeerByMac(src);
      if w != 0 && peers[w].sessionInitialized {
        return;
      }
      AnswerAssoc(src, reassoc);
    }

    method AnswerProbe(dst: Mac)
      requires Valid()
      modifies this, peers
      ensures Valid() && S() == SendProbeResponse(c, old(S()), dst)
    {
      var frame := ProbeResponse(dst, c.ourMac, channel);
      var w := RememberPeer(dst);
      Emit(WlanTx(frame, if w != 0 then peers[w].wcid else NO_WCID));
    }

    method AnswerAuth(dst: Mac, request: seq<byte>)
      requires Valid()
      modifies this, peers
      ensures Valid() && S() == SendAuthResponse(c, old(S()), dst, request)
    {
      var algorithm, sequence: u16 := 0, 2;
      if |request| >= 2 {
        algorithm := Read16(request, 0);
      }
      if |request| >= 4 {
        var requested: int := Read16(request, 2);
        if requested != 0 {
          sequence := ToU16(requested + 1);
        }
      }
      var frame := Management(0xb0, dst, c.ourMac) + Le16(algorithm) + Le16(sequence) + Le16(0);
      var w := RememberPeer(dst);
      var txWcid := NO_WCID;
      if w != 0 {
        txWcid := peers[w].wcid;
      }
      Emit(WlanTx(frame, txWcid));
    }

    method HandlePairRequest(src: Mac, body: seq<byte>)
      requires Valid()
      modifies this
      ensures Valid() && S() == OnPairRequest(c, old(S()), src, body)
    {
      if !StartsWith2(body, 0x70, 0x01) {
        return;
      }
      Emit(WlanTx(PairResponse(src, c.ourMac), NO_WCID));
      if !c.multiPair {
        SetPairingBeacon(false);
      } else {
        var active := ActiveSlotCount();
        if active < 8 {
          SetPairingBeacon(true);
        }
      }
    }

    // -------------------------------------------------------------- session frames

    method HandleAction(src: Mac, body: seq<byte>)
      requires Valid()
      modifies this, peers, slots
      ensures Valid() && S() == OnAction(c, old(S()), src, body)
    {
      if |body| < 5 {
        return;
      }
      var w := RememberPeer(src);
      if w == 0 {
        return;
      }
      var k := SlotOfPeer(w);
      if k >= MAX_SLOTS {
        return;
      }
      if !peers[w].handshakeDone {
        Emit(WlanTx(ActionResponse(src, c.ourMac, peers[w].wcid), peers[w].wcid));
        Connect(k);
        PutPeer(w, peers[w].(handshakeDone := true));
      }
    }

    method HandleData(src: Mac, body: seq<byte>)
      requires Valid()
      modifies this, peers, slots
      ensures Valid() && S() == OnData(c, old(S()), src, body)
    {
      if |body| <= 4 {
        return;
      }
      var w := RememberPeer(src);
      if w == 0 {
        return;
      }
      var k := SlotOfPeer(w);
      if k >= MAX_SLOTS {
        return;
      }
      if !peers[w].handshakeDone {
        Connect(k);
        PutPeer(w, peers[w].(handshakeDone := true));
        if !c.multiPair {
          SetPairingBeacon(false);
        } else {
          var active := ActiveSlotCount();
          SetPairingBeacon(active < 8);
        }
      }
      DispatchGip(w, k, body[4..]);
    }

    // -------------------------------------------------------------- the two loops' bodies

    method LockPairingChannel(now: nat)
      requires Valid()
      modifies this`lockUntil
      ensures Valid() && S() == Lock(old(S()), now)
    {
      lockUntil := now + 5000;
    }

    method HandleManagement(now: nat, f: Frame)
      requires Valid()
      modifies this, peers, slots
      ensures Valid() && S() == OnManagement(c, old(S()), now, f)
    {
      if f.subtype == 13 && IsXboxAction(f.body) {
        HandleAction(f.src, f.body);
      }
      if f.subtype == 4 {
        LockPairingChannel(now);
        if StartsWith2(f.body, 0x00, 0x00) {
          AnswerProbe(f.src);
        }
      }
      if f.subtype == 7 {
        LockPairingChannel(now);
        HandlePairRequest(f.src, f.body);
      }
      if f.subtype == 11 {
        LockPairingChannel(now);
        AnswerAuth(f.src, f.body);
      }
      if f.subtype == 0 {
        LockPairingChannel(now);
        HandleAssocRequest(f.src, false);
      }
      if f.subtype == 2 {
        LockPairingChannel(now);
        HandleAssocRequest(f.src, true);
      }
    }

    method HandleCpuEvent(eventType: nat, first: byte)
      requires Valid()
      modifies this, slots
      ensures Valid() && S() == OnCpu(c, old(S()), eventType, first)
    {
      if c.handleClientLost && eventType == 0x0e {
        if 0 < first < MAX_SLOTS + 1 {
          Disconnect(first - 1);
          if c.multiPair {
            SetPairingBeacon(true);
          }
        }
      } else if eventType == 0x04 {
        SetPairingBeacon(true);
      }
    }

    /** One pass of a reader thread: a transfer that arrived at `now`. */
    method HandleTransfer(now: nat, buf: seq<byte>)
      requires Valid()
      modifies this, peers, slots
      ensures Valid() && S() == Step(c, old(S()), UsbIn(now, buf))
    {
      match Receive(buf) {
        case Other =>
        case Cpu(eventType, first) => HandleCpuEvent(eventType, first);
        case Wlan(f) =>
          if ToUs(c, f) {
            if f.kind == 2 && f.subtype == 8 && |f.body| > 4 {
              HandleData(f.src, f.body);
            } else if f.kind == 0 {
              HandleManagement(now, f);
            }
          }
      }
    }

    method PairingChannelScan(now: nat, efuse: Option<Mac>) returns (ch: byte)
      requires Valid()
      modifies this
      ensures Valid() && S().(radio := S().radio.(channel := ch)) == Scan(old(S()), now, efuse)
    {
      LearnScanMac(efuse);
      if Elapsed(now, lastSwitch) > 2000 {
        SwitchScanChannel(now);
      }
      ch := ScanChannel(scanIndex);
    }

    /** The EFUSE read at the top of the scan, until it works once. */
    method LearnScanMac(efuse: Option<Mac>)
      requires Valid()
      modifies this
      ensures Valid() && S() == LearnMac(old(S()), efuse)
    {
      if scanMac.None? {
        var ctrl := ReadRegister(EFUSE_CTRL);
        WriteRegister(EFUSE_CTRL, EfuseKick(ctrl));
        if efuse.Some? {
          var m := efuse.value;
          scanMac := Some([0x62, 0x45, 0xbd, m[3], m[4], m[5]]);
        }
      }
    }

    method SwitchScanChannel(now: nat)
      requires Valid()
      modifies this
      ensures Valid() && S() == SwitchChannel(old(S()), now)
    {
      scanIndex := (scanIndex + 1) % 4;
      lastSwitch := now;
      Emit(Retune(now, ScanChannel(scanIndex)));
      if scanMac.Some? {
        WriteBeaconFrame(scanMac.value, ScanChannel(scanIndex));
      }
    }

    /** Every second pass of the main loop's one-second sleep. */
    method HandleTick(now: nat, efuse: Option<Mac>)
      requires Valid()
      modifies this
      ensures Valid() && S() == Step(c, old(S()), Tick(now, efuse))
    {
      var active := ActiveSlotCount();
      if active == 0 {
        if !beaconOn {
          SetPairingBeacon(true);
        }
        if c.forcedChannel != 0 {
          return;
        }
        if now >= lockUntil {
          var ch := PairingChannelScan(now, efuse);
          channel := ch;
        }
      } else if c.multiPair {
        if active < 8 {
          SetPairingBeacon(true);
        } else {
          SetPairingBeacon(false);
        }
      }
    }
  }

  /** The daemon's life: from power-on through any inputs it reaches exactly the state the run describes. */
  method Live(c: Config, inputs: seq<Stimulus>) returns (d: XboxDaemon)
    ensures d.Valid() && d.c == c && d.S() == Run(c, inputs)
  {
    d := new XboxDaemon(c);
    for i := 0 to |inputs|
      invariant d.Valid() && d.c == c && fresh(d) && fresh(d.peers) && fresh(d.slots)
      invariant d.S() == Run(c, inputs[..i])
    {
      assert inputs[..i + 1][..i] == inputs[..i];
      match inputs[i] {
        case UsbIn(now, buf) => d.HandleTransfer(now, buf);
        case Tick(now, efuse) => d.HandleTick(now, efuse);
      }
    }
    assert inputs[..|inputs|] == inputs;
  }
}
