// The live session path of xbox_daemon.c as a state machine. One USB transfer and one two-second wake-up of the
// main loop are each one atomic step. Everything the daemon sends is appended to `log`, in order.

module DaemonModel {
  import opened Bytes
  import opened Gip
  import opened EventLines

  const MAX_SLOTS: byte := 8
  const PEER_COUNT: byte := 128
  const NO_SLOT: byte := 255
  const NO_WCID: byte := 255

  const WCID_ADDR_BASE: nat := 0x1800
  const BEACON_TIME_CFG: nat := 0x1114
  const EFUSE_CTRL: nat := 0x0024

  /** What `main` settles before the readers start. */
  datatype Config = Config(ourMac: Mac, handleClientLost: bool, multiPair: bool, forcedChannel: byte)

  predicate ValidConfig(c: Config) { c.forcedChannel in [0, 36, 40, 44, 48] }

  /** `peer_t` */
  datatype Peer = Peer(active: bool, mac: Mac, wcid: byte, handshakeDone: bool, slot: byte,
                       fwClientAdded: bool, sessionInitialized: bool, initialCommandsSent: bool)

  const ZERO_PEER := Peer(false, ZERO_MAC, 0, false, 0, false, false, false)

  /** `slot_t` without its HID handle. */
  datatype Slot = Slot(active: bool, clientId: byte, guidePressed: bool, report: HidReport)

  const ZERO_SLOT := Slot(false, 0, false, ZERO_REPORT)

  /** Channel and beacon globals, and the static variables of `mt76_pairing_channel_scan`. */
  datatype Radio = Radio(channel: byte, lockUntil: nat, beaconOn: bool,
                         scanIndex: nat, lastSwitch: nat, scanMac: Option<Mac>)

  datatype Output =
    | Notify(e: Event)
    | GipTx(wcid: byte, mac: Mac, gip: seq<byte>)
    | WlanTx(frame: seq<byte>, wcid: byte)
    | ClientAdd(wcid: byte)
    | RegWrite(address: nat, value: u32)
    | Beacon(mac: Mac, channel: byte)
    | Retune(now: nat, channel: byte)

  datatype StateData = State(peers: seq<Peer>, slots: seq<Slot>, nextWcid: byte, hostSeq: byte, radio: Radio,
                             regs: map<nat, u32>, log: seq<Output>)

  const BLANK := State(Repeat(128, ZERO_PEER), Repeat(8, ZERO_SLOT), 1, 0,
                       Radio(0x2c, 0, true, 0, 0, None), map[], [])

  type State = s: StateData | |s.peers| == 128 && |s.slots| == 8 witness BLANK

  function Init(c: Config): State {
    if c.forcedChannel != 0 then BLANK.(radio := BLANK.radio.(channel := c.forcedChannel)) else BLANK
  }

  function Log(s: State, o: Output): State { s.(log := s.log + [o]) }

  function SetPeer(s: State, w: byte, p: Peer): State
    requires w < 128
  {
    s.(peers := s.peers[w := p])
  }

  function SetSlot(s: State, k: byte, slot: Slot): State
    requires k < 8
  {
    s.(slots := s.slots[k := slot])
  }

  // ---------------------------------------------------------------- registers

  function ReadReg(s: State, address: nat): u32 { if address in s.regs then s.regs[address] else 0 }

  function WriteReg(s: State, address: nat, value: u32): State {
    Log(s, RegWrite(address, value)).(regs := s.regs[address := value])
  }

  /** `mt76_add_wcid`: the MAC as two little-endian words at 0x1800 + 8 * wcid. */
  function AddWcid(s: State, w: byte, mac: Mac): State {
    var base := WCID_ADDR_BASE + 8 * w;
    WriteReg(WriteReg(s, base, Read32(mac, 0)), base + 4, Read16(mac, 4))
  }

  /** `btcfg |=` bits 16 to 20. */
  function WithBeaconBits(v: u32): u32 { v - v / 0x1_0000 % 32 * 0x1_0000 + 0x1f_0000 }

  /** `mt76_write_beacon`; its `pairing` argument only reaches a printf. */
  function WriteBeacon(s: State, mac: Mac, channel: byte): State {
    WriteReg(Log(s, Beacon(mac, channel)), BEACON_TIME_CFG, WithBeaconBits(ReadReg(s, BEACON_TIME_CFG)))
  }

  function SetBeacon(c: Config, s: State, enabled: bool): State {
    if s.radio.beaconOn == enabled then s
    else WriteBeacon(s, c.ourMac, s.radio.channel).(radio := s.radio.(beaconOn := enabled))
  }

  // ---------------------------------------------------------------- peers

  /** `find_peer_by_mac` from entry `i` on; 0 stands for NULL. */
  function FindFrom(peers: seq<Peer>, mac: Mac, i: nat): (w: nat)
    requires |peers| == 128 && 1 <= i <= 128
    ensures w == 0 || (i <= w < 128 && peers[w].active && peers[w].mac == mac)
    ensures forall j :: i <= j < 128 && (w == 0 || j < w) ==> !(peers[j].active && peers[j].mac == mac)
    decreases 128 - i
  {
    if i == 128 then 0
    else if peers[i].active && peers[i].mac == mac then i
    else FindFrom(peers, mac, i + 1)
  }

  function Find(peers: seq<Peer>, mac: Mac): (w: byte)
    requires |peers| == 128
    ensures w < 128
  {
    FindFrom(peers, mac, 1)
  }

  function NewPeer(mac: Mac, w: byte): Peer { Peer(true, mac, w, false, NO_SLOT, false, false, false) }

  /** `remember_peer`: the peer's entry, or 0 for NULL. */
  function Remember(s: State, mac: Mac): (r: (State, byte))
    ensures r.1 < 128
  {
    var w := Find(s.peers, mac);
    if w != 0 then (s, w)
    else if s.nextWcid >= PEER_COUNT then (s, 0)
    else
      var next := if s.nextWcid < PEER_COUNT - 1 then s.nextWcid + 1 else s.nextWcid;
      (AddWcid(SetPeer(s, s.nextWcid, NewPeer(mac, s.nextWcid)).(nextWcid := next), s.nextWcid, mac), s.nextWcid)
  }

  /** `peer_slot` for a non-NULL peer. */
  function PeerSlot(s: State, w: byte): (r: (State, byte))
    requires w < 128
  {
    var p := s.peers[w];
    if p.slot < MAX_SLOTS then (s, p.slot)
    else
      var slot := (p.wcid - 1) % 256;
      if slot >= MAX_SLOTS then (s, NO_SLOT) else (SetPeer(s, w, p.(slot := slot)), slot)
  }

  /** The opening of both session handlers: the sender's entry (0 for NULL) and its slot, or NO_SLOT. */
  function PeerFor(s: State, mac: Mac): (r: (State, byte, byte))
    ensures r.1 < 128
  {
    var (t, w) := Remember(s, mac);
    if w == 0 then (t, 0, NO_SLOT)
    else
      var (u, k) := PeerSlot(t, w);
      (u, w, k)
  }

  function ActiveSlots(slots: seq<Slot>): (n: nat)
    ensures n <= |slots|
    ensures n == 0 <==> forall i :: 0 <= i < |slots| ==> !slots[i].active
  {
    if slots == [] then 0
    else ActiveSlots(slots[..|slots| - 1]) + if slots[|slots| - 1].active then 1 else 0
  }

  // ---------------------------------------------------------------- slots and events

  function OnConnect(s: State, k: byte): State {
    if k >= MAX_SLOTS || s.slots[k].active then s
    else
      var slot := s.slots[k].(active := true, clientId := k, report := s.slots[k].report.(hat := 8));
      Log(SetSlot(s, k, slot), Notify(Connected(k)))
  }

  function OnDisconnect(s: State, k: byte): State {
    if k >= MAX_SLOTS || !s.slots[k].active then s
    else Log(SetSlot(s, k, ZERO_SLOT), Notify(Disconnected(k)))
  }

  function OnInput(s: State, k: byte, payload: seq<byte>): State {
    if k >= MAX_SLOTS || !s.slots[k].active then s
    else
      match DecodeInput(payload)
      case None => s
      case Some(g) =>
        var slot := s.slots[k].(report := GipToHid(g, s.slots[k].guidePressed));
        Log(SetSlot(s, k, slot), Notify(Input(k, g)))
  }

  /** `on_guide` does not ask whether the slot is active. */
  function OnGuide(s: State, k: byte, pressed: bool): State {
    if k >= MAX_SLOTS then s
    else
      var slot := s.slots[k];
      var report := slot.report.(buttons := SetGuide(slot.report.buttons, pressed));
      Log(SetSlot(s, k, slot.(guidePressed := pressed, report := report)), Notify(Guide(k, pressed)))
  }

  // ---------------------------------------------------------------- packets to a controller

  /** `wlan_send_gip`: up to 100 bytes fit in its packet buffer. */
  function SendGip(s: State, w: byte, gip: seq<byte>): State
    requires w < 128
  {
    var p := s.peers[w];
    if !p.active || gip == [] || 4 * ((|gip| + 3) / 4) > 100 then s else Log(s, GipTx(p.wcid, p.mac, gip))
  }

  /** `send_wlan_gip_frame` with its 68-byte buffer. */
  function SendGipFrame(s: State, w: byte, cmd: byte, device: byte, kind: byte, sequence: byte,
                        payload: seq<byte>): State
    requires w < 128 && |payload| < 256
  {
    match BuildGip(68, cmd, kind % 16 * 16 + device % 16, sequence, payload)
    case None => s
    case Some(gip) => SendGip(s, w, gip)
  }

  function NextSequence(hostSeq: byte): (n: byte)
    ensures n != 0
  {
    if hostSeq == 255 then 1 else hostSeq + 1
  }

  function SendHost(s: State, w: byte, cmd: byte, kind: byte, payload: seq<byte>): State
    requires w < 128 && |payload| < 256
  {
    var n := NextSequence(s.hostSeq);
    SendGipFrame(s.(hostSeq := n), w, cmd, 0, kind, n, payload)
  }

  function SendPowerOn(s: State, w: byte): State requires w < 128 { SendHost(s, w, CMD_POWER, TYPE_REQUEST, [0x00]) }

  function SendLedDim(s: State, w: byte): State
    requires w < 128
  {
    SendHost(s, w, CMD_LED, TYPE_REQUEST, [0x00, 0x01, 0x14])
  }

  function SendSerialRequest(s: State, w: byte): State
    requires w < 128
  {
    SendHost(s, w, CMD_SERIAL, TYPE_REQUEST + TYPE_ACK, [0x04])
  }

  function SendAck(s: State, w: byte, cmd: byte, device: byte, sequence: byte, length: byte): State
    requires w < 128
  {
    if !s.peers[w].active then s
    else
      SendGipFrame(s, w, CMD_ACKNOWLEDGE, device, TYPE_REQUEST, sequence,
                   [0, cmd, TYPE_REQUEST * 16 + device % 16, length, 0, 0, 0, 0, 0])
  }

  // ---------------------------------------------------------------- GIP dispatch

  function Announce(s: State, w: byte): State
    requires w < 128
  {
    var sent := if s.peers[w].initialCommandsSent then s
                else
                  var t := SendSerialRequest(SendLedDim(SendPowerOn(s, w), w), w);
                  SetPeer(t, w, t.peers[w].(initialCommandsSent := true));
    SetPeer(sent, w, sent.peers[w].(sessionInitialized := true))
  }

  function Command(s: State, w: byte, k: byte, gip: seq<byte>): State
    requires w < 128 && |gip| >= 4
  {
    var cmd, device, kind := gip[0], gip[1] % 16, gip[1] / 16;
    var payload := GipPayload(gip);
    if cmd == CMD_CTRL_ADDED then OnConnect(s, k)
    else if cmd == CMD_CTRL_LOST then OnDisconnect(s, k)
    else if cmd == CMD_ANNOUNCE then (if device == 0 && kind == TYPE_REQUEST then Announce(s, w) else s)
    else if cmd == CMD_INPUT || cmd == CMD_INPUT_OVERFLOW then OnInput(s, k, payload)
    else if cmd == CMD_GUIDE_BTN then (if payload != [] then OnGuide(s, k, gip[4] != 0) else s)
    else s
  }

  /** `dispatch_wlan_gip` */
  function Dispatch(s: State, w: byte, k: byte, gip: seq<byte>): State
    requires w < 128
  {
    if k >= MAX_SLOTS || |gip| < 4 then s
    else
      var acked := if gip[1] / 16 % 2 == 1 then SendAck(s, w, gip[0], gip[1] % 16, gip[2], gip[3]) else s;
      Command(acked, w, k, gip)
  }

  // ---------------------------------------------------------------- management frames

  /** 24-byte header: frame control, duration, DA, SA, BSSID, sequence control. */
  function Management(fc: byte, dst: Mac, ourMac: Mac): (f: seq<byte>)
    ensures |f| == 24 && f[0] == fc && f[4..10] == dst
  {
    [fc, 0, 0, 0] + dst + ourMac + ourMac + [0, 0]
  }

  const VENDOR_IE: seq<byte> :=
    [0xdd, 0x10, 0x00, 0x50, 0xf2, 0x11, 0x01, 0x10, 0x00, 0x24, 0x9d, 0x99, 0x00, 0x00, 0x00, 0x00, 0x00, 0x00]

  const PAIR_PAYLOAD: seq<byte> := [0x70, 0x02, 0x00, 0x45, 0x55, 0x01, 0x0f, 0x8f, 0xff, 0x87, 0x1f]

  function ActionResponse(dst: Mac, ourMac: Mac, w: byte): seq<byte> {
    Management(0xd0, dst, ourMac) + [0x7f, 0x00, 0x17, 0xf2, 0x08, 0x11, w, 0x00]
  }

  function ProbeResponse(dst: Mac, ourMac: Mac, channel: byte): seq<byte> {
    Management(0x50, dst, ourMac) + Zeros(8) + [0x64, 0x00, 0x31, 0xc6, 0x00, 0x00, 0x03, 0x01, channel] + VENDOR_IE
  }

  function AssocResponse(dst: Mac, ourMac: Mac, reassoc: bool): seq<byte> {
    Management(if reassoc then 0x30 else 0x10, dst, ourMac) + [0x00, 0x00, 0x00, 0x00, 0x01, 0xc0] + Zeros(8)
  }

  /** The answer to a subtype-11 request: its algorithm, its sequence plus one, status 0. */
  function AuthResponse(dst: Mac, ourMac: Mac, request: seq<byte>): seq<byte> {
    var algorithm := if |request| >= 2 then Read16(request, 0) else 0;
    var sequence := if |request| >= 4 && Read16(request, 2) != 0 then ToU16(Read16(request, 2) + 1) else 2;
    Management(0xb0, dst, ourMac) + Le16(algorithm) + Le16(sequence) + Le16(0)
  }

  function PairResponse(dst: Mac, ourMac: Mac): seq<byte> { Management(0x70, dst, ourMac) + PAIR_PAYLOAD }

  function SendProbeResponse(c: Config, s: State, dst: Mac): State {
    var (t, w) := Remember(s, dst);
    Log(t, WlanTx(ProbeResponse(dst, c.ourMac, s.radio.channel), if w != 0 then t.peers[w].wcid else NO_WCID))
  }

  function SendAuthResponse(c: Config, s: State, dst: Mac, request: seq<byte>): State {
    var (t, w) := Remember(s, dst);
    Log(t, WlanTx(AuthResponse(dst, c.ourMac, request), if w != 0 then t.peers[w].wcid else NO_WCID))
  }

  /** `mt76_fw_client_add` refuses WCID 0. */
  function FwClientAdd(s: State, w: byte): State
    requires w < 128
  {
    var p := s.peers[w];
    var told := if p.wcid == 0 then s else Log(s, ClientAdd(p.wcid));
    SetPeer(told, w, p.(fwClientAdded := true))
  }

  /** `send_assoc_response_common` */
  function SendAssocResponse(c: Config, s: State, dst: Mac, reassoc: bool): State {
    var (t, w) := Remember(s, dst);
    var told := if w != 0 && !t.peers[w].fwClientAdded then FwClientAdd(t, w) else t;
    Log(told, WlanTx(AssocResponse(dst, c.ourMac, reassoc), NO_WCID))
  }

  function OnAssocRequest(c: Config, s: State, src: Mac, reassoc: bool): State {
    var w := Find(s.peers, src);
    if w != 0 && s.peers[w].sessionInitialized then s else SendAssocResponse(c, s, src, reassoc)
  }

  // ---------------------------------------------------------------- session frames

  function Handshake(s: State, w: byte, k: byte): State
    requires w < 128
  {
    var t := OnConnect(s, k);
    SetPeer(t, w, t.peers[w].(handshakeDone := true))
  }

  /** `on_xbox_action` */
  function OnAction(c: Config, s: State, src: Mac, body: seq<byte>): State {
    if |body| < 5 then s
    else
      var (u, w, k) := PeerFor(s, src);
      if k >= MAX_SLOTS || u.peers[w].handshakeDone then u
      else Handshake(Log(u, WlanTx(ActionResponse(src, c.ourMac, u.peers[w].wcid), u.peers[w].wcid)), w, k)
  }

  function BeaconAfterHandshake(c: Config, s: State): State {
    if !c.multiPair then SetBeacon(c, s, false) else SetBeacon(c, s, ActiveSlots(s.slots) < 8)
  }

  /** `on_xbox_data` */
  function OnData(c: Config, s: State, src: Mac, body: seq<byte>): State {
    if |body| <= 4 then s
    else
      var (u, w, k) := PeerFor(s, src);
      if k >= MAX_SLOTS then u
      else
        var v := if u.peers[w].handshakeDone then u else BeaconAfterHandshake(c, Handshake(u, w, k));
        Dispatch(v, w, k, body[4..])
  }

  // ---------------------------------------------------------------- one USB transfer

  /** The 802.11 header fields the daemon looks at, and the body without its end marker. */
  datatype Frame = Frame(kind: nat, subtype: nat, dst: Mac, src: Mac, bss: Mac, body: seq<byte>)

  datatype Received = Wlan(f: Frame) | Cpu(eventType: nat, first: byte) | Other

  /** The unpacking half of `reader_thread`: RxInfo (4), RxWi (32), header (24), body, end marker (4). */
  function Receive(buf: seq<byte>): Received {
    if |buf| < 8 then Other
    else
      var rxInfo := Read32(buf, 0);
      var infoType, port := rxInfo / 0x4000_0000, rxInfo / 0x800_0000 % 8;
      var is80211, eventType := rxInfo / 0x8_0000 % 2 == 1, rxInfo / 0x10_0000 % 16;
      var isWlan := (infoType == 0 && port == 0 && is80211) || (infoType == 1 && port == 1 && eventType == 0x0c);
      if isWlan && |buf| >= 60 then
        var fc := Read16(buf, 36);
        Wlan(Frame(fc / 4 % 4, fc / 16 % 16, buf[40..46], buf[46..52], buf[52..58],
                   if |buf| > 64 then buf[60..|buf| - 4] else []))
      else if infoType == 1 && port == 1 then Cpu(eventType, buf[4])
      else Other
  }

  predicate ToUs(c: Config, f: Frame) { f.dst == c.ourMac || f.bss == c.ourMac }

  predicate StartsWith2(body: seq<byte>, a: byte, b: byte) { |body| >= 2 && body[0] == a && body[1] == b }

  predicate IsXboxAction(body: seq<byte>) {
    |body| >= 5 && body[0] == 0x7f && body[1] == 0x00 && body[2] == 0x17 && body[3] == 0xf2 && body[4] == 0x08
  }

  function Lock(s: State, now: nat): State { s.(radio := s.radio.(lockUntil := now + 5000)) }

  function OnPairRequest(c: Config, s: State, src: Mac, body: seq<byte>): State {
    if !StartsWith2(body, 0x70, 0x01) then s
    else
      var t := Log(s, WlanTx(PairResponse(src, c.ourMac), NO_WCID));
      if !c.multiPair then SetBeacon(c, t, false)
      else if ActiveSlots(t.slots) < 8 then SetBeacon(c, t, true)
      else t
  }

  function OnManagement(c: Config, s: State, now: nat, f: Frame): State {
    if f.subtype == 13 then (if IsXboxAction(f.body) then OnAction(c, s, f.src, f.body) else s)
    else if f.subtype == 4 then
      (if StartsWith2(f.body, 0x00, 0x00) then SendProbeResponse(c, Lock(s, now), f.src) else Lock(s, now))
    else if f.subtype == 7 then OnPairRequest(c, Lock(s, now), f.src, f.body)
    else if f.subtype == 11 then SendAuthResponse(c, Lock(s, now), f.src, f.body)
    else if f.subtype == 0 then OnAssocRequest(c, Lock(s, now), f.src, false)
    else if f.subtype == 2 then OnAssocRequest(c, Lock(s, now), f.src, true)
    else s
  }

  function OnFrame(c: Config, s: State, now: nat, f: Frame): State {
    if !ToUs(c, f) then s
    else if f.kind == 2 && f.subtype == 8 && |f.body| > 4 then OnData(c, s, f.src, f.body)
    else if f.kind == 0 then OnManagement(c, s, now, f)
    else s
  }

  function OnClientLost(c: Config, s: State, w: byte): State {
    if !(0 < w < MAX_SLOTS + 1) then s
    else
      var t := OnDisconnect(s, w - 1);
      if c.multiPair then SetBeacon(c, t, true) else t
  }

  function OnCpu(c: Config, s: State, eventType: nat, first: byte): State {
    if c.handleClientLost && eventType == 0x0e then OnClientLost(c, s, first)
    else if eventType == 0x04 then SetBeacon(c, s, true)
    else s
  }

  function OnUsb(c: Config, s: State, now: nat, buf: seq<byte>): State {
    match Receive(buf)
    case Wlan(f) => OnFrame(c, s, now, f)
    case Cpu(eventType, first) => OnCpu(c, s, eventType, first)
    case Other => s
  }

  // ---------------------------------------------------------------- one wake-up of the main loop

  /** Unsigned 64-bit difference. */
  function Elapsed(now: nat, since: nat): nat { (now - since) % 0x1_0000_0000_0000_0000 }

  /** `ctrl` with the address and mode fields cleared and the kick bit set. */
  function EfuseKick(v: u32): u32 {
    v - v / 0x1_0000 % 1024 * 0x1_0000 - v / 64 % 4 * 64 - v / 0x4000_0000 % 2 * 0x4000_0000 + 0x4000_0000
  }

  /** The scan's own MAC: read from the EFUSE until that works once, with the prefix overwritten. */
  function LearnMac(s: State, efuse: Option<Mac>): State {
    if s.radio.scanMac.Some? then s
    else
      var t := WriteReg(s, EFUSE_CTRL, EfuseKick(ReadReg(s, EFUSE_CTRL)));
      match efuse
      case None => t
      case Some(m) => t.(radio := t.radio.(scanMac := Some([0x62, 0x45, 0xbd, m[3], m[4], m[5]])))
  }

  /** `scan_channels[index]` */
  function ScanChannel(index: nat): byte { 0x24 + 4 * (index % 4) }

  function Retuned(s: State, now: nat, index: nat): State {
    Log(s, Retune(now, ScanChannel(index))).(radio := s.radio.(scanIndex := index, lastSwitch := now))
  }

  function AnnounceChannel(s: State, channel: byte): State {
    if s.radio.scanMac.Some? then WriteBeacon(s, s.radio.scanMac.value, channel) else s
  }

  function NextIndex(s: State): nat { (s.radio.scanIndex + 1) % 4 }

  function SwitchChannel(s: State, now: nat): State {
    AnnounceChannel(Retuned(s, now, NextIndex(s)), ScanChannel(NextIndex(s)))
  }

  /** `mt76_pairing_channel_scan` and the assignment of its result. */
  function Scan(s: State, now: nat, efuse: Option<Mac>): State {
    var t := LearnMac(s, efuse);
    var u := if Elapsed(now, t.radio.lastSwitch) > 2000 then SwitchChannel(t, now) else t;
    u.(radio := u.radio.(channel := ScanChannel(u.radio.scanIndex)))
  }

  function OnTick(c: Config, s: State, now: nat, efuse: Option<Mac>): State {
    var active := ActiveSlots(s.slots);
    if active == 0 then
      var t := if s.radio.beaconOn then s else SetBeacon(c, s, true);
      if c.forcedChannel != 0 then t
      else if now >= t.radio.lockUntil then Scan(t, now, efuse)
      else t
    else if c.multiPair then SetBeacon(c, s, active < 8)
    else s
  }

  // ---------------------------------------------------------------- runs

  /** A USB transfer with its arrival time, or a wake-up with its time and what an EFUSE read would return then. */
  datatype Stimulus = UsbIn(now: nat, buf: seq<byte>) | Tick(now: nat, efuse: Option<Mac>)

  function Step(c: Config, s: State, i: Stimulus): State {
    match i
    case UsbIn(now, buf) => OnUsb(c, s, now, buf)
    case Tick(now, efuse) => OnTick(c, s, now, efuse)
  }

  /** The state after a whole run. */
  function Run(c: Config, inputs: seq<Stimulus>): State {
    if inputs == [] then Init(c)
    else Step(c, Run(c, inputs[..|inputs| - 1]), inputs[|inputs| - 1])
  }
}
