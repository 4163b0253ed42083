// What every handler of the daemon keeps: the shape of the peer table, who may own a slot, the grammar of the
// event stream, the numbering of host commands, the firmware's client list and the hardware's MAC table.

module DaemonInvariants {
  import opened Bytes
  import opened Gip
  import opened EventLines
  import opened DaemonModel

  // ---------------------------------------------------------------- views of the log

  ghost function EventsOf(log: seq<Output>): seq<Event> {
    if log == [] then []
    else
      var before, last := EventsOf(log[..|log| - 1]), log[|log| - 1];
      if last.Notify? then before + [last.e] else before
  }

  ghost predicate IsHostCommand(o: Output) {
    o.GipTx? && o.gip != [] && (o.gip[0] == CMD_POWER || o.gip[0] == CMD_LED || o.gip[0] == CMD_SERIAL)
  }

  /** The commands whose sequence numbers the daemon chooses, in sending order. */
  ghost function HostCommands(log: seq<Output>): seq<Output> {
    if log == [] then []
    else
      var before, last := HostCommands(log[..|log| - 1]), log[|log| - 1];
      if IsHostCommand(last) then before + [last] else before
  }

  /** How often the firmware was told about a client. */
  ghost function Adds(log: seq<Output>, w: byte): nat {
    if log == [] then 0
    else Adds(log[..|log| - 1], w) + if log[|log| - 1] == ClientAdd(w) then 1 else 0
  }

  lemma LogSnoc(log: seq<Output>, o: Output)
    ensures EventsOf(log + [o]) == EventsOf(log) + if o.Notify? then [o.e] else []
    ensures HostCommands(log + [o]) == HostCommands(log) + if IsHostCommand(o) then [o] else []
    ensures forall w :: Adds(log + [o], w) == Adds(log, w) + if o == ClientAdd(w) then 1 else 0
  {
    assert (log + [o])[..|log|] == log;
  }

  // ---------------------------------------------------------------- event grammar

  /** Whether the last connection event of slot `k` was a connect. */
  ghost function Online(es: seq<Event>, k: byte): bool {
    if es == [] then false
    else
      match es[|es| - 1]
      case Connected(j) => j == k || Online(es[..|es| - 1], k)
      case Disconnected(j) => j != k && Online(es[..|es| - 1], k)
      case _ => Online(es[..|es| - 1], k)
  }

  /** May `e` follow `es`: connects and disconnects of a slot alternate, inputs come only in between. */
  ghost predicate Follows(es: seq<Event>, e: Event) {
    match e
    case Connected(k) => k < 8 && !Online(es, k)
    case Disconnected(k) => k < 8 && Online(es, k)
    case Input(k, _) => k < 8 && Online(es, k)
    case Guide(k, _) => k < 8
    case HidUnavailable => true
  }

  ghost predicate Grammatical(es: seq<Event>) {
    es == [] || (Grammatical(es[..|es| - 1]) && Follows(es[..|es| - 1], es[|es| - 1]))
  }

  lemma EventSnoc(es: seq<Event>, e: Event)
    ensures Grammatical(es + [e]) <==> Grammatical(es) && Follows(es, e)
    ensures forall k :: Online(es + [e], k) ==
                        if e == Connected(k) then true else if e == Disconnected(k) then false else Online(es, k)
  {
    assert (es + [e])[..|es|] == es;
  }

  // ---------------------------------------------------------------- host command numbering

  ghost function InitialCommands(w: byte, mac: Mac, n: nat): seq<Output>
    requires n + 3 < 256
  {
    [GipTx(w, mac, [CMD_POWER, 0x20, n + 1, 1, 0x00]),
     GipTx(w, mac, [CMD_LED, 0x20, n + 2, 3, 0x00, 0x01, 0x14]),
     GipTx(w, mac, [CMD_SERIAL, 0x30, n + 3, 1, 0x04])]
  }

  /** The whole host side of the air for the controllers of `order`, initialised one after the other. */
  ghost function Script(order: seq<byte>, peers: seq<Peer>): seq<Output>
    requires |order| <= 8 && |peers| == 128 && forall i :: 0 <= i < |order| ==> order[i] < 128
  {
    if order == [] then []
    else
      var n := |order| - 1;
      Script(order[..n], peers) + InitialCommands(order[n], peers[order[n]].mac, 3 * n)
  }

  ghost predicate NoRepeats<T>(xs: seq<T>) { forall i, j :: 0 <= i < j < |xs| ==> xs[i] != xs[j] }

  /** The controllers that were sent their initial commands, in that order, read off the log. */
  ghost function Initialised(log: seq<Output>): seq<byte> {
    if log == [] then []
    else
      var before, last := Initialised(log[..|log| - 1]), log[|log| - 1];
      if IsHostCommand(last) && last.gip[0] == CMD_SERIAL then before + [last.wcid] else before
  }

  lemma InitialisedSnoc(log: seq<Output>, o: Output)
    ensures Initialised(log + [o]) ==
            Initialised(log) + if IsHostCommand(o) && o.gip[0] == CMD_SERIAL then [o.wcid] else []
  {
    assert (log + [o])[..|log|] == log;
  }

  // ---------------------------------------------------------------- the invariant

  ghost predicate PeerOk(p: Peer, w: nat) {
    if !p.active then p == ZERO_PEER
    else
      && p.wcid == w
      && (p.slot == NO_SLOT || (p.slot == w - 1 && w <= 8))
      && (p.handshakeDone ==> p.slot == w - 1)
      && (p.initialCommandsSent ==> p.handshakeDone)
      && (p.sessionInitialized ==> p.initialCommandsSent)
  }

  ghost predicate PeersOk(s: State) {
    && 1 <= s.nextWcid <= 127
    && (forall w :: 1 <= w < 128 ==> PeerOk(s.peers[w], w))
    && (forall w :: s.nextWcid <= w < 128 && (w < 127 || s.nextWcid < 127) ==> !s.peers[w].active)
    && (forall w :: 1 <= w < s.nextWcid ==> s.peers[w].active)
  }

  ghost predicate SlotsOk(s: State) {
    forall k :: 0 <= k < 8 && s.slots[k].active ==> s.peers[k + 1].active && s.peers[k + 1].handshakeDone
  }

  ghost predicate EventsOk(s: State) {
    && Grammatical(EventsOf(s.log))
    && forall k :: 0 <= k < 8 ==> Online(EventsOf(s.log), k) == s.slots[k].active
  }

  ghost predicate CommandsOk(s: State) {
    var order := Initialised(s.log);
    && NoRepeats(order)
    && (forall i :: 0 <= i < |order| ==> 1 <= order[i] <= 8)
    && (forall w: byte :: 1 <= w < 128 ==> (w in order <==> s.peers[w].initialCommandsSent))
    && |order| <= 8
    && s.hostSeq == 3 * |order|
    && HostCommands(s.log) == Script(order, s.peers)
  }

  ghost predicate AddsOk(s: State) {
    forall w: byte :: 1 <= w < 127 ==> Adds(s.log, w) == if s.peers[w].fwClientAdded then 1 else 0
  }

  ghost predicate MirrorsMac(s: State, w: nat)
    requires w < 128
  {
    var base := WCID_ADDR_BASE + 8 * w;
    && base in s.regs && base + 4 in s.regs
    && s.regs[base] == Read32(s.peers[w].mac, 0) && s.regs[base + 4] == Read16(s.peers[w].mac, 4)
  }

  ghost predicate RegsOk(s: State) { forall w :: 1 <= w < 128 && s.peers[w].active ==> MirrorsMac(s, w) }

  ghost predicate Inv(s: State) { PeersOk(s) && SlotsOk(s) && EventsOk(s) && CommandsOk(s) && AddsOk(s) && RegsOk(s) }

  ghost predicate InTable(address: nat) { WCID_ADDR_BASE <= address < WCID_ADDR_BASE + 1024 }

  /** Log entries and register writes that none of the views depend on. */
  ghost predicate Neutral(o: Output) {
    o.WlanTx? || o.Beacon? || o.Retune? || (o.RegWrite? && !InTable(o.address)) || (o.GipTx? && !IsHostCommand(o))
  }

  // ---------------------------------------------------------------- initial state

  lemma InvInit(c: Config)
    ensures Inv(Init(c))
  {
    var s := Init(c);
    assert Initialised(s.log) == [];
  }

  // ---------------------------------------------------------------- steps that only add neutral output

  ghost predicate SameViews(a: seq<Output>, b: seq<Output>) {
    EventsOf(a) == EventsOf(b) && HostCommands(a) == HostCommands(b) && Initialised(a) == Initialised(b)
    && forall w :: Adds(a, w) == Adds(b, w)
  }

  ghost predicate SameTable(a: map<nat, u32>, b: map<nat, u32>) {
    forall x :: InTable(x) ==> (x in a <==> x in b) && (x in a ==> a[x] == b[x])
  }

  /** Only the radio, registers outside the MAC table and uninteresting output differ. */
  ghost predicate Benign(s: State, t: State) {
    && s.peers == t.peers && s.slots == t.slots && s.nextWcid == t.nextWcid && s.hostSeq == t.hostSeq
    && SameViews(s.log, t.log) && SameTable(s.regs, t.regs)
  }

  lemma InvBenign(s: State, t: State)
    requires Inv(s) && Benign(s, t)
    ensures Inv(t)
  {
    forall w | 1 <= w < 128 && t.peers[w].active ensures MirrorsMac(t, w) {
      assert MirrorsMac(s, w);
      assert InTable(WCID_ADDR_BASE + 8 * w) && InTable(WCID_ADDR_BASE + 8 * w + 4);
    }
  }

  lemma BenignLog(s: State, o: Output)
    requires Neutral(o)
    ensures Benign(s, Log(s, o))
  {
    LogSnoc(s.log, o);
    InitialisedSnoc(s.log, o);
  }

  lemma BenignWriteReg(s: State, address: nat, value: u32)
    requires !InTable(address)
    ensures Benign(s, WriteReg(s, address, value))
  {
    BenignLog(s, RegWrite(address, value));
  }

  lemma BenignWriteBeacon(s: State, mac: Mac, channel: byte)
    ensures Benign(s, WriteBeacon(s, mac, channel))
  {
    BenignLog(s, Beacon(mac, channel));
    BenignWriteReg(Log(s, Beacon(mac, channel)), BEACON_TIME_CFG, WithBeaconBits(ReadReg(s, BEACON_TIME_CFG)));
  }

  lemma BenignSetBeacon(c: Config, s: State, enabled: bool)
    ensures Benign(s, SetBeacon(c, s, enabled))
  {
    BenignWriteBeacon(s, c.ourMac, s.radio.channel);
  }

  lemma BenignTrans(s: State, t: State, u: State)
    requires Benign(s, t) && Benign(t, u)
    ensures Benign(s, u)
  {
  }

  lemma BenignRetuned(s: State, now: nat, index: nat)
    ensures Benign(s, Retuned(s, now, index))
  {
    BenignLog(s, Retune(now, ScanChannel(index)));
  }

  lemma BenignSwitchChannel(s: State, now: nat)
    ensures Benign(s, SwitchChannel(s, now))
  {
    var t := Retuned(s, now, NextIndex(s));
    BenignRetuned(s, now, NextIndex(s));
    BenignAnnounce(t, ScanChannel(NextIndex(s)));
    BenignTrans(s, t, AnnounceChannel(t, ScanChannel(NextIndex(s))));
  }

  lemma BenignAnnounce(s: State, channel: byte)
    ensures Benign(s, AnnounceChannel(s, channel))
  {
    if s.radio.scanMac.Some? {
      BenignWriteBeacon(s, s.radio.scanMac.value, channel);
    }
  }

  lemma BenignScan(s: State, now: nat, efuse: Option<Mac>)
    ensures Benign(s, Scan(s, now, efuse))
  {
    BenignWriteReg(s, EFUSE_CTRL, EfuseKick(ReadReg(s, EFUSE_CTRL)));
    BenignSwitchChannel(LearnMac(s, efuse), now);
  }

  lemma BenignTick(c: Config, s: State, now: nat, efuse: Option<Mac>)
    ensures Benign(s, OnTick(c, s, now, efuse))
  {
    BenignSetBeacon(c, s, true);
    BenignSetBeacon(c, s, ActiveSlots(s.slots) < 8);
    BenignScan(if s.radio.beaconOn then s else SetBeacon(c, s, true), now, efuse);
  }

  lemma InvLog(s: State, o: Output)
    requires Inv(s) && Neutral(o)
    ensures Inv(Log(s, o))
  {
    BenignLog(s, o);
    InvBenign(s, Log(s, o));
  }

  lemma InvSetBeacon(c: Config, s: State, enabled: bool)
    requires Inv(s)
    ensures Inv(SetBeacon(c, s, enabled))
  {
    BenignSetBeacon(c, s, enabled);
    InvBenign(s, SetBeacon(c, s, enabled));
  }

  lemma InvTick(c: Config, s: State, now: nat, efuse: Option<Mac>)
    requires Inv(s)
    ensures Inv(OnTick(c, s, now, efuse))
  {
    BenignTick(c, s, now, efuse);
    InvBenign(s, OnTick(c, s, now, efuse));
  }

  // ---------------------------------------------------------------- peer table

  /** The MAC table of the hardware is only as good as the registers and the peers it is compared with. */
  lemma RegsKept(s: State, t: State)
    requires RegsOk(s) && s.regs == t.regs
    requires forall w :: 1 <= w < 128 && t.peers[w].active ==> s.peers[w].active && t.peers[w].mac == s.peers[w].mac
    ensures RegsOk(t)
  {
    forall w | 1 <= w < 128 && t.peers[w].active ensures MirrorsMac(t, w) {
      assert MirrorsMac(s, w);
    }
  }

  lemma ScriptDependsOnMacs(order: seq<byte>, p: seq<Peer>, q: seq<Peer>)
    requires |order| <= 8 && |p| == |q| == 128 && forall i :: 0 <= i < |order| ==> order[i] < 128
    requires forall i :: 0 <= i < |order| ==> p[order[i]].mac == q[order[i]].mac
    ensures Script(order, p) == Script(order, q)
  {
    if order != [] {
      ScriptDependsOnMacs(order[..|order| - 1], p, q);
    }
  }

  /** Two more register writes change no view of the log. */
  lemma TwoWritesLog(log: seq<Output>, o1: Output, o2: Output)
    requires o1.RegWrite? && o2.RegWrite?
    ensures var l := log + [o1] + [o2];
            EventsOf(l) == EventsOf(log) && HostCommands(l) == HostCommands(log) && Initialised(l) == Initialised(log)
            && forall w :: Adds(l, w) == Adds(log, w)
  {
    LogSnoc(log, o1);
    LogSnoc(log + [o1], o2);
    InitialisedSnoc(log, o1);
    InitialisedSnoc(log + [o1], o2);
  }

  lemma AddWcidIs(s: State, w: byte, mac: Mac)
    requires w < 128
    ensures var t := AddWcid(s, w, mac);
            var base := WCID_ADDR_BASE + 8 * w;
            t == s.(log := s.log + [RegWrite(base, Read32(mac, 0))] + [RegWrite(base + 4, Read16(mac, 4))],
                    regs := s.regs[base := Read32(mac, 0)][base + 4 := Read16(mac, 4)])
  {
  }

  /** The state after a new entry was written, before its registers are. */
  ghost function WithNewPeer(s: State, mac: Mac): State
    requires s.nextWcid < 128
  {
    var next := if s.nextWcid < 127 then s.nextWcid + 1 else s.nextWcid;
    SetPeer(s, s.nextWcid, NewPeer(mac, s.nextWcid)).(nextWcid := next)
  }

  lemma NewPeerKeepsTables(s: State, mac: Mac)
    requires Inv(s)
    ensures PeersOk(WithNewPeer(s, mac)) && SlotsOk(WithNewPeer(s, mac)) && AddsOk(WithNewPeer(s, mac))
  {
    assert PeerOk(s.peers[s.nextWcid], s.nextWcid);
    assert forall k :: 0 <= k < 8 && s.slots[k].active ==> PeerOk(s.peers[k + 1], k + 1);
  }

  lemma NewPeerKeepsCommands(s: State, mac: Mac)
    requires Inv(s)
    ensures CommandsOk(WithNewPeer(s, mac))
  {
    var w := s.nextWcid;
    assert PeerOk(s.peers[w], w);
    assert w !in Initialised(s.log);
    ScriptDependsOnMacs(Initialised(s.log), s.peers, WithNewPeer(s, mac).peers);
  }

  lemma NewPeerMirrored(s: State, mac: Mac)
    requires Inv(s)
    ensures RegsOk(AddWcid(WithNewPeer(s, mac), s.nextWcid, mac))
  {
    var w := s.nextWcid;
    var t := AddWcid(WithNewPeer(s, mac), w, mac);
    AddWcidIs(WithNewPeer(s, mac), w, mac);
    forall v | 1 <= v < 128 && t.peers[v].active ensures MirrorsMac(t, v) {
      if v != w { assert MirrorsMac(s, v); }
    }
  }

  lemma InvNewPeer(s: State, mac: Mac)
    requires Inv(s)
    ensures Inv(AddWcid(WithNewPeer(s, mac), s.nextWcid, mac))
    ensures EventsOf(AddWcid(WithNewPeer(s, mac), s.nextWcid, mac).log) == EventsOf(s.log)
  {
    var base := WCID_ADDR_BASE + 8 * s.nextWcid;
    var mid := WithNewPeer(s, mac);
    NewPeerKeepsTables(s, mac);
    NewPeerKeepsCommands(s, mac);
    NewPeerMirrored(s, mac);
    AddWcidIs(mid, s.nextWcid, mac);
    TwoWritesLog(s.log, RegWrite(base, Read32(mac, 0)), RegWrite(base + 4, Read16(mac, 4)));
    ViewsSuffice(mid, AddWcid(mid, s.nextWcid, mac));
  }

  lemma ViewsSuffice(s: State, t: State)
    requires PeersOk(s) && SlotsOk(s) && EventsOk(s) && CommandsOk(s) && AddsOk(s) && RegsOk(t)
    requires t == s.(log := t.log, regs := t.regs) && SameViews(s.log, t.log)
    ensures Inv(t)
  {
  }

  lemma InvRemember(s: State, mac: Mac)
    requires Inv(s)
    ensures Inv(Remember(s, mac).0)
    ensures var (t, w) := Remember(s, mac); 1 <= w < 128 && t.peers[w].active && t.peers[w].mac == mac
    ensures Remember(s, mac).0.slots == s.slots && EventsOf(Remember(s, mac).0.log) == EventsOf(s.log)
  {
    if Find(s.peers, mac) == 0 {
      InvNewPeer(s, mac);
      AddWcidIs(WithNewPeer(s, mac), s.nextWcid, mac);
      assert Remember(s, mac) == (AddWcid(WithNewPeer(s, mac), s.nextWcid, mac), s.nextWcid);
    }
  }

  lemma SetPeerKeepsCommands(s: State, w: byte, p: Peer)
    requires CommandsOk(s) && w < 128
    requires p.mac == s.peers[w].mac && p.initialCommandsSent == s.peers[w].initialCommandsSent
    ensures CommandsOk(SetPeer(s, w, p))
  {
    ScriptDependsOnMacs(Initialised(s.log), s.peers, SetPeer(s, w, p).peers);
  }

  /** Changing only the slot or the firmware flag of one peer. */
  lemma InvSetPeer(s: State, w: byte, p: Peer)
    requires Inv(s) && 1 <= w < 128 && s.peers[w].active && PeerOk(p, w) && p.active
    requires p.mac == s.peers[w].mac && p.initialCommandsSent == s.peers[w].initialCommandsSent
    requires s.peers[w].handshakeDone ==> p.handshakeDone
    requires w < 127 ==> p.fwClientAdded == s.peers[w].fwClientAdded
    ensures Inv(SetPeer(s, w, p))
  {
    var t := SetPeer(s, w, p);
    SetPeerKeepsCommands(s, w, p);
    RegsKept(s, t);
  }

  lemma PeerSlotIs(s: State, w: byte)
    requires 1 <= w < 128 && s.peers[w].active && PeerOk(s.peers[w], w)
    ensures PeerSlot(s, w) == if w > 8 then (s, NO_SLOT) else (SetPeer(s, w, s.peers[w].(slot := w - 1)), w - 1)
  {
    assert s.peers[w := s.peers[w]] == s.peers;
    assert w <= 8 && s.peers[w].slot == w - 1 ==> s.peers[w].(slot := w - 1) == s.peers[w];
  }

  lemma InvPeerSlot(s: State, w: byte)
    requires Inv(s) && 1 <= w < 128 && s.peers[w].active
    ensures Inv(PeerSlot(s, w).0)
    ensures PeerSlot(s, w) == if w > 8 then (s, NO_SLOT) else (SetPeer(s, w, s.peers[w].(slot := w - 1)), w - 1)
  {
    assert PeerOk(s.peers[w], w);
    PeerSlotIs(s, w);
    if w <= 8 {
      InvSetPeer(s, w, s.peers[w].(slot := w - 1));
    }
  }

  lemma FwClientAddKeepsCommands(s: State, w: byte)
    requires CommandsOk(s) && 1 <= w < 128 && s.peers[w].active && PeerOk(s.peers[w], w)
    ensures CommandsOk(FwClientAdd(s, w))
  {
    LogSnoc(s.log, ClientAdd(w));
    InitialisedSnoc(s.log, ClientAdd(w));
    ScriptDependsOnMacs(Initialised(s.log), s.peers, FwClientAdd(s, w).peers);
  }

  lemma FwClientAddKeepsAdds(s: State, w: byte)
    requires AddsOk(s) && 1 <= w < 128 && s.peers[w].active && PeerOk(s.peers[w], w) && !s.peers[w].fwClientAdded
    ensures AddsOk(FwClientAdd(s, w))
  {
    LogSnoc(s.log, ClientAdd(w));
    var t := FwClientAdd(s, w);
    assert t.log == s.log + [ClientAdd(w)];
    forall v: byte | 1 <= v < 127 ensures Adds(t.log, v) == if t.peers[v].fwClientAdded then 1 else 0 {
      assert Adds(s.log, v) == if s.peers[v].fwClientAdded then 1 else 0;
    }
  }

  lemma FwClientAddKeepsTables(s: State, w: byte)
    requires PeersOk(s) && SlotsOk(s) && EventsOk(s) && 1 <= w < 128 && s.peers[w].active
    ensures var t := FwClientAdd(s, w); PeersOk(t) && SlotsOk(t) && EventsOk(t)
  {
    assert PeerOk(s.peers[w], w);
    FwClientAddKeepsPeers(s, w);
    FwClientAddKeepsEvents(s, w);
  }

  lemma FwClientAddKeepsPeers(s: State, w: byte)
    requires PeersOk(s) && SlotsOk(s) && 1 <= w < 128 && s.peers[w].active
    ensures var t := FwClientAdd(s, w); PeersOk(t) && SlotsOk(t)
  {
    var t := FwClientAdd(s, w);
    assert PeerOk(s.peers[w], w);
    forall v | 1 <= v < 128 ensures PeerOk(t.peers[v], v) && t.peers[v].active == s.peers[v].active {
      assert PeerOk(s.peers[v], v);
    }
  }

  lemma FwClientAddKeepsEvents(s: State, w: byte)
    requires EventsOk(s) && 1 <= w < 128 && s.peers[w].active && PeerOk(s.peers[w], w)
    ensures EventsOk(FwClientAdd(s, w))
  {
    LogSnoc(s.log, ClientAdd(w));
    assert FwClientAdd(s, w).log == s.log + [ClientAdd(w)];
  }

  lemma InvFwClientAdd(s: State, w: byte)
    requires Inv(s) && 1 <= w < 128 && s.peers[w].active && !s.peers[w].fwClientAdded
    ensures Inv(FwClientAdd(s, w))
  {
    assert PeerOk(s.peers[w], w);
    FwClientAddKeepsTables(s, w);
    FwClientAddKeepsCommands(s, w);
    FwClientAddKeepsAdds(s, w);
    RegsKept(s, FwClientAdd(s, w));
  }

  // ---------------------------------------------------------------- slots

  lemma NotifyKeepsEvents(s: State, k: byte, slot: Slot, e: Event)
    requires EventsOk(s) && k < 8 && !e.HidUnavailable? && e.slot == k && Follows(EventsOf(s.log), e)
    requires slot.active == if e.Connected? then true else if e.Disconnected? then false else s.slots[k].active
    ensures EventsOk(Log(SetSlot(s, k, slot), Notify(e)))
  {
    LogSnoc(s.log, Notify(e));
    EventSnoc(EventsOf(s.log), e);
  }

  lemma NotifyKeepsCommands(s: State, k: byte, slot: Slot, e: Event)
    requires CommandsOk(s) && AddsOk(s) && k < 8
    ensures var t := Log(SetSlot(s, k, slot), Notify(e)); CommandsOk(t) && AddsOk(t)
  {
    LogSnoc(s.log, Notify(e));
    InitialisedSnoc(s.log, Notify(e));
  }

  /** A slot changes together with the event that announces it. */
  lemma InvNotify(s: State, k: byte, slot: Slot, e: Event)
    requires Inv(s) && k < 8 && s.peers[k + 1].active && s.peers[k + 1].handshakeDone
    requires !e.HidUnavailable? && e.slot == k && Follows(EventsOf(s.log), e)
    requires slot.active == if e.Connected? then true else if e.Disconnected? then false else s.slots[k].active
    ensures Inv(Log(SetSlot(s, k, slot), Notify(e)))
  {
    NotifyKeepsEvents(s, k, slot, e);
    NotifyKeepsCommands(s, k, slot, e);
    RegsKept(s, Log(SetSlot(s, k, slot), Notify(e)));
  }

  ghost predicate Owns(s: State, w: byte, k: byte) {
    1 <= w <= 8 && k == w - 1 && s.peers[w].active && s.peers[w].handshakeDone
  }

  lemma InvConnect(s: State, w: byte, k: byte)
    requires Inv(s) && Owns(s, w, k)
    ensures Inv(OnConnect(s, k))
  {
    if !s.slots[k].active {
      InvNotify(s, k, s.slots[k].(active := true, clientId := k, report := s.slots[k].report.(hat := 8)), Connected(k));
    }
  }

  lemma InvDisconnect(s: State, k: byte)
    requires Inv(s)
    ensures Inv(OnDisconnect(s, k))
  {
    if k < 8 && s.slots[k].active {
      InvNotify(s, k, ZERO_SLOT, Disconnected(k));
    }
  }

  lemma InvInput(s: State, k: byte, payload: seq<byte>)
    requires Inv(s)
    ensures Inv(OnInput(s, k, payload))
  {
    if k < 8 && s.slots[k].active && DecodeInput(payload).Some? {
      var g := DecodeInput(payload).value;
      InvNotify(s, k, s.slots[k].(report := GipToHid(g, s.slots[k].guidePressed)), Input(k, g));
    }
  }

  lemma InvGuide(s: State, w: byte, k: byte, pressed: bool)
    requires Inv(s) && Owns(s, w, k)
    ensures Inv(OnGuide(s, k, pressed))
  {
    var slot := s.slots[k];
    var report := slot.report.(buttons := SetGuide(slot.report.buttons, pressed));
    InvNotify(s, k, slot.(guidePressed := pressed, report := report), Guide(k, pressed));
  }

  lemma InvHandshake(s: State, w: byte, k: byte)
    requires Inv(s) && 1 <= w <= 8 && k == w - 1 && s.peers[w].active && s.peers[w].slot == k
    ensures Inv(Handshake(s, w, k)) && Owns(Handshake(s, w, k), w, k)
  {
    var marked := SetPeer(s, w, s.peers[w].(handshakeDone := true));
    assert PeerOk(s.peers[w], w);
    InvSetPeer(s, w, s.peers[w].(handshakeDone := true));
    InvConnect(marked, w, k);
    assert OnConnect(marked, k) == Handshake(s, w, k);
  }

  // ---------------------------------------------------------------- commands to the controller

  lemma InvAck(s: State, w: byte, cmd: byte, device: byte, sequence: byte, length: byte)
    requires Inv(s) && w < 128
    ensures Inv(SendAck(s, w, cmd, device, sequence, length))
    ensures SendAck(s, w, cmd, device, sequence, length) == s.(log := SendAck(s, w, cmd, device, sequence, length).log)
  {
    if s.peers[w].active {
      var payload := [0, cmd, TYPE_REQUEST * 16 + device % 16, length, 0, 0, 0, 0, 0];
      var gip := BuildGip(68, CMD_ACKNOWLEDGE, TYPE_REQUEST % 16 * 16 + device % 16, sequence, payload).value;
      assert |gip| == 13 && gip[0] == CMD_ACKNOWLEDGE;
      InvLog(s, GipTx(s.peers[w].wcid, s.peers[w].mac, gip));
    }
  }

  lemma HostSends(s: State, w: byte, cmd: byte, kind: byte, payload: seq<byte>)
    requires w < 128 && s.peers[w].active && s.hostSeq < 255 && |payload| <= 9 && kind < 16
    ensures SendHost(s, w, cmd, kind, payload) ==
            s.(hostSeq := s.hostSeq + 1,
               log := s.log + [GipTx(s.peers[w].wcid, s.peers[w].mac,
                                     [cmd, 16 * kind, s.hostSeq + 1, |payload|] + payload)])
  {
  }

  /** Three packets go out and the counter advances by three. */
  lemma InitialCommandsAre(s: State, w: byte)
    requires w < 128 && s.peers[w].active && s.hostSeq <= 21
    ensures var p := s.peers[w];
            SendSerialRequest(SendLedDim(SendPowerOn(s, w), w), w) ==
            s.(hostSeq := s.hostSeq + 3, log := s.log + InitialCommands(p.wcid, p.mac, s.hostSeq))
  {
    var p, n := s.peers[w], s.hostSeq;
    var out := InitialCommands(p.wcid, p.mac, n);
    HostSends(s, w, CMD_POWER, TYPE_REQUEST, [0x00]);
    assert out[0].gip == [CMD_POWER, 0x20, n + 1, 1] + [0x00];
    var a := s.(hostSeq := n + 1, log := s.log + [out[0]]);
    assert a == SendPowerOn(s, w);
    HostSends(a, w, CMD_LED, TYPE_REQUEST, [0x00, 0x01, 0x14]);
    assert out[1].gip == [CMD_LED, 0x20, n + 2, 3] + [0x00, 0x01, 0x14];
    var b := s.(hostSeq := n + 2, log := s.log + [out[0]] + [out[1]]);
    assert b == SendLedDim(a, w);
    HostSends(b, w, CMD_SERIAL, TYPE_REQUEST + TYPE_ACK, [0x04]);
    assert out[2].gip == [CMD_SERIAL, 0x30, n + 3, 1] + [0x04];
    assert s.log + out == s.log + [out[0]] + [out[1]] + [out[2]];
  }

  lemma {:induction false} AtMostEight(order: seq<byte>)
    requires NoRepeats(order) && forall i :: 0 <= i < |order| ==> 1 <= order[i] <= 8
    ensures |order| <= 8
  {
    var values := set i | 0 <= i < |order| :: order[i] as int;
    assert values <= {1, 2, 3, 4, 5, 6, 7, 8};
    SizeBelow(values, {1, 2, 3, 4, 5, 6, 7, 8});
    SizeOf(order);
  }

  lemma SizeBelow(a: set<int>, b: set<int>)
    requires a <= b
    ensures |a| <= |b|
  {
    assert b == a + (b - a);
  }

  lemma {:induction false} SizeOf(order: seq<byte>)
    requires NoRepeats(order)
    ensures |(set i | 0 <= i < |order| :: order[i] as int)| == |order|
  {
    var all := set i | 0 <= i < |order| :: order[i] as int;
    if order == [] {
      assert all == {};
    } else {
      var n := |order| - 1;
      SizeOf(order[..n]);
      var before := set i | 0 <= i < n :: order[..n][i] as int;
      assert all == before + {order[n] as int};
    }
  }

  lemma ThreeUnseen(log: seq<Output>, a: Output, b: Output, d: Output)
    requires a.GipTx? && b.GipTx? && d.GipTx?
    ensures EventsOf(log + [a] + [b] + [d]) == EventsOf(log)
    ensures forall v :: Adds(log + [a] + [b] + [d], v) == Adds(log, v)
  {
    LogSnoc(log, a);
    LogSnoc(log + [a], b);
    LogSnoc(log + [a] + [b], d);
  }

  lemma ThreeCommands(log: seq<Output>, a: Output, b: Output, d: Output)
    requires IsHostCommand(a) && IsHostCommand(b) && IsHostCommand(d)
    ensures HostCommands(log + [a] + [b] + [d]) == HostCommands(log) + [a, b, d]
  {
    LogSnoc(log, a);
    LogSnoc(log + [a], b);
    LogSnoc(log + [a] + [b], d);
    assert HostCommands(log) + [a] + [b] + [d] == HostCommands(log) + [a, b, d];
  }

  lemma ThreeInitialise(log: seq<Output>, w: byte, mac: Mac, n: nat)
    requires n + 3 < 256
    ensures Initialised(log + InitialCommands(w, mac, n)) == Initialised(log) + [w]
  {
    var out := InitialCommands(w, mac, n);
    var l1 := log + [out[0]];
    var l2 := l1 + [out[1]];
    InitialisedSnoc(log, out[0]);
    InitialisedSnoc(l1, out[1]);
    InitialisedSnoc(l2, out[2]);
    assert log + out == l2 + [out[2]];
  }

  /** The log after the initial commands of peer `w`, seen through every view. */
  lemma InitialCommandsLog(log: seq<Output>, w: byte, mac: Mac, n: nat)
    requires n + 3 < 256
    ensures var l := log + InitialCommands(w, mac, n);
            && EventsOf(l) == EventsOf(log)
            && HostCommands(l) == HostCommands(log) + InitialCommands(w, mac, n)
            && Initialised(l) == Initialised(log) + [w]
            && forall v :: Adds(l, v) == Adds(log, v)
  {
    var out := InitialCommands(w, mac, n);
    assert log + out == log + [out[0]] + [out[1]] + [out[2]];
    assert out == [out[0], out[1], out[2]];
    ThreeUnseen(log, out[0], out[1], out[2]);
    ThreeCommands(log, out[0], out[1], out[2]);
    ThreeInitialise(log, w, mac, n);
  }

  lemma ScriptSnoc(order: seq<byte>, w: byte, peers: seq<Peer>)
    requires |order| <= 7 && |peers| == 128 && w < 128 && forall i :: 0 <= i < |order| ==> order[i] < 128
    ensures Script(order + [w], peers) == Script(order, peers) + InitialCommands(w, peers[w].mac, 3 * |order|)
  {
    assert (order + [w])[..|order|] == order;
  }

  /** The state after the first announce of peer `w`. */
  ghost function AfterAnnounce(s: State, w: byte): State
    requires w < 128 && s.hostSeq <= 21
  {
    var p := s.peers[w].(initialCommandsSent := true, sessionInitialized := true);
    s.(hostSeq := s.hostSeq + 3, log := s.log + InitialCommands(p.wcid, p.mac, s.hostSeq), peers := s.peers[w := p])
  }

  lemma FirstAnnounceIs(s: State, w: byte)
    requires w < 128 && s.peers[w].active && !s.peers[w].initialCommandsSent && s.hostSeq <= 21
    ensures Announce(s, w) == AfterAnnounce(s, w)
  {
    InitialCommandsAre(s, w);
  }

  ghost predicate Announcing(s: State, w: byte) {
    Inv(s) && 1 <= w <= 8 && s.peers[w].active && s.peers[w].handshakeDone && !s.peers[w].initialCommandsSent
  }

  lemma RoomForOneMore(s: State, w: byte)
    requires Announcing(s, w)
    ensures s.hostSeq <= 21 && |Initialised(s.log)| <= 7 && NoRepeats(Initialised(s.log) + [w])
  {
    AtMostEight(Initialised(s.log) + [w]);
  }

  lemma AnnounceExtendsScript(s: State, w: byte)
    requires Announcing(s, w) && s.hostSeq <= 21
    ensures var t := AfterAnnounce(s, w);
            var order := Initialised(s.log);
            && Initialised(t.log) == order + [w] && |order| <= 7
            && HostCommands(t.log) == Script(order + [w], t.peers)
  {
    assert PeerOk(s.peers[w], w);
    var order := Initialised(s.log);
    RoomForOneMore(s, w);
    InitialCommandsLog(s.log, w, s.peers[w].mac, s.hostSeq);
    ScriptSnoc(order, w, s.peers);
    ScriptDependsOnMacs(order + [w], s.peers, AfterAnnounce(s, w).peers);
  }

  lemma AnnounceKeepsCommands(s: State, w: byte)
    requires Announcing(s, w) && s.hostSeq <= 21
    ensures CommandsOk(AfterAnnounce(s, w))
  {
    RoomForOneMore(s, w);
    AnnounceExtendsScript(s, w);
  }

  lemma AnnounceKeepsTables(s: State, w: byte)
    requires Announcing(s, w) && s.hostSeq <= 21
    ensures var t := AfterAnnounce(s, w); PeersOk(t) && SlotsOk(t) && EventsOk(t) && AddsOk(t)
  {
    assert PeerOk(s.peers[w], w);
    InitialCommandsLog(s.log, w, s.peers[w].mac, s.hostSeq);
  }

  /** The first announce puts exactly the controller's three commands into the script, with the next three numbers. */
  lemma FirstAnnounceSends(s: State, w: byte)
    requires Announcing(s, w)
    ensures var t := Announce(s, w);
            && Initialised(t.log) == Initialised(s.log) + [w] && t.hostSeq == s.hostSeq + 3
            && HostCommands(t.log) == HostCommands(s.log) + InitialCommands(w, s.peers[w].mac, s.hostSeq)
  {
    assert PeerOk(s.peers[w], w);
    RoomForOneMore(s, w);
    FirstAnnounceIs(s, w);
    InitialCommandsLog(s.log, w, s.peers[w].mac, s.hostSeq);
  }

  lemma InvFirstAnnounce(s: State, w: byte)
    requires Announcing(s, w)
    ensures Inv(Announce(s, w))
  {
    assert PeerOk(s.peers[w], w);
    RoomForOneMore(s, w);
    FirstAnnounceIs(s, w);
    var t := AfterAnnounce(s, w);
    AnnounceKeepsCommands(s, w);
    AnnounceKeepsTables(s, w);
    RegsKept(s, t);
  }

  lemma InvAnnounce(s: State, w: byte, k: byte)
    requires Inv(s) && Owns(s, w, k)
    ensures Inv(Announce(s, w))
  {
    if s.peers[w].initialCommandsSent {
      assert PeerOk(s.peers[w], w);
      InvSetPeer(s, w, s.peers[w].(sessionInitialized := true));
    } else {
      InvFirstAnnounce(s, w);
    }
  }

  lemma InvDispatch(s: State, w: byte, k: byte, gip: seq<byte>)
    requires Inv(s) && Owns(s, w, k)
    ensures Inv(Dispatch(s, w, k, gip))
  {
    if |gip| >= 4 {
      InvAck(s, w, gip[0], gip[1] % 16, gip[2], gip[3]);
      var acked := if gip[1] / 16 % 2 == 1 then SendAck(s, w, gip[0], gip[1] % 16, gip[2], gip[3]) else s;
      InvCommand(acked, w, k, gip);
    }
  }

  lemma InvCommand(s: State, w: byte, k: byte, gip: seq<byte>)
    requires Inv(s) && Owns(s, w, k) && |gip| >= 4
    ensures Inv(Command(s, w, k, gip))
  {
    var cmd := gip[0];
    if cmd == CMD_CTRL_ADDED { InvConnect(s, w, k); }
    else if cmd == CMD_CTRL_LOST { InvDisconnect(s, k); }
    else if cmd == CMD_ANNOUNCE { InvAnnounce(s, w, k); }
    else if cmd == CMD_INPUT || cmd == CMD_INPUT_OVERFLOW { InvInput(s, k, GipPayload(gip)); }
    else if cmd == CMD_GUIDE_BTN && GipPayload(gip) != [] { InvGuide(s, w, k, gip[4] != 0); }
  }

  // ---------------------------------------------------------------- frames

  lemma InvGreeting(s: State, w: byte, k: byte, o: Output)
    requires Inv(s) && 1 <= w <= 8 && k == w - 1 && s.peers[w].active && s.peers[w].slot == k && o.WlanTx?
    ensures Inv(Handshake(Log(s, o), w, k))
  {
    InvLog(s, o);
    InvHandshake(Log(s, o), w, k);
  }

  /** The sender is in the table afterwards, and has a slot exactly when it is one of the first eight entries. */
  lemma InvPeerFor(s: State, src: Mac)
    requires Inv(s)
    ensures var (u, w, k) := PeerFor(s, src);
            && Inv(u) && 1 <= w < 128 && u.peers[w].active && u.peers[w].mac == src && PeerOk(u.peers[w], w)
            && (if w <= 8 then k == w - 1 && u.peers[w].slot == k else k == NO_SLOT)
            && u.slots == s.slots && EventsOf(u.log) == EventsOf(s.log)
  {
    InvRemember(s, src);
    var (t, w) := Remember(s, src);
    InvPeerSlot(t, w);
  }

  lemma InvAction(c: Config, s: State, src: Mac, body: seq<byte>)
    requires Inv(s)
    ensures Inv(OnAction(c, s, src, body))
  {
    InvPeerFor(s, src);
    var (u, w, k) := PeerFor(s, src);
    if |body| < 5 {
    } else if k >= MAX_SLOTS || u.peers[w].handshakeDone {
      assert OnAction(c, s, src, body) == u;
    } else {
      InvGreeting(u, w, k, WlanTx(ActionResponse(src, c.ourMac, u.peers[w].wcid), u.peers[w].wcid));
    }
  }

  lemma InvFirstData(c: Config, s: State, w: byte, k: byte)
    requires Inv(s) && 1 <= w <= 8 && k == w - 1 && s.peers[w].active && s.peers[w].slot == k
    ensures Inv(BeaconAfterHandshake(c, Handshake(s, w, k))) && Owns(BeaconAfterHandshake(c, Handshake(s, w, k)), w, k)
  {
    InvHandshake(s, w, k);
    var v := Handshake(s, w, k);
    BenignAfterHandshake(c, v);
    InvBenign(v, BeaconAfterHandshake(c, v));
  }

  lemma BenignAfterHandshake(c: Config, s: State)
    ensures Benign(s, BeaconAfterHandshake(c, s))
  {
    BenignSetBeacon(c, s, if !c.multiPair then false else ActiveSlots(s.slots) < 8);
  }

  lemma InvSessionData(c: Config, u: State, w: byte, k: byte, gip: seq<byte>)
    requires Inv(u) && 1 <= w <= 8 && k == w - 1 && u.peers[w].active && u.peers[w].slot == k
    ensures var v := if u.peers[w].handshakeDone then u else BeaconAfterHandshake(c, Handshake(u, w, k));
            Inv(Dispatch(v, w, k, gip))
  {
    if u.peers[w].handshakeDone {
      InvDispatch(u, w, k, gip);
    } else {
      InvFirstData(c, u, w, k);
      InvDispatch(BeaconAfterHandshake(c, Handshake(u, w, k)), w, k, gip);
    }
  }

  lemma InvData(c: Config, s: State, src: Mac, body: seq<byte>)
    requires Inv(s)
    ensures Inv(OnData(c, s, src, body))
  {
    InvPeerFor(s, src);
    var (u, w, k) := PeerFor(s, src);
    if k < 8 && |body| > 4 {
      InvSessionData(c, u, w, k, body[4..]);
    }
  }

  lemma InvAssoc(c: Config, s: State, src: Mac, reassoc: bool)
    requires Inv(s)
    ensures Inv(OnAssocRequest(c, s, src, reassoc))
  {
    InvRemember(s, src);
    var (t, w) := Remember(s, src);
    if !t.peers[w].fwClientAdded {
      InvFwClientAdd(t, w);
    }
    var told := if w != 0 && !t.peers[w].fwClientAdded then FwClientAdd(t, w) else t;
    InvLog(told, WlanTx(AssocResponse(src, c.ourMac, reassoc), NO_WCID));
  }

  lemma InvAnswer(s: State, dst: Mac, frame: seq<byte>)
    requires Inv(s)
    ensures var (t, w) := Remember(s, dst); Inv(Log(t, WlanTx(frame, if w != 0 then t.peers[w].wcid else NO_WCID)))
  {
    InvRemember(s, dst);
    var (t, w) := Remember(s, dst);
    InvLog(t, WlanTx(frame, if w != 0 then t.peers[w].wcid else NO_WCID));
  }

  lemma InvPairRequest(c: Config, s: State, src: Mac, body: seq<byte>)
    requires Inv(s)
    ensures Inv(OnPairRequest(c, s, src, body))
  {
    InvLog(s, WlanTx(PairResponse(src, c.ourMac), NO_WCID));
    var t := Log(s, WlanTx(PairResponse(src, c.ourMac), NO_WCID));
    InvSetBeacon(c, t, false);
    InvSetBeacon(c, t, true);
  }

  lemma InvManagement(c: Config, s: State, now: nat, f: Frame)
    requires Inv(s)
    ensures Inv(OnManagement(c, s, now, f))
  {
    var t := Lock(s, now);
    InvBenign(s, t);
    if f.subtype == 13 { InvAction(c, s, f.src, f.body); }
    else if f.subtype == 4 { InvAnswer(t, f.src, ProbeResponse(f.src, c.ourMac, t.radio.channel)); }
    else if f.subtype == 7 { InvPairRequest(c, t, f.src, f.body); }
    else if f.subtype == 11 { InvAnswer(t, f.src, AuthResponse(f.src, c.ourMac, f.body)); }
    else if f.subtype == 0 { InvAssoc(c, t, f.src, false); }
    else if f.subtype == 2 { InvAssoc(c, t, f.src, true); }
  }

  lemma InvClientLost(c: Config, s: State, w: byte)
    requires Inv(s)
    ensures Inv(OnClientLost(c, s, w))
  {
    if 0 < w < 9 {
      InvDisconnect(s, w - 1);
      InvReconnectWindow(c, OnDisconnect(s, w - 1));
      ClientLostIs(c, s, w);
    } else {
      assert OnClientLost(c, s, w) == s;
    }
  }

  lemma ClientLostIs(c: Config, s: State, w: byte)
    requires 0 < w < 9
    ensures var t := OnDisconnect(s, w - 1); OnClientLost(c, s, w) == if c.multiPair then SetBeacon(c, t, true) else t
  {
  }

  lemma InvReconnectWindow(c: Config, t: State)
    requires Inv(t)
    ensures Inv(if c.multiPair then SetBeacon(c, t, true) else t)
  {
    if c.multiPair { InvSetBeacon(c, t, true); }
  }

  lemma InvStep(c: Config, s: State, i: Stimulus)
    requires Inv(s)
    ensures Inv(Step(c, s, i))
  {
    match i {
      case UsbIn(now, buf) =>
        match Receive(buf) {
          case Wlan(f) =>
            InvData(c, s, f.src, f.body);
            InvManagement(c, s, now, f);
          case Cpu(eventType, first) =>
            InvClientLost(c, s, first);
            InvSetBeacon(c, s, true);
          case Other =>
        }
      case Tick(now, efuse) => InvTick(c, s, now, efuse);
    }
  }

  /** Every reachable state is a good one. */
  lemma {:induction false} InvRun(c: Config, inputs: seq<Stimulus>)
    ensures Inv(Run(c, inputs))
  {
    if inputs == [] {
      InvInit(c);
    } else {
      InvRun(c, inputs[..|inputs| - 1]);
      InvStep(c, Run(c, inputs[..|inputs| - 1]), inputs[|inputs| - 1]);
    }
  }
}
