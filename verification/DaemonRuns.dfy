// Statements about whole runs of the daemon, in terms of nothing but the inputs it was given.

module DaemonRuns {
  import opened Bytes
  import opened Gip
  import opened EventLines
  import opened DaemonModel
  import opened DaemonInvariants

  // ---------------------------------------------------------------- what one frame does, seen from outside

  /** The MAC a stimulus brings into contact with the peer table. */
  ghost function ContactOf(c: Config, i: Stimulus): Option<Mac> {
    if i.UsbIn? && Receive(i.buf).Wlan? && IsContact(c, Receive(i.buf).f) then Some(Receive(i.buf).f.src) else None
  }

  ghost predicate IsSession(c: Config, f: Frame) {
    ToUs(c, f) &&
    ((f.kind == 2 && f.subtype == 8 && |f.body| > 4) || (f.kind == 0 && f.subtype == 13 && IsXboxAction(f.body)))
  }

  ghost predicate IsContact(c: Config, f: Frame) {
    || IsSession(c, f)
    || (ToUs(c, f) && f.kind == 0
        && (f.subtype == 0 || f.subtype == 2 || f.subtype == 11
            || (f.subtype == 4 && StartsWith2(f.body, 0x00, 0x00))))
  }

  ghost function Contacts(c: Config, inputs: seq<Stimulus>): seq<Mac> {
    if inputs == [] then []
    else
      var before := Contacts(c, inputs[..|inputs| - 1]);
      match ContactOf(c, inputs[|inputs| - 1])
      case None => before
      case Some(m) => before + [m]
  }

  // ---------------------------------------------------------------- reference definition of the peer table

  /** The MACs of a list in order of first occurrence. */
  ghost function Distinct(xs: seq<Mac>): seq<Mac> {
    if xs == [] then []
    else
      var before, last := Distinct(xs[..|xs| - 1]), xs[|xs| - 1];
      if last in before then before else before + [last]
  }

  ghost function Permanent(xs: seq<Mac>): seq<Mac> {
    var d := Distinct(xs);
    if |d| <= 126 then d else d[..126]
  }

  /** The latest contact that found no permanent place. */
  ghost function Latecomer(xs: seq<Mac>): Option<Mac> {
    if xs == [] then None
    else if xs[|xs| - 1] in Permanent(xs) then Latecomer(xs[..|xs| - 1])
    else Some(xs[|xs| - 1])
  }

  ghost predicate EntryIs(p: Peer, w: nat, mac: Mac) { p.active && p.wcid == w && p.mac == mac }

  /** Entries 1 to 126 are the first 126 distinct contacts, entry 127 the latest of all further ones. */
  ghost predicate TableIs(peers: seq<Peer>, nextWcid: nat, xs: seq<Mac>)
    requires |peers| == 128
  {
    var d := Distinct(xs);
    && nextWcid == (if |d| < 126 then |d| + 1 else 127)
    && (forall w :: 1 <= w < 127 ==> if w <= |d| then EntryIs(peers[w], w, d[w - 1]) else !peers[w].active)
    && (match Latecomer(xs) case Some(m) => EntryIs(peers[127], 127, m) case None => !peers[127].active)
  }

  lemma DistinctSnoc(xs: seq<Mac>, m: Mac)
    ensures Distinct(xs + [m]) == if m in Distinct(xs) then Distinct(xs) else Distinct(xs) + [m]
    ensures Latecomer(xs + [m]) == if m in Permanent(xs + [m]) then Latecomer(xs) else Some(m)
  {
    assert (xs + [m])[..|xs|] == xs;
  }

  lemma {:induction false} DistinctNoRepeats(xs: seq<Mac>)
    ensures NoRepeats(Distinct(xs))
  {
    if xs != [] {
      DistinctNoRepeats(xs[..|xs| - 1]);
    }
  }

  /** Later contacts only append. */
  lemma {:induction false} DistinctGrows(xs: seq<Mac>, ys: seq<Mac>)
    requires xs <= ys
    ensures Distinct(xs) <= Distinct(ys)
    decreases |ys|
  {
    if xs == ys {
    } else {
      assert xs <= ys[..|ys| - 1];
      DistinctGrows(xs, ys[..|ys| - 1]);
    }
  }

  lemma {:induction false} LatecomerIsNotPermanent(xs: seq<Mac>)
    ensures Latecomer(xs).Some? ==> Latecomer(xs).value !in Permanent(xs) && |Distinct(xs)| > 126
    ensures Latecomer(xs).None? ==> |Distinct(xs)| <= 126
  {
    if xs != [] {
      var n := |xs| - 1;
      LatecomerIsNotPermanent(xs[..n]);
      assert xs == xs[..n] + [xs[n]];
      DistinctSnoc(xs[..n], xs[n]);
      DistinctGrows(xs[..n], xs);
    }
  }

  /** No two active entries share a MAC. */
  lemma TableMacsDiffer(peers: seq<Peer>, nextWcid: nat, xs: seq<Mac>, v: nat, w: nat)
    requires |peers| == 128 && TableIs(peers, nextWcid, xs) && 1 <= v < w < 128 && peers[v].active && peers[w].active
    ensures peers[v].mac != peers[w].mac
  {
    DistinctNoRepeats(xs);
    LatecomerIsNotPermanent(xs);
    if w == 127 {
      assert peers[v].mac == Permanent(xs)[v - 1];
    }
  }

  ghost predicate SameIdentity(s: State, t: State) {
    s.nextWcid == t.nextWcid
    && forall w :: 1 <= w < 128 ==>
         t.peers[w].active == s.peers[w].active && t.peers[w].mac == s.peers[w].mac &&
         t.peers[w].wcid == s.peers[w].wcid
  }

  /** Contact with a MAC that is already in the table changes the reference definition in no visible way. */
  lemma KnownContact(s: State, xs: seq<Mac>, m: Mac)
    requires TableIs(s.peers, s.nextWcid, xs) && Find(s.peers, m) != 0
    ensures TableIs(s.peers, s.nextWcid, xs + [m])
  {
    var w := Find(s.peers, m);
    DistinctSnoc(xs, m);
    LatecomerIsNotPermanent(xs);
    if w < 127 {
      assert m == Distinct(xs)[w - 1] && m == Permanent(xs)[w - 1];
    } else if m !in Distinct(xs) {
      assert Permanent(xs + [m]) == Permanent(xs);
    }
  }

  lemma NewPeerRefines(s: State, xs: seq<Mac>, m: Mac)
    requires TableIs(s.peers, s.nextWcid, xs) && Find(s.peers, m) == 0
    ensures s.nextWcid < 128
    ensures var t := WithNewPeer(s, m); TableIs(t.peers, t.nextWcid, xs + [m])
  {
    var d := Distinct(xs);
    DistinctSnoc(xs, m);
    LatecomerIsNotPermanent(xs);
    NotInPermanent(s, xs, m);
    if |d| > 126 {
      assert Permanent(xs + [m]) == Permanent(xs);
    } else {
      assert d == Permanent(xs);
      assert Distinct(xs + [m]) == d + [m];
      forall w | 1 <= w < 127 ensures
        var p := WithNewPeer(s, m).peers[w];
        if w <= |d| + 1 then EntryIs(p, w, (d + [m])[w - 1]) else !p.active
      {
        assert w <= |d| ==> EntryIs(s.peers[w], w, d[w - 1]);
      }
    }
  }

  /** `remember_peer` refines appending a contact. */
  lemma RememberRefines(s: State, xs: seq<Mac>, m: Mac)
    requires TableIs(s.peers, s.nextWcid, xs)
    ensures var t := Remember(s, m).0; TableIs(t.peers, t.nextWcid, xs + [m])
  {
    if Find(s.peers, m) != 0 {
      KnownContact(s, xs, m);
    } else {
      NewPeerRefines(s, xs, m);
      AddWcidIs(WithNewPeer(s, m), s.nextWcid, m);
      assert Remember(s, m) == (AddWcid(WithNewPeer(s, m), s.nextWcid, m), s.nextWcid);
    }
  }

  lemma NotInPermanent(s: State, xs: seq<Mac>, m: Mac)
    requires TableIs(s.peers, s.nextWcid, xs) && Find(s.peers, m) == 0
    ensures m !in Permanent(xs)
  {
    forall i | 0 <= i < |Permanent(xs)| ensures Permanent(xs)[i] != m {
      assert EntryIs(s.peers[i + 1], i + 1, Permanent(xs)[i]);
    }
  }

  // ---------------------------------------------------------------- what a handler may do besides

  ghost predicate IsAssocFrame(o: Output) { o.WlanTx? && |o.frame| >= 10 && (o.frame[0] == 0x10 || o.frame[0] == 0x30) }

  /** Output a handler working for slot `k` may produce, association answers aside. */
  ghost predicate Mine(o: Output, k: byte) {
    !IsAssocFrame(o) && !o.Retune? && (o.Notify? ==> !o.e.HidUnavailable? && o.e.slot == k && k < 8)
  }

  ghost predicate Appends(before: seq<Output>, after: seq<Output>, k: byte) {
    before <= after && forall i :: |before| <= i < |after| ==> Mine(after[i], k)
  }

  ghost predicate SameChannel(s: State, t: State) { t.radio == s.radio.(beaconOn := t.radio.beaconOn) }

  ghost predicate KeepsSessions(s: State, t: State) {
    forall w :: 1 <= w < 127 && s.peers[w].active ==>
      t.peers[w].active && t.peers[w].mac == s.peers[w].mac &&
      (s.peers[w].sessionInitialized ==> t.peers[w].sessionInitialized)
  }

  ghost predicate OtherSlotsKept(s: State, t: State, k: byte) {
    forall j :: 0 <= j < 8 && j != k ==> t.slots[j] == s.slots[j]
  }

  /** A step that works for slot `k` alone. */
  ghost predicate WorksFor(s: State, t: State, k: byte) {
    Appends(s.log, t.log, k) && SameChannel(s, t) && KeepsSessions(s, t) && OtherSlotsKept(s, t, k)
  }

  lemma WorksTrans(s: State, t: State, u: State, k: byte)
    requires WorksFor(s, t, k) && WorksFor(t, u, k)
    ensures WorksFor(s, u, k)
  {
  }

  lemma SetBeaconWorks(c: Config, s: State, enabled: bool, k: byte)
    ensures WorksFor(s, SetBeacon(c, s, enabled), k) && SetBeacon(c, s, enabled).peers == s.peers
    ensures SetBeacon(c, s, enabled).slots == s.slots && SetBeacon(c, s, enabled).nextWcid == s.nextWcid
  {
  }

  lemma NewPeerWorks(s: State, m: Mac, k: byte)
    requires PeersOk(s)
    ensures WorksFor(s, AddWcid(WithNewPeer(s, m), s.nextWcid, m), k)
  {
    AddWcidIs(WithNewPeer(s, m), s.nextWcid, m);
  }

  lemma RememberWorks(s: State, m: Mac, k: byte)
    requires PeersOk(s)
    ensures WorksFor(s, Remember(s, m).0, k) && Remember(s, m).0.slots == s.slots
  {
    if Find(s.peers, m) == 0 {
      NewPeerWorks(s, m, k);
      assert Remember(s, m) == (AddWcid(WithNewPeer(s, m), s.nextWcid, m), s.nextWcid);
    }
  }

  lemma PeerSlotWorks(s: State, w: byte, k: byte)
    requires w < 128
    ensures var u := PeerSlot(s, w).0; WorksFor(s, u, k) && u.slots == s.slots && SameIdentity(s, u)
  {
  }

  lemma PeerForWorks(s: State, m: Mac, k: byte)
    requires PeersOk(s)
    ensures var u := PeerFor(s, m).0; WorksFor(s, u, k) && u.slots == s.slots
    ensures SameIdentity(Remember(s, m).0, PeerFor(s, m).0)
  {
    RememberWorks(s, m, k);
    var (t, w) := Remember(s, m);
    if w != 0 {
      PeerSlotWorks(t, w, k);
      WorksTrans(s, t, PeerSlot(t, w).0, k);
    }
  }

  lemma HostWorks(s: State, w: byte, cmd: byte, kind: byte, payload: seq<byte>, k: byte)
    requires w < 128 && |payload| < 256
    ensures var t := SendHost(s, w, cmd, kind, payload);
            WorksFor(s, t, k) && t.peers == s.peers && t.slots == s.slots && t.nextWcid == s.nextWcid
  {
  }

  lemma AnnounceWorks(s: State, w: byte, k: byte)
    requires w < 128
    ensures WorksFor(s, Announce(s, w), k) && SameIdentity(s, Announce(s, w)) && Announce(s, w).slots == s.slots
  {
    HostWorks(s, w, CMD_POWER, TYPE_REQUEST, [0x00], k);
    HostWorks(SendPowerOn(s, w), w, CMD_LED, TYPE_REQUEST, [0x00, 0x01, 0x14], k);
    HostWorks(SendLedDim(SendPowerOn(s, w), w), w, CMD_SERIAL, TYPE_REQUEST + TYPE_ACK, [0x04], k);
  }

  lemma AckWorks(s: State, w: byte, cmd: byte, device: byte, sequence: byte, length: byte, k: byte)
    requires w < 128
    ensures var t := SendAck(s, w, cmd, device, sequence, length);
            WorksFor(s, t, k) && t.peers == s.peers && t.slots == s.slots && t.nextWcid == s.nextWcid
  {
  }

  lemma NotifyWorks(s: State, k: byte, slot: Slot, e: Event)
    requires k < 8 && !e.HidUnavailable? && e.slot == k
    ensures var t := Log(SetSlot(s, k, slot), Notify(e)); WorksFor(s, t, k) && SameIdentity(s, t)
  {
  }

  lemma ConnectWorks(s: State, k: byte)
    ensures WorksFor(s, OnConnect(s, k), k) && SameIdentity(s, OnConnect(s, k))
    ensures WorksFor(s, OnDisconnect(s, k), k) && SameIdentity(s, OnDisconnect(s, k))
  {
    if k < 8 {
      var slot := s.slots[k];
      NotifyWorks(s, k, slot.(active := true, clientId := k, report := slot.report.(hat := 8)), Connected(k));
      NotifyWorks(s, k, ZERO_SLOT, Disconnected(k));
    }
  }

  lemma InputWorks(s: State, k: byte, payload: seq<byte>)
    ensures WorksFor(s, OnInput(s, k, payload), k) && SameIdentity(s, OnInput(s, k, payload))
  {
    if k < 8 && DecodeInput(payload).Some? {
      var g := DecodeInput(payload).value;
      NotifyWorks(s, k, s.slots[k].(report := GipToHid(g, s.slots[k].guidePressed)), Input(k, g));
    }
  }

  lemma GuideWorks(s: State, k: byte, pressed: bool)
    ensures WorksFor(s, OnGuide(s, k, pressed), k) && SameIdentity(s, OnGuide(s, k, pressed))
  {
    if k < 8 {
      var slot := s.slots[k];
      var report := slot.report.(buttons := SetGuide(slot.report.buttons, pressed));
      NotifyWorks(s, k, slot.(guidePressed := pressed, report := report), Guide(k, pressed));
    }
  }

  lemma CommandWorks(s: State, w: byte, k: byte, gip: seq<byte>)
    requires w < 128 && |gip| >= 4
    ensures WorksFor(s, Command(s, w, k, gip), k) && SameIdentity(s, Command(s, w, k, gip))
  {
    var cmd := gip[0];
    if cmd == CMD_CTRL_ADDED || cmd == CMD_CTRL_LOST { ConnectWorks(s, k); }
    else if cmd == CMD_ANNOUNCE { AnnounceWorks(s, w, k); }
    else if cmd == CMD_INPUT || cmd == CMD_INPUT_OVERFLOW { InputWorks(s, k, GipPayload(gip)); }
    else if cmd == CMD_GUIDE_BTN && GipPayload(gip) != [] { GuideWorks(s, k, gip[4] != 0); }
  }

  lemma DispatchWorks(s: State, w: byte, k: byte, gip: seq<byte>)
    requires w < 128
    ensures WorksFor(s, Dispatch(s, w, k, gip), k) && SameIdentity(s, Dispatch(s, w, k, gip))
  {
    if k < MAX_SLOTS && |gip| >= 4 {
      AckWorks(s, w, gip[0], gip[1] % 16, gip[2], gip[3], k);
      var acked := if gip[1] / 16 % 2 == 1 then SendAck(s, w, gip[0], gip[1] % 16, gip[2], gip[3]) else s;
      CommandWorks(acked, w, k, gip);
      WorksTrans(s, acked, Command(acked, w, k, gip), k);
    }
  }

  lemma HandshakeWorks(s: State, w: byte, k: byte)
    requires w < 128
    ensures WorksFor(s, Handshake(s, w, k), k) && SameIdentity(s, Handshake(s, w, k))
  {
  }

  lemma FirstDataWorks(c: Config, s: State, w: byte, k: byte)
    requires w < 128
    ensures var v := BeaconAfterHandshake(c, Handshake(s, w, k)); WorksFor(s, v, k) && SameIdentity(s, v)
  {
    var h := Handshake(s, w, k);
    var enabled := if c.multiPair then ActiveSlots(h.slots) < 8 else false;
    HandshakeWorks(s, w, k);
    SetBeaconWorks(c, h, enabled, k);
    WorksTrans(s, h, SetBeacon(c, h, enabled), k);
  }

  lemma DispatchAfterHandshakeWorks(c: Config, u: State, w: byte, k: byte, gip: seq<byte>)
    requires w < 128
    ensures var v := if u.peers[w].handshakeDone then u else BeaconAfterHandshake(c, Handshake(u, w, k));
            WorksFor(u, Dispatch(v, w, k, gip), k) && SameIdentity(u, Dispatch(v, w, k, gip))
  {
    FirstDataWorks(c, u, w, k);
    var v := if u.peers[w].handshakeDone then u else BeaconAfterHandshake(c, Handshake(u, w, k));
    DispatchWorks(v, w, k, gip);
    WorksTrans(u, v, Dispatch(v, w, k, gip), k);
  }

  /** No entry but `w` is written. */
  ghost predicate OnlyEntry(s: State, t: State, w: byte) {
    forall v :: 0 <= v < 128 && v != w ==> t.peers[v] == s.peers[v]
  }

  lemma RememberEntry(s: State, m: Mac)
    ensures OnlyEntry(s, Remember(s, m).0, Remember(s, m).1)
  {
    if Find(s.peers, m) == 0 && s.nextWcid < PEER_COUNT {
      var (t, w) := Remember(s, m);
      assert t.peers == s.peers[w := NewPeer(m, w)];
    }
  }

  lemma PeerForEntry(s: State, m: Mac)
    ensures OnlyEntry(s, PeerFor(s, m).0, PeerFor(s, m).1)
  {
    RememberEntry(s, m);
    var (t, w) := Remember(s, m);
    if w != 0 { assert OnlyEntry(t, PeerSlot(t, w).0, w); }
  }

  lemma AnnounceEntry(s: State, w: byte)
    requires w < 128
    ensures OnlyEntry(s, Announce(s, w), w)
  {
    HostWorks(s, w, CMD_POWER, TYPE_REQUEST, [0x00], NO_SLOT);
    HostWorks(SendPowerOn(s, w), w, CMD_LED, TYPE_REQUEST, [0x00, 0x01, 0x14], NO_SLOT);
    HostWorks(SendLedDim(SendPowerOn(s, w), w), w, CMD_SERIAL, TYPE_REQUEST + TYPE_ACK, [0x04], NO_SLOT);
  }

  lemma DispatchEntry(s: State, w: byte, k: byte, gip: seq<byte>)
    requires w < 128
    ensures OnlyEntry(s, Dispatch(s, w, k, gip), w)
  {
    if k < MAX_SLOTS && |gip| >= 4 {
      AckWorks(s, w, gip[0], gip[1] % 16, gip[2], gip[3], k);
      var acked := if gip[1] / 16 % 2 == 1 then SendAck(s, w, gip[0], gip[1] % 16, gip[2], gip[3]) else s;
      AnnounceEntry(acked, w);
    }
  }

  lemma HandshakeEntry(c: Config, s: State, w: byte, k: byte)
    requires w < 128
    ensures OnlyEntry(s, Handshake(s, w, k), w) && OnlyEntry(s, BeaconAfterHandshake(c, Handshake(s, w, k)), w)
  {
    var h := Handshake(s, w, k);
    SetBeaconWorks(c, h, if c.multiPair then ActiveSlots(h.slots) < 8 else false, k);
  }

  lemma DataEntry(c: Config, s: State, src: Mac, body: seq<byte>)
    requires |body| > 4
    ensures OnlyEntry(s, OnData(c, s, src, body), PeerFor(s, src).1)
  {
    var (u, w, k) := PeerFor(s, src);
    PeerForEntry(s, src);
    HandshakeEntry(c, u, w, k);
    var v := if u.peers[w].handshakeDone then u else BeaconAfterHandshake(c, Handshake(u, w, k));
    DispatchEntry(v, w, k, body[4..]);
  }

  lemma ActionEntry(c: Config, s: State, src: Mac, body: seq<byte>)
    requires |body| >= 5
    ensures OnlyEntry(s, OnAction(c, s, src, body), PeerFor(s, src).1)
  {
    var (u, w, k) := PeerFor(s, src);
    PeerForEntry(s, src);
    HandshakeEntry(c, Log(u, WlanTx(ActionResponse(src, c.ourMac, u.peers[w].wcid), u.peers[w].wcid)), w, k);
  }

  /** Session frames: everything happens for the sender's slot and entry, after the sender has been remembered. */
  lemma DataWorks(c: Config, s: State, src: Mac, body: seq<byte>)
    requires PeersOk(s) && |body| > 4
    ensures var k := PeerFor(s, src).2; WorksFor(s, OnData(c, s, src, body), k)
    ensures OnlyEntry(s, OnData(c, s, src, body), PeerFor(s, src).1)
    ensures SameIdentity(Remember(s, src).0, OnData(c, s, src, body))
  {
    var (u, w, k) := PeerFor(s, src);
    PeerForWorks(s, src, k);
    DataEntry(c, s, src, body);
    if k < MAX_SLOTS {
      DispatchAfterHandshakeWorks(c, u, w, k, body[4..]);
      WorksTrans(s, u, OnData(c, s, src, body), k);
    }
  }

  lemma GreetingWorks(c: Config, s: State, src: Mac, w: byte, k: byte)
    requires w < 128
    ensures var t := Handshake(Log(s, WlanTx(ActionResponse(src, c.ourMac, s.peers[w].wcid), s.peers[w].wcid)), w, k);
            WorksFor(s, t, k) && SameIdentity(s, t)
  {
    var o := WlanTx(ActionResponse(src, c.ourMac, s.peers[w].wcid), s.peers[w].wcid);
    assert o.frame[0] == 0xd0;
    HandshakeWorks(Log(s, o), w, k);
    WorksTrans(s, Log(s, o), Handshake(Log(s, o), w, k), k);
  }

  lemma ActionWorks(c: Config, s: State, src: Mac, body: seq<byte>)
    requires PeersOk(s) && |body| >= 5
    ensures var k := PeerFor(s, src).2; WorksFor(s, OnAction(c, s, src, body), k)
    ensures OnlyEntry(s, OnAction(c, s, src, body), PeerFor(s, src).1)
    ensures SameIdentity(Remember(s, src).0, OnAction(c, s, src, body))
  {
    var (u, w, k) := PeerFor(s, src);
    PeerForWorks(s, src, k);
    ActionEntry(c, s, src, body);
    if k < MAX_SLOTS && !u.peers[w].handshakeDone {
      GreetingWorks(c, u, src, w, k);
      WorksTrans(s, u, OnAction(c, s, src, body), k);
    }
  }

  /** A step that only answers a frame: no events, no channel switch, association answers to `to` if to anybody. */
  ghost predicate Answers(s: State, t: State, to: Option<Mac>) {
    && s.log <= t.log
    && (forall i :: |s.log| <= i < |t.log| ==>
          !t.log[i].Notify? && !t.log[i].Retune? &&
          (IsAssocFrame(t.log[i]) ==> to.Some? && t.log[i].frame[4..10] == to.value))
    && s.slots == t.slots && KeepsSessions(s, t)
    && SameChannel(s, t)
  }

  lemma AnswersTrans(s: State, t: State, u: State, to: Option<Mac>)
    requires Answers(s, t, to) && Answers(t, u, to)
    ensures Answers(s, u, to)
  {
  }

  lemma LogAnswers(s: State, frame: seq<byte>, w: byte, to: Option<Mac>)
    requires |frame| >= 10 && (frame[0] == 0x10 || frame[0] == 0x30 ==> to.Some? && frame[4..10] == to.value)
    ensures Answers(s, Log(s, WlanTx(frame, w)), to)
  {
  }

  lemma RememberAnswers(s: State, src: Mac, to: Option<Mac>)
    requires PeersOk(s)
    ensures Answers(s, Remember(s, src).0, to)
  {
    RememberWorks(s, src, NO_SLOT);
  }

  lemma ReplyAnswers(s: State, src: Mac, frame: seq<byte>)
    requires PeersOk(s) && |frame| >= 10 && frame[0] != 0x10 && frame[0] != 0x30
    ensures var (t, w) := Remember(s, src);
            Answers(s, Log(t, WlanTx(frame, if w != 0 then t.peers[w].wcid else NO_WCID)), None)
  {
    var (t, w) := Remember(s, src);
    RememberAnswers(s, src, None);
    LogAnswers(t, frame, if w != 0 then t.peers[w].wcid else NO_WCID, None);
  }

  lemma FwClientAddAnswers(s: State, w: byte, to: Option<Mac>)
    requires w < 128
    ensures Answers(s, FwClientAdd(s, w), to) && SameIdentity(s, FwClientAdd(s, w))
  {
  }

  lemma AssocAnswers(c: Config, s: State, src: Mac, reassoc: bool)
    requires PeersOk(s)
    ensures Answers(s, SendAssocResponse(c, s, src, reassoc), Some(src))
    ensures SameIdentity(Remember(s, src).0, SendAssocResponse(c, s, src, reassoc))
  {
    var (t, w) := Remember(s, src);
    RememberAnswers(s, src, Some(src));
    FwClientAddAnswers(t, w, Some(src));
    var told := if w != 0 && !t.peers[w].fwClientAdded then FwClientAdd(t, w) else t;
    LogAnswers(told, AssocResponse(src, c.ourMac, reassoc), NO_WCID, Some(src));
    AnswersTrans(s, t, told, Some(src));
    AnswersTrans(s, told, Log(told, WlanTx(AssocResponse(src, c.ourMac, reassoc), NO_WCID)), Some(src));
  }

  lemma SetBeaconAnswers(c: Config, s: State, enabled: bool)
    ensures Answers(s, SetBeacon(c, s, enabled), None)
    ensures SetBeacon(c, s, enabled).peers == s.peers && SetBeacon(c, s, enabled).nextWcid == s.nextWcid
  {
  }

  lemma PairAnswers(c: Config, s: State, src: Mac, body: seq<byte>)
    ensures var t := OnPairRequest(c, s, src, body);
            Answers(s, t, None) && t.peers == s.peers && t.nextWcid == s.nextWcid
  {
    var t := Log(s, WlanTx(PairResponse(src, c.ourMac), NO_WCID));
    LogAnswers(s, PairResponse(src, c.ourMac), NO_WCID, None);
    SetBeaconAnswers(c, t, c.multiPair);
    AnswersTrans(s, t, SetBeacon(c, t, c.multiPair), None);
  }

  ghost function AssocTarget(f: Frame): Option<Mac> { if f.subtype in [0, 2] then Some(f.src) else None }

  ghost predicate LocksChannel(f: Frame) {
    f.subtype == 0 || f.subtype == 2 || f.subtype == 4 || f.subtype == 7 || f.subtype == 11
  }

  ghost function MaybeLocked(s: State, now: nat, f: Frame): State { if LocksChannel(f) then Lock(s, now) else s }

  /** Management frames other than the session handshake. */
  lemma ManagementAnswers(c: Config, s: State, now: nat, f: Frame)
    requires PeersOk(s) && f.subtype != 13
    ensures Answers(MaybeLocked(s, now, f), OnManagement(c, s, now, f), AssocTarget(f))
  {
    var t := Lock(s, now);
    if f.subtype == 4 { ReplyAnswers(t, f.src, ProbeResponse(f.src, c.ourMac, t.radio.channel)); }
    else if f.subtype == 7 { PairAnswers(c, t, f.src, f.body); }
    else if f.subtype == 11 { ReplyAnswers(t, f.src, AuthResponse(f.src, c.ourMac, f.body)); }
    else if f.subtype == 0 { AssocAnswers(c, t, f.src, false); }
    else if f.subtype == 2 { AssocAnswers(c, t, f.src, true); }
  }
}
