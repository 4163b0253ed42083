// The main results about the daemon: each one speaks of every run, for every configuration and every input.

module DaemonTheorems {
  import opened Bytes
  import opened Gip
  import opened EventLines
  import opened DaemonModel
  import opened DaemonInvariants
  import opened DaemonRuns

  // ---------------------------------------------------------------- first contact

  lemma TableIdentity(s: State, t: State, xs: seq<Mac>)
    requires TableIs(s.peers, s.nextWcid, xs) && SameIdentity(s, t)
    ensures TableIs(t.peers, t.nextWcid, xs)
  {
  }

  ghost function WithContact(xs: seq<Mac>, m: Option<Mac>): seq<Mac> { if m.Some? then xs + [m.value] else xs }

  lemma SessionTable(c: Config, s: State, f: Frame, xs: seq<Mac>)
    requires PeersOk(s) && TableIs(s.peers, s.nextWcid, xs)
    ensures |f.body| > 4 ==> var t := OnData(c, s, f.src, f.body); TableIs(t.peers, t.nextWcid, xs + [f.src])
    ensures |f.body| > 4 ==> var t := OnAction(c, s, f.src, f.body); TableIs(t.peers, t.nextWcid, xs + [f.src])
  {
    if |f.body| > 4 {
      RememberRefines(s, xs, f.src);
      DataWorks(c, s, f.src, f.body);
      ActionWorks(c, s, f.src, f.body);
      TableIdentity(Remember(s, f.src).0, OnData(c, s, f.src, f.body), xs + [f.src]);
      TableIdentity(Remember(s, f.src).0, OnAction(c, s, f.src, f.body), xs + [f.src]);
    }
  }

  lemma AssocTable(c: Config, s: State, src: Mac, reassoc: bool, xs: seq<Mac>)
    requires PeersOk(s) && TableIs(s.peers, s.nextWcid, xs)
    ensures var t := OnAssocRequest(c, s, src, reassoc); TableIs(t.peers, t.nextWcid, xs + [src])
  {
    var w := Find(s.peers, src);
    if w != 0 && s.peers[w].sessionInitialized {
      KnownContact(s, xs, src);
    } else {
      RememberRefines(s, xs, src);
      AssocAnswers(c, s, src, reassoc);
      TableIdentity(Remember(s, src).0, SendAssocResponse(c, s, src, reassoc), xs + [src]);
    }
  }

  lemma ManagementTable(c: Config, s: State, now: nat, f: Frame, xs: seq<Mac>)
    requires PeersOk(s) && TableIs(s.peers, s.nextWcid, xs) && ToUs(c, f) && f.kind == 0
    ensures var t := OnManagement(c, s, now, f);
            TableIs(t.peers, t.nextWcid, if IsContact(c, f) then xs + [f.src] else xs)
  {
    var t := Lock(s, now);
    if f.subtype == 13 { SessionTable(c, s, f, xs); }
    else if f.subtype == 4 { RememberRefines(t, xs, f.src); }
    else if f.subtype == 7 { PairAnswers(c, t, f.src, f.body); }
    else if f.subtype == 11 { RememberRefines(t, xs, f.src); }
    else if f.subtype == 0 { AssocTable(c, t, f.src, false, xs); }
    else if f.subtype == 2 { AssocTable(c, t, f.src, true, xs); }
  }

  lemma CpuTable(c: Config, s: State, eventType: nat, first: byte)
    ensures var t := OnCpu(c, s, eventType, first); t.peers == s.peers && t.nextWcid == s.nextWcid
  {
    SetBeaconAnswers(c, s, true);
    if 0 < first < 9 {
      SetBeaconAnswers(c, OnDisconnect(s, first - 1), true);
    }
  }

  lemma OtherTable(c: Config, s: State, i: Stimulus)
    requires !(i.UsbIn? && Receive(i.buf).Wlan?)
    ensures var t := Step(c, s, i); t.peers == s.peers && t.nextWcid == s.nextWcid
  {
    match i {
      case Tick(now, efuse) => BenignTick(c, s, now, efuse);
      case UsbIn(now, buf) =>
        match Receive(buf) {
          case Cpu(eventType, first) => CpuTable(c, s, eventType, first);
          case Other =>
        }
    }
  }

  lemma StepTable(c: Config, s: State, i: Stimulus, xs: seq<Mac>)
    requires Inv(s) && TableIs(s.peers, s.nextWcid, xs)
    ensures var t := Step(c, s, i); TableIs(t.peers, t.nextWcid, WithContact(xs, ContactOf(c, i)))
  {
    if i.UsbIn? && Receive(i.buf).Wlan? {
      FrameTable(c, s, i.now, Receive(i.buf).f, xs);
    } else {
      OtherTable(c, s, i);
    }
  }

  lemma FrameTable(c: Config, s: State, now: nat, f: Frame, xs: seq<Mac>)
    requires PeersOk(s) && TableIs(s.peers, s.nextWcid, xs)
    ensures var t := OnFrame(c, s, now, f);
            TableIs(t.peers, t.nextWcid, WithContact(xs, if IsContact(c, f) then Some(f.src) else None))
  {
    if ToUs(c, f) && f.kind == 0 {
      ManagementTable(c, s, now, f, xs);
    } else if IsSession(c, f) {
      SessionTable(c, s, f, xs);
    }
  }

  /** After any run the peer table is the list of distinct senders in order of first contact. */
  lemma {:induction false} FirstContactTable(c: Config, inputs: seq<Stimulus>)
    ensures var s := Run(c, inputs); TableIs(s.peers, s.nextWcid, Contacts(c, inputs))
  {
    if inputs != [] {
      var n := |inputs| - 1;
      FirstContactTable(c, inputs[..n]);
      InvRun(c, inputs[..n]);
      StepTable(c, Run(c, inputs[..n]), inputs[n], Contacts(c, inputs[..n]));
    }
  }

  lemma {:induction false} ContactsGrow(c: Config, inputs: seq<Stimulus>, j: nat)
    requires j <= |inputs|
    ensures Contacts(c, inputs[..j]) <= Contacts(c, inputs)
  {
    if j == |inputs| {
      assert inputs[..j] == inputs;
    } else {
      var n := |inputs| - 1;
      assert inputs[..n][..j] == inputs[..j];
      ContactsGrow(c, inputs[..n], j);
    }
  }

  /** An entry below 127, once taken, keeps its MAC for the rest of the run. */
  lemma EntriesArePermanent(c: Config, inputs: seq<Stimulus>, j: nat, w: nat)
    requires j <= |inputs| && 1 <= w < 127 && Run(c, inputs[..j]).peers[w].active
    ensures var p, q := Run(c, inputs[..j]).peers[w], Run(c, inputs).peers[w]; q.active && q.mac == p.mac && q.wcid == w
  {
    FirstContactTable(c, inputs[..j]);
    FirstContactTable(c, inputs);
    ContactsGrow(c, inputs, j);
    DistinctGrows(Contacts(c, inputs[..j]), Contacts(c, inputs));
  }

  // ---------------------------------------------------------------- slot attribution

  /** The session frame a stimulus carries, if it does. */
  ghost predicate IsSessionFrom(c: Config, i: Stimulus, m: Mac) {
    i.UsbIn? && Receive(i.buf).Wlan? && IsSession(c, Receive(i.buf).f) && Receive(i.buf).f.src == m
  }

  ghost predicate IsClientLost(c: Config, i: Stimulus, k: byte) {
    c.handleClientLost && i.UsbIn? && Receive(i.buf).Cpu? && Receive(i.buf).eventType == 0x0e
    && Receive(i.buf).first as int == k as int + 1
  }

  /** Events of slot k come from session frames of that slot's MAC, or are the dongle's client-lost notice. */
  ghost predicate Caused(c: Config, i: Stimulus, after: State, e: Event) {
    && !e.HidUnavailable? && e.slot < 8 && after.peers[e.slot + 1].active
    && (IsSessionFrom(c, i, after.peers[e.slot + 1].mac)
        || (e.Disconnected? && IsClientLost(c, i, e.slot)))
  }

  ghost predicate NewEventsCaused(c: Config, s: State, i: Stimulus) {
    var t := Step(c, s, i);
    s.log <= t.log && forall j :: |s.log| <= j < |t.log| && t.log[j].Notify? ==> Caused(c, i, t, t.log[j].e)
  }

  lemma WorkIsCaused(c: Config, s: State, t: State, i: Stimulus, src: Mac)
    requires Inv(s) && IsSessionFrom(c, i, src)
    requires WorksFor(s, t, PeerFor(s, src).2) && SameIdentity(Remember(s, src).0, t)
    ensures forall j :: |s.log| <= j < |t.log| && t.log[j].Notify? ==> Caused(c, i, t, t.log[j].e)
  {
    var (u, w, k) := PeerFor(s, src);
    InvPeerFor(s, src);
    PeerForWorks(s, src, k);
    assert SameIdentity(u, t);
    forall j | |s.log| <= j < |t.log| && t.log[j].Notify? ensures Caused(c, i, t, t.log[j].e) {
      assert Mine(t.log[j], k);
    }
  }

  lemma SessionCauses(c: Config, s: State, i: Stimulus)
    requires Inv(s) && i.UsbIn? && Receive(i.buf).Wlan? && IsSession(c, Receive(i.buf).f)
    ensures NewEventsCaused(c, s, i)
  {
    var f := Receive(i.buf).f;
    if f.kind == 2 {
      DataWorks(c, s, f.src, f.body);
    } else {
      ActionWorks(c, s, f.src, f.body);
    }
    WorkIsCaused(c, s, Step(c, s, i), i, f.src);
  }

  /** Nothing but registers, beacons and channel switches, and nobody's entry or slot and no counter changes. */
  ghost predicate Silent(s: State, t: State) {
    && s.log <= t.log
    && (forall j :: |s.log| <= j < |t.log| ==>
          !t.log[j].Notify? && !t.log[j].WlanTx? && !t.log[j].GipTx? && !t.log[j].ClientAdd?)
    && t.slots == s.slots && t.peers == s.peers && t.nextWcid == s.nextWcid && t.hostSeq == s.hostSeq
  }

  lemma SilentTrans(s: State, t: State, u: State)
    requires Silent(s, t) && Silent(t, u)
    ensures Silent(s, u)
  {
  }

  lemma BeaconIsSilent(s: State, mac: Mac, channel: byte)
    ensures Silent(s, WriteBeacon(s, mac, channel))
  {
  }

  lemma SetBeaconIsSilent(c: Config, s: State, enabled: bool)
    ensures Silent(s, SetBeacon(c, s, enabled))
  {
  }

  lemma LostReportsOnly(c: Config, s: State, w: byte)
    ensures var t := OnClientLost(c, s, w);
            && s.log <= t.log && t.peers == s.peers
            && forall j :: |s.log| <= j < |t.log| && t.log[j].Notify? ==>
                 0 < w < 9 && s.slots[w - 1].active && t.log[j].e == Disconnected(w - 1)
  {
    if 0 < w < 9 {
      SetBeaconIsSilent(c, OnDisconnect(s, w - 1), true);
    }
  }

  lemma ClientLostCauses(c: Config, s: State, i: Stimulus)
    requires SlotsOk(s) && i.UsbIn? && Receive(i.buf).Cpu? && c.handleClientLost && Receive(i.buf).eventType == 0x0e
    ensures NewEventsCaused(c, s, i)
  {
    LostReportsOnly(c, s, Receive(i.buf).first);
    assert Step(c, s, i) == OnClientLost(c, s, Receive(i.buf).first);
  }

  lemma AnnounceIsSilent(s: State, channel: byte)
    ensures Silent(s, AnnounceChannel(s, channel))
  {
    if s.radio.scanMac.Some? {
      BeaconIsSilent(s, s.radio.scanMac.value, channel);
    }
  }

  lemma ScanIsSilent(s: State, now: nat, efuse: Option<Mac>)
    ensures Silent(s, Scan(s, now, efuse))
  {
    var t := LearnMac(s, efuse);
    assert Silent(s, t);
    var r := Retuned(t, now, NextIndex(t));
    assert Silent(t, r);
    AnnounceIsSilent(r, ScanChannel(NextIndex(t)));
    SilentTrans(t, r, SwitchChannel(t, now));
    SilentTrans(s, t, if Elapsed(now, t.radio.lastSwitch) > 2000 then SwitchChannel(t, now) else t);
  }

  lemma TickIsSilent(c: Config, s: State, now: nat, efuse: Option<Mac>)
    ensures Silent(s, OnTick(c, s, now, efuse))
  {
    SetBeaconIsSilent(c, s, true);
    SetBeaconIsSilent(c, s, ActiveSlots(s.slots) < 8);
    var t := if s.radio.beaconOn then s else SetBeacon(c, s, true);
    ScanIsSilent(t, now, efuse);
    SilentTrans(s, t, Scan(t, now, efuse));
  }

  lemma StepCauses(c: Config, s: State, i: Stimulus)
    requires Inv(s)
    ensures NewEventsCaused(c, s, i)
  {
    match i {
      case Tick(now, efuse) => TickIsSilent(c, s, now, efuse);
      case UsbIn(now, buf) =>
        match Receive(buf) {
          case Other =>
          case Cpu(eventType, first) =>
            if c.handleClientLost && eventType == 0x0e {
              ClientLostCauses(c, s, i);
            } else {
              SetBeaconAnswers(c, s, true);
            }
          case Wlan(f) =>
            if IsSession(c, f) {
              SessionCauses(c, s, i);
            } else if ToUs(c, f) && f.kind == 0 && f.subtype != 13 {
              ManagementAnswers(c, s, now, f);
            }
        }
    }
  }

  /** Every event ever emitted for slot k at step j was caused by the (k+1)-th first-contact MAC of the whole run. */
  lemma SlotAttribution(c: Config, inputs: seq<Stimulus>, j: nat, at: nat)
    requires j < |inputs|
    requires |Run(c, inputs[..j]).log| <= at < |Run(c, inputs[..j + 1]).log|
    requires Run(c, inputs[..j + 1]).log[at].Notify?
    ensures var e := Run(c, inputs[..j + 1]).log[at].e;
            && !e.HidUnavailable? && e.slot < 8 && e.slot < |Distinct(Contacts(c, inputs))|
            && (IsSessionFrom(c, inputs[j], Distinct(Contacts(c, inputs))[e.slot])
                || (e.Disconnected? && IsClientLost(c, inputs[j], e.slot)))
  {
    assert inputs[..j + 1][..j] == inputs[..j] && inputs[..j + 1][j] == inputs[j];
    AttributedSoFar(c, inputs[..j + 1], at);
    ContactsGrow(c, inputs, j + 1);
    DistinctGrows(Contacts(c, inputs[..j + 1]), Contacts(c, inputs));
  }

  /** The same for an event of the last step, against the contacts so far. */
  lemma AttributedSoFar(c: Config, inputs: seq<Stimulus>, at: nat)
    requires inputs != []
    requires |Run(c, inputs[..|inputs| - 1]).log| <= at < |Run(c, inputs).log| && Run(c, inputs).log[at].Notify?
    ensures var e, d := Run(c, inputs).log[at].e, Distinct(Contacts(c, inputs));
            && !e.HidUnavailable? && e.slot < 8 && e.slot < |d|
            && (IsSessionFrom(c, inputs[|inputs| - 1], d[e.slot])
                || (e.Disconnected? && IsClientLost(c, inputs[|inputs| - 1], e.slot)))
  {
    var before, i := inputs[..|inputs| - 1], inputs[|inputs| - 1];
    InvRun(c, before);
    StepCauses(c, Run(c, before), i);
    FirstContactTable(c, inputs);
    SlotOfContact(Run(c, inputs), Contacts(c, inputs), Run(c, inputs).log[at].e.slot);
  }

  lemma SlotOfContact(t: State, xs: seq<Mac>, k: byte)
    requires TableIs(t.peers, t.nextWcid, xs) && k < 8 && t.peers[k + 1].active
    ensures k < |Distinct(xs)| && t.peers[k + 1].mac == Distinct(xs)[k]
  {
  }

  // ---------------------------------------------------------------- sessions

  /** An initialised session survives the step, and its controller gets no association answer from it. */
  ghost predicate LeavesAlone(s: State, t: State, w: nat)
    requires w < 128
  {
    && s.log <= t.log
    && t.peers[w].active && t.peers[w].mac == s.peers[w].mac && t.peers[w].sessionInitialized
    && forall j :: |s.log| <= j < |t.log| && IsAssocFrame(t.log[j]) ==> t.log[j].frame[4..10] != s.peers[w].mac
  }

  ghost predicate InSession(s: State, w: nat) { 1 <= w <= 8 && s.peers[w].active && s.peers[w].sessionInitialized }

  /** Only the first eight entries ever have a session. */
  lemma SessionsAreLocal(s: State, w: nat)
    requires Inv(s) && 1 <= w < 128 && s.peers[w].active && s.peers[w].sessionInitialized
    ensures w <= 8 && s.peers[w].slot == w - 1 && s.peers[w].handshakeDone && s.peers[w].initialCommandsSent
  {
    assert PeerOk(s.peers[w], w);
  }

  lemma AssocIgnored(c: Config, s: State, src: Mac, reassoc: bool, w: nat, xs: seq<Mac>)
    requires TableIs(s.peers, s.nextWcid, xs) && InSession(s, w) && src == s.peers[w].mac
    ensures OnAssocRequest(c, s, src, reassoc) == s
  {
    var v: nat := Find(s.peers, src);
    if v < w { TableMacsDiffer(s.peers, s.nextWcid, xs, v, w); }
  }

  lemma ManagementLeavesAlone(c: Config, s: State, now: nat, f: Frame, w: nat, xs: seq<Mac>)
    requires PeersOk(s) && TableIs(s.peers, s.nextWcid, xs) && InSession(s, w) && f.subtype != 13
    ensures LeavesAlone(s, OnManagement(c, s, now, f), w)
  {
    if f.subtype in [0, 2] && f.src == s.peers[w].mac {
      AssocIgnored(c, Lock(s, now), f.src, f.subtype == 2, w, xs);
    } else {
      ManagementAnswers(c, s, now, f);
    }
  }

  lemma WorkLeavesAlone(s: State, t: State, k: byte, w: nat)
    requires InSession(s, w) && WorksFor(s, t, k)
    ensures LeavesAlone(s, t, w)
  {
  }

  lemma SessionLeavesAlone(c: Config, s: State, now: nat, f: Frame, w: nat)
    requires PeersOk(s) && InSession(s, w) && IsSession(c, f)
    ensures LeavesAlone(s, OnFrame(c, s, now, f), w)
  {
    var k := PeerFor(s, f.src).2;
    if f.kind == 2 {
      DataWorks(c, s, f.src, f.body);
      WorkLeavesAlone(s, OnData(c, s, f.src, f.body), k, w);
    } else {
      ActionWorks(c, s, f.src, f.body);
      WorkLeavesAlone(s, OnAction(c, s, f.src, f.body), k, w);
    }
  }

  lemma StepLeavesAlone(c: Config, s: State, i: Stimulus, w: nat, xs: seq<Mac>)
    requires Inv(s) && TableIs(s.peers, s.nextWcid, xs) && InSession(s, w)
    ensures LeavesAlone(s, Step(c, s, i), w)
  {
    match i {
      case Tick(now, efuse) => TickIsSilent(c, s, now, efuse);
      case UsbIn(now, buf) =>
        match Receive(buf) {
          case Other =>
          case Cpu(eventType, first) => CpuLeavesAlone(c, s, eventType, first, w);
          case Wlan(f) =>
            if IsSession(c, f) {
              SessionLeavesAlone(c, s, now, f, w);
            } else if ToUs(c, f) && f.kind == 0 && f.subtype != 13 {
              ManagementLeavesAlone(c, s, now, f, w, xs);
            }
        }
    }
  }

  lemma CpuLeavesAlone(c: Config, s: State, eventType: nat, first: byte, w: nat)
    requires InSession(s, w)
    ensures LeavesAlone(s, OnCpu(c, s, eventType, first), w)
  {
    SetBeaconAnswers(c, s, true);
    if 0 < first < 9 {
      SetBeaconAnswers(c, OnDisconnect(s, first - 1), true);
    }
  }

  lemma LeavesTrans(s: State, t: State, u: State, w: nat)
    requires w < 128 && LeavesAlone(s, t, w) && LeavesAlone(t, u, w)
    ensures LeavesAlone(s, u, w)
  {
  }

  lemma LeavesAloneOneMore(c: Config, before: seq<Stimulus>, i: Stimulus, s: State, w: nat)
    requires InSession(s, w) && LeavesAlone(s, Run(c, before), w)
    ensures LeavesAlone(s, Step(c, Run(c, before), i), w)
  {
    var t := Run(c, before);
    InvRun(c, before);
    FirstContactTable(c, before);
    StepLeavesAlone(c, t, i, w, Contacts(c, before));
    LeavesTrans(s, t, Step(c, t, i), w);
  }

  /** Once a MAC's session is initialised, no later step of any run answers its (re)association requests explicitly. */
  lemma {:induction false} SessionQuiescence(c: Config, inputs: seq<Stimulus>, j: nat, w: nat)
    requires j <= |inputs| && InSession(Run(c, inputs[..j]), w)
    ensures LeavesAlone(Run(c, inputs[..j]), Run(c, inputs), w)
    decreases |inputs|
  {
    if j == |inputs| {
      assert inputs[..j] == inputs;
    } else {
      var before := inputs[..|inputs| - 1];
      assert before[..j] == inputs[..j];
      SessionQuiescence(c, before, j, w);
      LeavesAloneOneMore(c, before, inputs[|inputs| - 1], Run(c, inputs[..j]), w);
    }
  }

  /** The firmware hears about a client at most once per permanent entry, and only about entries in use. */
  lemma ClientAddOnce(c: Config, inputs: seq<Stimulus>, w: byte)
    requires 1 <= w < 127
    ensures Adds(Run(c, inputs).log, w) <= 1
    ensures Adds(Run(c, inputs).log, w) == 1 ==> Run(c, inputs).peers[w].active
  {
    InvRun(c, inputs);
    assert PeerOk(Run(c, inputs).peers[w], w);
  }

  // ---------------------------------------------------------------- hardware mirror

  /** The MAC the two table words of entry `w` stand for. */
  ghost function MacInHardware(regs: map<nat, u32>, w: nat): seq<byte> {
    var base := WCID_ADDR_BASE + 8 * w;
    if base in regs && base + 4 in regs && regs[base + 4] < 0x1_0000 then
      Le32(regs[base]) + Le16(regs[base + 4])
    else []
  }

  /** After every run the hardware's table decodes to exactly the peer table. */
  lemma HardwareMirror(c: Config, inputs: seq<Stimulus>, w: nat)
    requires 1 <= w < 128 && Run(c, inputs).peers[w].active
    ensures MacInHardware(Run(c, inputs).regs, w) == Run(c, inputs).peers[w].mac
  {
    InvRun(c, inputs);
    MirrorDecodes(Run(c, inputs), w);
  }

  lemma MirrorDecodes(s: State, w: nat)
    requires w < 128 && MirrorsMac(s, w)
    ensures MacInHardware(s.regs, w) == s.peers[w].mac
  {
    WordsHoldMac(s.peers[w].mac);
  }

  lemma WordsHoldMac(mac: Mac)
    ensures Le32(Read32(mac, 0)) + Le16(Read16(mac, 4)) == mac
  {
    Read32Inverse(mac[..4]);
    assert Read32(mac, 0) == Read32(mac[..4], 0);
    assert mac == mac[..4] + [mac[4], mac[5]];
    assert Le16(Read16(mac, 4)) == [mac[4], mac[5]];
  }

  // ---------------------------------------------------------------- events

  /** In every run the events are grammatical, and a slot is active exactly while the stream says so. */
  lemma EventGrammar(c: Config, inputs: seq<Stimulus>, k: byte)
    requires k < 8
    ensures Grammatical(EventsOf(Run(c, inputs).log))
    ensures Online(EventsOf(Run(c, inputs).log), k) == Run(c, inputs).slots[k].active
  {
    InvRun(c, inputs);
  }

  /** Who may own slot k: entry k + 1, once its handshake is done. Entries above 8 never own one. */
  lemma SlotOwners(c: Config, inputs: seq<Stimulus>, k: byte, w: nat)
    requires k < 8 && 1 <= w < 128
    ensures var s := Run(c, inputs);
            && (s.slots[k].active ==> s.peers[k + 1].active && s.peers[k + 1].handshakeDone && s.peers[k + 1].slot == k)
            && (s.peers[w].active && s.peers[w].slot == k ==> w == k + 1)
            && (w > 8 && s.peers[w].active ==> s.peers[w].slot == NO_SLOT && !s.peers[w].handshakeDone)
  {
    InvRun(c, inputs);
    assert PeerOk(Run(c, inputs).peers[k + 1], k + 1);
    assert PeerOk(Run(c, inputs).peers[w], w);
  }

  // ---------------------------------------------------------------- host sequence numbers

  lemma ThreeAreNumbered(n: nat, w: byte, peers: seq<Peer>, j: nat)
    requires |peers| == 128 && w < 128 && n < 8 && j < 3
    ensures Numbered(InitialCommands(w, peers[w].mac, 3 * n)[j], 3 * n + j, w, peers) && (3 * n + j) / 3 == n
  {
    assert (3 * n + j) % 3 == j;
  }

  lemma NumberedAt(before: seq<Output>, more: seq<Output>, order: seq<byte>, peers: seq<Peer>, n: nat, i: nat)
    requires |peers| == 128 && |order| == n + 1 <= 8 && |before| == 3 * n && |more| == 3 && i < 3 * n + 3
    requires order[i / 3] < 128
    requires if i < 3 * n then Numbered(before[i], i, order[i / 3], peers)
             else Numbered(more[i - 3 * n], i, order[i / 3], peers)
    ensures Numbered((before + more)[i], i, order[i / 3], peers)
  {
  }

  /** One entry of the script: whose it is and which number it carries. */
  lemma {:induction false} ScriptNumber(order: seq<byte>, peers: seq<Peer>, i: nat)
    requires |order| <= 8 && |peers| == 128 && (forall j :: 0 <= j < |order| ==> order[j] < 128) && i < 3 * |order|
    ensures |Script(order, peers)| == 3 * |order| && Numbered(Script(order, peers)[i], i, order[i / 3], peers)
  {
    var n := |order| - 1;
    var before, more := Script(order[..n], peers), InitialCommands(order[n], peers[order[n]].mac, 3 * n);
    ScriptLength(order[..n], peers);
    if i < 3 * n {
      ScriptNumber(order[..n], peers, i);
    } else {
      ThreeAreNumbered(n, order[n], peers, i - 3 * n);
    }
    NumberedAt(before, more, order, peers, n, i);
  }

  lemma {:induction false} ScriptLength(order: seq<byte>, peers: seq<Peer>)
    requires |order| <= 8 && |peers| == 128 && forall j :: 0 <= j < |order| ==> order[j] < 128
    ensures |Script(order, peers)| == 3 * |order|
  {
    if order != [] {
      ScriptLength(order[..|order| - 1], peers);
    }
  }

  lemma ScriptNumbers(order: seq<byte>, peers: seq<Peer>)
    requires |order| <= 8 && |peers| == 128 && forall i :: 0 <= i < |order| ==> order[i] < 128
    ensures |Script(order, peers)| == 3 * |order|
    ensures forall i :: 0 <= i < |Script(order, peers)| ==> Numbered(Script(order, peers)[i], i, order[i / 3], peers)
  {
    ScriptLength(order, peers);
    forall i | 0 <= i < |Script(order, peers)| ensures Numbered(Script(order, peers)[i], i, order[i / 3], peers) {
      ScriptNumber(order, peers, i);
    }
  }

  /** The i-th host command: PowerOn, LED or Serial by i mod 3, sequence number i + 1, for the given entry. */
  ghost predicate Numbered(o: Output, i: nat, w: byte, peers: seq<Peer>)
    requires |peers| == 128 && w < 128
  {
    && o.GipTx? && o.wcid == w && o.mac == peers[w].mac
    && |o.gip| > 4 && o.gip[0] == (if i % 3 == 0 then CMD_POWER else if i % 3 == 1 then CMD_LED else CMD_SERIAL)
    && o.gip[2] as int == i + 1
  }

  /** Host-chosen sequence numbers of a run are 1, 2, 3, ... up to at most 24, three consecutive ones per
      initialised controller: PowerOn, LED, Serial. So none is zero and none is used twice. */
  lemma SequenceAccounting(c: Config, inputs: seq<Stimulus>)
    ensures var s := Run(c, inputs);
            var order := Initialised(s.log);
            && NoRepeats(order) && |order| <= 8
            && (forall w: byte :: 1 <= w < 128 ==> (w in order <==> s.peers[w].initialCommandsSent))
            && |HostCommands(s.log)| == 3 * |order| == s.hostSeq
            && forall i :: 0 <= i < |HostCommands(s.log)| ==>
                 order[i / 3] < 128 && Numbered(HostCommands(s.log)[i], i, order[i / 3], s.peers)
  {
    var s := Run(c, inputs);
    InvRun(c, inputs);
    ScriptNumbers(Initialised(s.log), s.peers);
  }
}
