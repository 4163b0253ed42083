// The run that separates the two programs: a controller is lost, then presses its guide button.

module GuideGap {
  import opened Bytes
  import opened Gip
  import opened EventLines
  import opened DaemonModel
  import opened DaemonInvariants
  import opened DaemonRuns
  import opened DaemonTheorems
  import opened DaemonSession
  import opened Agreement
  import Bridge

  const LOST: seq<byte> := [CMD_CTRL_LOST, 0, 0, 0]
  const GUIDE: seq<byte> := [CMD_GUIDE_BTN, 0, 0, 1, 1]

  /** A USB transfer with one QoS data frame to us: RxInfo, RxWi, header, lead bytes and GIP, end marker. */
  function AirData(c: Config, src: Mac, gip: seq<byte>): seq<byte> {
    [0, 0, 8, 0] + Zeros(32) + DataHeader(c.ourMac, src) + ([0, 0, 0, 0] + gip) + Zeros(4)
  }

  lemma ReceivesAirData(c: Config, src: Mac, gip: seq<byte>)
    requires gip != []
    ensures Receive(AirData(c, src, gip)) == Wlan(Frame(2, 8, c.ourMac, src, c.ourMac, [0, 0, 0, 0] + gip))
  {
    var buf := AirData(c, src, gip);
    AirSections(c, src, gip);
    HeaderFields(buf[36..60], c.ourMac, src);
    assert buf[36] == buf[36..60][0] && buf[37] == buf[36..60][1];
    assert buf[40..46] == buf[36..60][4..10] && buf[46..52] == buf[36..60][10..16];
    assert buf[52..58] == buf[36..60][16..22];
    assert Read32(buf, 0) == 0x8_0000 && Read16(buf, 36) == 0x88;
  }

  function DataHeader(ourMac: Mac, src: Mac): (h: seq<byte>)
    ensures |h| == 24
  {
    [0x88, 0, 0, 0] + ourMac + src + ourMac + [0, 0]
  }

  lemma AirSections(c: Config, src: Mac, gip: seq<byte>)
    ensures var buf := AirData(c, src, gip);
            && |buf| == 68 + |gip| && buf[..4] == [0, 0, 8, 0] && buf[36..60] == DataHeader(c.ourMac, src)
            && buf[60..|buf| - 4] == [0, 0, 0, 0] + gip
    ensures var buf := AirData(c, src, gip); buf[0] == 0 && buf[1] == 0 && buf[2] == 8 && buf[3] == 0
  {
  }

  lemma HeaderFields(h: seq<byte>, ourMac: Mac, src: Mac)
    requires h == DataHeader(ourMac, src)
    ensures h[0] == 0x88 && h[1] == 0 && h[4..10] == ourMac && h[10..16] == src && h[16..22] == ourMac
  {
  }

  lemma StepIsData(c: Config, s: State, now: nat, src: Mac, gip: seq<byte>)
    requires gip != []
    ensures Step(c, s, UsbIn(now, AirData(c, src, gip))) == OnData(c, s, src, [0, 0, 0, 0] + gip)
  {
    ReceivesAirData(c, src, gip);
  }

  /** Connected by its first data frame, lost by the command in it. */
  ghost predicate LostAfterHandshake(s: State, m: Mac) {
    Known(s, 0, m) && !s.slots[0].active && EventsOf(s.log) == [Connected(0), Disconnected(0)]
  }

  lemma FirstPeer(c: Config, m: Mac)
    ensures var (u, w, k) := PeerFor(Init(c), m);
            w == 1 && k == 0 && !u.peers[1].handshakeDone && EventsOf(u.log) == [] && u.slots == Init(c).slots
            && u.peers[1].active && u.peers[1].mac == m
  {
    InvInit(c);
    InvPeerFor(Init(c), m);
  }

  ghost predicate JustConnected(s: State, m: Mac) {
    Known(s, 0, m) && s.slots[0].active && EventsOf(s.log) == [Connected(0)]
  }

  lemma FirstHandshake(c: Config, m: Mac)
    ensures JustConnected(Handshake(PeerFor(Init(c), m).0, 1, 0), m)
  {
    FirstPeer(c, m);
    HandshakeConnects(PeerFor(Init(c), m).0, m);
  }

  lemma HandshakeConnects(u: State, m: Mac)
    requires EventsOf(u.log) == [] && !u.slots[0].active && u.peers[1].active && u.peers[1].mac == m
    ensures JustConnected(Handshake(u, 1, 0), m)
  {
    LogSnoc(u.log, Notify(Connected(0)));
    assert Handshake(u, 1, 0).log == u.log + [Notify(Connected(0))];
  }

  lemma BeaconKeepsConnected(c: Config, s: State, m: Mac)
    requires JustConnected(s, m)
    ensures JustConnected(BeaconAfterHandshake(c, s), m)
  {
    BenignSetBeacon(c, s, if !c.multiPair then false else ActiveSlots(s.slots) < 8);
  }

  lemma LostCommand(s: State, m: Mac)
    requires JustConnected(s, m)
    ensures LostAfterHandshake(Dispatch(s, 1, 0, LOST), m)
  {
    assert Dispatch(s, 1, 0, LOST) == OnDisconnect(s, 0);
    LogSnoc(s.log, Notify(Disconnected(0)));
  }

  lemma LostFrame(c: Config, m: Mac)
    ensures LostAfterHandshake(OnData(c, Init(c), m, [0, 0, 0, 0] + LOST), m)
  {
    FirstPeer(c, m);
    assert ([0, 0, 0, 0] + LOST)[4..] == LOST;
    var h := Handshake(PeerFor(Init(c), m).0, 1, 0);
    FirstHandshake(c, m);
    BeaconKeepsConnected(c, h, m);
    LostCommand(BeaconAfterHandshake(c, h), m);
  }

  lemma GuideFrame(c: Config, s: State, m: Mac, xs: seq<Mac>)
    requires PeersOk(s) && TableIs(s.peers, s.nextWcid, xs) && LostAfterHandshake(s, m)
    ensures !Quiet(OnData(c, s, m, [0, 0, 0, 0] + GUIDE), 0)
    ensures OnData(c, s, m, [0, 0, 0, 0] + GUIDE).slots[0].guidePressed
    ensures EventsOf(OnData(c, s, m, [0, 0, 0, 0] + GUIDE).log) == [Connected(0), Disconnected(0), Guide(0, true)]
  {
    var body := [0, 0, 0, 0] + GUIDE;
    assert body[4..] == GUIDE;
    KnownPeerFor(s, 0, m, xs);
    assert GipPayload(GUIDE) == [1];
    assert Dispatch(s, 1, 0, GUIDE) == OnGuide(s, 0, true);
    LogSnoc(s.log, Notify(Guide(0, true)));
    var es := [Connected(0)];
    EventSnoc(es, Disconnected(0));
    QuietSnoc(es + [Disconnected(0)], Guide(0, true), 0);
    assert es + [Disconnected(0)] == [Connected(0), Disconnected(0)];
  }

  lemma RunOfTwo(c: Config, a: Stimulus, b: Stimulus)
    ensures Run(c, [a]) == Step(c, Init(c), a)
    ensures Run(c, [a, b]) == Step(c, Run(c, [a]), b)
  {
    assert [a][..0] == [];
    assert [a, b][..1] == [a];
  }

  lemma AfterLost(c: Config, m: Mac, t0: nat)
    ensures LostAfterHandshake(Run(c, [UsbIn(t0, AirData(c, m, LOST))]), m)
  {
    var first := UsbIn(t0, AirData(c, m, LOST));
    RunOfTwo(c, first, first);
    StepIsData(c, Init(c), t0, m, LOST);
    LostFrame(c, m);
  }

  /** Two frames of one controller, on any configuration: the daemon shows a pressed guide button where the bridge
      has an empty slot. */
  lemma ReplicasCanDiffer(c: Config, m: Mac, t0: nat, t1: nat)
    ensures var s := Run(c, [UsbIn(t0, AirData(c, m, LOST)), UsbIn(t1, AirData(c, m, GUIDE))]);
            !Sync(s, 0) && s.slots[0].guidePressed && !Replay(EventsOf(s.log))[0].guidePressed
  {
    var first, second := UsbIn(t0, AirData(c, m, LOST)), UsbIn(t1, AirData(c, m, GUIDE));
    var s := Run(c, [first]);
    RunOfTwo(c, first, second);
    StepIsData(c, s, t1, m, GUIDE);
    AfterLost(c, m, t0);
    InvRun(c, [first]);
    FirstContactTable(c, [first]);
    GuideFrame(c, s, m, Contacts(c, [first]));
    ReplayedGap();
  }

  lemma ReplayedGap()
    ensures Replay([Connected(0), Disconnected(0), Guide(0, true)])[0] == Bridge.EMPTY_SLOT
  {
    assert [Connected(0)] + [Disconnected(0)] + [Guide(0, true)] == [Connected(0), Disconnected(0), Guide(0, true)];
    ReplaySnoc([Connected(0)] + [Disconnected(0)], Guide(0, true));
    ReplaySnoc([Connected(0)], Disconnected(0));
    IdleSlotsAreEmpty([Connected(0)]);
  }
}
