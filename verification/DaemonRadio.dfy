// The pairing channel over timed runs: where it may be, when it may move, and the schedule of hardware switches.

module DaemonRadio {
  import opened Bytes
  import opened DaemonModel
  import opened DaemonInputs
  import opened DaemonInvariants
  import opened DaemonRuns

  /** A monotone clock of less than 2^64 milliseconds. */
  ghost predicate Timed(inputs: seq<Stimulus>) {
    (forall i, j :: 0 <= i < j < |inputs| ==> inputs[i].now <= inputs[j].now)
    && forall i :: 0 <= i < |inputs| ==> inputs[i].now < 0x1_0000_0000_0000_0000
  }

  /** A directed probe, pairing, authentication or (re)association request. */
  ghost predicate IsPairingTraffic(c: Config, i: Stimulus) { IsPairing(MeaningOf(c, i)) }

  lemma PairingIs(c: Config, i: Stimulus)
    ensures IsPairingTraffic(c, i) <==>
            i.UsbIn? && Receive(i.buf).Wlan? && var f := Receive(i.buf).f; ToUs(c, f) && f.kind == 0 && LocksChannel(f)
  {
    if i.UsbIn? {
      Unpacks(i.buf);
      if BringsFrame(i.buf) { PairingFrame(c, i.buf, Receive(i.buf).f); }
    }
  }

  lemma PairingFrame(c: Config, buf: seq<byte>, f: Frame)
    requires BringsFrame(buf) && Receive(buf) == Wlan(f)
    ensures IsPairing(FrameMeaning(c.ourMac, buf)) <==> ToUs(c, f) && f.kind == 0 && LocksChannel(f)
  {
    Unpacks(buf);
    ControlByte(buf[36]);
    if ToUs(c, f) && f.kind == 0 { ManagementMeans(c, f, buf); }
  }

  /** Hardware channel switches, in order. */
  ghost function Retunes(log: seq<Output>): seq<Output> {
    if log == [] then []
    else
      var before, last := Retunes(log[..|log| - 1]), log[|log| - 1];
      if last.Retune? then before + [last] else before
  }

  lemma {:induction false} NoNewRetunes(a: seq<Output>, b: seq<Output>)
    requires a <= b && forall i :: |a| <= i < |b| ==> !b[i].Retune?
    ensures Retunes(b) == Retunes(a)
    decreases |b|
  {
    if a == b {
    } else {
      assert a <= b[..|b| - 1];
      NoNewRetunes(a, b[..|b| - 1]);
    }
  }

  /** The step leaves the channel, the scan and the switch log alone. */
  ghost predicate Untuned(s: State, t: State) {
    && t.radio == s.radio.(beaconOn := t.radio.beaconOn) && Retunes(t.log) == Retunes(s.log)
  }

  lemma SetBeaconUntuned(c: Config, s: State, enabled: bool)
    ensures Untuned(s, SetBeacon(c, s, enabled)) && SetBeacon(c, s, enabled).slots == s.slots
  {
    SetBeaconAnswers(c, s, enabled);
    NoNewRetunes(s.log, SetBeacon(c, s, enabled).log);
  }

  lemma ManagementTuning(c: Config, s: State, now: nat, f: Frame)
    requires PeersOk(s) && f.subtype != 13
    ensures Untuned(MaybeLocked(s, now, f), OnManagement(c, s, now, f))
  {
    ManagementAnswers(c, s, now, f);
    NoNewRetunes(s.log, OnManagement(c, s, now, f).log);
  }

  lemma SessionTuning(c: Config, s: State, f: Frame)
    requires PeersOk(s) && |f.body| > 4
    ensures Untuned(s, OnData(c, s, f.src, f.body)) && Untuned(s, OnAction(c, s, f.src, f.body))
  {
    DataWorks(c, s, f.src, f.body);
    ActionWorks(c, s, f.src, f.body);
    NoNewRetunes(s.log, OnData(c, s, f.src, f.body).log);
    NoNewRetunes(s.log, OnAction(c, s, f.src, f.body).log);
  }

  lemma CpuTuning(c: Config, s: State, eventType: nat, first: byte)
    ensures Untuned(s, OnCpu(c, s, eventType, first))
  {
    SetBeaconUntuned(c, s, true);
    if 0 < first < 9 {
      var t := OnDisconnect(s, first - 1);
      NoNewRetunes(s.log, t.log);
      SetBeaconUntuned(c, t, true);
    }
  }

  /** USB traffic never tunes the radio; it locks the channel exactly when it is pairing traffic. */
  lemma UsbTuning(c: Config, s: State, i: Stimulus)
    requires PeersOk(s) && i.UsbIn?
    ensures Untuned(if IsPairingTraffic(c, i) then Lock(s, i.now) else s, Step(c, s, i))
  {
    PairingIs(c, i);
    match Receive(i.buf) {
      case Other =>
      case Cpu(eventType, first) => CpuTuning(c, s, eventType, first);
      case Wlan(f) =>
        if ToUs(c, f) && f.kind == 0 {
          if f.subtype != 13 {
            ManagementTuning(c, s, i.now, f);
          } else if |f.body| > 4 {
            SessionTuning(c, s, f);
          }
        } else if |f.body| > 4 {
          SessionTuning(c, s, f);
        }
    }
  }

  // ---------------------------------------------------------------- the schedule

  /** Switch number i goes to the next channel of the cycle, more than two seconds after the one before. */
  ghost predicate OnSchedule(r: seq<Output>) {
    && (forall i :: 0 <= i < |r| ==> r[i].Retune? && r[i].channel == ScanChannel(i + 1))
    && forall i :: 0 < i < |r| ==> r[i].now > r[i - 1].now + 2000
  }

  ghost predicate IsPairingChannel(channel: byte) { channel == 36 || channel == 40 || channel == 44 || channel == 48 }

  ghost predicate RadioOk(c: Config, s: State, clock: nat) {
    var r := Retunes(s.log);
    && IsPairingChannel(s.radio.channel)
    && (c.forcedChannel != 0 ==> s.radio.channel == c.forcedChannel && r == [])
    && OnSchedule(r)
    && s.radio.scanIndex == |r| % 4
    && s.radio.lastSwitch <= clock
    && s.radio.lastSwitch == (if r == [] then 0 else r[|r| - 1].now)
    && (r != [] ==> s.radio.channel == r[|r| - 1].channel)
  }

  lemma WriteBeaconUntuned(s: State, mac: Mac, channel: byte)
    ensures Untuned(s, WriteBeacon(s, mac, channel))
  {
    NoNewRetunes(s.log, WriteBeacon(s, mac, channel).log);
  }

  lemma RetunedLog(s: State, now: nat, index: nat)
    ensures Retunes(Retuned(s, now, index).log) == Retunes(s.log) + [Retune(now, ScanChannel(index))]
  {
    assert (s.log + [Retune(now, ScanChannel(index))])[..|s.log|] == s.log;
  }

  lemma AnnounceUntuned(s: State, channel: byte)
    ensures Untuned(s, AnnounceChannel(s, channel)) && AnnounceChannel(s, channel).radio == s.radio
  {
    if s.radio.scanMac.Some? {
      WriteBeaconUntuned(s, s.radio.scanMac.value, channel);
    }
  }

  lemma SwitchTuning(s: State, now: nat)
    ensures var t := SwitchChannel(s, now);
            && Retunes(t.log) == Retunes(s.log) + [Retune(now, ScanChannel(NextIndex(s)))]
            && t.radio == s.radio.(scanIndex := NextIndex(s), lastSwitch := now)
  {
    RetunedLog(s, now, NextIndex(s));
    AnnounceUntuned(Retuned(s, now, NextIndex(s)), ScanChannel(NextIndex(s)));
  }

  lemma LearnTuning(s: State, efuse: Option<Mac>)
    ensures var t := LearnMac(s, efuse);
            t.radio == s.radio.(scanMac := t.radio.scanMac) && Retunes(t.log) == Retunes(s.log)
  {
    NoNewRetunes(s.log, LearnMac(s, efuse).log);
  }

  lemma CycleAdvances(n: nat)
    ensures (n % 4 + 1) % 4 == (n + 1) % 4 && ScanChannel((n % 4 + 1) % 4) == ScanChannel(n + 1)
    ensures IsPairingChannel(ScanChannel(n)) && ScanChannel(n % 4) == ScanChannel(n)
  {
  }

  lemma ElapsedIsDifference(now: nat, since: nat)
    requires since <= now < 0x1_0000_0000_0000_0000
    ensures Elapsed(now, since) == now - since
  {
  }

  lemma ScheduleExtends(r: seq<Output>, now: nat)
    requires OnSchedule(r) && (r != [] ==> now > r[|r| - 1].now + 2000)
    ensures OnSchedule(r + [Retune(now, ScanChannel((|r| % 4 + 1) % 4))])
  {
    CycleAdvances(|r|);
  }

  lemma SwitchKeepsRadioOk(c: Config, s: State, clock: nat, now: nat)
    requires RadioOk(c, s, clock) && c.forcedChannel == 0 && now > s.radio.lastSwitch + 2000
    ensures var t := SwitchChannel(s, now);
            RadioOk(c, t.(radio := t.radio.(channel := ScanChannel(t.radio.scanIndex))), now)
  {
    var r := Retunes(s.log);
    SwitchTuning(s, now);
    ScheduleExtends(r, now);
    CycleAdvances(|r|);
    CycleAdvances(|r| + 1);
  }

  lemma ScanKeepsRadioOk(c: Config, s: State, clock: nat, now: nat, efuse: Option<Mac>)
    requires RadioOk(c, s, clock) && c.forcedChannel == 0 && clock <= now < 0x1_0000_0000_0000_0000
    ensures RadioOk(c, Scan(s, now, efuse), now)
  {
    var t := LearnMac(s, efuse);
    LearnTuning(s, efuse);
    ElapsedIsDifference(now, t.radio.lastSwitch);
    if now - t.radio.lastSwitch > 2000 {
      SwitchKeepsRadioOk(c, t, clock, now);
    } else {
      CycleAdvances(|Retunes(s.log)|);
    }
  }

  lemma UntunedKeepsRadioOk(c: Config, s: State, t: State, clock: nat, now: nat)
    requires RadioOk(c, s, clock) && clock <= now && Untuned(s, t)
    ensures RadioOk(c, t, now)
  {
  }

  lemma TickKeepsRadioOk(c: Config, s: State, clock: nat, now: nat, efuse: Option<Mac>)
    requires RadioOk(c, s, clock) && clock <= now < 0x1_0000_0000_0000_0000
    ensures RadioOk(c, OnTick(c, s, now, efuse), now)
  {
    var t := OnTick(c, s, now, efuse);
    if ActiveSlots(s.slots) == 0 {
      var u := if s.radio.beaconOn then s else SetBeacon(c, s, true);
      SetBeaconUntuned(c, s, true);
      UntunedKeepsRadioOk(c, s, u, clock, now);
      if c.forcedChannel == 0 && now >= u.radio.lockUntil {
        ScanKeepsRadioOk(c, u, now, now, efuse);
      }
    } else {
      SetBeaconUntuned(c, s, ActiveSlots(s.slots) < 8);
      UntunedKeepsRadioOk(c, s, t, clock, now);
    }
  }

  lemma UsbKeepsRadioOk(c: Config, s: State, clock: nat, i: Stimulus)
    requires PeersOk(s) && i.UsbIn? && RadioOk(c, s, clock) && clock <= i.now
    ensures RadioOk(c, Step(c, s, i), i.now)
  {
    var l := if IsPairingTraffic(c, i) then Lock(s, i.now) else s;
    UsbTuning(c, s, i);
    UntunedKeepsRadioOk(c, l, Step(c, s, i), clock, i.now);
  }

  ghost function Clock(inputs: seq<Stimulus>): nat { if inputs == [] then 0 else inputs[|inputs| - 1].now }

  lemma TimedPrefix(inputs: seq<Stimulus>)
    requires Timed(inputs) && inputs != []
    ensures var before, last := inputs[..|inputs| - 1], inputs[|inputs| - 1];
            Timed(before) && Clock(before) <= last.now < 0x1_0000_0000_0000_0000
  {
    var before := inputs[..|inputs| - 1];
    assert forall i :: 0 <= i < |before| ==> before[i] == inputs[i];
  }

  lemma StepKeepsRadioOk(c: Config, s: State, clock: nat, i: Stimulus)
    requires PeersOk(s) && RadioOk(c, s, clock) && clock <= i.now < 0x1_0000_0000_0000_0000
    ensures RadioOk(c, Step(c, s, i), i.now)
  {
    if i.UsbIn? { UsbKeepsRadioOk(c, s, clock, i); } else { TickKeepsRadioOk(c, s, clock, i.now, i.efuse); }
  }

  lemma {:induction false} RadioRun(c: Config, inputs: seq<Stimulus>)
    requires ValidConfig(c) && Timed(inputs)
    ensures RadioOk(c, Run(c, inputs), Clock(inputs))
  {
    if inputs != [] {
      var before, last := inputs[..|inputs| - 1], inputs[|inputs| - 1];
      TimedPrefix(inputs);
      RadioRun(c, before);
      InvRun(c, before);
      StepKeepsRadioOk(c, Run(c, before), Clock(before), last);
    }
  }

  // ---------------------------------------------------------------- main results

  /** The pairing channel is always one of the four, and the requested one when one was requested. */
  lemma ChannelIsValid(c: Config, inputs: seq<Stimulus>)
    requires ValidConfig(c) && Timed(inputs)
    ensures IsPairingChannel(Run(c, inputs).radio.channel)
    ensures c.forcedChannel != 0 ==>
              Run(c, inputs).radio.channel == c.forcedChannel && Retunes(Run(c, inputs).log) == []
  {
    RadioRun(c, inputs);
  }

  /** Hardware switches are more than 2000 ms apart, any four in a row visit all four channels, and after
      the first one the announced channel is the one the radio is on. */
  lemma SwitchSchedule(c: Config, inputs: seq<Stimulus>)
    requires ValidConfig(c) && Timed(inputs)
    ensures var r := Retunes(Run(c, inputs).log);
            && OnSchedule(r)
            && (forall i :: 0 <= i && i + 3 < |r| ==>
                  {r[i].channel, r[i + 1].channel, r[i + 2].channel, r[i + 3].channel} == {0x24, 0x28, 0x2c, 0x30})
            && (r != [] ==> Run(c, inputs).radio.channel == r[|r| - 1].channel)
  {
    RadioRun(c, inputs);
    var r := Retunes(Run(c, inputs).log);
    forall i | 0 <= i && i + 3 < |r|
      ensures {r[i].channel, r[i + 1].channel, r[i + 2].channel, r[i + 3].channel} == {0x24, 0x28, 0x2c, 0x30}
    {
      FourInARow(i);
    }
  }

  lemma FourInARow(n: nat)
    ensures {ScanChannel(n + 1), ScanChannel(n + 2), ScanChannel(n + 3), ScanChannel(n + 4)} == {0x24, 0x28, 0x2c, 0x30}
  {
    var m := n % 4;
    assert m == 0 || m == 1 || m == 2 || m == 3;
  }

  lemma TickKeepsLock(c: Config, s: State, now: nat, efuse: Option<Mac>)
    ensures OnTick(c, s, now, efuse).radio.lockUntil == s.radio.lockUntil
    ensures OnTick(c, s, now, efuse).radio.channel != s.radio.channel ==>
              ActiveSlots(s.slots) == 0 && c.forcedChannel == 0 && now >= s.radio.lockUntil
  {
    SetBeaconUntuned(c, s, true);
    SetBeaconUntuned(c, s, ActiveSlots(s.slots) < 8);
    var t := if s.radio.beaconOn then s else SetBeacon(c, s, true);
    LearnTuning(t, efuse);
    SwitchTuning(LearnMac(t, efuse), now);
  }

  lemma LockOneMore(c: Config, s: State, i: Stimulus, until: nat)
    requires PeersOk(s) && (s.radio.lockUntil >= until || IsPairingTraffic(c, i))
    requires IsPairingTraffic(c, i) ==> i.now + 5000 >= until
    ensures Step(c, s, i).radio.lockUntil >= until
  {
    if i.UsbIn? {
      UsbTuning(c, s, i);
    } else {
      TickKeepsLock(c, s, i.now, i.efuse);
    }
  }

  /** Pairing traffic holds the channel for 5000 ms, however much more of it follows. */
  lemma {:induction false} LockHolds(c: Config, inputs: seq<Stimulus>, j: nat)
    requires Timed(inputs) && j < |inputs| && IsPairingTraffic(c, inputs[j])
    ensures Run(c, inputs).radio.lockUntil >= inputs[j].now + 5000
  {
    var before, last := inputs[..|inputs| - 1], inputs[|inputs| - 1];
    InvRun(c, before);
    if j < |inputs| - 1 {
      LockHolds(c, before, j);
    }
    LockOneMore(c, Run(c, before), last, inputs[j].now + 5000);
  }

  /** If the channel moves at all, it is a wake-up of an unforced daemon without active slots, and every
      earlier pairing frame is at least 5000 ms old. */
  lemma ChannelMovesOnlyWhenIdle(c: Config, before: seq<Stimulus>, i: Stimulus, j: nat)
    requires Timed(before + [i])
    requires Run(c, before + [i]).radio.channel != Run(c, before).radio.channel
    ensures i.Tick? && c.forcedChannel == 0 && forall k :: 0 <= k < 8 ==> !Run(c, before).slots[k].active
    ensures j < |before| && IsPairingTraffic(c, before[j]) ==> i.now >= before[j].now + 5000
  {
    assert (before + [i])[..|before|] == before;
    assert forall k :: 0 <= k < |before| ==> before[k] == (before + [i])[k];
    InvRun(c, before);
    if i.UsbIn? {
      UsbTuning(c, Run(c, before), i);
    } else {
      TickKeepsLock(c, Run(c, before), i.now, i.efuse);
      if j < |before| && IsPairingTraffic(c, before[j]) {
        LockHolds(c, before, j);
      }
    }
  }
}
