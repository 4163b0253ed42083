// The two-second wake-ups: when the channel moves and where to, what becomes of the beacon, and how long pairing
// traffic holds the channel. The converse of DaemonRadio's limits: when something may happen, it does.

module DaemonWakeups {
  import opened Bytes
  import opened DaemonModel
  import opened DaemonInputs
  import opened DaemonInvariants
  import opened DaemonRuns
  import opened DaemonRadio
  import opened DaemonEffects

  // ---------------------------------------------------------------- one wake-up

  ghost predicate Idle(s: State) { forall k :: 0 <= k < 8 ==> !s.slots[k].active }

  /** The scan runs: nobody is connected, the channel is not forced and not locked. */
  ghost predicate Scans(c: Config, s: State, now: nat) { Idle(s) && c.forcedChannel == 0 && now >= s.radio.lockUntil }

  ghost predicate Hops(s: State, now: nat) { Elapsed(now, s.radio.lastSwitch) > 2000 }

  /** With nobody connected the beacon comes on; otherwise only multi-pair mode touches it. */
  ghost predicate WakeBeacon(c: Config, s: State) {
    if Idle(s) then true else if c.multiPair then ActiveSlots(s.slots) < 8 else s.radio.beaconOn
  }

  lemma WakeIs(c: Config, s: State, now: nat, efuse: Option<Mac>)
    ensures var t := SetBeacon(c, s, WakeBeacon(c, s));
            OnTick(c, s, now, efuse) == if Scans(c, s, now) then Scan(t, now, efuse) else t
  {
    BeaconIs(c, s, WakeBeacon(c, s));
  }

  /** The scan's own MAC: the Xbox prefix and the last three bytes of the first EFUSE read that works. */
  ghost function ScanMac(s: State, efuse: Option<Mac>): Option<Mac> {
    if s.radio.scanMac.Some? then s.radio.scanMac
    else if efuse.Some? then Some([0x62, 0x45, 0xbd] + efuse.value[3..])
    else None
  }

  /** Channel number `n` of the cycle: 36, 40, 44, 48. */
  ghost function CycleChannel(n: nat): byte { 36 + 4 * (n % 4) }

  ghost function LearnOut(s: State): seq<Output> {
    if s.radio.scanMac.Some? then [] else [RegWrite(EFUSE_CTRL, EfuseKick(ReadReg(s, EFUSE_CTRL)))]
  }

  lemma LearnIs(s: State, efuse: Option<Mac>)
    ensures var t := LearnMac(s, efuse);
            Emits(s, t, LearnOut(s)) && t.radio == s.radio.(scanMac := ScanMac(s, efuse))
  {
    if efuse.Some? {
      var m := efuse.value;
      assert [0x62, 0x45, 0xbd, m[3], m[4], m[5]] == [0x62, 0x45, 0xbd] + m[3..];
    }
  }

  /** The beacon on the new channel, when the scan knows its MAC. */
  ghost function HopBeacon(s: State, ch: byte): seq<Output> {
    if s.radio.scanMac.None? then []
    else [Beacon(s.radio.scanMac.value, ch)]
         + [RegWrite(BEACON_TIME_CFG, WithBeaconBits(ReadReg(s, BEACON_TIME_CFG)))]
  }

  ghost function HopOut(s: State, now: nat, ch: byte): seq<Output> { [Retune(now, ch)] + HopBeacon(s, ch) }

  lemma HopIs(s: State, now: nat)
    ensures var t := SwitchChannel(s, now);
            && Emits(s, t, HopOut(s, now, ScanChannel(NextIndex(s))))
            && t.radio == s.radio.(scanIndex := NextIndex(s), lastSwitch := now)
  {
    var r, ch := Retuned(s, now, NextIndex(s)), ScanChannel(NextIndex(s));
    if s.radio.scanMac.Some? {
      assert AnnounceChannel(r, ch) == WriteBeacon(r, s.radio.scanMac.value, ch);
    }
  }

  lemma HopBeaconView(s: State, ch: byte, v: View)
    requires v != Registers
    ensures Only(HopBeacon(s, ch), v) ==
            if v == Beacons && s.radio.scanMac.Some? then [Beacon(s.radio.scanMac.value, ch)] else []
  {
    if s.radio.scanMac.Some? {
      WrittenView(Beacon(s.radio.scanMac.value, ch),
                  RegWrite(BEACON_TIME_CFG, WithBeaconBits(ReadReg(s, BEACON_TIME_CFG))), v);
    }
  }

  lemma HopView(s: State, now: nat, ch: byte, v: View)
    requires v != Registers
    ensures Only(HopOut(s, now, ch), v) == if v == Switches then [Retune(now, ch)] else Only(HopBeacon(s, ch), v)
  {
    var r := [Retune(now, ch)];
    OnlyPlus(r, HopBeacon(s, ch), v);
    OnlyUniform(r, Switches, v);
    HopBeaconView(s, ch, v);
    Beside(Only(r, v), Only(HopBeacon(s, ch), v));
  }

  /** What the scan sends besides register writes. */
  ghost function ScanDue(s: State, now: nat, efuse: Option<Mac>, v: View): seq<Output> {
    var ch := CycleChannel(s.radio.scanIndex + 1);
    if !Hops(s, now) then []
    else if v == Switches then [Retune(now, ch)]
    else if v == Beacons && ScanMac(s, efuse).Some? then [Beacon(ScanMac(s, efuse).value, ch)]
    else []
  }

  lemma ChannelsAgree(s: State)
    ensures ScanChannel(NextIndex(s)) == CycleChannel(s.radio.scanIndex + 1)
  {
  }

  ghost function ScanOut(s: State, now: nat, efuse: Option<Mac>): seq<Output> {
    if Hops(s, now) then HopOut(LearnMac(s, efuse), now, CycleChannel(s.radio.scanIndex + 1)) else []
  }

  lemma ScanEmits(s: State, now: nat, efuse: Option<Mac>)
    ensures Emits(s, Scan(s, now, efuse), LearnOut(s) + ScanOut(s, now, efuse))
  {
    var t := LearnMac(s, efuse);
    LearnIs(s, efuse);
    ChannelsAgree(s);
    if Hops(s, now) {
      HopIs(t, now);
      EmitsTrans(s, t, SwitchChannel(t, now), LearnOut(s), ScanOut(s, now, efuse));
    } else {
      Beside(LearnOut(s), []);
    }
  }

  lemma ScanSends(s: State, now: nat, efuse: Option<Mac>, v: View)
    requires v != Registers
    ensures Only(New(s, Scan(s, now, efuse)), v) == ScanDue(s, now, efuse, v)
    ensures s.log <= Scan(s, now, efuse).log
  {
    ScanEmits(s, now, efuse);
    EmitsNew(s, Scan(s, now, efuse), LearnOut(s) + ScanOut(s, now, efuse));
    OnlyPlus(LearnOut(s), ScanOut(s, now, efuse), v);
    OnlyUniform(LearnOut(s), Registers, v);
    ScanView(s, now, efuse, v);
    Beside([], ScanDue(s, now, efuse, v));
  }

  lemma ScanView(s: State, now: nat, efuse: Option<Mac>, v: View)
    requires v != Registers
    ensures Only(ScanOut(s, now, efuse), v) == ScanDue(s, now, efuse, v)
  {
    LearnIs(s, efuse);
    if Hops(s, now) {
      HopView(LearnMac(s, efuse), now, CycleChannel(s.radio.scanIndex + 1), v);
      HopBeaconView(LearnMac(s, efuse), CycleChannel(s.radio.scanIndex + 1), v);
    }
  }

  lemma ScanLeaves(s: State, now: nat, efuse: Option<Mac>)
    ensures var t := Scan(s, now, efuse);
            && t.radio.scanMac == ScanMac(s, efuse)
            && t.radio.scanIndex == (if Hops(s, now) then NextIndex(s) else s.radio.scanIndex)
            && t.radio.lastSwitch == (if Hops(s, now) then now else s.radio.lastSwitch)
            && t.radio.channel == CycleChannel(t.radio.scanIndex)
            && t.radio.beaconOn == s.radio.beaconOn && t.radio.lockUntil == s.radio.lockUntil
  {
    LearnIs(s, efuse);
    HopIs(LearnMac(s, efuse), now);
  }

  /** What a wake-up sends besides register writes: the pairing beacon when its flag changes, then the scan's part. */
  ghost function WakeDue(c: Config, s: State, now: nat, efuse: Option<Mac>, v: View): seq<Output> {
    (if v == Beacons && s.radio.beaconOn != WakeBeacon(c, s) then [Beacon(c.ourMac, s.radio.channel)] else [])
    + (if Scans(c, s, now) then ScanDue(s, now, efuse, v) else [])
  }

  lemma WakeSends(c: Config, s: State, now: nat, efuse: Option<Mac>, v: View)
    requires v != Registers
    ensures Only(New(s, OnTick(c, s, now, efuse)), v) == WakeDue(c, s, now, efuse, v)
    ensures s.log <= OnTick(c, s, now, efuse).log
  {
    var t, on := SetBeacon(c, s, WakeBeacon(c, s)), WakeBeacon(c, s);
    WakeIs(c, s, now, efuse);
    BeaconIs(c, s, on);
    BeaconView(c, s, on, v);
    if Scans(c, s, now) {
      ScanSends(t, now, efuse, v);
      TwoParts(s, t, Scan(t, now, efuse), v);
      SameScan(s, t, now, efuse, v);
    } else {
      EmitsNew(s, t, BeaconOut(c, s, on));
      Beside(Only(BeaconOut(c, s, on), v), []);
    }
  }

  lemma SameScan(s: State, t: State, now: nat, efuse: Option<Mac>, v: View)
    requires t.radio == s.radio.(beaconOn := t.radio.beaconOn)
    ensures ScanDue(s, now, efuse, v) == ScanDue(t, now, efuse, v)
  {
  }

  lemma TwoParts(s: State, t: State, u: State, v: View)
    requires s.log <= t.log <= u.log
    ensures s.log <= u.log && Only(New(s, u), v) == Only(New(s, t), v) + Only(New(t, u), v)
  {
    assert New(s, u) == New(s, t) + New(t, u);
    OnlyPlus(New(s, t), New(t, u), v);
  }

  /** The radio after a wake-up, field by field. */
  lemma WakeLeaves(c: Config, s: State, now: nat, efuse: Option<Mac>)
    ensures var t, hop := OnTick(c, s, now, efuse), Scans(c, s, now) && Hops(s, now);
            && t.radio.beaconOn == WakeBeacon(c, s) && t.radio.lockUntil == s.radio.lockUntil
            && t.radio.scanIndex == (if hop then (s.radio.scanIndex + 1) % 4 else s.radio.scanIndex)
            && t.radio.lastSwitch == (if hop then now else s.radio.lastSwitch)
            && t.radio.channel == (if Scans(c, s, now) then CycleChannel(t.radio.scanIndex) else s.radio.channel)
            && t.radio.scanMac == (if Scans(c, s, now) then ScanMac(s, efuse) else s.radio.scanMac)
  {
    var t := SetBeacon(c, s, WakeBeacon(c, s));
    WakeIs(c, s, now, efuse);
    BeaconIs(c, s, WakeBeacon(c, s));
    ScanLeaves(t, now, efuse);
  }

  /** The beacon after any input, and when it is written: exactly when the flag changes, and with every hop of a scan
      that knows its MAC, on the channel hopped to. */
  lemma BeaconOfStep(c: Config, s: State, i: Stimulus)
    requires Inv(s)
    ensures var t := Step(c, s, i);
            match i
            case UsbIn(_, _) =>
              && t.radio.beaconOn == BeaconDue(c, s, MeaningOf(c, i))
              && Only(New(s, t), Beacons) == BeaconsDue(c, s, MeaningOf(c, i))
            case Tick(now, efuse) =>
              && t.radio.beaconOn == WakeBeacon(c, s) && Only(New(s, t), Beacons) == WakeDue(c, s, now, efuse, Beacons)
  {
    match i {
      case UsbIn(_, _) =>
        TransferLeaves(c, s, i);
        TransferEmits(c, s, i, Beacons);
      case Tick(now, efuse) =>
        WakeLeaves(c, s, now, efuse);
        WakeSends(c, s, now, efuse, Beacons);
    }
  }

  // ---------------------------------------------------------------- over runs

  /** The time of the latest pairing traffic. */
  ghost function LatestPairing(c: Config, inputs: seq<Stimulus>): Option<nat> {
    if inputs == [] then None
    else if IsPairingTraffic(c, inputs[|inputs| - 1]) then Some(inputs[|inputs| - 1].now)
    else LatestPairing(c, inputs[..|inputs| - 1])
  }

  lemma {:induction false} LatestIs(c: Config, inputs: seq<Stimulus>)
    requires Timed(inputs)
    ensures var latest := LatestPairing(c, inputs);
            && (forall j :: 0 <= j < |inputs| && IsPairingTraffic(c, inputs[j]) ==>
                  latest.Some? && inputs[j].now <= latest.value)
            && (latest.Some? ==>
                  exists j :: 0 <= j < |inputs| && IsPairingTraffic(c, inputs[j]) && inputs[j].now == latest.value)
  {
    if inputs != [] {
      var before := inputs[..|inputs| - 1];
      LatestIs(c, before);
      if !IsPairingTraffic(c, inputs[|inputs| - 1]) && LatestPairing(c, before).Some? {
        var j :| 0 <= j < |before| && IsPairingTraffic(c, before[j]) && before[j].now == LatestPairing(c, before).value;
        assert inputs[j] == before[j];
      }
      forall j | 0 <= j < |inputs| && IsPairingTraffic(c, inputs[j])
        ensures LatestPairing(c, inputs).Some? && inputs[j].now <= LatestPairing(c, inputs).value
      {
        assert j < |before| ==> before[j] == inputs[j];
      }
    }
  }

  /** The lock is exactly five seconds from the latest pairing traffic, and none before the first. */
  lemma {:induction false} LockIsLatest(c: Config, inputs: seq<Stimulus>)
    ensures Run(c, inputs).radio.lockUntil ==
            match LatestPairing(c, inputs) case Some(at) => at + 5000 case None => 0
  {
    if inputs != [] {
      var before, last := inputs[..|inputs| - 1], inputs[|inputs| - 1];
      LockIsLatest(c, before);
      InvRun(c, before);
      if last.UsbIn? {
        TransferLeaves(c, Run(c, before), last);
      } else {
        WakeLeaves(c, Run(c, before), last.now, last.efuse);
      }
    }
  }

  /** No pairing traffic of the run is younger than five seconds. */
  ghost predicate Unlocked(c: Config, before: seq<Stimulus>, now: nat) {
    forall j :: 0 <= j < |before| && IsPairingTraffic(c, before[j]) ==> now >= before[j].now + 5000
  }

  lemma UnlockedIs(c: Config, before: seq<Stimulus>, now: nat)
    requires Timed(before)
    ensures Unlocked(c, before, now) <==> now >= Run(c, before).radio.lockUntil
  {
    LatestIs(c, before);
    LockIsLatest(c, before);
  }

  ghost function LastHop(log: seq<Output>): nat {
    var r := Retunes(log);
    if r == [] || !r[|r| - 1].Retune? then 0 else r[|r| - 1].now
  }

  /** When the radio hops at a wake-up: nobody connected, nothing forced, no pairing traffic in the last 5000 ms and
      more than 2000 ms since the last hop, or since 0 before the first. */
  ghost predicate HopDue(c: Config, before: seq<Stimulus>, now: nat) {
    && c.forcedChannel == 0 && Idle(Run(c, before)) && Unlocked(c, before, now)
    && now > LastHop(Run(c, before).log) + 2000
  }

  lemma {:induction false} RetunesAre(log: seq<Output>)
    ensures Retunes(log) == Only(log, Switches)
  {
    if log != [] { RetunesAre(log[..|log| - 1]); }
  }

  lemma RetunesExtend(s: State, t: State)
    requires s.log <= t.log
    ensures Retunes(t.log) == Retunes(s.log) + Only(New(s, t), Switches)
  {
    assert t.log == s.log + New(s, t);
    OnlyPlus(s.log, New(s, t), Switches);
    RetunesAre(s.log);
    RetunesAre(t.log);
  }

  lemma TimedBefore(before: seq<Stimulus>, i: Stimulus)
    requires Timed(before + [i])
    ensures Timed(before) && Clock(before) <= i.now < 0x1_0000_0000_0000_0000 && (before + [i])[..|before|] == before
  {
    var all := before + [i];
    assert forall j :: 0 <= j < |before| ==> before[j] == all[j];
    assert all[|before|] == i;
  }

  lemma HopDueIs(c: Config, before: seq<Stimulus>, now: nat, efuse: Option<Mac>)
    requires ValidConfig(c) && Timed(before + [Tick(now, efuse)])
    ensures var s := Run(c, before);
            && s.radio.scanIndex == |Retunes(s.log)| % 4
            && (Scans(c, s, now) <==> c.forcedChannel == 0 && Idle(s) && Unlocked(c, before, now))
            && (HopDue(c, before, now) <==> Scans(c, s, now) && Hops(s, now))
  {
    ScansIs(c, before, now, efuse);
    HopsIs(c, before, now, efuse);
  }

  lemma ScansIs(c: Config, before: seq<Stimulus>, now: nat, efuse: Option<Mac>)
    requires Timed(before + [Tick(now, efuse)])
    ensures var s := Run(c, before);
            Scans(c, s, now) <==> c.forcedChannel == 0 && Idle(s) && Unlocked(c, before, now)
  {
    TimedBefore(before, Tick(now, efuse));
    UnlockedIs(c, before, now);
  }

  lemma HopsByClock(c: Config, s: State, clock: nat, now: nat)
    requires RadioOk(c, s, clock) && clock <= now < 0x1_0000_0000_0000_0000
    ensures s.radio.scanIndex == |Retunes(s.log)| % 4
    ensures Hops(s, now) <==> now > LastHop(s.log) + 2000
  {
    ElapsedIsDifference(now, s.radio.lastSwitch);
  }

  lemma HopsIs(c: Config, before: seq<Stimulus>, now: nat, efuse: Option<Mac>)
    requires ValidConfig(c) && Timed(before + [Tick(now, efuse)])
    ensures var s := Run(c, before);
            && s.radio.scanIndex == |Retunes(s.log)| % 4
            && (Hops(s, now) <==> now > LastHop(s.log) + 2000)
  {
    TimedBefore(before, Tick(now, efuse));
    RadioRun(c, before);
    HopsByClock(c, Run(c, before), Clock(before), now);
  }

  lemma CycleWraps(n: nat)
    ensures CycleChannel(n % 4) == CycleChannel(n)
  {
  }

  lemma NextInCycle(n: nat)
    ensures CycleChannel(n % 4 + 1) == CycleChannel(n + 1) && CycleChannel(n % 4) == CycleChannel(n)
  {
  }

  lemma RunSnoc(c: Config, before: seq<Stimulus>, i: Stimulus)
    ensures Run(c, before + [i]) == Step(c, Run(c, before), i)
  {
    assert (before + [i])[..|before|] == before;
  }

  lemma WakeSwitches(c: Config, s: State, now: nat, efuse: Option<Mac>)
    ensures s.log <= OnTick(c, s, now, efuse).log
    ensures Only(New(s, OnTick(c, s, now, efuse)), Switches) ==
            if Scans(c, s, now) && Hops(s, now) then [Retune(now, CycleChannel(s.radio.scanIndex + 1))] else []
  {
    WakeSends(c, s, now, efuse, Switches);
    Beside([], if Scans(c, s, now) then ScanDue(s, now, efuse, Switches) else []);
  }

  lemma WakeRetunes(c: Config, s: State, now: nat, efuse: Option<Mac>)
    ensures Retunes(OnTick(c, s, now, efuse).log) ==
            Retunes(s.log)
            + if Scans(c, s, now) && Hops(s, now) then [Retune(now, CycleChannel(s.radio.scanIndex + 1))] else []
  {
    WakeSwitches(c, s, now, efuse);
    RetunesExtend(s, OnTick(c, s, now, efuse));
  }

  lemma WakeChannel(c: Config, s: State, now: nat, efuse: Option<Mac>)
    ensures OnTick(c, s, now, efuse).radio.channel ==
            if !Scans(c, s, now) then s.radio.channel
            else CycleChannel(if Hops(s, now) then s.radio.scanIndex + 1 else s.radio.scanIndex)
  {
    WakeLeaves(c, s, now, efuse);
    CycleWraps(s.radio.scanIndex + 1);
  }

  /** The same for `n` switches so far, with the two conditions given. */
  lemma WakeHops(c: Config, s: State, now: nat, efuse: Option<Mac>, n: nat, free: bool, due: bool)
    requires s.radio.scanIndex == n % 4 && free == Scans(c, s, now) && due == (Scans(c, s, now) && Hops(s, now))
    ensures var t := OnTick(c, s, now, efuse);
            && Retunes(t.log) == Retunes(s.log) + (if due then [Retune(now, CycleChannel(n + 1))] else [])
            && t.radio.channel == if free then CycleChannel(if due then n + 1 else n) else s.radio.channel
  {
    WakeRetunes(c, s, now, efuse);
    WakeChannel(c, s, now, efuse);
    NextInCycle(n);
  }

  /** At a wake-up the hardware is retuned if and only if a hop is due, and then to the next channel of the cycle; the
      daemon's channel follows the last hop, or is 36 before the first, as soon as the scan may run. */
  lemma HopsWhenDue(c: Config, before: seq<Stimulus>, now: nat, efuse: Option<Mac>)
    requires ValidConfig(c) && Timed(before + [Tick(now, efuse)])
    ensures var s, t := Run(c, before), Run(c, before + [Tick(now, efuse)]);
            var n := |Retunes(s.log)|;
            && Retunes(t.log) ==
               Retunes(s.log) + (if HopDue(c, before, now) then [Retune(now, CycleChannel(n + 1))] else [])
            && t.radio.channel ==
               if c.forcedChannel == 0 && Idle(s) && Unlocked(c, before, now) then
                 CycleChannel(if HopDue(c, before, now) then n + 1 else n)
               else s.radio.channel
  {
    var s := Run(c, before);
    RunSnoc(c, before, Tick(now, efuse));
    HopDueIs(c, before, now, efuse);
    WakeHops(c, s, now, efuse, |Retunes(s.log)|, c.forcedChannel == 0 && Idle(s) && Unlocked(c, before, now),
             HopDue(c, before, now));
  }

  // ---------------------------------------------------------------- the two control registers

  /** Writing a beacon sets bits 16 to 20 of the beacon timer and leaves the others. */
  lemma BeaconBits(v: u32)
    ensures var w := WithBeaconBits(v);
            w / 0x1_0000 % 32 == 31 && w % 0x1_0000 == v % 0x1_0000 && w / 0x20_0000 == v / 0x20_0000
  {
    var low, upper := v % 0x1_0000, v / 0x1_0000;
    var mid, high := upper % 32, upper / 32;
    assert v == low + 0x1_0000 * upper && upper == mid + 32 * high && v / 0x20_0000 == high;
    SetFive(low, high);
  }

  lemma SetFive(low: nat, high: nat)
    requires low < 0x1_0000
    ensures var w := low + 0x1_0000 * (31 + 32 * high);
            w / 0x1_0000 == 31 + 32 * high && w / 0x1_0000 % 32 == 31 && w % 0x1_0000 == low && w / 0x20_0000 == high
  {
    var upper := 31 + 32 * high;
    var w := low + 0x1_0000 * upper;
    assert w / 0x1_0000 == upper && w / 0x20_0000 == upper / 32;
  }

  lemma KickParts(v: u32)
    ensures var low, page, high := v % 64, v / 256 % 256, v / 0x400_0000 % 16;
            EfuseKick(v) == low + 256 * (page + 256 * (1024 * (high + 16 * (1 + 2 * (v / 0x8000_0000)))))
  {
    var a := v / 64;
    var b := a / 4;
    var d := b / 256;
    var e := d / 1024;
    var f := e / 16;
    assert v / 256 == b && v / 0x1_0000 == d && v / 0x400_0000 == e && v / 0x4000_0000 == f && v / 0x8000_0000 == f / 2;
    assert v == v % 64 + 64 * a && a == a % 4 + 4 * b && b == b % 256 + 256 * d && d == d % 1024 + 1024 * e;
    assert e == e % 16 + 16 * f && f == f % 2 + 2 * (f / 2);
  }

  lemma PartsBack(low: nat, page: nat, high: nat, top: nat)
    requires low < 64 && page < 256 && high < 16
    ensures var e := high + 16 * (1 + 2 * top);
            var k := low + 256 * (page + 256 * (1024 * e));
            && k % 64 == low && k / 64 % 4 == 0 && k / 256 % 256 == page && k / 0x1_0000 % 1024 == 0
            && k / 0x400_0000 % 16 == high && k / 0x4000_0000 % 2 == 1 && k / 0x8000_0000 == top
  {
    var f := 1 + 2 * top;
    var e := high + 16 * f;
    var d := 1024 * e;
    var b := page + 256 * d;
    var k := low + 256 * b;
    assert k / 64 == 4 * b && k / 256 == b;
    assert k / 0x1_0000 == b / 256 == d && k / 0x400_0000 == d / 1024 == e && k / 0x4000_0000 == e / 16 == f;
    assert k / 0x8000_0000 == f / 2 == top;
  }

  /** An EFUSE read sets the kick bit 30, clears the address in bits 16 to 25 and the mode in bits 6 and 7, and leaves
      the other bits. */
  lemma KickBits(v: u32)
    ensures var k := EfuseKick(v);
            && k / 0x4000_0000 % 2 == 1 && k / 0x1_0000 % 1024 == 0 && k / 64 % 4 == 0
            && k % 64 == v % 64 && k / 256 % 256 == v / 256 % 256
            && k / 0x400_0000 % 16 == v / 0x400_0000 % 16 && k / 0x8000_0000 == v / 0x8000_0000
  {
    KickParts(v);
    PartsBack(v % 64, v / 256 % 256, v / 0x400_0000 % 16, v / 0x8000_0000);
  }

  // ---------------------------------------------------------------- from power-on

  /** Some wake-up of the run found the scan free to run. */
  ghost predicate Scanned(c: Config, inputs: seq<Stimulus>) {
    inputs != [] &&
    var before, last := inputs[..|inputs| - 1], inputs[|inputs| - 1];
    Scanned(c, before) || (last.Tick? && Scans(c, Run(c, before), last.now))
  }

  /** A wake-up that scans leaves the daemon on the channel of its hops; nothing else moves it. */
  lemma ScanMove(c: Config, s: State, clock: nat, now: nat, efuse: Option<Mac>)
    requires RadioOk(c, s, clock) && Scans(c, s, now)
    ensures var t := OnTick(c, s, now, efuse); t.radio.channel == CycleChannel(|Retunes(t.log)|)
  {
    var n, due := |Retunes(s.log)|, Scans(c, s, now) && Hops(s, now);
    WakeHops(c, s, now, efuse, n, true, due);
    LengthAfter(Retunes(s.log), Retune(now, CycleChannel(n + 1)), due);
  }

  lemma LengthAfter(r: seq<Output>, o: Output, due: bool)
    ensures |r + if due then [o] else []| == if due then |r| + 1 else |r|
  {
  }

  lemma NoMove(c: Config, s: State, i: Stimulus)
    requires Inv(s) && !(i.Tick? && Scans(c, s, i.now))
    ensures Step(c, s, i).radio.channel == s.radio.channel && Retunes(Step(c, s, i).log) == Retunes(s.log)
  {
    if i.UsbIn? {
      UsbTuning(c, s, i);
    } else {
      WakeRetunes(c, s, i.now, i.efuse);
      WakeChannel(c, s, i.now, i.efuse);
    }
  }

  lemma {:induction false} NeverScanned(c: Config, inputs: seq<Stimulus>)
    requires !Scanned(c, inputs)
    ensures Retunes(Run(c, inputs).log) == []
    ensures Run(c, inputs).radio.channel == if c.forcedChannel != 0 then c.forcedChannel else 44
  {
    if inputs != [] {
      var before, last := inputs[..|inputs| - 1], inputs[|inputs| - 1];
      NeverScanned(c, before);
      InvRun(c, before);
      NoMove(c, Run(c, before), last);
    }
  }

  /** The channel at any moment: the forced one; 44 until a scan runs; then 36, and one further for each hop. */
  lemma {:induction false} ChannelHistory(c: Config, inputs: seq<Stimulus>)
    requires ValidConfig(c) && Timed(inputs)
    ensures Run(c, inputs).radio.channel ==
            if c.forcedChannel != 0 then c.forcedChannel
            else if Scanned(c, inputs) then CycleChannel(|Retunes(Run(c, inputs).log)|)
            else 44
  {
    if !Scanned(c, inputs) {
      NeverScanned(c, inputs);
    } else {
      var before, last := inputs[..|inputs| - 1], inputs[|inputs| - 1];
      assert inputs == before + [last];
      TimedBefore(before, last);
      ChannelHistory(c, before);
      InvRun(c, before);
      if last.Tick? && Scans(c, Run(c, before), last.now) {
        RadioRun(c, before);
        ScanMove(c, Run(c, before), Clock(before), last.now, last.efuse);
      } else {
        NoMove(c, Run(c, before), last);
      }
    }
  }

  /** The inputs that turn the beacon off. */
  ghost predicate TurnsOff(c: Config, s: State, i: Stimulus) {
    s.radio.beaconOn && if i.Tick? then !WakeBeacon(c, s) else !BeaconDue(c, s, MeaningOf(c, i))
  }

  ghost predicate NeverOff(c: Config, inputs: seq<Stimulus>) {
    inputs == [] ||
    var before := inputs[..|inputs| - 1];
    NeverOff(c, before) && !TurnsOff(c, Run(c, before), inputs[|inputs| - 1])
  }

  /** The beacon is on from power-on until an input turns it off. */
  lemma {:induction false} BeaconFromPowerOn(c: Config, inputs: seq<Stimulus>)
    requires NeverOff(c, inputs)
    ensures Run(c, inputs).radio.beaconOn
  {
    if inputs != [] {
      var before, last := inputs[..|inputs| - 1], inputs[|inputs| - 1];
      BeaconFromPowerOn(c, before);
      InvRun(c, before);
      StaysOn(c, Run(c, before), last);
    }
  }

  lemma StaysOn(c: Config, s: State, i: Stimulus)
    requires Inv(s) && s.radio.beaconOn && !TurnsOff(c, s, i)
    ensures Step(c, s, i).radio.beaconOn
  {
    BeaconOfStep(c, s, i);
  }
}
