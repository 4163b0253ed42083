// What a virtual joystick shows at any moment, read off the calls made to SDL: the latest input, relative to the first
// one, through dead zone, gain, layout and swaps.

module InjectorDisplay {
  import opened Bytes
  import opened Gip
  import opened EventLines
  import opened Agreement
  import opened Injector
  import opened InjectorRuns

  // ---------------------------------------------------------------- the last word on a control

  datatype Control = Axis(n: nat) | Button(n: nat) | DPad

  /** The value a call gives to a control of device `id`, if it does. */
  ghost function SetsTo(x: Call, id: int, what: Control): Option<int> {
    match x
    case SetAxis(i, n, v) => if i == id && what == Axis(n) then Some(v) else None
    case SetButton(i, n, down) => if i == id && what == Button(n) then Some(if down then 1 else 0) else None
    case SetHat(i, v) => if i == id && what == DPad then Some(v) else None
    case _ => None
  }

  ghost function LastSet(calls: seq<Call>, id: int, what: Control): Option<int> {
    if calls == [] then None
    else
      var last := SetsTo(calls[|calls| - 1], id, what);
      if last.Some? then last else LastSet(calls[..|calls| - 1], id, what)
  }

  lemma {:induction false} LastSetKept(calls: seq<Call>, more: seq<Call>, id: int, what: Control)
    requires forall i :: 0 <= i < |more| ==> SetsTo(more[i], id, what).None?
    ensures LastSet(calls + more, id, what) == LastSet(calls, id, what)
    decreases |more|
  {
    if more == [] {
      assert calls + more == calls;
    } else {
      var n := |more| - 1;
      LastSetKept(calls, more[..n], id, what);
      assert (calls + more)[..|calls| + n] == calls + more[..n];
    }
  }

  lemma LastSetAt(calls: seq<Call>, more: seq<Call>, i: nat, id: int, what: Control)
    requires i < |more| && SetsTo(more[i], id, what).Some?
    requires forall j :: i < j < |more| ==> SetsTo(more[j], id, what).None?
    ensures LastSet(calls + more, id, what) == SetsTo(more[i], id, what)
  {
    var upTo := calls + more[..i + 1];
    assert upTo[|upTo| - 1] == more[i];
    assert calls + more == upTo + more[i + 1..];
    LastSetKept(upTo, more[i + 1..], id, what);
  }

  // ---------------------------------------------------------------- one pad on display

  ghost function Value(c: Settings, p: Pad, what: Control): int {
    match what
    case Axis(n) => if n < 6 then Level(c, p.now, RoleOf(c, n)) else 0
    case Button(n) => if n < 15 && Held(p.buttons, ButtonMask(c, n)) then 1 else 0
    case DPad => SdlHat(p.buttons)
  }

  ghost predicate IsControl(what: Control) { (what.Axis? ==> what.n < 6) && (what.Button? ==> what.n < 17) }

  ghost predicate OnDisplay(c: Settings, calls: seq<Call>, p: Pad) {
    forall what :: IsControl(what) ==> LastSet(calls, p.id, what) == Some(Value(c, p, what))
  }

  ghost function IndexOf(what: Control): nat {
    match what case Axis(n) => n case Button(n) => 6 + n case DPad => 23
  }

  ghost function CallFor(c: Settings, p: Pad, i: nat): Call
    requires i < 25
  {
    if i < 6 then SetAxis(p.id, i, Level(c, p.now, RoleOf(c, i)))
    else if i < 23 then SetButton(p.id, i - 6, i < 21 && Held(p.buttons, ButtonMask(c, i - 6)))
    else if i == 23 then SetHat(p.id, SdlHat(p.buttons))
    else Flush
  }

  lemma ApplyAt(c: Settings, p: Pad, i: nat)
    requires p.active && p.id >= 0 && p.open && i < 25
    ensures |ApplyCalls(c, p)| == 25 && ApplyCalls(c, p)[i] == CallFor(c, p, i)
  {
    AxisCarries(c, p, if i < 6 then i else 0);
    var a, b, d := AxisCalls(c, p), ButtonCalls(c, p, 17), [SetHat(p.id, SdlHat(p.buttons)), Flush];
    assert ApplyCalls(c, p) == a + b + d;
    assert i < 6 ==> (a + b + d)[i] == a[i];
    assert 6 <= i < 23 ==> (a + b + d)[i] == b[i - 6];
    assert i >= 23 ==> (a + b + d)[i] == d[i - 23];
  }

  lemma Applied(c: Settings, calls: seq<Call>, p: Pad)
    requires p.active && p.id >= 0 && p.open
    ensures OnDisplay(c, calls + ApplyCalls(c, p), p)
  {
    var more := ApplyCalls(c, p);
    forall what | IsControl(what) ensures LastSet(calls + more, p.id, what) == Some(Value(c, p, what)) {
      var i := IndexOf(what);
      ApplyAt(c, p, i);
      forall j | i < j < |more| ensures SetsTo(more[j], p.id, what).None? {
        ApplyAt(c, p, j);
      }
      LastSetAt(calls, more, i, p.id, what);
    }
  }

  ghost predicate Leaves(x: Call, id: int) { !((x.SetAxis? || x.SetButton? || x.SetHat?) && x.id == id) }

  lemma DisplayKept(c: Settings, calls: seq<Call>, more: seq<Call>, p: Pad)
    requires OnDisplay(c, calls, p) && forall i :: 0 <= i < |more| ==> Leaves(more[i], p.id)
    ensures OnDisplay(c, calls + more, p)
  {
    forall what | IsControl(what) ensures LastSet(calls + more, p.id, what) == Some(Value(c, p, what)) {
      LastSetKept(calls, more, p.id, what);
    }
  }

  // ---------------------------------------------------------------- all pads on display

  /** No two slots hold the same device, and each device shows its slot's pad. */
  ghost predicate AllShown(c: Settings, j: Injected) {
    && (forall k, m :: 0 <= k < m < 8 && j.pads[k].active && j.pads[m].active ==> j.pads[k].id != j.pads[m].id)
    && forall k :: 0 <= k < 8 && j.pads[k].active ==> OnDisplay(c, j.calls, j.pads[k])
  }

  /** SDL would not hand out the id of a device that is still held. */
  ghost predicate Unused(j: Injected, id: int) { forall k :: 0 <= k < 8 && j.pads[k].active ==> j.pads[k].id != id }

  /** Calls that set nothing. */
  lemma SaysNothing(c: Settings, j: Injected, more: seq<Call>)
    requires AllShown(c, j)
    requires forall i :: 0 <= i < |more| ==> !(more[i].SetAxis? || more[i].SetButton? || more[i].SetHat?)
    ensures AllShown(c, j.(calls := j.calls + more))
  {
    forall k | 0 <= k < 8 && j.pads[k].active ensures OnDisplay(c, j.calls + more, j.pads[k]) {
      DisplayKept(c, j.calls, more, j.pads[k]);
    }
  }

  /** A pad takes its place with all of its state. */
  lemma TakesPlace(c: Settings, j: Injected, k: nat, p: Pad)
    requires AllShown(c, j) && k < 8 && p.active && p.open && p.id >= 0
    requires forall m :: 0 <= m < 8 && m != k && j.pads[m].active ==> j.pads[m].id != p.id
    ensures AllShown(c, j.(pads := j.pads[k := p], calls := j.calls + ApplyCalls(c, p)))
  {
    Applied(c, j.calls, p);
    ApplyOnlyShows(c, p);
    forall m | 0 <= m < 8 && m != k && j.pads[m].active
      ensures OnDisplay(c, j.calls + ApplyCalls(c, p), j.pads[m])
    {
      DisplayKept(c, j.calls, ApplyCalls(c, p), j.pads[m]);
    }
  }

  lemma PlugShows(c: Settings, j: Injected, k: nat, sdl: Sdl)
    requires AllShown(c, j) && PadsOk(j.pads) && k < 8 && Unused(j, sdl.id)
    ensures AllShown(c, Plug(c, j, k, sdl))
  {
    if !j.pads[k].active {
      if !AttachOk(j.api, sdl.id) {
        SaysNothing(c, j, [AttachFailed]);
      } else if !sdl.opens {
        SaysNothing(c, j, [Attach(sdl.id)] + [Open(sdl.id, false)] + [Detach(sdl.id)]);
        assert Plug(c, j, k, sdl).calls == j.calls + ([Attach(sdl.id)] + [Open(sdl.id, false)] + [Detach(sdl.id)]);
      } else {
        var setup := [Attach(sdl.id)] + [Open(sdl.id, true)];
        SaysNothing(c, j, setup);
        TakesPlace(c, j.(calls := j.calls + setup), k, Attached(sdl.id));
        assert j.calls + [Attach(sdl.id)] + [Open(sdl.id, true)] == j.calls + setup;
      }
    }
  }

  lemma UnplugShows(c: Settings, j: Injected, k: nat)
    requires AllShown(c, j) && k < 8
    ensures AllShown(c, Unplug(j, k))
  {
    var p := j.pads[k];
    if p.active {
      var more := (if p.open then [Close(p.id)] else []) + [Detach(p.id)];
      SaysNothing(c, j, more);
      assert Unplug(j, k).calls == j.calls + more;
    }
  }

  lemma TakeShows(c: Settings, j: Injected, k: nat, buttons: int, r: Readings)
    requires AllShown(c, j) && PadsOk(j.pads) && k < 8
    ensures AllShown(c, Take(c, j, k, buttons, r))
  {
    if j.pads[k].active { TakesPlace(c, j, k, Moved(j.pads[k], buttons, r)); }
  }

  lemma ConnectedShows(c: Settings, j: Injected, slot: int, sdl: Sdl)
    requires AllShown(c, j) && PadsOk(j.pads) && Unused(j, sdl.id)
    ensures AllShown(c, OnConnected(c, j, slot, sdl))
  {
    var a := Ready(j, sdl);
    if 0 <= slot < 8 && !a.api.Absent? {
      SaysNothing(c, a, [Lock]);
      PlugShows(c, Say(a, Lock), slot, sdl);
      SaysNothing(c, Plug(c, Say(a, Lock), slot, sdl), [Unlock]);
    }
  }

  lemma DisconnectedShows(c: Settings, j: Injected, slot: int)
    requires AllShown(c, j)
    ensures AllShown(c, OnDisconnected(j, slot))
  {
    if 0 <= slot < 8 {
      SaysNothing(c, j, [Lock]);
      UnplugShows(c, Say(j, Lock), slot);
      SaysNothing(c, Unplug(Say(j, Lock), slot), [Unlock]);
    }
  }

  lemma FeedShows(c: Settings, j: Injected, k: byte, g: GipInput, sdl: Sdl)
    requires AllShown(c, j) && Sound(j) && k < 8 && Unused(j, sdl.id)
    ensures AllShown(c, Injector.Feed(c, j, k, g.buttons, ReadingsOf(g), sdl))
  {
    var a := Ready(j, sdl);
    if !a.api.Absent? {
      var b := if a.pads[k].active then a else OnConnected(c, a, k, sdl);
      ConnectedShows(c, a, k, sdl);
      ConnectedSteps(c, a, k, sdl, k);
      SaysNothing(c, b, [Lock]);
      TakeShows(c, Say(b, Lock), k, g.buttons, ReadingsOf(g));
      SaysNothing(c, Take(c, Say(b, Lock), k, g.buttons, ReadingsOf(g)), [Unlock]);
    }
  }

  lemma EventShows(c: Settings, j: Injected, e: Event, sdl: Sdl)
    requires AllShown(c, j) && Sound(j) && Unused(j, sdl.id)
    ensures AllShown(c, OnEvent(c, j, e, sdl))
  {
    match e {
      case Connected(slot) => ConnectedShows(c, j, slot, sdl);
      case Disconnected(slot) => DisconnectedShows(c, j, slot);
      case Input(slot, g) => if slot < 8 { FeedShows(c, j, slot, g, sdl); }
      case Guide(_, _) =>
      case HidUnavailable =>
    }
  }

  /** Over a whole stream, no id in use is handed out again. */
  ghost predicate FreshIds(c: Settings, es: seq<Event>, sdl: seq<Sdl>)
    requires |sdl| == |es|
  {
    es == [] ||
    var n := |es| - 1;
    FreshIds(c, es[..n], sdl[..n]) && Unused(Joined(c, es[..n], sdl[..n]), sdl[n].id)
  }

  lemma {:induction false} JoinedShows(c: Settings, es: seq<Event>, sdl: seq<Sdl>)
    requires |sdl| == |es| && FreshIds(c, es, sdl)
    ensures AllShown(c, Joined(c, es, sdl))
  {
    if es != [] {
      var n := |es| - 1;
      JoinedShows(c, es[..n], sdl[..n]);
      StaysSound(c, es[..n], sdl[..n]);
      EventShows(c, Joined(c, es[..n], sdl[..n]), es[n], sdl[n]);
    }
  }

  // ---------------------------------------------------------------- in terms of the two inputs

  /** A stick, moved by `d`: nothing in the dead zone, else the gain, cut to 16 bits. */
  ghost function StickValue(c: Settings, d: int): int {
    if -c.deadzone < d < c.deadzone then 0
    else if d * c.gain > 32767 then 32767
    else if d * c.gain < -32768 then -32768
    else d * c.gain
  }

  /** A trigger, moved by `d` of 4095: the same share of 32767, rounded down. */
  ghost predicate TriggerValue(d: nat, v: int) { 4095 * v <= 32767 * d < 4095 * (v + 1) }

  /** What an axis with the given role shows for the input `b` when `a` was the first: up is negative. */
  ghost predicate AxisShows(c: Settings, r: Role, a: GipInput, b: GipInput, v: int) {
    match r
    case LeftX => v == StickValue(c, b.lx - a.lx)
    case LeftY => v == StickValue(c, a.ly - b.ly)
    case RightX => v == StickValue(c, b.rx - a.rx)
    case RightY => v == StickValue(c, a.ry - b.ry)
    case LeftTrigger => TriggerValue(Travel(a.lt, b.lt), v)
    case RightTrigger => TriggerValue(Travel(a.rt, b.rt), v)
  }

  /** Bit of the button word behind each button of the device; the shoulders can be swapped. */
  ghost function WordBit(c: Settings, n: nat): int {
    if n == 0 then 0x10 else if n == 1 then 0x20 else if n == 2 then 0x40 else if n == 3 then 0x80
    else if n == 4 then 0x8 else if n == 5 then 0x1 else if n == 6 then 0x4
    else if n == 7 then 0x4000 else if n == 8 then 0x8000
    else if n == 9 then (if c.swapLr then 0x2000 else 0x1000)
    else if n == 10 then (if c.swapLr then 0x1000 else 0x2000)
    else if n == 11 then 0x100 else if n == 12 then 0x200 else if n == 13 then 0x400 else 0x800
  }

  /** SDL's hat: up 1, right 2, down 4, left 8, each when held alone and no pair cancels. */
  ghost predicate HatShows(hat: int, word: nat) {
    var up, down := word / 0x100 % 2 == 1, word / 0x200 % 2 == 1;
    var left, right := word / 0x400 % 2 == 1, word / 0x800 % 2 == 1;
    var none := (up && down) || (left && right);
    && 0 <= hat < 16
    && (hat % 2 == 1 <==> up && !none) && (hat / 2 % 2 == 1 <==> right && !none)
    && (hat / 4 % 2 == 1 <==> down && !none) && (hat / 8 == 1 <==> left && !none)
  }

  lemma TriggerIs(d: nat)
    requires d <= 4095
    ensures TriggerValue(d, TriggerAxis(d))
  {
  }

  lemma StickIs(c: Settings, d: int)
    ensures StickAxis(c, d) == StickValue(c, d)
  {
  }

  lemma LevelShows(c: Settings, p: Pad, r: Role, a: GipInput, b: GipInput)
    requires Between(p.now, a, b)
    ensures AxisShows(c, r, a, b, Level(c, p.now, r))
  {
    match r {
      case LeftX => StickIs(c, b.lx - a.lx);
      case LeftY => StickIs(c, a.ly - b.ly);
      case RightX => StickIs(c, b.rx - a.rx);
      case RightY => StickIs(c, a.ry - b.ry);
      case LeftTrigger => TriggerIs(Travel(a.lt, b.lt));
      case RightTrigger => TriggerIs(Travel(a.rt, b.rt));
    }
  }

  lemma MaskIs(c: Settings, n: nat)
    requires n < 15
    ensures ButtonMask(c, n) == WordBit(c, n)
  {
  }

  lemma SdlHatShows(word: nat)
    ensures HatShows(SdlHat(word), word)
  {
  }

  /** All a device shows: six axes, seventeen buttons and a hat. */
  ghost predicate DeviceIs(c: Settings, calls: seq<Call>, id: int, a: GipInput, b: GipInput) {
    && (forall n :: 0 <= n < 6 ==>
          LastSet(calls, id, Axis(n)).Some? && AxisShows(c, RoleOf(c, n), a, b, LastSet(calls, id, Axis(n)).value))
    && (forall n :: 0 <= n < 17 ==>
          LastSet(calls, id, Button(n)) == Some(if n < 15 && b.buttons / WordBit(c, n) % 2 == 1 then 1 else 0))
    && LastSet(calls, id, DPad).Some? && HatShows(LastSet(calls, id, DPad).value, b.buttons)
  }

  lemma DisplayIs(c: Settings, calls: seq<Call>, p: Pad, a: GipInput, b: GipInput)
    requires OnDisplay(c, calls, p) && Between(p.now, a, b) && p.buttons == b.buttons
    ensures DeviceIs(c, calls, p.id, a, b)
  {
    forall n | 0 <= n < 6
      ensures LastSet(calls, p.id, Axis(n)).Some?
      ensures AxisShows(c, RoleOf(c, n), a, b, LastSet(calls, p.id, Axis(n)).value)
    {
      assert IsControl(Axis(n));
      LevelShows(c, p, RoleOf(c, n), a, b);
    }
    forall n | 0 <= n < 17
      ensures LastSet(calls, p.id, Button(n)) == Some(if n < 15 && b.buttons / WordBit(c, n) % 2 == 1 then 1 else 0)
    {
      assert IsControl(Button(n));
      if n < 15 { MaskIs(c, n); }
    }
    assert IsControl(DPad);
    SdlHatShows(b.buttons);
  }

  /** As long as SDL hands out fresh ids: at every moment the device of a slot shows the latest input of its controller
      relative to the first since the device appeared, and the latest input's own buttons and pad. */
  lemma DeviceShows(c: Settings, es: seq<Event>, sdl: seq<Sdl>, k: byte, from: nat, first: nat, last: nat)
    requires k < 8 && |sdl| == |es| && DeviceSince(c, es, sdl, k, from) && FreshIds(c, es, sdl)
    requires from <= first <= last < |es| && IsInput(es[first], k) && NoInputs(es, from, first, k)
    requires IsInput(es[last], k) && NoInputs(es, last + 1, |es|, k)
    ensures var j := Joined(c, es, sdl); DeviceIs(c, j.calls, j.pads[k].id, es[first].state, es[last].state)
  {
    Calibration(c, es, sdl, k, from, first, last);
    JoinedShows(c, es, sdl);
    var j := Joined(c, es, sdl);
    DisplayIs(c, j.calls, j.pads[k], es[first].state, es[last].state);
  }

  /** With the same first input, the stick further to the right never shows further to the left. */
  lemma FurtherRight(c: Settings, r: Role, a: GipInput, b: GipInput, b': GipInput, v: int, v': int)
    requires (r == LeftX && b.lx <= b'.lx) || (r == RightX && b.rx <= b'.rx)
    requires AxisShows(c, r, a, b, v) && AxisShows(c, r, a, b', v')
    ensures v <= v'
  {
    var d, d' := if r == LeftX then b.lx - a.lx else b.rx - a.rx, if r == LeftX then b'.lx - a.lx else b'.rx - a.rx;
    StickIs(c, d);
    StickIs(c, d');
    StickMonotone(c, d, d');
  }

  // ---------------------------------------------------------------- when a device appears

  /** A connect gives an empty slot a device exactly when SDL is there, returns a usable id - positive for SDL 3, not
      negative for SDL 2 - and opens it. */
  lemma AttachesExactly(c: Settings, j: Injected, k: byte, sdl: Sdl)
    requires Sound(j) && k < 8 && !j.pads[k].active
    ensures var api := if j.api.Absent? then sdl.found else j.api;
            OnConnected(c, j, k, sdl).pads[k].active <==>
            (api.Sdl2? && sdl.id >= 0 && sdl.opens) || (api.Sdl3? && sdl.id > 0 && sdl.opens)
  {
    assert Say(Ready(j, sdl), Lock).pads[k] == j.pads[k];
  }

  /** An input line without a slot number or without buttons changes nothing; a missing axis reads as zero. */
  lemma NeedsSlotAndButtons(c: Settings, j: Injected, fs: seq<Field>, sdl: Sdl)
    requires fs != [] && AllWellFormed(fs) && (Lacks(fs, "slot") || Lacks(fs, "buttons"))
    ensures Injector.OnInput(c, j, Line(fs), sdl) == j
  {
    if Lacks(fs, "slot") { MissingIsZero(fs, "slot"); } else { MissingIsZero(fs, "buttons"); }
  }
}
