// ryujinx_sdl_inject.c: the reader that keeps one virtual SDL joystick per connected controller. SDL itself is a
// list of answers coming in and a trace of calls going out; taking and releasing the mutex is part of the trace.

module Injector {
  import opened Bytes
  import opened Gip
  import opened Text
  import opened EventLines

  /** The environment variables, within the limits the program accepts. */
  datatype Options = Options(gain: int, deadzone: int, swapLr: bool, swapSticks: bool, xoneLayout: bool)

  type Settings = o: Options | 0 < o.gain <= 64 && 0 <= o.deadzone <= 12000
    witness Options(1, 500, false, false, false)

  datatype Api = Absent | Sdl2 | Sdl3

  /** What SDL would answer while one line is handled: the API found, the id a new device gets, whether it opens. */
  datatype Sdl = Sdl(found: Api, id: int, opens: bool)

  datatype Call =
    | Lock | Unlock
    | Attach(id: int)
    | AttachFailed
    | Open(id: int, ok: bool)
    | Close(id: int)
    | Detach(id: int)
    | SetAxis(id: int, axis: nat, value: i16)
    | SetButton(id: int, button: nat, down: bool)
    | SetHat(id: int, hat: nat)
    | Flush

  datatype Readings = Readings(lt: int, rt: int, lx: int, ly: int, rx: int, ry: int)

  const NO_READINGS := Readings(0, 0, 0, 0, 0, 0)

  /** `slot_state_t`; the joystick handle is null exactly when `open` is false. */
  datatype Pad = Pad(active: bool, id: int, open: bool, calibrated: bool, base: Readings, buttons: int, now: Readings)

  const BLANK_PAD := Pad(false, -1, false, false, NO_READINGS, 0, NO_READINGS)

  /** The program's globals and the calls made so far. */
  datatype Inject = Inject(pads: seq<Pad>, api: Api, calls: seq<Call>)

  type Injected = j: Inject | |j.pads| == 8 witness Inject(Repeat(8, BLANK_PAD), Absent, [])

  const START: Injected := Inject(Repeat(8, BLANK_PAD), Absent, [])

  // ---------------------------------------------------------------- what a pad shows

  /** A bit of a C int, negative ones included. */
  predicate Held(buttons: int, mask: nat)
    requires mask > 0
  {
    buttons / mask % 2 == 1
  }

  function SdlHat(buttons: int): nat {
    var up, down := Held(buttons, BTN_DPAD_UP), Held(buttons, BTN_DPAD_DOWN);
    var left, right := Held(buttons, BTN_DPAD_LEFT), Held(buttons, BTN_DPAD_RIGHT);
    if (up && down) || (left && right) then 0
    else (if up then 1 else if down then 4 else 0) + (if right then 2 else if left then 8 else 0)
  }

  function TriggerAxis(v: int): (r: i16)
    ensures r >= 0
    ensures r == 32767 <==> v >= 4095
    ensures r == 0 <==> v <= 0
  {
    var w := if v < 0 then 0 else if v > 4095 then 4095 else v;
    w * 32767 / 4095
  }

  function StickAxis(c: Settings, v: int): (r: i16) {
    if -c.deadzone < v < c.deadzone then 0
    else
      var x := v * c.gain;
      if x > 32767 then 32767 else if x < -32768 then -32768 else x
  }

  lemma TriggerMonotone(v: int, w: int)
    requires 0 <= v < w <= 4095
    ensures TriggerAxis(v) < TriggerAxis(w)
  {
    assert w * 32767 >= v * 32767 + 4095;
  }

  lemma Ordered(v: int, w: int, g: int)
    requires v <= w && 0 < g
    ensures v * g <= w * g
  {
  }

  lemma KeepsSign(v: int, g: int)
    requires 0 < g
    ensures v * g == 0 <==> v == 0
    ensures v * g > 0 <==> v > 0
  {
    if v > 0 { Ordered(1, v, g); } else if v < 0 { Ordered(v, -1, g); }
  }

  /** Scaling keeps order and sign, and only the dead zone is silent. */
  lemma StickMonotone(c: Settings, v: int, w: int)
    requires v <= w
    ensures StickAxis(c, v) <= StickAxis(c, w)
    ensures StickAxis(c, v) == 0 <==> v == 0 || -c.deadzone < v < c.deadzone
  {
    Ordered(v, w, c.gain);
    KeepsSign(v, c.gain);
    KeepsSign(w, c.gain);
  }

  function AxisCalls(c: Settings, p: Pad): seq<Call> {
    var s := p.now;
    var lx, ly := if c.swapSticks then s.rx else s.lx, if c.swapSticks then s.ry else s.ly;
    var rx, ry := if c.swapSticks then s.lx else s.rx, if c.swapSticks then s.ly else s.ry;
    var left, right := if c.swapLr then s.rt else s.lt, if c.swapLr then s.lt else s.rt;
    var (x0, y0, x1, y1) := (StickAxis(c, lx), StickAxis(c, -ly), StickAxis(c, rx), StickAxis(c, -ry));
    if c.xoneLayout then
      [SetAxis(p.id, 0, x0), SetAxis(p.id, 1, y0), SetAxis(p.id, 2, TriggerAxis(left)),
       SetAxis(p.id, 3, x1), SetAxis(p.id, 4, y1), SetAxis(p.id, 5, TriggerAxis(right))]
    else
      [SetAxis(p.id, 0, x0), SetAxis(p.id, 1, y0), SetAxis(p.id, 2, x1), SetAxis(p.id, 3, y1),
       SetAxis(p.id, 4, TriggerAxis(left)), SetAxis(p.id, 5, TriggerAxis(right))]
  }

  /** The controller button behind each of the device's buttons; the two spare ones are never pressed. */
  function ButtonMask(c: Settings, i: nat): (mask: nat)
    requires i < 15
    ensures mask > 0
  {
    [BTN_A, BTN_B, BTN_X, BTN_Y, BTN_VIEW, BTN_SYNC, BTN_MENU, BTN_LS, BTN_RS,
     if c.swapLr then BTN_RB else BTN_LB, if c.swapLr then BTN_LB else BTN_RB,
     BTN_DPAD_UP, BTN_DPAD_DOWN, BTN_DPAD_LEFT, BTN_DPAD_RIGHT][i]
  }

  function ButtonCalls(c: Settings, p: Pad, n: nat): (calls: seq<Call>)
    requires n <= 17
    ensures |calls| == n
    ensures forall i :: 0 <= i < n ==> calls[i] == SetButton(p.id, i, i < 15 && Held(p.buttons, ButtonMask(c, i)))
  {
    if n == 0 then []
    else ButtonCalls(c, p, n - 1) + [SetButton(p.id, n - 1, n <= 15 && Held(p.buttons, ButtonMask(c, n - 1)))]
  }

  /** `apply_slot_state_locked` */
  function ApplyCalls(c: Settings, p: Pad): seq<Call> {
    if !p.active || p.id < 0 || !p.open then []
    else AxisCalls(c, p) + ButtonCalls(c, p, 17) + [SetHat(p.id, SdlHat(p.buttons)), Flush]
  }

  // ---------------------------------------------------------------- handlers as functions

  function Ready(j: Injected, sdl: Sdl): Injected { if j.api.Absent? then j.(api := sdl.found) else j }

  predicate AttachOk(api: Api, id: int) { if api.Sdl3? then id > 0 else id >= 0 }

  function Attached(id: int): Pad { BLANK_PAD.(active := true, id := id, open := true) }

  /** The body of `on_connected` between taking and releasing the mutex. */
  function Plug(c: Settings, j: Injected, k: nat, sdl: Sdl): Injected
    requires k < 8
  {
    if j.pads[k].active then j
    else if !AttachOk(j.api, sdl.id) then j.(calls := j.calls + [AttachFailed])
    else if !sdl.opens then j.(calls := j.calls + [Attach(sdl.id)] + [Open(sdl.id, false)] + [Detach(sdl.id)])
    else
      var p := Attached(sdl.id);
      j.(pads := j.pads[k := p], calls := j.calls + [Attach(sdl.id)] + [Open(sdl.id, true)] + ApplyCalls(c, p))
  }

  function Say(j: Injected, call: Call): Injected { j.(calls := j.calls + [call]) }

  function OnConnected(c: Settings, j: Injected, slot: int, sdl: Sdl): Injected {
    if !(0 <= slot < 8) then j
    else
      var a := Ready(j, sdl);
      if a.api.Absent? then a else Say(Plug(c, Say(a, Lock), slot, sdl), Unlock)
  }

  function Unplug(j: Injected, k: nat): Injected
    requires k < 8
  {
    var p := j.pads[k];
    if !p.active then j
    else j.(pads := j.pads[k := BLANK_PAD], calls := j.calls + (if p.open then [Close(p.id)] else []) + [Detach(p.id)])
  }

  function OnDisconnected(j: Injected, slot: int): Injected {
    if !(0 <= slot < 8) then j else Say(Unplug(Say(j, Lock), slot), Unlock)
  }

  function Abs(v: int): int { if v < 0 then -v else v }

  function Clamped(v: int): int { if v > 4095 then 4095 else v }

  /** The readings with the neutral offsets taken out. */
  function Offset(r: Readings, base: Readings): Readings {
    Readings(Clamped(Abs(r.lt - base.lt)), Clamped(Abs(r.rt - base.rt)),
             r.lx - base.lx, r.ly - base.ly, r.rx - base.rx, r.ry - base.ry)
  }

  function Moved(p: Pad, buttons: int, r: Readings): Pad {
    var base := if p.calibrated then p.base else r;
    p.(calibrated := true, base := base, buttons := buttons, now := Offset(r, base))
  }

  function Take(c: Settings, j: Injected, k: nat, buttons: int, r: Readings): Injected
    requires k < 8
  {
    if !j.pads[k].active then j
    else
      var p := Moved(j.pads[k], buttons, r);
      j.(pads := j.pads[k := p], calls := j.calls + ApplyCalls(c, p))
  }

  /** The part of `on_input` behind the checks of the slot and the buttons. */
  function Feed(c: Settings, j: Injected, k: nat, buttons: int, r: Readings, sdl: Sdl): Injected
    requires k < 8
  {
    var a := Ready(j, sdl);
    if a.api.Absent? then a
    else
      var b := if a.pads[k].active then a else OnConnected(c, a, k, sdl);
      Say(Take(c, Say(b, Lock), k, buttons, r), Unlock)
  }

  function Scan(line: string): Readings {
    Readings(IntOrZero(line, "lt"), IntOrZero(line, "rt"), IntOrZero(line, "lx"), IntOrZero(line, "ly"),
             IntOrZero(line, "rx"), IntOrZero(line, "ry"))
  }

  function OnInput(c: Settings, j: Injected, line: string, sdl: Sdl): Injected {
    var slot, buttons := GetInt(line, "slot"), GetInt(line, "buttons");
    if slot.None? || !(0 <= slot.value < 8) || buttons.None? then j
    else Feed(c, j, slot.value, buttons.value, Scan(line), sdl)
  }

  /** `handle_line` on any line whatever. */
  function OnLine(c: Settings, j: Injected, line: string, sdl: Sdl): Injected {
    var slot := GetInt(line, "slot");
    if HasType(line, "connected") then (if slot.Some? then OnConnected(c, j, slot.value, sdl) else j)
    else if HasType(line, "disconnected") then (if slot.Some? then OnDisconnected(j, slot.value) else j)
    else if HasType(line, "input") then OnInput(c, j, line, sdl)
    else j
  }

  function OnLines(c: Settings, j: Injected, lines: seq<string>, sdl: seq<Sdl>): Injected
    requires |sdl| == |lines|
  {
    if lines == [] then j
    else
      var n := |lines| - 1;
      OnLine(c, OnLines(c, j, lines[..n], sdl[..n]), lines[n], sdl[n])
  }

  lemma Regroup<T>(a: seq<T>, b: seq<T>, c: seq<T>, d: seq<T>)
    ensures ((a + b) + c) + d == a + (b + c + d)
  {
  }

  // ---------------------------------------------------------------- the program

  class SdlInjector {
    const settings: Settings
    const pads: array<Pad>
    var api: Api
    ghost var calls: seq<Call>
    ghost var locked: bool

    ghost predicate Valid() { pads.Length == 8 }

    ghost function S(): Injected
      reads this, pads
      requires Valid()
    {
      Inject(pads[..], api, calls)
    }

    constructor (settings: Settings)
      ensures Valid() && fresh(pads) && this.settings == settings && S() == START && !locked
    {
      this.settings := settings;
      pads := new Pad[8](_ => BLANK_PAD);
      api := Absent;
      calls := [];
      locked := false;
    }

    /** `pthread_mutex_lock` on the default, non-recursive mutex: taking it twice would never return. */
    method TakeLock()
      requires Valid() && !locked
      modifies this`calls, this`locked
      ensures locked && S() == Say(old(S()), Lock)
    {
      locked, calls := true, calls + [Lock];
    }

    method ReleaseLock()
      requires Valid() && locked
      modifies this`calls, this`locked
      ensures !locked && S() == Say(old(S()), Unlock)
    {
      locked, calls := false, calls + [Unlock];
    }

    method EnsureSdlReady(sdl: Sdl) returns (ready: bool)
      requires Valid()
      modifies this`api
      ensures S() == Ready(old(S()), sdl) && ready == !api.Absent?
    {
      if api.Absent? { api := sdl.found; }
      ready := !api.Absent?;
    }

    method SetAxes(k: nat)
      requires Valid() && locked && k < 8
      modifies this`calls
      ensures S() == old(S()).(calls := old(calls) + AxisCalls(settings, pads[k]))
    {
      var p := pads[k];
      var lx, ly, rx, ry := p.now.lx, p.now.ly, p.now.rx, p.now.ry;
      if settings.swapSticks {
        lx, ly, rx, ry := rx, ry, lx, ly;
      }
      var x0, y0 := StickAxis(settings, lx), StickAxis(settings, -ly);
      var x1, y1 := StickAxis(settings, rx), StickAxis(settings, -ry);
      var left, right := TriggerAxis(p.now.lt), TriggerAxis(p.now.rt);
      if settings.swapLr { left, right := right, left; }
      ghost var before := calls;
      calls := calls + [SetAxis(p.id, 0, x0)];
      calls := calls + [SetAxis(p.id, 1, y0)];
      if settings.xoneLayout {
        calls := calls + [SetAxis(p.id, 2, left)];
        calls := calls + [SetAxis(p.id, 3, x1)];
        calls := calls + [SetAxis(p.id, 4, y1)];
      } else {
        calls := calls + [SetAxis(p.id, 2, x1)];
        calls := calls + [SetAxis(p.id, 3, y1)];
        calls := calls + [SetAxis(p.id, 4, left)];
      }
      calls := calls + [SetAxis(p.id, 5, right)];
      assert calls == before + AxisCalls(settings, p);
    }

    method SetButtons(k: nat)
      requires Valid() && locked && k < 8
      modifies this`calls
      ensures S() == old(S()).(calls := old(calls) + ButtonCalls(settings, pads[k], 17))
    {
      var p := pads[k];
      for i := 0 to 17
        invariant calls == old(calls) + ButtonCalls(settings, p, i)
      {
        calls := calls + [SetButton(p.id, i, i < 15 && Held(p.buttons, ButtonMask(settings, i)))];
      }
    }

    method ApplySlotStateLocked(k: nat)
      requires Valid() && locked && k < 8
      modifies this`calls
      ensures S() == old(S()).(calls := old(calls) + ApplyCalls(settings, pads[k]))
    {
      var p := pads[k];
      if !p.active || p.id < 0 || !p.open { return; }
      SetAxes(k);
      SetButtons(k);
      FlushHat(p.id, SdlHat(p.buttons));
      Regroup(old(calls), AxisCalls(settings, p), ButtonCalls(settings, p, 17),
              [SetHat(p.id, SdlHat(p.buttons)), Flush]);
    }

    method FlushHat(id: int, hat: nat)
      requires locked
      modifies this`calls
      ensures calls == old(calls) + [SetHat(id, hat), Flush]
    {
      calls := calls + [SetHat(id, hat)];
      calls := calls + [Flush];
    }

    method HandleConnected(slot: int, sdl: Sdl)
      requires Valid() && !locked
      modifies this, pads
      ensures Valid() && !locked && S() == OnConnected(settings, old(S()), slot, sdl)
    {
      if slot < 0 || slot >= 8 { return; }
      var ready := EnsureSdlReady(sdl);
      if !ready { return; }
      TakeLock();
      if !pads[slot].active {
        if AttachOk(api, sdl.id) {
          calls := calls + [Attach(sdl.id)];
          calls := calls + [Open(sdl.id, sdl.opens)];
          if !sdl.opens {
            calls := calls + [Detach(sdl.id)];
            ReleaseLock();
            return;
          }
          pads[slot] := pads[slot].(active := true, id := sdl.id, open := true, calibrated := false,
                                    base := NO_READINGS, buttons := 0, now := NO_READINGS);
          ApplySlotStateLocked(slot);
        } else {
          calls := calls + [AttachFailed];
        }
      }
      ReleaseLock();
    }

    method HandleDisconnected(slot: int)
      requires Valid() && !locked
      modifies this, pads
      ensures Valid() && !locked && S() == OnDisconnected(old(S()), slot)
    {
      if slot < 0 || slot >= 8 { return; }
      TakeLock();
      if pads[slot].active {
        if pads[slot].open { calls := calls + [Close(pads[slot].id)]; }
        calls := calls + [Detach(pads[slot].id)];
        pads[slot] := BLANK_PAD;
      }
      ReleaseLock();
    }

    method HandleInput(line: string, sdl: Sdl)
      requires Valid() && !locked
      modifies this, pads
      ensures Valid() && !locked && S() == OnInput(settings, old(S()), line, sdl)
    {
      var ok, slot := JsonGetInt(line, "slot", -1);
      if !ok || slot < 0 || slot >= 8 { return; }
      var found, buttons := JsonGetInt(line, "buttons", 0);
      if !found { return; }
      var ready := EnsureSdlReady(sdl);
      if !ready { return; }
      if !pads[slot].active {
        HandleConnected(slot, sdl);
      }
      var _, lt := JsonGetInt(line, "lt", 0);
      var _, rt := JsonGetInt(line, "rt", 0);
      var _, lx := JsonGetInt(line, "lx", 0);
      var _, ly := JsonGetInt(line, "ly", 0);
      var _, rx := JsonGetInt(line, "rx", 0);
      var _, ry := JsonGetInt(line, "ry", 0);
      assert Readings(lt, rt, lx, ly, rx, ry) == Scan(line);
      TakeLock();
      UpdatePad(slot, buttons, Readings(lt, rt, lx, ly, rx, ry));
      ReleaseLock();
    }

    /** The calibration and update inside `on_input`'s critical section. */
    method UpdatePad(k: nat, buttons: int, r: Readings)
      requires Valid() && locked && k < 8
      modifies this`calls, pads
      ensures Valid() && S() == Take(settings, old(S()), k, buttons, r)
    {
      if !pads[k].active { return; }
      if !pads[k].calibrated {
        pads[k] := pads[k].(base := r, calibrated := true);
      }
      var base := pads[k].base;
      var lt, rt := r.lt - base.lt, r.rt - base.rt;
      if lt < 0 { lt := -lt; }
      if rt < 0 { rt := -rt; }
      if lt > 4095 { lt := 4095; }
      if rt > 4095 { rt := 4095; }
      pads[k] := pads[k].(buttons := buttons,
        now := Readings(lt, rt, r.lx - base.lx, r.ly - base.ly, r.rx - base.rx, r.ry - base.ry));
      ApplySlotStateLocked(k);
    }

    method HandleLine(line: string, sdl: Sdl)
      requires Valid() && !locked
      modifies this, pads
      ensures Valid() && !locked && S() == OnLine(settings, old(S()), line, sdl)
    {
      if HasType(line, "connected") {
        var ok, slot := JsonGetInt(line, "slot", -1);
        if ok { HandleConnected(slot, sdl); }
      } else if HasType(line, "disconnected") {
        var ok, slot := JsonGetInt(line, "slot", -1);
        if ok { HandleDisconnected(slot); }
      } else if HasType(line, "input") {
        HandleInput(line, sdl);
      }
    }

    /** The body of the receive loop; `sdl[i]` is what SDL answers during line `i`. */
    method Receive(datagram: string, sdl: seq<Sdl>)
      requires Valid() && !locked && |sdl| == |Tokens(datagram)|
      modifies this, pads
      ensures Valid() && !locked && S() == OnLines(settings, old(S()), Tokens(datagram), sdl)
    {
      var lines := SplitLines(datagram);
      var i := 0;
      while i < |lines|
        invariant 0 <= i <= |lines| && Valid() && !locked
        invariant S() == OnLines(settings, old(S()), lines[..i], sdl[..i])
      {
        HandleLine(lines[i], sdl[i]);
        assert lines[..i + 1][..i] == lines[..i] && sdl[..i + 1][..i] == sdl[..i];
        i := i + 1;
      }
      assert lines[..i] == lines && sdl[..i] == sdl;
    }
  }

  // ---------------------------------------------------------------- text stands for events

  function ReadingsOf(g: GipInput): Readings { Readings(g.lt, g.rt, g.lx, g.ly, g.rx, g.ry) }

  /** What one event means to the injector. */
  function OnEvent(c: Settings, j: Injected, e: Event, sdl: Sdl): Injected {
    match e
    case Connected(k) => OnConnected(c, j, k, sdl)
    case Disconnected(k) => OnDisconnected(j, k)
    case Input(k, g) => if k < 8 then Feed(c, j, k, g.buttons, ReadingsOf(g), sdl) else j
    case Guide(_, _) => j
    case HidUnavailable => j
  }

  lemma ScanIs(e: Event)
    requires e.Input?
    ensures Scan(Print(e)) == ReadingsOf(e.state)
    ensures GetInt(Print(e), "buttons") == Some(e.state.buttons)
  {
    ReadsButtons(e);
    ReadsTriggers(e);
    ReadsSticks(e);
  }

  lemma InputLine(c: Settings, j: Injected, e: Event, sdl: Sdl)
    requires e.Input?
    ensures OnInput(c, j, Print(e), sdl) == OnEvent(c, j, e, sdl)
  {
    ReadsSlot(e);
    ScanIs(e);
  }

  /** Handling a printed event does exactly what the event means, for every event. */
  lemma LineIsEvent(c: Settings, j: Injected, e: Event, sdl: Sdl)
    ensures OnLine(c, j, Print(e), sdl) == OnEvent(c, j, e, sdl)
  {
    KindsSeen(e);
    if e.Connected? || e.Disconnected? { ReadsSlot(e); }
    if e.Input? { InputLine(c, j, e, sdl); }
  }
}
