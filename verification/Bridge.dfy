// xbox_hid_bridge.c: the reader that rebuilds the daemon's slots from the text stream, and the proof that it does.

module Bridge {
  import opened Bytes
  import opened Gip
  import opened Text
  import opened EventLines

  /** The bridge's `slot_t` without its HID handle. */
  datatype BridgeSlot = BridgeSlot(active: bool, guidePressed: bool, report: HidReport)

  const EMPTY_SLOT := BridgeSlot(false, false, ZERO_REPORT)

  type Replica = r: seq<BridgeSlot> | |r| == 8 witness Repeat(8, EMPTY_SLOT)

  // ---------------------------------------------------------------- handlers as functions

  function Attach(r: Replica, slot: int, hidOk: bool): Replica {
    if !(0 <= slot < 8) || r[slot].active || !hidOk then r
    else r[slot := BridgeSlot(true, false, ZERO_REPORT.(hat := 8))]
  }

  function Detach(r: Replica, slot: int): Replica {
    if !(0 <= slot < 8) || !r[slot].active then r else r[slot := EMPTY_SLOT]
  }

  function PressGuide(r: Replica, slot: int, pressed: bool): Replica {
    if !(0 <= slot < 8) || !r[slot].active then r
    else
      var s := r[slot];
      r[slot := s.(guidePressed := pressed, report := s.report.(buttons := SetGuide(s.report.buttons, pressed)))]
  }

  function Feed(r: Replica, slot: int, g: GipInput): Replica {
    if !(0 <= slot < 8) || !r[slot].active then r
    else r[slot := r[slot].(report := GipToHid(g, r[slot].guidePressed))]
  }

  /** What one event means to the bridge. */
  function Apply(r: Replica, e: Event): Replica {
    match e
    case Connected(k) => Attach(r, k, true)
    case Disconnected(k) => Detach(r, k)
    case Guide(k, pressed) => PressGuide(r, k, pressed)
    case Input(k, g) => Feed(r, k, g)
    case HidUnavailable => r
  }

  /** The fields of an input line, missing ones zero, narrowed to the widths of `gip_input_t`. */
  function ScanState(line: string): GipInput {
    GipInput(ToU16(IntOrZero(line, "buttons")), ToU16(IntOrZero(line, "lt")), ToU16(IntOrZero(line, "rt")),
             ToI16(IntOrZero(line, "lx")), ToI16(IntOrZero(line, "ly")),
             ToI16(IntOrZero(line, "rx")), ToI16(IntOrZero(line, "ry")))
  }

  /** `handle_event_line` on any line whatever; `hidOk` says whether the system lets a gamepad be created. */
  function OnLine(r: Replica, line: string, hidOk: bool): Replica {
    var slot := GetInt(line, "slot");
    if HasType(line, "connected") then (if slot.Some? then Attach(r, slot.value, hidOk) else r)
    else if HasType(line, "disconnected") then (if slot.Some? then Detach(r, slot.value) else r)
    else if HasType(line, "guide") then
      (var pressed := GetBool(line, "pressed");
       if slot.Some? && pressed.Some? then PressGuide(r, slot.value, pressed.value) else r)
    else if HasType(line, "input") then (if slot.Some? then Feed(r, slot.value, ScanState(line)) else r)
    else r
  }

  function OnLines(r: Replica, lines: seq<string>, hidOk: bool): Replica
    decreases |lines|
  {
    if lines == [] then r else OnLines(OnLine(r, lines[0], hidOk), lines[1..], hidOk)
  }

  /** One received datagram. */
  function OnDatagram(r: Replica, datagram: string, hidOk: bool): Replica { OnLines(r, Tokens(datagram), hidOk) }

  // ---------------------------------------------------------------- the program

  class HidBridge {
    const slots: array<BridgeSlot>

    ghost predicate Valid() { slots.Length == 8 }

    ghost function Contents(): Replica
      reads slots
      requires Valid()
    {
      slots[..]
    }

    constructor ()
      ensures Valid() && fresh(slots) && Contents() == Repeat(8, EMPTY_SLOT)
    {
      slots := new BridgeSlot[8](_ => EMPTY_SLOT);
    }

    method HandleConnected(slot: int, hidOk: bool)
      requires Valid()
      modifies slots
      ensures Valid() && Contents() == Attach(old(Contents()), slot, hidOk)
    {
      if slot < 0 || slot >= 8 || slots[slot].active || !hidOk {
        return;
      }
      slots[slot] := BridgeSlot(true, false, ZERO_REPORT);
      slots[slot] := slots[slot].(report := slots[slot].report.(hat := 8));
    }

    method HandleDisconnected(slot: int)
      requires Valid()
      modifies slots
      ensures Valid() && Contents() == Detach(old(Contents()), slot)
    {
      if slot < 0 || slot >= 8 || !slots[slot].active {
        return;
      }
      slots[slot] := EMPTY_SLOT;
    }

    method HandleGuide(slot: int, pressed: bool)
      requires Valid()
      modifies slots
      ensures Valid() && Contents() == PressGuide(old(Contents()), slot, pressed)
    {
      if slot < 0 || slot >= 8 || !slots[slot].active {
        return;
      }
      var report := slots[slot].report;
      if pressed {
        report := report.(buttons := report.buttons + {HID_BTN_GUIDE});
      } else {
        report := report.(buttons := report.buttons - {HID_BTN_GUIDE});
      }
      slots[slot] := slots[slot].(guidePressed := pressed, report := report);
    }

    /** `handle_input`: every field read separately, zero when its key is missing. */
    method HandleInput(line: string)
      requires Valid()
      modifies slots
      ensures Valid() && Contents() ==
              var slot := GetInt(line, "slot");
              if slot.Some? then Feed(old(Contents()), slot.value, ScanState(line)) else old(Contents())
    {
      var ok, slot := JsonGetInt(line, "slot", -1);
      if !ok || slot < 0 || slot >= 8 || !slots[slot].active {
        return;
      }
      var _, buttons := JsonGetInt(line, "buttons", 0);
      var _, lt := JsonGetInt(line, "lt", 0);
      var _, rt := JsonGetInt(line, "rt", 0);
      var _, lx := JsonGetInt(line, "lx", 0);
      var _, ly := JsonGetInt(line, "ly", 0);
      var _, rx := JsonGetInt(line, "rx", 0);
      var _, ry := JsonGetInt(line, "ry", 0);
      var g := GipInput(ToU16(buttons), ToU16(lt), ToU16(rt), ToI16(lx), ToI16(ly), ToI16(rx), ToI16(ry));
      var report := FillReport(g, slots[slot].guidePressed);
      slots[slot] := slots[slot].(report := report);
    }

    method HandleEventLine(line: string, hidOk: bool)
      requires Valid()
      modifies slots
      ensures Valid() && Contents() == OnLine(old(Contents()), line, hidOk)
    {
      if HasType(line, "connected") {
        var ok, slot := JsonGetInt(line, "slot", -1);
        if ok { HandleConnected(slot, hidOk); }
      } else if HasType(line, "disconnected") {
        var ok, slot := JsonGetInt(line, "slot", -1);
        if ok { HandleDisconnected(slot); }
      } else if HasType(line, "guide") {
        var ok, slot := JsonGetInt(line, "slot", -1);
        if ok {
          var found, pressed := JsonGetBool(line, "pressed", false);
          if found { HandleGuide(slot, pressed); }
        }
      } else if HasType(line, "input") {
        HandleInput(line);
      }
    }

    /** The body of the receive loop. */
    method Receive(datagram: string, hidOk: bool)
      requires Valid()
      modifies slots
      ensures Valid() && Contents() == OnDatagram(old(Contents()), datagram, hidOk)
    {
      var lines := SplitLines(datagram);
      var i := 0;
      while i < |lines|
        invariant 0 <= i <= |lines| && Valid()
        invariant OnLines(Contents(), lines[i..], hidOk) == OnDatagram(old(Contents()), datagram, hidOk)
      {
        assert lines[i..][1..] == lines[i + 1..];
        HandleEventLine(lines[i], hidOk);
        i := i + 1;
      }
    }
  }

  // ---------------------------------------------------------------- text stands for events

  /** Reading a printed event does exactly what the event means, for every event. */
  lemma LineIsEvent(r: Replica, e: Event)
    ensures OnLine(r, Print(e), true) == Apply(r, e)
  {
    KindsSeen(e);
    match e {
      case Connected(_) => ReadsSlot(e);
      case Disconnected(_) => ReadsSlot(e);
      case Guide(_, _) => ReadsSlot(e); ReadsPressed(e);
      case Input(_, _) => ReadsSlot(e); ScanStateIs(e);
      case HidUnavailable =>
    }
  }

  lemma ScanStateIs(e: Event)
    requires e.Input?
    ensures ScanState(Print(e)) == e.state
  {
    ReadsButtons(e);
    ReadsTriggers(e);
    ReadsSticks(e);
  }

  lemma OneLine(e: Event)
    ensures Tokens(Datagram(e)) == [Print(e)]
  {
    DatagramIsLine(e);
    PrintFits(e);
    assert Unlines([]) == "";
    assert Unlines([Print(e)]) == Print(e) + "\n" by { assert [Print(e)][1..] == []; }
    TokensOfUnlines([Print(e)]);
  }

  lemma OnOneLine(r: Replica, line: string, hidOk: bool)
    ensures OnLines(r, [line], hidOk) == OnLine(r, line, hidOk)
  {
    assert [line][1..] == [];
  }

  lemma DatagramIsEvent(r: Replica, e: Event)
    ensures OnDatagram(r, Datagram(e), true) == Apply(r, e)
  {
    OneLine(e);
    OnOneLine(r, Print(e), true);
    LineIsEvent(r, e);
  }

  // ---------------------------------------------------------------- lines that change nothing

  /** A line without a slot number changes nothing, whatever else it says. */
  lemma NeedsSlot(r: Replica, fs: seq<Field>, hidOk: bool)
    requires fs != [] && AllWellFormed(fs) && Lacks(fs, "slot")
    ensures OnLine(r, Line(fs), hidOk) == r
  {
    MissingIsZero(fs, "slot");
  }

  /** While the system refuses to create gamepads, no text whatever activates a slot. */
  lemma {:induction false} NeedsDevice(r: Replica, lines: seq<string>, k: byte)
    requires k < 8 && !r[k].active
    ensures OnLines(r, lines, false)[k] == r[k]
    decreases |lines|
  {
    if lines != [] {
      LineNeedsDevice(r, lines[0], k);
      NeedsDevice(OnLine(r, lines[0], false), lines[1..], k);
    }
  }

  lemma LineNeedsDevice(r: Replica, line: string, k: byte)
    requires k < 8 && !r[k].active
    ensures OnLine(r, line, false)[k] == r[k]
  {
  }
}
