// xbox_protocol.h and the payload decoding of `on_input`: the GIP header, the controller state,
// the two wire layouts of an input payload and the HID report made from it.

module Gip {
  import opened Bytes

  const CMD_ACKNOWLEDGE: byte := 0x01
  const CMD_ANNOUNCE: byte := 0x02
  const CMD_POWER: byte := 0x05
  const CMD_GUIDE_BTN: byte := 0x07
  const CMD_LED: byte := 0x0A
  const CMD_CTRL_ADDED: byte := 0x0E
  const CMD_CTRL_LOST: byte := 0x0F
  const CMD_SERIAL: byte := 0x1E
  const CMD_INPUT: byte := 0x20
  const CMD_INPUT_OVERFLOW: byte := 0x26

  const TYPE_ACK: byte := 0x01
  const TYPE_REQUEST: byte := 0x02

  const BTN_SYNC: nat := 0x1
  const BTN_MENU: nat := 0x4
  const BTN_VIEW: nat := 0x8
  const BTN_A: nat := 0x10
  const BTN_B: nat := 0x20
  const BTN_X: nat := 0x40
  const BTN_Y: nat := 0x80
  const BTN_DPAD_UP: nat := 0x100
  const BTN_DPAD_DOWN: nat := 0x200
  const BTN_DPAD_LEFT: nat := 0x400
  const BTN_DPAD_RIGHT: nat := 0x800
  const BTN_LB: nat := 0x1000
  const BTN_RB: nat := 0x2000
  const BTN_LS: nat := 0x4000
  const BTN_RS: nat := 0x8000

  const HID_BTN_A: nat := 0
  const HID_BTN_B: nat := 1
  const HID_BTN_X: nat := 2
  const HID_BTN_Y: nat := 3
  const HID_BTN_LB: nat := 4
  const HID_BTN_RB: nat := 5
  const HID_BTN_MENU: nat := 6
  const HID_BTN_VIEW: nat := 7
  const HID_BTN_LS: nat := 8
  const HID_BTN_RS: nat := 9
  const HID_BTN_GUIDE: nat := 10
  const HID_BTN_SYNC: nat := 12

  /** `gip_input_t` */
  datatype GipInput = GipInput(buttons: u16, lt: u16, rt: u16, lx: i16, ly: i16, rx: i16, ry: i16)

  /** `xbox_hid_report_t`; the button word is the set of its one bits, so `|=` adds and `&= ~` removes. */
  datatype HidReport = HidReport(buttons: set<nat>, hat: byte, lx: i16, ly: i16, rx: i16, ry: i16, lt: u16, rt: u16)

  const ZERO_REPORT := HidReport({}, 0, 0, 0, 0, 0, 0, 0)

  /** `buttons & mask` for a one-bit mask. */
  predicate Has(buttons: u16, mask: nat)
    requires mask > 0
  {
    buttons / mask % 2 == 1
  }

  // ---------------------------------------------------------------- HID report

  const REPORT_BITS: nat := 13

  /** The controller button a report bit stands for; no button for guide, share and the padding. */
  function ButtonBehind(bit: nat): Option<nat> {
    if bit == HID_BTN_A then Some(BTN_A) else if bit == HID_BTN_B then Some(BTN_B)
    else if bit == HID_BTN_X then Some(BTN_X) else if bit == HID_BTN_Y then Some(BTN_Y)
    else if bit == HID_BTN_LB then Some(BTN_LB) else if bit == HID_BTN_RB then Some(BTN_RB)
    else if bit == HID_BTN_MENU then Some(BTN_MENU) else if bit == HID_BTN_VIEW then Some(BTN_VIEW)
    else if bit == HID_BTN_LS then Some(BTN_LS) else if bit == HID_BTN_RS then Some(BTN_RS)
    else if bit == HID_BTN_SYNC then Some(BTN_SYNC)
    else None
  }

  predicate Lit(b: u16, guide: bool, bit: nat) {
    if bit == HID_BTN_GUIDE then guide
    else ButtonBehind(bit).Some? && ButtonBehind(bit).value > 0 && Has(b, ButtonBehind(bit).value)
  }

  function HidButtons(b: u16, guide: bool): set<nat> { LitBelow(b, guide, REPORT_BITS) }

  /** No two report bits stand for the same button. */
  lemma ButtonsAreDistinct(i: nat, j: nat)
    requires i != j && ButtonBehind(i).Some? && ButtonBehind(j).Some?
    ensures ButtonBehind(i) != ButtonBehind(j)
  {
  }

  /** `if (condition) word |= 1 << bit;` */
  method OrIf(word: set<nat>, condition: bool, bit: nat) returns (r: set<nat>)
    ensures r == word + if condition then {bit} else {}
  {
    r := word;
    if condition { r := r + {bit}; }
  }

  /** The lit bits below `n`. */
  function LitBelow(b: u16, guide: bool, n: nat): set<nat> { set bit: nat | bit < n && Lit(b, guide, bit) }

  lemma LitOneMore(b: u16, guide: bool, n: nat)
    ensures LitBelow(b, guide, n + 1) == LitBelow(b, guide, n) + if Lit(b, guide, n) then {n} else {}
  {
  }

  /** The first six lines of the button half of `gip_to_hid`. */
  method FillFaceAndShoulders(b: u16, guide: bool) returns (bits: set<nat>)
    ensures bits == LitBelow(b, guide, HID_BTN_MENU)
  {
    bits := {};
    bits := OrIf(bits, Has(b, BTN_A), HID_BTN_A);
    LitOneMore(b, guide, HID_BTN_A);
    bits := OrIf(bits, Has(b, BTN_B), HID_BTN_B);
    LitOneMore(b, guide, HID_BTN_B);
    bits := OrIf(bits, Has(b, BTN_X), HID_BTN_X);
    LitOneMore(b, guide, HID_BTN_X);
    bits := OrIf(bits, Has(b, BTN_Y), HID_BTN_Y);
    LitOneMore(b, guide, HID_BTN_Y);
    bits := OrIf(bits, Has(b, BTN_LB), HID_BTN_LB);
    LitOneMore(b, guide, HID_BTN_LB);
    bits := OrIf(bits, Has(b, BTN_RB), HID_BTN_RB);
    LitOneMore(b, guide, HID_BTN_RB);
  }

  /** The button half of `gip_to_hid`: eleven buttons and the guide flag, each to its own bit and no other bit set. */
  method FillButtons(g: GipInput, guide: bool) returns (bits: set<nat>)
    ensures forall bit: nat :: bit in bits <==> bit < REPORT_BITS && Lit(g.buttons, guide, bit)
  {
    bits := FillFaceAndShoulders(g.buttons, guide);
    bits := OrIf(bits, Has(g.buttons, BTN_MENU), HID_BTN_MENU);
    LitOneMore(g.buttons, guide, HID_BTN_MENU);
    bits := OrIf(bits, Has(g.buttons, BTN_VIEW), HID_BTN_VIEW);
    LitOneMore(g.buttons, guide, HID_BTN_VIEW);
    bits := OrIf(bits, Has(g.buttons, BTN_LS), HID_BTN_LS);
    LitOneMore(g.buttons, guide, HID_BTN_LS);
    bits := OrIf(bits, Has(g.buttons, BTN_RS), HID_BTN_RS);
    LitOneMore(g.buttons, guide, HID_BTN_RS);
    ghost var nine := bits;
    bits := OrIf(bits, Has(g.buttons, BTN_SYNC), HID_BTN_SYNC);
    bits := OrIf(bits, guide, HID_BTN_GUIDE);
    SyncAndGuide(g.buttons, guide, nine);
  }

  /** The source sets the sync bit before the guide bit. */
  lemma SyncAndGuide(b: u16, guide: bool, bits: set<nat>)
    requires bits == LitBelow(b, guide, HID_BTN_GUIDE)
    ensures bits + (if Has(b, BTN_SYNC) then {HID_BTN_SYNC} else {}) + (if guide then {HID_BTN_GUIDE} else {}) ==
            LitBelow(b, guide, REPORT_BITS)
  {
    LitOneMore(b, guide, 10);
    LitOneMore(b, guide, 11);
    LitOneMore(b, guide, 12);
  }

  /** 0 is north, counting clockwise to 7; 8 is neutral (also every contradictory combination). */
  function Hat(b: u16): (hat: byte)
    ensures hat <= 8
  {
    var up, down := Has(b, BTN_DPAD_UP), Has(b, BTN_DPAD_DOWN);
    var left, right := Has(b, BTN_DPAD_LEFT), Has(b, BTN_DPAD_RIGHT);
    if (up && down) || (left && right) then 8
    else if up then (if right then 1 else if left then 7 else 0)
    else if down then (if right then 3 else if left then 5 else 4)
    else if right then 2
    else if left then 6
    else 8
  }

  function GipToHid(g: GipInput, guide: bool): HidReport {
    HidReport(HidButtons(g.buttons, guide), Hat(g.buttons), g.lx, g.ly, g.rx, g.ry, g.lt, g.rt)
  }

  /** Which button of the state lights which bit of the report, as wired between the two layouts. */
  ghost predicate Lights(word: nat, guide: bool, bit: nat) {
    || (bit == 0 && word / 0x10 % 2 == 1) || (bit == 1 && word / 0x20 % 2 == 1)
    || (bit == 2 && word / 0x40 % 2 == 1) || (bit == 3 && word / 0x80 % 2 == 1)
    || (bit == 4 && word / 0x1000 % 2 == 1) || (bit == 5 && word / 0x2000 % 2 == 1)
    || (bit == 6 && word / 0x4 % 2 == 1) || (bit == 7 && word / 0x8 % 2 == 1)
    || (bit == 8 && word / 0x4000 % 2 == 1) || (bit == 9 && word / 0x8000 % 2 == 1)
    || (bit == 10 && guide) || (bit == 12 && word % 2 == 1)
  }

  /** Each side of the pad is on the hat exactly when it is held, its opposite is not, and the other pair does not
      cancel; 8 is none of the four. */
  ghost predicate Points(hat: nat, word: nat) {
    var up, down := word / 0x100 % 2 == 1, word / 0x200 % 2 == 1;
    var left, right := word / 0x400 % 2 == 1, word / 0x800 % 2 == 1;
    && hat <= 8
    && (hat == 7 || hat == 0 || hat == 1 <==> up && !down && !(left && right))
    && (hat == 1 || hat == 2 || hat == 3 <==> right && !left && !(up && down))
    && (hat == 3 || hat == 4 || hat == 5 <==> down && !up && !(left && right))
    && (hat == 5 || hat == 6 || hat == 7 <==> left && !right && !(up && down))
  }

  /** What a report says: the state's four sticks and two triggers, its pad as a hat, its buttons and the guide flag. */
  ghost predicate ShowsState(h: HidReport, g: GipInput, guide: bool) {
    && h.lx == g.lx && h.ly == g.ly && h.rx == g.rx && h.ry == g.ry && h.lt == g.lt && h.rt == g.rt
    && Points(h.hat, g.buttons)
    && forall bit: nat :: bit in h.buttons <==> Lights(g.buttons, guide, bit)
  }

  lemma HatPoints(b: u16)
    ensures Points(Hat(b), b)
  {
  }

  lemma LitIsLights(b: u16, guide: bool, bit: nat)
    ensures bit < REPORT_BITS && Lit(b, guide, bit) <==> Lights(b, guide, bit)
  {
  }

  lemma ReportShows(g: GipInput, guide: bool)
    ensures ShowsState(GipToHid(g, guide), g, guide)
  {
    HatPoints(g.buttons);
    forall bit: nat ensures bit in HidButtons(g.buttons, guide) <==> Lights(g.buttons, guide, bit) {
      LitIsLights(g.buttons, guide, bit);
    }
  }

  function SetGuide(buttons: set<nat>, pressed: bool): set<nat> {
    if pressed then buttons + {HID_BTN_GUIDE} else buttons - {HID_BTN_GUIDE}
  }

  /** A guide edge after an input gives the report that input would have given with the new guide flag. */
  lemma GuideAfterInput(g: GipInput, was: bool, pressed: bool)
    ensures GipToHid(g, pressed) ==
            var r := GipToHid(g, was); r.(buttons := SetGuide(r.buttons, pressed))
  {
    assert HidButtons(g.buttons, pressed) == SetGuide(HidButtons(g.buttons, was), pressed);
  }

  /** `gip_to_hid`: fills the report field by field, OR-ing button bits in. */
  method FillReport(g: GipInput, guide: bool) returns (h: HidReport)
    ensures h == GipToHid(g, guide) && ShowsState(h, g, guide)
  {
    ReportShows(g, guide);
    var bits := FillButtons(g, guide);
    h := ZERO_REPORT.(buttons := bits);

    var up, down := Has(g.buttons, BTN_DPAD_UP), Has(g.buttons, BTN_DPAD_DOWN);
    var left, right := Has(g.buttons, BTN_DPAD_LEFT), Has(g.buttons, BTN_DPAD_RIGHT);
    if up && !down && !left && !right { h := h.(hat := 0); }
    else if up && !down && !left && right { h := h.(hat := 1); }
    else if !up && !down && !left && right { h := h.(hat := 2); }
    else if !up && down && !left && right { h := h.(hat := 3); }
    else if !up && down && !left && !right { h := h.(hat := 4); }
    else if !up && down && left && !right { h := h.(hat := 5); }
    else if !up && !down && left && !right { h := h.(hat := 6); }
    else if up && !down && left && !right { h := h.(hat := 7); }
    else { h := h.(hat := 8); }

    h := h.(lx := g.lx, ly := g.ly, rx := g.rx, ry := g.ry, lt := g.lt, rt := g.rt);
  }

  // ---------------------------------------------------------------- input payload

  /** Layout A: 2-byte button field. */
  function Layout14(p: seq<byte>): GipInput
    requires |p| >= 14
  {
    GipInput(Read16(p, 0), Read16(p, 2), Read16(p, 4),
             ReadI16(p, 6), ReadI16(p, 8), ReadI16(p, 10), ReadI16(p, 12))
  }

  /** Layout B: 4-byte button field, of which only low bits are looked at. */
  function Layout16(p: seq<byte>): GipInput
    requires |p| >= 16
  {
    GipInput(Buttons32(Read16(p, 0)), Read16(p, 4), Read16(p, 6),
             ReadI16(p, 8), ReadI16(p, 10), ReadI16(p, 12), ReadI16(p, 14))
  }

  /** Both button words use the same bit for the same button, and bit 1 means nothing: 15 of the 16 bits are copied. */
  function Buttons32(low: u16): u16 {
    if Has(low, 2) then low - 2 else low
  }

  predicate RealisticTriggers(g: GipInput) { g.lt <= 4095 && g.rt <= 4095 }

  /** Frames that carry the 8-byte wrapper in front of the controller state. */
  predicate LooksWrapped(payload: seq<byte>) {
    |payload| >= 24 && payload[4] == CMD_INPUT && payload[7] >= 14
  }

  function Unwrap(payload: seq<byte>): seq<byte> {
    if LooksWrapped(payload) then payload[8..] else payload
  }

  predicate Prefers16(p: seq<byte>)
    requires |p| >= 14
  {
    |p| >= 16 && !RealisticTriggers(Layout14(p)) && RealisticTriggers(Layout16(p))
  }

  /** The decoding half of `on_input`; None when the payload is too short. */
  function DecodeInput(payload: seq<byte>): Option<GipInput> {
    var p := Unwrap(payload);
    if |p| < 14 then None else Some(if Prefers16(p) then Layout16(p) else Layout14(p))
  }

  /** The source's decisions in their order: both readings that fit, then the tie-break on the triggers. */
  method ParseInput(payload: seq<byte>) returns (r: Option<GipInput>)
    ensures r == DecodeInput(payload)
  {
    var p := payload;
    if |payload| >= 24 && payload[4] == CMD_INPUT && payload[7] >= 14 {
      p := payload[8..];
    }
    if |p| < 14 {
      return None;
    }
    var parsed14 := Layout14(p);
    if |p| < 16 {
      return Some(parsed14);
    }
    var parsed16 := Layout16(p);
    var trig14Ok := parsed14.lt <= 4095 && parsed14.rt <= 4095;
    var trig16Ok := parsed16.lt <= 4095 && parsed16.rt <= 4095;
    var parsed;
    if trig14Ok && !trig16Ok {
      parsed := parsed14;
    } else if !trig14Ok && trig16Ok {
      parsed := parsed16;
    } else {
      parsed := parsed14;
    }
    return Some(parsed);
  }

  // ---------------------------------------------------------------- the bytes of the state that is read

  function Word(p: seq<byte>, at: nat): nat
    requires at + 2 <= |p|
  {
    p[at] as int + 256 * p[at + 1] as int
  }

  function Signed(v: nat): int { if v < 0x8000 then v else v - 0x1_0000 }

  /** Where the state starts: behind the wrapper, if there is one. */
  ghost function StateAt(payload: seq<byte>): nat {
    if |payload| >= 24 && payload[4] == 0x20 && payload[7] >= 14 then 8 else 0
  }

  /** Whether its triggers are read two bytes later: the left one is out of range, and there both are not. */
  ghost predicate TakenWide(payload: seq<byte>) {
    var o := StateAt(payload);
    |payload| >= o + 16 && Word(payload, o + 2) > 4095 && Word(payload, o + 4) <= 4095 && Word(payload, o + 6) <= 4095
  }

  /** The state that is read from a payload, byte by byte. */
  ghost predicate ReadsState(g: GipInput, payload: seq<byte>) {
    |payload| >= StateAt(payload) + 14 &&
    var o := StateAt(payload);
    var at := if TakenWide(payload) then o + 2 else o;
    && g.lt == Word(payload, at + 2) && g.rt == Word(payload, at + 4)
    && g.lx == Signed(Word(payload, at + 6)) && g.ly == Signed(Word(payload, at + 8))
    && g.rx == Signed(Word(payload, at + 10)) && g.ry == Signed(Word(payload, at + 12))
    && (g.buttons == Word(payload, o) || (TakenWide(payload) && g.buttons == Word(payload, o) - 2))
    && (forall guide: bool, bit: nat :: Lights(g.buttons, guide, bit) == Lights(Word(payload, o), guide, bit))
    && forall hat: nat :: Points(hat, g.buttons) == Points(hat, Word(payload, o))
  }

  lemma SignedIs(p: seq<byte>, at: nat)
    requires at + 2 <= |p|
    ensures ReadI16(p, at) == Signed(Word(p, at))
  {
  }

  lemma Reads14(p: seq<byte>)
    requires |p| >= 14
    ensures Layout14(p) == GipInput(Word(p, 0), Word(p, 2), Word(p, 4), Signed(Word(p, 6)), Signed(Word(p, 8)),
                                    Signed(Word(p, 10)), Signed(Word(p, 12)))
  {
    SignedIs(p, 6);
    SignedIs(p, 8);
    SignedIs(p, 10);
    SignedIs(p, 12);
  }

  lemma Reads16(p: seq<byte>)
    requires |p| >= 16
    ensures Layout16(p) == GipInput(Buttons32(Word(p, 0)), Word(p, 4), Word(p, 6), Signed(Word(p, 8)),
                                    Signed(Word(p, 10)), Signed(Word(p, 12)), Signed(Word(p, 14)))
  {
    SignedIs(p, 8);
    SignedIs(p, 10);
    SignedIs(p, 12);
    SignedIs(p, 14);
  }

  /** Bit 1, the one that means nothing, is the only one that the 16-byte reading drops. */
  lemma DropsBitOne(word: u16)
    ensures var b := Buttons32(word);
            (b == word || b == word - 2) && b % 2 == word % 2 && b / 4 == word / 4 && b / 2 % 2 == 0
  {
    var q, r := word / 4, word % 4;
    assert word == 4 * q + r && word / 2 == 2 * q + r / 2;
    if Has(word, 2) { assert word - 2 == 4 * q + (r - 2); }
  }

  lemma QuarterBits(v: nat)
    ensures v / 0x8 == v / 4 / 2 && v / 0x10 == v / 4 / 4 && v / 0x20 == v / 4 / 8 && v / 0x40 == v / 4 / 16
    ensures v / 0x80 == v / 4 / 32 && v / 0x100 == v / 4 / 64 && v / 0x200 == v / 4 / 128 && v / 0x400 == v / 4 / 256
    ensures v / 0x800 == v / 4 / 512 && v / 0x1000 == v / 4 / 1024 && v / 0x2000 == v / 4 / 2048
    ensures v / 0x4000 == v / 4 / 4096 && v / 0x8000 == v / 4 / 8192
  {
  }

  /** The buttons of the state are those of its button word in either reading. */
  lemma SameLights(a: nat, b: nat)
    requires a % 2 == b % 2 && a / 4 == b / 4
    ensures forall guide: bool, bit: nat :: Lights(a, guide, bit) == Lights(b, guide, bit)
    ensures forall hat: nat :: Points(hat, a) == Points(hat, b)
  {
    QuarterBits(a);
    QuarterBits(b);
  }

  lemma UnwrapIs(payload: seq<byte>)
    ensures Unwrap(payload) == payload[StateAt(payload)..]
    ensures |Unwrap(payload)| >= 14 ==> (Prefers16(Unwrap(payload)) <==> TakenWide(payload))
  {
  }

  /** Every payload is read as the state in its bytes, and dropped exactly when 14 bytes are not there. */
  lemma DecodesBytes(payload: seq<byte>)
    ensures match DecodeInput(payload)
            case None => |payload| < StateAt(payload) + 14
            case Some(g) => ReadsState(g, payload)
  {
    var p, o := Unwrap(payload), StateAt(payload);
    UnwrapIs(payload);
    if |p| >= 14 {
      Reads14(p);
      DropsBitOne(Word(p, 0));
      if Prefers16(p) {
        Reads16(p);
        SameLights(Buttons32(Word(p, 0)), Word(p, 0));
      }
    }
  }

  /** The controller's side of layout A. */
  function Encode14(g: GipInput): (p: seq<byte>)
    ensures |p| == 14
  {
    Le16(g.buttons) + Le16(g.lt) + Le16(g.rt)
    + Le16(ToU16(g.lx)) + Le16(ToU16(g.ly)) + Le16(ToU16(g.rx)) + Le16(ToU16(g.ry))
  }

  lemma ReadsBack(p: seq<byte>, at: nat, v: u16)
    requires at + 2 <= |p| && p[at..at + 2] == Le16(v)
    ensures Read16(p, at) == v
  {
    assert p[at] == p[at..at + 2][0] && p[at + 1] == p[at..at + 2][1];
  }

  lemma ReadsBackSigned(p: seq<byte>, at: nat, v: i16)
    requires at + 2 <= |p| && p[at..at + 2] == Le16(ToU16(v))
    ensures ReadI16(p, at) == v
  {
    ReadsBack(p, at, ToU16(v));
    I16Inverse(v);
  }

  /** Where each field of an encoded state lies. */
  lemma EncodedFields(g: GipInput)
    ensures var e := Encode14(g);
            && e[0..2] == Le16(g.buttons) && e[2..4] == Le16(g.lt) && e[4..6] == Le16(g.rt)
            && e[6..8] == Le16(ToU16(g.lx)) && e[8..10] == Le16(ToU16(g.ly))
            && e[10..12] == Le16(ToU16(g.rx)) && e[12..14] == Le16(ToU16(g.ry))
  {
  }

  lemma Layout14Inverse(g: GipInput, tail: seq<byte>)
    ensures Layout14(Encode14(g) + tail) == g
  {
    var e, p := Encode14(g), Encode14(g) + tail;
    EncodedFields(g);
    assert p[0..2] == e[0..2] && p[2..4] == e[2..4] && p[4..6] == e[4..6] && p[6..8] == e[6..8];
    assert p[8..10] == e[8..10] && p[10..12] == e[10..12] && p[12..14] == e[12..14];
    ReadsBack(p, 0, g.buttons);
    ReadsBack(p, 2, g.lt);
    ReadsBack(p, 4, g.rt);
    ReadsBackSigned(p, 6, g.lx);
    ReadsBackSigned(p, 8, g.ly);
    ReadsBackSigned(p, 10, g.rx);
    ReadsBackSigned(p, 12, g.ry);
  }

  lemma WritesBack(p: seq<byte>, at: nat)
    requires at + 2 <= |p|
    ensures Le16(Read16(p, at)) == p[at..at + 2] && ToU16(ReadI16(p, at)) == Read16(p, at)
  {
    Divide(p[at], p[at + 1]);
  }

  lemma EncodeLayout14(p: seq<byte>)
    requires |p| >= 14
    ensures Encode14(Layout14(p)) == p[..14]
  {
    WritesBack(p, 0);
    WritesBack(p, 2);
    WritesBack(p, 4);
    WritesBack(p, 6);
    WritesBack(p, 8);
    WritesBack(p, 10);
    WritesBack(p, 12);
    assert p[..14] == p[0..2] + p[2..4] + p[4..6] + p[6..8] + p[8..10] + p[10..12] + p[12..14];
  }

  lemma EncodeLayout16(p: seq<byte>)
    requires |p| >= 16
    ensures Encode14(Layout16(p))[2..] == p[4..16]
  {
    WritesBack(p, 4);
    WritesBack(p, 6);
    WritesBack(p, 8);
    WritesBack(p, 10);
    WritesBack(p, 12);
    WritesBack(p, 14);
    assert p[4..16] == p[4..6] + p[6..8] + p[8..10] + p[10..12] + p[12..14] + p[14..16];
  }

  /** The 14-byte reading is a given state exactly when the first 14 bytes encode it. */
  lemma ReadAs14(q: seq<byte>, g: GipInput)
    requires |q| >= 14
    ensures Layout14(q) == g <==> q[..14] == Encode14(g)
  {
    EncodeLayout14(q);
    if q[..14] == Encode14(g) {
      assert q == Encode14(g) + q[14..];
      Layout14Inverse(g, q[14..]);
    }
  }

  lemma InWindow(q: seq<byte>, e: seq<byte>, i: nat)
    requires |q| >= 16 && |e| == 14 && q[4..16] == e[2..] && 2 <= i <= 12
    ensures q[i + 2..i + 4] == e[i..i + 2]
  {
    assert q[i + 2] == q[4..16][i - 2] && e[2..][i - 2] == e[i];
    assert q[i + 3] == q[4..16][i - 1] && e[2..][i - 1] == e[i + 1];
  }

  lemma ReadsTail16(q: seq<byte>, g: GipInput)
    requires |q| >= 16 && q[4..16] == Encode14(g)[2..]
    ensures Layout16(q).(buttons := g.buttons) == g
  {
    EncodedFields(g);
    var e := Encode14(g);
    InWindow(q, e, 2);
    InWindow(q, e, 4);
    InWindow(q, e, 6);
    InWindow(q, e, 8);
    InWindow(q, e, 10);
    InWindow(q, e, 12);
    ReadsBack(q, 4, g.lt);
    ReadsBack(q, 6, g.rt);
    ReadsBackSigned(q, 8, g.lx);
    ReadsBackSigned(q, 10, g.ly);
    ReadsBackSigned(q, 12, g.rx);
    ReadsBackSigned(q, 14, g.ry);
  }

  /** The 16-byte reading is a given state exactly when its button word means the buttons and the rest encodes the
      rest. */
  lemma ReadAs16(q: seq<byte>, g: GipInput)
    requires |q| >= 16
    ensures Layout16(q) == g <==> Buttons32(Read16(q, 0)) == g.buttons && q[4..16] == Encode14(g)[2..]
  {
    EncodeLayout16(q);
    if q[4..16] == Encode14(g)[2..] { ReadsTail16(q, g); }
  }

  // When a bare state survives, in terms of its own fields and the bytes behind it.

  /** The right trigger's low byte sits where the wrapper has its command, the left stick's high byte where it has its
      length, and ten bytes follow. */
  predicate TakenForWrapped(g: GipInput, tail: seq<byte>) {
    |tail| >= 10 && g.rt % 256 == 0x20 && ToU16(g.lx) / 256 >= 14
  }

  /** The left trigger is out of range, and shifted by two bytes the triggers would not be. */
  predicate TakenFor16(g: GipInput, tail: seq<byte>) {
    |tail| >= 2 && g.lt > 4095 && g.rt <= 4095 && ToU16(g.lx) <= 4095
  }

  /** The same for the reading that starts eight bytes late. */
  predicate LateTakenFor16(g: GipInput, tail: seq<byte>)
    requires |tail| >= 2
  {
    ToU16(g.rx) > 4095 && ToU16(g.ry) <= 4095 && Read16(tail, 0) <= 4095
  }

  /** The bytes eight further on happen to repeat the state. */
  predicate Echo14(g: GipInput, tail: seq<byte>)
    requires |tail| >= 8
  {
    var e := Encode14(g);
    e[..6] == e[8..] && tail[..8] == e[6..]
  }

  /** They happen to repeat it in the 16-byte layout. */
  predicate Echo16(g: GipInput, tail: seq<byte>)
    requires |tail| >= 10
  {
    var e := Encode14(g);
    g.buttons == Buttons32(ToU16(g.ly)) && e[2..4] == e[12..] && tail[..10] == e[4..]
  }

  lemma BareLooksWrapped(g: GipInput, tail: seq<byte>)
    ensures LooksWrapped(Encode14(g) + tail) <==> TakenForWrapped(g, tail)
  {
    var payload := Encode14(g) + tail;
    assert payload[4] == Le16(g.rt)[0] && payload[7] == Le16(ToU16(g.lx))[1];
  }

  lemma BarePrefers16(g: GipInput, tail: seq<byte>)
    ensures Prefers16(Encode14(g) + tail) <==> TakenFor16(g, tail)
  {
    var e, p := Encode14(g), Encode14(g) + tail;
    EncodedFields(g);
    Layout14Inverse(g, tail);
    assert p[4..6] == e[4..6] && p[6..8] == e[6..8];
    ReadsBack(p, 4, g.rt);
    ReadsBack(p, 6, ToU16(g.lx));
  }

  /** The first bytes of the reading that starts eight bytes late. */
  lemma LateFields(g: GipInput, tail: seq<byte>)
    requires |tail| >= 10
    ensures var q := Encode14(g)[8..] + tail;
            && |q| >= 16 && Read16(q, 0) == ToU16(g.ly) && Read16(q, 2) == ToU16(g.rx) && Read16(q, 4) == ToU16(g.ry)
            && Read16(q, 6) == Read16(tail, 0)
            && q[..14] == Encode14(g)[8..] + tail[..8] && q[4..16] == Encode14(g)[12..] + tail[..10]
  {
    EncodedFields(g);
    var e, q := Encode14(g), Encode14(g)[8..] + tail;
    assert q[0..2] == e[8..10] && q[2..4] == e[10..12] && q[4..6] == e[12..14];
    ReadsBack(q, 0, ToU16(g.ly));
    ReadsBack(q, 2, ToU16(g.rx));
    ReadsBack(q, 4, ToU16(g.ry));
    assert q[6] == tail[0] && q[7] == tail[1];
  }

  lemma LatePrefers16(g: GipInput, tail: seq<byte>)
    requires |tail| >= 10
    ensures Prefers16(Encode14(g)[8..] + tail) <==> LateTakenFor16(g, tail)
  {
    LateFields(g, tail);
  }

  lemma LateIs14(g: GipInput, tail: seq<byte>)
    requires |tail| >= 10
    ensures Layout14(Encode14(g)[8..] + tail) == g <==> Echo14(g, tail)
  {
    var e, q := Encode14(g), Encode14(g)[8..] + tail;
    LateFields(g, tail);
    ReadAs14(q, g);
    assert e == e[..6] + e[6..];
    if q[..14] == e {
      assert e[..6] == (e[8..] + tail[..8])[..6] && e[6..] == (e[8..] + tail[..8])[6..];
    }
  }

  lemma LateIs16(g: GipInput, tail: seq<byte>)
    requires |tail| >= 10
    ensures Layout16(Encode14(g)[8..] + tail) == g <==> Echo16(g, tail)
  {
    var e, q := Encode14(g), Encode14(g)[8..] + tail;
    LateFields(g, tail);
    ReadAs16(q, g);
    assert e[2..] == e[2..4] + e[4..];
    if q[4..16] == e[2..] {
      assert e[2..4] == (e[12..] + tail[..10])[..2] && e[4..] == (e[12..] + tail[..10])[2..];
    }
  }

  /** What a bare state is read as when it is taken for a wrapped one. */
  function Late(g: GipInput, tail: seq<byte>): GipInput
    requires |tail| >= 10
  {
    var q := Encode14(g)[8..] + tail;
    if Prefers16(q) then Layout16(q) else Layout14(q)
  }

  lemma BareDecodes(g: GipInput, tail: seq<byte>)
    ensures TakenForWrapped(g, tail) ==> DecodeInput(Encode14(g) + tail) == Some(Late(g, tail))
    ensures !TakenForWrapped(g, tail) && !TakenFor16(g, tail) ==> DecodeInput(Encode14(g) + tail) == Some(g)
    ensures !TakenForWrapped(g, tail) && TakenFor16(g, tail) ==> DecodeInput(Encode14(g) + tail) != Some(g)
  {
    var p := Encode14(g) + tail;
    BareLooksWrapped(g, tail);
    BarePrefers16(g, tail);
    Layout14Inverse(g, tail);
    if TakenForWrapped(g, tail) { assert p[8..] == Encode14(g)[8..] + tail; }
  }

  /** Every bare state with any bytes behind it: whether it survives is decided by its own fields and those bytes. */
  lemma BareRoundTrip(g: GipInput, tail: seq<byte>)
    ensures DecodeInput(Encode14(g) + tail) == Some(g) <==>
            if !TakenForWrapped(g, tail) then !TakenFor16(g, tail)
            else if LateTakenFor16(g, tail) then Echo16(g, tail)
            else Echo14(g, tail)
  {
    BareDecodes(g, tail);
    if TakenForWrapped(g, tail) {
      LatePrefers16(g, tail);
      LateIs14(g, tail);
      LateIs16(g, tail);
    }
  }

  /** A repeated state decides by itself which late reading is taken. */
  lemma EchoTriggers(g: GipInput, tail: seq<byte>)
    requires |tail| >= 10 && RealisticTriggers(g)
    ensures Echo14(g, tail) ==> !LateTakenFor16(g, tail)
    ensures Echo16(g, tail) ==> (LateTakenFor16(g, tail) <==> ToU16(g.rx) > 4095)
  {
    var e := Encode14(g);
    EncodedFields(g);
    ReadsBack(e, 2, g.lt);
    ReadsBack(e, 4, g.rt);
    ReadsBack(e, 10, ToU16(g.rx));
    ReadsBack(e, 12, ToU16(g.ry));
    if Echo14(g, tail) {
      assert e[2] == e[..6][2] == e[8..][2] == e[10] && e[3] == e[..6][3] == e[8..][3] == e[11];
    }
    if Echo16(g, tail) {
      assert e[2] == e[2..4][0] == e[12..][0] == e[12] && e[3] == e[2..4][1] == e[12..][1] == e[13];
      assert tail[0] == tail[..10][0] == e[4..][0] == e[4] && tail[1] == tail[..10][1] == e[4..][1] == e[5];
    }
  }

  /** With the triggers in range: it survives unless it looks like a wrapped one and is not repeated eight bytes on. */
  lemma PlausibleRoundTrip(g: GipInput, tail: seq<byte>)
    requires RealisticTriggers(g)
    ensures DecodeInput(Encode14(g) + tail) == Some(g) <==>
            !TakenForWrapped(g, tail) || Echo14(g, tail) || (Echo16(g, tail) && ToU16(g.rx) > 4095)
  {
    BareRoundTrip(g, tail);
    if TakenForWrapped(g, tail) { EchoTriggers(g, tail); }
  }

  const MISREAD := GipInput(0x10, 0, 0x20, 0x0e00, 0, 0, 0)

  /** A press of A with the triggers in range and the left stick to the right: ten bytes behind it and it is lost. */
  lemma BareCanBeMisread()
    ensures RealisticTriggers(MISREAD) && !TakenFor16(MISREAD, Zeros(10))
    ensures DecodeInput(Encode14(MISREAD) + Zeros(10)) != Some(MISREAD)
  {
    PlausibleRoundTrip(MISREAD, Zeros(10));
    var e := Encode14(MISREAD);
    assert e[..6][0] == 0x10 && e[8..][0] == 0;
  }

  /** The same behind the 8-byte wrapper, whatever its other bytes are. */
  lemma WrappedRoundTrip(wrapper: seq<byte>, g: GipInput, tail: seq<byte>)
    requires |wrapper| == 8 && wrapper[4] == CMD_INPUT && wrapper[7] >= 14 && |tail| >= 2
    ensures DecodeInput(wrapper + Encode14(g) + tail) == Some(g) <==> !TakenFor16(g, tail)
    ensures RealisticTriggers(g) ==> DecodeInput(wrapper + Encode14(g) + tail) == Some(g)
  {
    var payload := wrapper + Encode14(g) + tail;
    assert payload[8..] == Encode14(g) + tail;
    Layout14Inverse(g, tail);
    BarePrefers16(g, tail);
  }

  /** Only payloads too short for 14 bytes are dropped. The reported triggers are in range whenever one of the two
      readings has them in range, and a plausible 14-byte reading is never overruled. */
  lemma LayoutChoice(payload: seq<byte>)
    ensures DecodeInput(payload).None? <==> |Unwrap(payload)| < 14
    ensures |Unwrap(payload)| >= 14 ==>
              var p, g := Unwrap(payload), DecodeInput(payload).value;
              && (RealisticTriggers(g) <==>
                  RealisticTriggers(Layout14(p)) || (|p| >= 16 && RealisticTriggers(Layout16(p))))
              && (RealisticTriggers(Layout14(p)) || !RealisticTriggers(g) ==> g == Layout14(p))
  {
  }

  // ---------------------------------------------------------------- frames

  /** `gip_build`: the packet, or None when it does not fit in `cap` bytes. */
  function BuildGip(cap: nat, cmd: byte, flags: byte, sequence: byte, payload: seq<byte>): Option<seq<byte>>
    requires |payload| < 256
  {
    if cap < 4 + |payload| then None else Some([cmd, flags, sequence, |payload|] + payload)
  }

  /** `gip_build` as the source writes it: into the caller's buffer, whose remaining bytes stay as they were. */
  method GipBuild(buf: array<byte>, cmd: byte, flags: byte, sequence: byte, payload: seq<byte>) returns (n: nat)
    requires |payload| < 256
    modifies buf
    ensures n <= buf.Length
    ensures BuildGip(buf.Length, cmd, flags, sequence, payload) == if n == 0 then None else Some(buf[..n])
    ensures buf[n..] == old(buf[..])[n..]
  {
    if buf.Length < 4 + |payload| {
      return 0;
    }
    buf[0] := cmd;
    buf[1] := flags;
    buf[2] := sequence;
    buf[3] := |payload|;
    for i := 0 to |payload|
      invariant buf[..4] == [cmd, flags, sequence, |payload|]
      invariant buf[4..4 + i] == payload[..i]
      invariant buf[4 + i..] == old(buf[..])[4 + i..]
    {
      ghost var was := buf[..];
      buf[4 + i] := payload[i];
      assert buf[..4] == was[..4] && buf[4..4 + i] == was[4..4 + i];
      assert buf[4..4 + i + 1] == buf[4..4 + i] + [payload[i]];
      assert buf[4 + i + 1..] == was[4 + i..][1..];
      assert payload[..i + 1] == payload[..i] + [payload[i]];
    }
    n := 4 + |payload|;
    assert buf[..n] == buf[..4] + buf[4..n];
    assert buf[4..n] == payload;
  }

  /** The payload `dispatch_wlan_gip` hands on: the declared length, cut to what arrived. */
  function GipPayload(gip: seq<byte>): (p: seq<byte>)
    requires |gip| >= 4
    ensures p <= gip[4..] && |p| <= gip[3] && (|p| < gip[3] ==> |p| == |gip| - 4)
  {
    var available := |gip| - 4;
    gip[4..4 + if gip[3] < available then gip[3] as int else available]
  }

  /** What `gip_build` packs, `dispatch_wlan_gip` unpacks, trailing radio bytes or not. */
  lemma GipFrameRoundTrip(cap: nat, cmd: byte, flags: byte, sequence: byte, payload: seq<byte>, trailing: seq<byte>)
    requires |payload| < 256 && 4 + |payload| <= cap
    ensures var gip := BuildGip(cap, cmd, flags, sequence, payload).value + trailing;
            |gip| >= 4 && gip[0] == cmd && gip[1] == flags && gip[2] == sequence && GipPayload(gip) == payload
  {
  }
}
