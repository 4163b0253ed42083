// The daemon's event stream as text: what `event_udp_send` prints, and what the substring scanners of the
// two readers (`json_has_type`, `json_get_int`, `json_get_bool`) get back out of it.

module EventLines {
  import opened Bytes
  import opened Gip
  import opened Text

  datatype Event =
    | Connected(slot: byte)
    | Disconnected(slot: byte)
    | Guide(slot: byte, pressed: bool)
    | Input(slot: byte, state: GipInput)
    | HidUnavailable

  // ---------------------------------------------------------------- printer

  function Bool(b: bool): string { if b then "true" else "false" }

  function Print(e: Event): string {
    match e
    case Connected(k) => "{\"type\":\"connected\"" + (",\"slot\":" + (Dec(k) + "}"))
    case Disconnected(k) => "{\"type\":\"disconnected\"" + (",\"slot\":" + (Dec(k) + "}"))
    case Guide(k, pressed) =>
      "{\"type\":\"guide\"" + (",\"slot\":" + (Dec(k) + (",\"pressed\":" + (Bool(pressed) + "}"))))
    case Input(k, g) =>
      "{\"type\":\"input\"" + (",\"slot\":" + (Dec(k) + (",\"buttons\":" + (Dec(g.buttons)
      + (",\"lt\":" + (Dec(g.lt) + (",\"rt\":" + (Dec(g.rt) + (",\"lx\":" + (Dec(g.lx) + (",\"ly\":" + (Dec(g.ly)
      + (",\"rx\":" + (Dec(g.rx) + (",\"ry\":" + (Dec(g.ry) + "}"))))))))))))))))
    case HidUnavailable => "{\"type\":\"hid_unavailable\"}"
  }

  /** `snprintf` into `cap` bytes: all of the text, or as much as leaves room for the terminator. */
  function Snprintf(cap: nat, text: string): string
    requires cap > 0
  {
    if |text| < cap then text else text[..cap - 1]
  }

  const MSG_SIZE: nat := 320

  /** `event_udp_send`: one datagram; the text is cut so that the newline and terminator still fit. */
  function Datagram(e: Event): string {
    var n := if |Print(e)| >= MSG_SIZE - 2 then MSG_SIZE - 2 else |Print(e)|;
    Snprintf(MSG_SIZE, Print(e))[..n] + "\n"
  }

  // ---------------------------------------------------------------- readers

  function KeyNeedle(key: string): string { Snprintf(64, "\"" + key + "\":") }

  function TypeNeedle(kind: string): string { Snprintf(64, "\"type\":\"" + kind + "\"") }

  predicate HasType(json: string, kind: string) { Strstr(json, TypeNeedle(kind)).Some? }

  function SkipBlanks(s: string): string {
    if s != "" && (s[0] == ' ' || s[0] == '\t') then SkipBlanks(s[1..]) else s
  }

  function GetInt(json: string, key: string): Option<int> {
    var found := Strstr(json, KeyNeedle(key));
    if found.None? then None
    else
      var p := SkipBlanks(found.value[|KeyNeedle(key)|..]);
      var (v, end) := Strtol(p);
      if end == p then None else Some(ToI32(v))
  }

  /** An integer field the reader may do without. */
  function IntOrZero(json: string, key: string): int {
    if GetInt(json, key).Some? then GetInt(json, key).value else 0
  }

  function GetBool(json: string, key: string): Option<bool> {
    var found := Strstr(json, KeyNeedle(key));
    if found.None? then None
    else
      var p := SkipBlanks(found.value[|KeyNeedle(key)|..]);
      if "true" <= p then Some(true) else if "false" <= p then Some(false) else None
  }

  /** `json_get_int`: the pointer walks over blanks, the result goes out through `value`. */
  method JsonGetInt(json: string, key: string, default: int) returns (ok: bool, value: int)
    ensures ok == GetInt(json, key).Some?
    ensures value == if ok then GetInt(json, key).value else default
  {
    value := default;
    var found := Strstr(json, KeyNeedle(key));
    if found.None? { return false, value; }
    var p := found.value[|KeyNeedle(key)|..];
    while p != "" && (p[0] == ' ' || p[0] == '\t')
      invariant SkipBlanks(p) == SkipBlanks(found.value[|KeyNeedle(key)|..])
      decreases |p|
    {
      p := p[1..];
    }
    var (v, end) := Strtol(p);
    if end == p { return false, value; }
    return true, ToI32(v);
  }

  /** `json_get_bool` */
  method JsonGetBool(json: string, key: string, default: bool) returns (ok: bool, value: bool)
    ensures ok == GetBool(json, key).Some?
    ensures value == if ok then GetBool(json, key).value else default
  {
    value := default;
    var found := Strstr(json, KeyNeedle(key));
    if found.None? { return false, value; }
    var p := found.value[|KeyNeedle(key)|..];
    while p != "" && (p[0] == ' ' || p[0] == '\t')
      invariant SkipBlanks(p) == SkipBlanks(found.value[|KeyNeedle(key)|..])
      decreases |p|
    {
      p := p[1..];
    }
    if "true" <= p { return true, true; }
    if "false" <= p { return true, false; }
    return false, value;
  }

  // ---------------------------------------------------------------- shape of a line

  /** One `"key":value` pair. The printer's lines are lists of these; that is all the scanners rely on. */
  datatype Field = Field(key: string, value: string)

  predicate Plain(s: string) {
    s != "" && forall i :: 0 <= i < |s| ==> s[i] != '"' && s[i] != ':' && s[i] != ',' && s[i] != '}'
  }

  predicate QuotedPlain(v: string) { |v| >= 2 && v[0] == '"' && v[|v| - 1] == '"' && Plain(v[1..|v| - 1]) }

  predicate WellFormed(f: Field) {
    Plain(f.key) && |f.key| < 60 && (Quoteless(f.value) || QuotedPlain(f.value))
  }

  predicate AllWellFormed(fs: seq<Field>) { forall i :: 0 <= i < |fs| ==> WellFormed(fs[i]) }

  function After(fs: seq<Field>): string
    decreases |fs|, 1
  {
    if fs == [] then "}" else "," + Fields(fs)
  }

  function Fields(fs: seq<Field>): string
    requires fs != []
    decreases |fs|, 0
  {
    "\"" + fs[0].key + "\":" + fs[0].value + After(fs[1..])
  }

  function Line(fs: seq<Field>): string
    requires fs != []
  {
    "{" + Fields(fs)
  }

  /** What may follow a value: never a quote or a colon, so no needle can straddle the end of a field. */
  predicate Boundary(tail: string) { tail != "" && (tail[0] == ',' || tail[0] == '}') }

  /** Inside one field a key needle can only sit at the field's own opening quote. */
  lemma SkipAfterQuote(k: string, v: string, tail: string, key: string)
    requires Plain(k) && Plain(key) && (Quoteless(v) || QuotedPlain(v)) && Boundary(tail)
    ensures Strstr(k + "\":" + v + tail, "\"" + key + "\":") == Strstr(tail, "\"" + key + "\":")
  {
    var needle := "\"" + key + "\":";
    var rest := "\":" + v + tail;
    assert k + "\":" + v + tail == k + rest;
    SkipQuoteless(k, rest, needle);
    assert needle[1] == key[0] && rest[1] == ':';
    assert !(needle <= rest);
    assert rest[1..] == ":" + v + tail;
    SkipValue(v, tail, key);
  }

  lemma SkipValue(v: string, tail: string, key: string)
    requires Plain(key) && (Quoteless(v) || QuotedPlain(v)) && Boundary(tail)
    ensures Strstr(":" + v + tail, "\"" + key + "\":") == Strstr(tail, "\"" + key + "\":")
  {
    var needle := "\"" + key + "\":";
    if Quoteless(v) {
      SkipQuoteless(":" + v, tail, needle);
    } else {
      var p := v[1..|v| - 1];
      assert v == "\"" + p + "\"";
      var open := "\"" + p + "\"" + tail;
      assert ":" + v + tail == ":" + open;
      SkipQuoteless(":", open, needle);
      SkipWord(p, tail, key);
    }
  }

  lemma SkipWord(p: string, tail: string, key: string)
    requires Plain(p) && Plain(key) && Boundary(tail)
    ensures Strstr("\"" + p + "\"" + tail, "\"" + key + "\":") == Strstr(tail, "\"" + key + "\":")
  {
    var needle, open, close := "\"" + key + "\":", "\"" + p + "\"" + tail, "\"" + tail;
    NoNeedleAt(p, tail, key);
    assert open[1..] == p + close;
    SkipQuoteless(p, close, needle);
    assert needle[1] == key[0] && close[1] == tail[0];
    assert close[1..] == tail;
  }

  /** Two quoted words, one a prefix of text starting with the other, are the same word. */
  lemma SameWord(key: string, word: string, rest: string)
    requires Plain(key) && Plain(word)
    requires "\"" + key + "\"" <= "\"" + word + "\"" + rest
    ensures word == key
  {
    var needle, hay := "\"" + key + "\"", "\"" + word + "\"" + rest;
    assert forall i :: 0 <= i < |key| ==> needle[1 + i] == key[i] && hay[1 + i] == key[i];
    assert forall i :: 0 <= i < |word| ==> hay[1 + i] == word[i];
    assert hay[1 + |key|] == '"' && hay[1 + |word|] == '"';
    assert |key| == |word|;
    assert forall i :: 0 <= i < |key| ==> key[i] == word[i];
  }

  /** A quoted word that is another one, or is not followed by a colon, is not a key. */
  lemma NoNeedleAt(word: string, rest: string, key: string)
    requires Plain(word) && Plain(key) && rest != ""
    requires word != key || rest[0] != ':'
    ensures !("\"" + key + "\":" <= "\"" + word + "\"" + rest)
  {
    var needle, hay := "\"" + key + "\":", "\"" + word + "\"" + rest;
    assert needle[|key| + 2] == ':';
    if needle <= hay {
      assert "\"" + key + "\"" <= hay by { assert needle[..|key| + 2] == "\"" + key + "\""; }
      SameWord(key, word, rest);
    }
  }

  lemma OpeningQuote(fs: seq<Field>)
    requires fs != []
    ensures var f, tail := fs[0], After(fs[1..]);
            && Fields(fs) == "\"" + f.key + "\"" + (":" + f.value + tail)
            && Fields(fs)[1..] == f.key + "\":" + f.value + tail
  {
  }

  /** The scanner steps over a field with another key. */
  lemma SkipField(fs: seq<Field>, key: string)
    requires fs != [] && AllWellFormed(fs) && Plain(key) && fs[0].key != key
    ensures Strstr(Fields(fs), "\"" + key + "\":") == Strstr(After(fs[1..]), "\"" + key + "\":")
  {
    var f, tail := fs[0], After(fs[1..]);
    var hay := Fields(fs);
    var rest := ":" + f.value + tail;
    assert Boundary(tail);
    OpeningQuote(fs);
    NoNeedleAt(f.key, rest, key);
    SkipAfterQuote(f.key, f.value, tail, key);
  }

  lemma FirstField(fs: seq<Field>)
    requires fs != [] && AllWellFormed(fs)
    ensures Fields(fs) == KeyNeedle(fs[0].key) + (fs[0].value + After(fs[1..]))
    ensures Strstr(Fields(fs), KeyNeedle(fs[0].key)) == Some(Fields(fs))
  {
  }

  /** The scanner finds the first field that has the key, and points just behind its colon. */
  lemma {:induction false} FindsKey(fs: seq<Field>, i: nat)
    requires AllWellFormed(fs) && i < |fs|
    requires forall j :: 0 <= j < i ==> fs[j].key != fs[i].key
    ensures Strstr(Fields(fs), KeyNeedle(fs[i].key)) == Some(Fields(fs[i..]))
  {
    if i == 0 {
      assert fs[0..] == fs;
      FirstField(fs);
    } else {
      var key, rest := fs[i].key, fs[1..];
      SkipField(fs, key);
      assert After(rest)[1..] == Fields(rest);
      assert After(rest)[0] == ',';
      assert rest[i - 1..] == fs[i..];
      FindsKey(rest, i - 1);
    }
  }

  lemma {:induction false} MissesKey(fs: seq<Field>, key: string)
    requires AllWellFormed(fs) && Plain(key) && |key| < 60
    requires forall j :: 0 <= j < |fs| ==> fs[j].key != key
    ensures Strstr(After(fs), "\"" + key + "\":").None?
  {
    var needle := "\"" + key + "\":";
    if fs == [] {
      assert "}"[1..] == "";
    } else {
      SkipField(fs, key);
      assert After(fs)[1..] == Fields(fs);
      MissesKey(fs[1..], key);
    }
  }

  lemma LineStartsAtFields(fs: seq<Field>, needle: string)
    requires fs != [] && needle != "" && needle[0] == '"'
    ensures Strstr(Line(fs), needle) == Strstr(Fields(fs), needle)
  {
    assert Line(fs)[1..] == Fields(fs);
  }

  ghost predicate Lacks(fs: seq<Field>, key: string) { forall i :: 0 <= i < |fs| ==> fs[i].key != key }

  /** A key that no field has reads as missing, and as zero where zero is the default. */
  lemma MissingIsZero(fs: seq<Field>, key: string)
    requires fs != [] && AllWellFormed(fs) && Plain(key) && |key| < 60 && Lacks(fs, key)
    ensures GetInt(Line(fs), key).None? && GetBool(Line(fs), key).None? && IntOrZero(Line(fs), key) == 0
  {
    assert KeyNeedle(key) == "\"" + key + "\":";
    LineStartsAtFields(fs, KeyNeedle(key));
    MissesKey(fs, key);
    assert After(fs)[1..] == Fields(fs);
  }

  lemma NeedleText(asked: string)
    requires |asked| < 50
    ensures TypeNeedle(asked) == "\"type\":" + ("\"" + asked + "\"")
  {
    assert "\"type\":\"" == "\"type\":" + "\"";
  }

  lemma TypeAtStart(fs: seq<Field>, kind: string, asked: string)
    requires fs != [] && AllWellFormed(fs) && Plain(kind) && Plain(asked)
    requires fs[0] == Field("type", "\"" + kind + "\"")
    ensures "\"type\":" + ("\"" + asked + "\"") <= Fields(fs) <==> kind == asked
  {
    var tail := After(fs[1..]);
    var head := "\"type\":";
    var word := "\"" + asked + "\"";
    var rest := "\"" + kind + "\"" + tail;
    assert "\"" + "type" + "\":" == head;
    assert Fields(fs) == head + rest;
    PrefixBehind(head, word, rest);
    if word <= rest {
      SameWord(asked, kind, tail);
    }
  }

  lemma PrefixBehind(head: string, a: string, b: string)
    ensures head + a <= head + b <==> a <= b
  {
    if a <= b {
      assert b == a + b[|a|..];
      Associative(head, a, b[|a|..]);
    }
    if head + a <= head + b {
      assert (head + a)[|head|..] == a && (head + b)[|head|..] == b;
    }
  }

  /** A line whose first field is its type, and whose other keys are not "type", has exactly that type. */
  lemma TypeIsExact(fs: seq<Field>, kind: string, asked: string)
    requires fs != [] && AllWellFormed(fs) && Plain(kind) && Plain(asked) && |asked| < 50
    requires fs[0] == Field("type", "\"" + kind + "\"")
    requires forall j :: 1 <= j < |fs| ==> fs[j].key != "type"
    ensures HasType(Line(fs), asked) <==> kind == asked
  {
    var needle := TypeNeedle(asked);
    NeedleText(asked);
    LineStartsAtFields(fs, needle);
    TypeAtStart(fs, kind, asked);
    if !(needle <= Fields(fs)) {
      TypeFurtherOn(fs, kind, asked);
    }
  }

  /** A key is not found again behind the quote that opens it. */
  lemma KeyFurtherOn(fs: seq<Field>, key: string)
    requires fs != [] && AllWellFormed(fs) && Plain(key) && |key| < 60 && fs[0].key == key
    requires forall j :: 1 <= j < |fs| ==> fs[j].key != key
    ensures Strstr(Fields(fs)[1..], "\"" + key + "\":").None?
  {
    OpeningQuote(fs);
    SkipAfterQuote(key, fs[0].value, After(fs[1..]), key);
    MissesKey(fs[1..], key);
  }

  /** Past the opening quote of the type field there is no other type field. */
  lemma TypeFurtherOn(fs: seq<Field>, kind: string, asked: string)
    requires fs != [] && AllWellFormed(fs)
    requires fs[0] == Field("type", "\"" + kind + "\"")
    requires forall j :: 1 <= j < |fs| ==> fs[j].key != "type"
    ensures Strstr(Fields(fs)[1..], "\"type\":" + ("\"" + asked + "\"")).None?
  {
    KeyFurtherOn(fs, "type");
    assert "\"" + "type" + "\":" == "\"type\":";
    NoPrefixNoWhole(Fields(fs)[1..], "\"type\":", "\"" + asked + "\"");
  }

  // ---------------------------------------------------------------- round trip

  function Kind(e: Event): string {
    match e
    case Connected(_) => "connected"
    case Disconnected(_) => "disconnected"
    case Guide(_, _) => "guide"
    case Input(_, _) => "input"
    case HidUnavailable => "hid_unavailable"
  }

  function Int(key: string, v: int): Field { Field(key, Dec(v)) }

  /** The pairs after the type. */
  function Pairs(e: Event): seq<Field> {
    match e
    case Connected(k) => [Int("slot", k)]
    case Disconnected(k) => [Int("slot", k)]
    case Guide(k, pressed) => [Int("slot", k), Field("pressed", Bool(pressed))]
    case Input(k, g) =>
      [Int("slot", k), Int("buttons", g.buttons), Int("lt", g.lt), Int("rt", g.rt),
       Int("lx", g.lx), Int("ly", g.ly), Int("rx", g.rx), Int("ry", g.ry)]
    case HidUnavailable => []
  }

  function FieldsOf(e: Event): seq<Field> { [Field("type", "\"" + Kind(e) + "\"")] + Pairs(e) }

  /** Two letters tell the keys apart. */
  function Code(key: string): int
    requires |key| >= 2
  {
    256 * key[0] as int + key[1] as int
  }

  lemma KnownKey(f: Field)
    requires f.key in ["type", "slot", "pressed", "buttons", "lt", "rt", "lx", "ly", "rx", "ry"]
    requires Quoteless(f.value)
    ensures WellFormed(f)
  {
  }

  lemma KindIsPlain(e: Event)
    ensures Plain(Kind(e)) && |Kind(e)| < 50
  {
  }

  lemma PairsWellFormed(e: Event)
    ensures AllWellFormed(Pairs(e))
  {
    match e {
      case Connected(k) => SlotWellFormed(k);
      case Disconnected(k) => SlotWellFormed(k);
      case Guide(k, pressed) => SlotWellFormed(k); KnownKey(Field("pressed", Bool(pressed)));
      case Input(k, g) =>
        SlotWellFormed(k);
        TriggersWellFormed(g);
        SticksWellFormed(g);
      case HidUnavailable =>
    }
  }

  lemma SlotWellFormed(k: byte)
    ensures WellFormed(Int("slot", k))
  {
    KnownKey(Int("slot", k));
  }

  lemma TriggersWellFormed(g: GipInput)
    ensures WellFormed(Int("buttons", g.buttons)) && WellFormed(Int("lt", g.lt)) && WellFormed(Int("rt", g.rt))
  {
    KnownKey(Int("buttons", g.buttons));
    KnownKey(Int("lt", g.lt));
    KnownKey(Int("rt", g.rt));
  }

  lemma SticksWellFormed(g: GipInput)
    ensures WellFormed(Int("lx", g.lx)) && WellFormed(Int("ly", g.ly))
    ensures WellFormed(Int("rx", g.rx)) && WellFormed(Int("ry", g.ry))
  {
    KnownKey(Int("lx", g.lx));
    KnownKey(Int("ly", g.ly));
    KnownKey(Int("rx", g.rx));
    KnownKey(Int("ry", g.ry));
  }

  lemma TypeFieldWellFormed(kind: string)
    requires Plain(kind)
    ensures WellFormed(Field("type", "\"" + kind + "\""))
  {
    var v := "\"" + kind + "\"";
    assert v[1..|v| - 1] == kind;
  }

  lemma FieldsWellFormed(e: Event)
    ensures AllWellFormed(FieldsOf(e))
  {
    KindIsPlain(e);
    TypeFieldWellFormed(Kind(e));
    PairsWellFormed(e);
  }

  lemma KeysDiffer(e: Event)
    ensures forall i, j :: 0 <= i < j < |FieldsOf(e)| ==> FieldsOf(e)[i].key != FieldsOf(e)[j].key
  {
    var fs := FieldsOf(e);
    if e.Input? {
      assert Code(fs[0].key) == 29817 && Code(fs[1].key) == 29548 && Code(fs[2].key) == 25205;
      assert Code(fs[3].key) == 27764 && Code(fs[4].key) == 29300 && Code(fs[5].key) == 27768;
      assert Code(fs[6].key) == 27769 && Code(fs[7].key) == 29304 && Code(fs[8].key) == 29305;
    }
  }

  lemma ConsField(f: Field, rest: seq<Field>, text: string)
    requires text == ",\"" + f.key + "\":"
    ensures After([f] + rest) == text + (f.value + After(rest))
  {
    assert ([f] + rest)[1..] == rest;
    assert After([f] + rest) == "," + ("\"" + f.key + "\":" + f.value + After(rest));
  }

  lemma Associative(a: string, b: string, c: string)
    ensures (a + b) + c == a + (b + c)
  {
  }

  function TypeText(kind: string): string { "{\"type\":\"" + (kind + "\"") }

  lemma TypeHead(kind: string)
    ensures "{" + ("\"" + "type" + "\":" + ("\"" + kind + "\"")) == TypeText(kind)
  {
    assert "\"" + "type" + "\":" == "\"type\":";
    Associative("\"type\":", "\"", kind + "\"");
    Associative("\"", kind, "\"");
    assert "\"type\":" + "\"" == "\"type\":\"";
    Associative("{", "\"type\":\"", kind + "\"");
    assert "{" + "\"type\":\"" == "{\"type\":\"";
  }

  lemma TypeFirst(e: Event)
    ensures Line(FieldsOf(e)) == TypeText(Kind(e)) + After(Pairs(e))
  {
    var fs := FieldsOf(e);
    var head := "\"" + "type" + "\":" + ("\"" + Kind(e) + "\"");
    assert fs[1..] == Pairs(e);
    assert Fields(fs) == head + After(Pairs(e));
    Associative("{", head, After(Pairs(e)));
    TypeHead(Kind(e));
  }

  lemma PadEventText(e: Event)
    requires e.Guide? || e.Input?
    ensures TypeText(Kind(e)) == if e.Guide? then "{\"type\":\"guide\"" else "{\"type\":\"input\""
  {
  }

  lemma ConnectionText(e: Event)
    requires e.Connected? || e.Disconnected?
    ensures TypeText(Kind(e)) == if e.Connected? then "{\"type\":\"connected\"" else "{\"type\":\"disconnected\""
  {
  }

  lemma UnavailableText()
    ensures TypeText("hid_unavailable") + "}" == "{\"type\":\"hid_unavailable\"}"
  {
  }

  lemma SlotText(k: byte, rest: seq<Field>)
    ensures After([Int("slot", k)] + rest) == ",\"slot\":" + (Dec(k) + After(rest))
  {
    ConsField(Int("slot", k), rest, ",\"slot\":");
  }

  lemma SlotOnlyText(k: byte)
    ensures After([Int("slot", k)]) == ",\"slot\":" + (Dec(k) + "}")
  {
    SlotText(k, []);
    assert [Int("slot", k)] + [] == [Int("slot", k)];
  }

  lemma GuidePairsText(k: byte, pressed: bool)
    ensures After(Pairs(Guide(k, pressed))) == ",\"slot\":" + (Dec(k) + (",\"pressed\":" + (Bool(pressed) + "}")))
  {
    var p := Field("pressed", Bool(pressed));
    ConsField(p, [], ",\"pressed\":");
    assert [p] + [] == [p];
    SlotText(k, [p]);
    assert Pairs(Guide(k, pressed)) == [Int("slot", k)] + [p];
  }

  /** The C format strings print exactly the field list. */
  lemma PrintIsLine(e: Event)
    ensures Print(e) == Line(FieldsOf(e))
  {
    TypeFirst(e);
    match e {
      case Connected(k) => ConnectionText(e); SlotOnlyText(k);
      case Disconnected(k) => ConnectionText(e); SlotOnlyText(k);
      case Guide(k, pressed) => PadEventText(e); GuidePairsText(k, pressed);
      case Input(k, g) => PadEventText(e); InputPairsText(k, g);
      case HidUnavailable => UnavailableText();
    }
  }

  lemma PairText(a: Field, b: Field, rest: seq<Field>, ta: string, tb: string)
    requires ta == ",\"" + a.key + "\":" && tb == ",\"" + b.key + "\":"
    ensures After([a, b] + rest) == ta + (a.value + (tb + (b.value + After(rest))))
  {
    ConsField(b, rest, tb);
    ConsField(a, [b] + rest, ta);
    assert [a] + ([b] + rest) == [a, b] + rest;
  }

  function StickPairs(g: GipInput): seq<Field> {
    [Int("lx", g.lx), Int("ly", g.ly), Int("rx", g.rx), Int("ry", g.ry)]
  }

  lemma SticksText(g: GipInput)
    ensures After(StickPairs(g)) ==
            ",\"lx\":" + (Dec(g.lx) + (",\"ly\":" + (Dec(g.ly)
            + (",\"rx\":" + (Dec(g.rx) + (",\"ry\":" + (Dec(g.ry) + "}")))))))
  {
    var right := [Int("rx", g.rx), Int("ry", g.ry)] + [];
    PairText(Int("rx", g.rx), Int("ry", g.ry), [], ",\"rx\":", ",\"ry\":");
    PairText(Int("lx", g.lx), Int("ly", g.ly), right, ",\"lx\":", ",\"ly\":");
    assert [Int("lx", g.lx), Int("ly", g.ly)] + right == StickPairs(g);
  }

  lemma InputPairsText(k: byte, g: GipInput)
    ensures After(Pairs(Input(k, g))) ==
            ",\"slot\":" + (Dec(k) + (",\"buttons\":" + (Dec(g.buttons)
            + (",\"lt\":" + (Dec(g.lt) + (",\"rt\":" + (Dec(g.rt) + (",\"lx\":" + (Dec(g.lx) + (",\"ly\":" + (Dec(g.ly)
            + (",\"rx\":" + (Dec(g.rx) + (",\"ry\":" + (Dec(g.ry) + "}")))))))))))))))
  {
    var triggers := [Int("lt", g.lt), Int("rt", g.rt)] + StickPairs(g);
    SticksText(g);
    PairText(Int("lt", g.lt), Int("rt", g.rt), StickPairs(g), ",\"lt\":", ",\"rt\":");
    PairText(Int("slot", k), Int("buttons", g.buttons), triggers, ",\"slot\":", ",\"buttons\":");
    assert [Int("slot", k), Int("buttons", g.buttons)] + triggers == Pairs(Input(k, g));
  }

  /** Where the scanner for key number `i` of an event's line ends up. */
  lemma PointsAtValue(e: Event, i: nat, key: string, value: string)
    requires 1 <= i < |FieldsOf(e)| && FieldsOf(e)[i] == Field(key, value)
    ensures exists tail :: Boundary(tail) && PointsAt(Print(e), key, value + tail)
  {
    PrintIsLine(e);
    FieldsWellFormed(e);
    KeysDiffer(e);
    FieldPointsAt(FieldsOf(e), i);
    var tail := After(FieldsOf(e)[i..][1..]);
    assert Boundary(tail) && PointsAt(Print(e), key, value + tail);
  }

  lemma FieldPointsAt(fs: seq<Field>, i: nat)
    requires AllWellFormed(fs) && i < |fs|
    requires forall j, l :: 0 <= j < l < |fs| ==> fs[j].key != fs[l].key
    ensures var tail := After(fs[i..][1..]); Boundary(tail) && PointsAt(Line(fs), fs[i].key, fs[i].value + tail)
  {
    var rest := fs[i..];
    assert rest[0] == fs[i] && AllWellFormed(rest);
    LineStartsAtFields(fs, KeyNeedle(fs[i].key));
    FindsKey(fs, i);
    FirstField(rest);
  }

  predicate PointsAt(json: string, key: string, text: string) {
    Strstr(json, KeyNeedle(key)) == Some(KeyNeedle(key) + text)
  }

  lemma BehindNeedle(json: string, key: string, text: string)
    requires PointsAt(json, key, text)
    ensures Strstr(json, KeyNeedle(key)).value[|KeyNeedle(key)|..] == text
  {
  }

  lemma IntAt(json: string, key: string, v: int, tail: string)
    requires -0x8000_0000 <= v < 0x8000_0000
    requires Boundary(tail) && PointsAt(json, key, Dec(v) + tail)
    ensures GetInt(json, key) == Some(v)
  {
    BehindNeedle(json, key, Dec(v) + tail);
    assert (Dec(v) + tail)[0] == Dec(v)[0];
    StrtolInvertsDec(v, tail);
  }

  lemma BoolAt(json: string, key: string, b: bool, tail: string)
    requires PointsAt(json, key, Bool(b) + tail)
    ensures GetBool(json, key) == Some(b)
  {
    BehindNeedle(json, key, Bool(b) + tail);
    assert (Bool(b) + tail)[0] == Bool(b)[0];
    assert Bool(b) <= Bool(b) + tail;
  }

  /** The scanner for an integer key, run on a whole line, returns the printed number. */
  lemma ReadsInt(e: Event, i: nat, key: string, v: int)
    requires 1 <= i < |FieldsOf(e)| && FieldsOf(e)[i] == Int(key, v)
    requires -0x8000_0000 <= v < 0x8000_0000
    ensures GetInt(Print(e), key) == Some(v)
  {
    PointsAtValue(e, i, key, Dec(v));
    var json := Print(e);
    var tail :| Boundary(tail) && PointsAt(json, key, Dec(v) + tail);
    IntAt(json, key, v, tail);
  }

  lemma ReadsPressed(e: Event)
    requires e.Guide?
    ensures GetBool(Print(e), "pressed") == Some(e.pressed)
  {
    PointsAtValue(e, 2, "pressed", Bool(e.pressed));
    var json := Print(e);
    var tail :| Boundary(tail) && PointsAt(json, "pressed", Bool(e.pressed) + tail);
    BoolAt(json, "pressed", e.pressed, tail);
  }

  /** The readers' chain of type tests cannot confuse two kinds, although "connected" ends "disconnected". */
  lemma ReadsKind(e: Event, asked: string)
    requires Plain(asked) && |asked| < 50
    ensures HasType(Print(e), asked) <==> asked == Kind(e)
  {
    var fs := FieldsOf(e);
    PrintIsLine(e);
    FieldsWellFormed(e);
    KeysDiffer(e);
    KindIsPlain(e);
    TypeIsExact(fs, Kind(e), asked);
  }

  lemma KindsDiffer(e: Event)
    ensures Kind(e) == "connected" <==> e.Connected?
    ensures Kind(e) == "disconnected" <==> e.Disconnected?
    ensures Kind(e) == "guide" <==> e.Guide?
    ensures Kind(e) == "input" <==> e.Input?
  {
    assert |"connected"| == 9 && |"disconnected"| == 12 && |"hid_unavailable"| == 15;
    assert "guide"[0] == 'g' && "input"[0] == 'i';
  }

  lemma ConnectedSeen(e: Event)
    ensures HasType(Print(e), "connected") <==> Kind(e) == "connected"
  {
    ReadsKind(e, "connected");
  }

  lemma DisconnectedSeen(e: Event)
    ensures HasType(Print(e), "disconnected") <==> Kind(e) == "disconnected"
  {
    ReadsKind(e, "disconnected");
  }

  lemma GuideSeen(e: Event)
    ensures HasType(Print(e), "guide") <==> Kind(e) == "guide"
  {
    ReadsKind(e, "guide");
  }

  lemma InputSeen(e: Event)
    ensures HasType(Print(e), "input") <==> Kind(e) == "input"
  {
    ReadsKind(e, "input");
  }

  /** Every type test of the readers answers what it should. */
  lemma KindsSeen(e: Event)
    ensures HasType(Print(e), "connected") <==> e.Connected?
    ensures HasType(Print(e), "disconnected") <==> e.Disconnected?
    ensures HasType(Print(e), "guide") <==> e.Guide?
    ensures HasType(Print(e), "input") <==> e.Input?
  {
    ConnectedSeen(e);
    DisconnectedSeen(e);
    GuideSeen(e);
    InputSeen(e);
    KindsDiffer(e);
  }

  lemma ReadsButtons(e: Event)
    requires e.Input?
    ensures GetInt(Print(e), "buttons") == Some(e.state.buttons)
  {
    ReadsInt(e, 2, "buttons", e.state.buttons);
  }

  lemma ReadsTriggers(e: Event)
    requires e.Input?
    ensures GetInt(Print(e), "lt") == Some(e.state.lt)
    ensures GetInt(Print(e), "rt") == Some(e.state.rt)
  {
    ReadsInt(e, 3, "lt", e.state.lt);
    ReadsInt(e, 4, "rt", e.state.rt);
  }

  lemma ReadsSticks(e: Event)
    requires e.Input?
    ensures GetInt(Print(e), "lx") == Some(e.state.lx)
    ensures GetInt(Print(e), "ly") == Some(e.state.ly)
    ensures GetInt(Print(e), "rx") == Some(e.state.rx)
    ensures GetInt(Print(e), "ry") == Some(e.state.ry)
  {
    ReadsInt(e, 5, "lx", e.state.lx);
    ReadsInt(e, 6, "ly", e.state.ly);
    ReadsInt(e, 7, "rx", e.state.rx);
    ReadsInt(e, 8, "ry", e.state.ry);
  }

  lemma ReadsSlot(e: Event)
    requires !e.HidUnavailable?
    ensures GetInt(Print(e), "slot") == Some(e.slot)
  {
    ReadsInt(e, 1, "slot", e.slot);
  }

  // ---------------------------------------------------------------- datagrams

  predicate Unbroken(s: string) { forall i :: 0 <= i < |s| ==> !IsBreak(s[i]) }

  predicate Short(f: Field) { |f.key| <= 7 && |f.value| <= 17 && Unbroken(f.key) && Unbroken(f.value) }

  lemma {:induction false} AfterIsShort(fs: seq<Field>)
    requires forall i :: 0 <= i < |fs| ==> Short(fs[i])
    ensures |After(fs)| <= 1 + 28 * |fs| && Unbroken(After(fs))
  {
    if fs != [] {
      AfterIsShort(fs[1..]);
      assert Unbroken("\":");
      assert After(fs) == "," + ("\"" + fs[0].key + "\":" + fs[0].value + After(fs[1..]));
    }
  }

  lemma DecIsShort(key: string, v: int)
    requires |key| <= 7 && Unbroken(key) && -100000 < v < 100000
    ensures Short(Int(key, v))
  {
    assert Pow10(3) == 1000;
    assert Pow10(5) == 100000;
    DecNatLength(if v < 0 then -v else v, 5);
  }

  lemma TriggersAreShort(g: GipInput)
    ensures Short(Int("buttons", g.buttons)) && Short(Int("lt", g.lt)) && Short(Int("rt", g.rt))
  {
    DecIsShort("buttons", g.buttons);
    DecIsShort("lt", g.lt);
    DecIsShort("rt", g.rt);
  }

  lemma SticksAreShort(g: GipInput)
    ensures Short(Int("lx", g.lx)) && Short(Int("ly", g.ly)) && Short(Int("rx", g.rx)) && Short(Int("ry", g.ry))
  {
    DecIsShort("lx", g.lx);
    DecIsShort("ly", g.ly);
    DecIsShort("rx", g.rx);
    DecIsShort("ry", g.ry);
  }

  lemma PairsAreShort(e: Event)
    ensures forall i :: 0 <= i < |Pairs(e)| ==> Short(Pairs(e)[i])
  {
    match e {
      case Connected(k) => DecIsShort("slot", k);
      case Disconnected(k) => DecIsShort("slot", k);
      case Guide(k, _) => DecIsShort("slot", k);
      case Input(k, g) =>
        DecIsShort("slot", k);
        TriggersAreShort(g);
        SticksAreShort(g);
      case HidUnavailable =>
    }
  }

  lemma TypeTextIsShort(e: Event)
    ensures |TypeText(Kind(e))| <= 50 && Unbroken(TypeText(Kind(e)))
  {
    assert Unbroken(Kind(e)) && |Kind(e)| < 20;
    assert Unbroken("{\"type\":\"");
  }

  lemma PrintFits(e: Event)
    ensures |Print(e)| < MSG_SIZE - 2 && IsLine(Print(e))
  {
    PairsAreShort(e);
    AfterIsShort(Pairs(e));
    PrintIsLine(e);
    TypeFirst(e);
    TypeTextIsShort(e);
    PairCount(e);
  }

  lemma PairCount(e: Event)
    ensures |Pairs(e)| <= 8
  {
  }

  /** The 320-byte buffer never truncates an event. */
  lemma DatagramIsLine(e: Event)
    ensures Datagram(e) == Print(e) + "\n"
  {
    PrintFits(e);
  }

  function Stream(es: seq<Event>): string { if es == [] then "" else Datagram(es[0]) + Stream(es[1..]) }

  function Lines(es: seq<Event>): (ls: seq<string>)
    ensures |ls| == |es|
  {
    if es == [] then [] else [Print(es[0])] + Lines(es[1..])
  }

  lemma {:induction false} LinesAreLines(es: seq<Event>)
    ensures forall i :: 0 <= i < |es| ==> IsLine(Lines(es)[i])
  {
    if es != [] {
      PrintFits(es[0]);
      LinesAreLines(es[1..]);
    }
  }

  /** However many events arrive in one buffer, the reader's line loop sees exactly their lines, in order. */
  lemma StreamRoundTrip(es: seq<Event>)
    ensures Tokens(Stream(es)) == Lines(es)
  {
    StreamIsUnlines(es);
    LinesAreLines(es);
    TokensOfUnlines(Lines(es));
  }

  lemma {:induction false} StreamIsUnlines(es: seq<Event>)
    ensures Stream(es) == Unlines(Lines(es))
  {
    if es != [] {
      DatagramIsLine(es[0]);
      assert Lines(es)[1..] == Lines(es[1..]);
      StreamIsUnlines(es[1..]);
    }
  }

  /** The receive loop's in-place splitting of a buffer with `strtok_r`. */
  method SplitLines(buf: string) returns (lines: seq<string>)
    ensures lines == Tokens(buf)
  {
    lines := [];
    var rest := buf;
    while rest != ""
      invariant lines + Tokens(rest) == Tokens(buf)
      decreases |rest|
    {
      if IsBreak(rest[0]) {
        rest := rest[1..];
      } else {
        var n := 1;
        while n < |rest| && !IsBreak(rest[n])
          invariant 1 <= n <= |rest|
          invariant forall i :: 0 <= i < n ==> !IsBreak(rest[i])
        {
          n := n + 1;
        }
        LineLengthIs(rest, n);
        lines := lines + [rest[..n]];
        rest := rest[n..];
      }
    }
  }

  lemma {:induction false} LineLengthIs(s: string, n: nat)
    requires n <= |s| && (forall i :: 0 <= i < n ==> !IsBreak(s[i])) && (n < |s| ==> IsBreak(s[n]))
    ensures LineLength(s) == n
  {
    if n > 0 {
      LineLengthIs(s[1..], n - 1);
    }
  }
}
