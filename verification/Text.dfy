// The C text routines the event readers are built from (`strstr`, `strtol`, `snprintf`, `strtok_r`)
// and the decimal conversions `%u` and `%d`. A `char *` into a buffer is modelled by the suffix it points at.

module Text {
  import opened Bytes

  // ---------------------------------------------------------------- strstr

  /** The suffix starting at the first occurrence of `needle`, or None for NULL. */
  function Strstr(hay: string, needle: string): (r: Option<string>)
    ensures r.Some? ==> needle <= r.value
  {
    if needle <= hay then Some(hay)
    else if hay == "" then None
    else Strstr(hay[1..], needle)
  }

  /** A result of Strstr is an occurrence and there is none before it; None means no occurrence at all. */
  lemma {:induction false} StrstrIsFirst(hay: string, needle: string)
    ensures Strstr(hay, needle).Some? ==>
              exists i :: 0 <= i <= |hay| && Strstr(hay, needle).value == hay[i..] && needle <= hay[i..] &&
                          forall j :: 0 <= j < i ==> !(needle <= hay[j..])
    ensures Strstr(hay, needle).None? ==> forall j :: 0 <= j <= |hay| ==> !(needle <= hay[j..])
  {
    assert hay[0..] == hay;
    if !(needle <= hay) && hay != "" {
      StrstrIsFirst(hay[1..], needle);
      assert forall j :: 1 <= j <= |hay| ==> hay[j..] == hay[1..][j - 1..];
      if Strstr(hay[1..], needle).Some? {
        var i :| 0 <= i <= |hay| - 1 && Strstr(hay[1..], needle).value == hay[1..][i..] && needle <= hay[1..][i..] &&
          forall j :: 0 <= j < i ==> !(needle <= hay[1..][j..]);
        assert hay[i + 1..] == hay[1..][i..];
      }
    }
  }

  lemma {:induction false} NoPrefixNoWhole(hay: string, needle: string, more: string)
    requires Strstr(hay, needle).None?
    ensures Strstr(hay, needle + more).None?
  {
    assert needle <= needle + more;
    if hay != "" {
      NoPrefixNoWhole(hay[1..], needle, more);
    }
  }

  predicate Quoteless(s: string) { forall i :: 0 <= i < |s| ==> s[i] != '"' }

  /** A quote-led needle cannot start inside quote-free text. */
  lemma {:induction false} SkipQuoteless(text: string, rest: string, needle: string)
    requires Quoteless(text) && needle != "" && needle[0] == '"'
    ensures Strstr(text + rest, needle) == Strstr(rest, needle)
  {
    if text == "" {
      assert text + rest == rest;
    } else {
      assert (text + rest)[1..] == text[1..] + rest;
      SkipQuoteless(text[1..], rest, needle);
    }
  }

  // ---------------------------------------------------------------- numbers

  predicate IsDigit(c: char) { '0' <= c <= '9' }

  function DigitChar(d: nat): (c: char)
    requires d < 10
    ensures IsDigit(c) && DigitValue(c) == d
  {
    ('0' as int + d) as char
  }

  function DigitValue(c: char): (d: nat)
    requires IsDigit(c)
    ensures d < 10
  {
    c as int - '0' as int
  }

  predicate AllDigits(s: string) { forall i :: 0 <= i < |s| ==> IsDigit(s[i]) }

  /** `%u` */
  function DecNat(n: nat): (s: string)
    ensures AllDigits(s) && s != ""
  {
    if n < 10 then [DigitChar(n)] else DecNat(n / 10) + [DigitChar(n % 10)]
  }

  /** `%d` */
  function Dec(v: int): (s: string)
    ensures s != "" && Quoteless(s)
    ensures forall i :: 0 <= i < |s| ==> IsDigit(s[i]) || s[i] == '-'
  {
    if v < 0 then "-" + DecNat(-v) else DecNat(v)
  }

  function Value(s: string): nat
    requires AllDigits(s)
  {
    if s == "" then 0 else Value(s[..|s| - 1]) * 10 + DigitValue(s[|s| - 1])
  }

  lemma {:induction false} ValueOfDecNat(n: nat)
    ensures Value(DecNat(n)) == n
  {
    if n >= 10 {
      ValueOfDecNat(n / 10);
      var s := DecNat(n);
      assert s[..|s| - 1] == DecNat(n / 10);
    }
  }

  /** Decimal text of a number below 10^d has at most d characters. */
  lemma {:induction false} DecNatLength(n: nat, d: nat)
    requires 1 <= d && n < Pow10(d)
    ensures |DecNat(n)| <= d
  {
    if n >= 10 {
      DecNatLength(n / 10, d - 1);
    }
  }

  function Pow10(d: nat): nat { if d == 0 then 1 else 10 * Pow10(d - 1) }

  function LeadingDigits(s: string): (n: nat)
    ensures n <= |s| && AllDigits(s[..n]) && (n < |s| ==> !IsDigit(s[n]))
  {
    if s == "" || !IsDigit(s[0]) then 0
    else
      var m := LeadingDigits(s[1..]);
      assert s[..m + 1] == [s[0]] + s[1..][..m];
      m + 1
  }

  predicate IsSpace(c: char) {
    c == ' ' || c == '\t' || c == '\n' || c == '\U{0B}' || c == '\U{0C}' || c == '\r'
  }

  function SkipSpace(s: string): (r: string)
  {
    if s != "" && IsSpace(s[0]) then SkipSpace(s[1..]) else s
  }

  const LONG_MIN: int := -0x8000_0000_0000_0000
  const LONG_MAX: int := 0x7fff_ffff_ffff_ffff

  function Saturate(v: int): int { if v < LONG_MIN then LONG_MIN else if v > LONG_MAX then LONG_MAX else v }

  /** `strtol(p, &end, 10)`: the value, and the text `end` points at (`p` itself when nothing converts). */
  function Strtol(p: string): (r: (int, string))
  {
    var q := SkipSpace(p);
    var signed := q != "" && (q[0] == '-' || q[0] == '+');
    var digits := if signed then q[1..] else q;
    var n := LeadingDigits(digits);
    if n == 0 then (0, p)
    else
      var magnitude: int := Value(digits[..n]);
      (Saturate(if signed && q[0] == '-' then -magnitude else magnitude), digits[n..])
  }

  /** Reading back a printed number: any value in `int` range, followed by anything but a digit. */
  lemma StrtolInvertsDec(v: int, rest: string)
    requires -0x8000_0000 <= v < 0x8000_0000
    requires rest == "" || !IsDigit(rest[0])
    ensures Strtol(Dec(v) + rest) == (v, rest)
    ensures rest != Dec(v) + rest
  {
    var magnitude: nat := if v < 0 then -v else v;
    var p := Dec(v) + rest;
    assert p[0] == Dec(v)[0];
    assert SkipSpace(p) == p;
    assert |p| == |Dec(v)| + |rest|;
    var digits := if v < 0 then p[1..] else p;
    assert digits == DecNat(magnitude) + rest;
    DigitsInvert(magnitude, rest);
  }

  lemma DigitsInvert(n: nat, rest: string)
    requires rest == "" || !IsDigit(rest[0])
    ensures var digits := DecNat(n) + rest;
            var k := LeadingDigits(digits);
            k > 0 && k == |DecNat(n)| && Value(digits[..k]) == n && digits[k..] == rest
  {
    var text := DecNat(n);
    LeadingDigitsOf(text, rest);
    assert (text + rest)[..|text|] == text && (text + rest)[|text|..] == rest;
    ValueOfDecNat(n);
  }

  lemma {:induction false} LeadingDigitsOf(text: string, rest: string)
    requires AllDigits(text) && (rest == "" || !IsDigit(rest[0]))
    ensures LeadingDigits(text + rest) == |text|
  {
    if text == "" {
      assert text + rest == rest;
    } else {
      assert (text + rest)[1..] == text[1..] + rest;
      LeadingDigitsOf(text[1..], rest);
    }
  }

  // ---------------------------------------------------------------- strtok_r

  predicate IsBreak(c: char) { c == '\r' || c == '\n' }

  /** Characters before the first line break. */
  function LineLength(s: string): (n: nat)
    ensures n <= |s| && (n < |s| ==> IsBreak(s[n])) && forall i :: 0 <= i < n ==> !IsBreak(s[i])
  {
    if s == "" || IsBreak(s[0]) then 0 else 1 + LineLength(s[1..])
  }

  /** The tokens `strtok_r(buf, "\r\n", ...)` yields: maximal runs without a break, empty runs dropped. */
  function Tokens(s: string): seq<string>
    decreases |s|
  {
    if s == "" then []
    else if IsBreak(s[0]) then Tokens(s[1..])
    else [s[..LineLength(s)]] + Tokens(s[LineLength(s)..])
  }

  function Unlines(lines: seq<string>): string
  {
    if lines == [] then "" else lines[0] + "\n" + Unlines(lines[1..])
  }

  predicate IsLine(s: string) { s != "" && forall i :: 0 <= i < |s| ==> !IsBreak(s[i]) }

  lemma {:induction false} LineLengthOf(line: string, rest: string)
    requires forall i :: 0 <= i < |line| ==> !IsBreak(line[i])
    requires rest != "" && IsBreak(rest[0])
    ensures LineLength(line + rest) == |line|
  {
    if line == "" {
      assert line + rest == rest;
    } else {
      assert (line + rest)[1..] == line[1..] + rest;
      LineLengthOf(line[1..], rest);
    }
  }

  /** Any concatenation of newline-terminated lines splits back into exactly those lines. */
  lemma {:induction false} TokensOfUnlines(lines: seq<string>)
    requires forall i :: 0 <= i < |lines| ==> IsLine(lines[i])
    ensures Tokens(Unlines(lines)) == lines
  {
    if lines != [] {
      var rest := "\n" + Unlines(lines[1..]);
      assert Unlines(lines) == lines[0] + rest;
      LineLengthOf(lines[0], rest);
      var s := lines[0] + rest;
      assert s[..|lines[0]|] == lines[0] && s[|lines[0]|..] == rest;
      assert rest[1..] == Unlines(lines[1..]);
      TokensOfUnlines(lines[1..]);
    }
  }
}
