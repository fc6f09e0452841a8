/**
 * `hexToANSI` of rendermaps/tile.go: a CSS-style hex colour string to a
 * 24-bit terminal foreground escape `ESC[38;2;R;G;Bm`.
 *
 * The string loses one leading '#'; a three-character code has each of its
 * characters doubled; then `fmt.Sscanf(hex, "%02x%02x%02x", &r, &g, &b)`
 * reads up to three fields of at most two hex digits each, stopping at the
 * first field that does not start with a hex digit. Components not read stay 0.
 */
module Colors {

  import opened Wrappers
  import opened Decimal

  const Escape: char := '\U{1B}'

  /** The escape's fixed opening: ESC "[38;2;". */
  const AnsiPrefix: string := [Escape] + "[38;2;"

  predicate IsHexDigit(c: char) {
    ('0' <= c <= '9') || ('a' <= c <= 'f') || ('A' <= c <= 'F')
  }

  function HexValue(c: char): (v: nat)
    requires IsHexDigit(c)
    ensures v < 16
  {
    if '0' <= c <= '9' then c as int - '0' as int
    else if 'a' <= c <= 'f' then c as int - 'a' as int + 10
    else c as int - 'A' as int + 10
  }

  /** Lower-case hex digit for `v`, as a colour string would spell it. */
  function HexChar(v: nat): (c: char)
    requires v < 16
    ensures IsHexDigit(c) && HexValue(c) == v
  {
    if v < 10 then ('0' as int + v) as char else ('a' as int + v - 10) as char
  }

  /** Two hex digits for a byte: "00" to "ff". */
  function HexByte(b: nat): string
    requires b < 256
  {
    [HexChar(b / 16), HexChar(b % 16)]
  }

  lemma HexByteValue(b: nat)
    requires b < 256
    ensures IsHexDigit(HexByte(b)[0]) && IsHexDigit(HexByte(b)[1])
    ensures 16 * HexValue(HexByte(b)[0]) + HexValue(HexByte(b)[1]) == b
  {
  }

  /** `strings.TrimPrefix(hex, "#")`. */
  function TrimHash(s: string): string {
    if |s| > 0 && s[0] == '#' then s[1..] else s
  }

  /** The three-character shorthand doubled: "abc" becomes "aabbcc". */
  function Expand(h: string): string {
    if |h| == 3 then [h[0], h[0], h[1], h[1], h[2], h[2]] else h
  }

  /** One `%02x` field: its value and the number of characters it took. */
  datatype Field = Field(value: nat, width: nat)

  function ScanField(s: string): (r: Option<Field>)
    ensures r.Some? ==> r.value.value < 256 && 1 <= r.value.width <= 2 && r.value.width <= |s|
  {
    if |s| == 0 || !IsHexDigit(s[0]) then None
    else if |s| >= 2 && IsHexDigit(s[1]) then Some(Field(16 * HexValue(s[0]) + HexValue(s[1]), 2))
    else Some(Field(HexValue(s[0]), 1))
  }

  /** The three components `Sscanf` leaves in r, g and b. */
  function ScanRgb(s: string): (nat, nat, nat) {
    match ScanField(s)
    case None => (0, 0, 0)
    case Some(f1) =>
      var s2 := s[f1.width..];
      match ScanField(s2)
      case None => (f1.value, 0, 0)
      case Some(f2) =>
        match ScanField(s2[f2.width..])
        case None => (f1.value, f2.value, 0)
        case Some(f3) => (f1.value, f2.value, f3.value)
  }

  /** `fmt.Sprintf("\x1b[38;2;%d;%d;%dm", r, g, b)`. */
  function Ansi(r: nat, g: nat, b: nat): string {
    AnsiPrefix + (NatStr(r) + ";" + (NatStr(g) + ";" + (NatStr(b) + "m")))
  }

  /** The escape for a colour string: always a well-formed `ESC[38;2;R;G;Bm` whose three components
      are bytes, whatever the string holds. */
  function HexToAnsi(hex: string): (e: string)
    ensures exists r: nat, g: nat, b: nat | r < 256 && g < 256 && b < 256 :: e == Ansi(r, g, b)
  {
    var rgb := ScanRgb(Expand(TrimHash(hex)));
    ComponentsAreBytes(hex);
    Ansi(rgb.0, rgb.1, rgb.2)
  }

  /** Reads a natural number followed by the separator `sep`. */
  function ParseNatThen(s: string, sep: char): Option<(nat, string)> {
    match ParseNat(s)
    case None => None
    case Some(p) => if p.1 != [] && p.1[0] == sep then Some((p.0, p.1[1..])) else None
  }

  /** Reads an escape of the form `Ansi` produces back into its three components. */
  function ParseAnsi(s: string): Option<(nat, nat, nat)> {
    if |s| < |AnsiPrefix| || s[..|AnsiPrefix|] != AnsiPrefix then None
    else
      match ParseNatThen(s[|AnsiPrefix|..], ';')
      case None => None
      case Some(p1) =>
        match ParseNatThen(p1.1, ';')
        case None => None
        case Some(p2) =>
          match ParseNatThen(p2.1, 'm')
          case None => None
          case Some(p3) => if p3.1 == [] then Some((p1.0, p2.0, p3.0)) else None
  }

  lemma ParseNatThenRoundTrip(n: nat, sep: char, rest: string)
    requires !IsDigit(sep)
    ensures ParseNatThen(NatStr(n) + [sep] + rest, sep) == Some((n, rest))
  {
    assert NatStr(n) + [sep] + rest == NatStr(n) + ([sep] + rest);
    NatStrRoundTrip(n, [sep] + rest);
    assert ([sep] + rest)[1..] == rest;
  }

  /** Every colour the function emits has components in 0..255 (they are read into uint8). */
  lemma ComponentsAreBytes(hex: string)
    ensures var rgb := ScanRgb(Expand(TrimHash(hex))); rgb.0 < 256 && rgb.1 < 256 && rgb.2 < 256
  {
  }

  /** The escape can be read back: `ParseAnsi` inverts `Ansi`. */
  lemma AnsiRoundTrip(r: nat, g: nat, b: nat)
    ensures ParseAnsi(Ansi(r, g, b)) == Some((r, g, b))
  {
    var tail2 := NatStr(b) + "m";
    var tail1 := NatStr(g) + ";" + tail2;
    AnsiSplit(r, g, b);
    ParseNatThenRoundTrip(r, ';', tail1);
    ParseNatThenRoundTrip(g, ';', tail2);
    assert tail2 == NatStr(b) + ['m'] + [];
    ParseNatThenRoundTrip(b, 'm', []);
  }

  /** The escape is the fixed prefix followed by the three numbers and their separators. */
  lemma AnsiSplit(r: nat, g: nat, b: nat)
    ensures var s, body := Ansi(r, g, b), NatStr(r) + ";" + (NatStr(g) + ";" + (NatStr(b) + "m"));
      |s| >= |AnsiPrefix| && s[..|AnsiPrefix|] == AnsiPrefix && s[|AnsiPrefix|..] == body
  {
    var body := NatStr(r) + ";" + (NatStr(g) + ";" + (NatStr(b) + "m"));
    assert (AnsiPrefix + body)[..|AnsiPrefix|] == AnsiPrefix;
  }

  /**
   * A six-digit code, with or without '#' and followed by anything when it is
   * not the three-character shorthand, gives the three bytes it spells.
   */
  lemma SixDigits(hex: string)
    requires |TrimHash(hex)| >= 6 && forall i | 0 <= i < 6 :: IsHexDigit(TrimHash(hex)[i])
    ensures var h := TrimHash(hex);
      HexToAnsi(hex) == Ansi(16 * HexValue(h[0]) + HexValue(h[1]),
                             16 * HexValue(h[2]) + HexValue(h[3]),
                             16 * HexValue(h[4]) + HexValue(h[5]))
  {
    var h := TrimHash(hex);
    assert Expand(h) == h;
    assert h[2..][2..] == h[4..];
  }

  /** The shorthand "#RGB" reads as "#RRGGBB". */
  lemma ThreeDigits(hex: string)
    requires |TrimHash(hex)| == 3 && forall i | 0 <= i < 3 :: IsHexDigit(TrimHash(hex)[i])
    ensures var h := TrimHash(hex);
      HexToAnsi(hex) == Ansi(17 * HexValue(h[0]), 17 * HexValue(h[1]), 17 * HexValue(h[2]))
  {
    var t := TrimHash(hex);
    var h := Expand(t);
    assert h == [t[0], t[0], t[1], t[1], t[2], t[2]];
    assert ScanField(h) == Some(Field(17 * HexValue(t[0]), 2));
    assert ScanField(h[2..]) == Some(Field(17 * HexValue(t[1]), 2));
    assert h[2..][2..] == h[4..];
    assert ScanField(h[4..]) == Some(Field(17 * HexValue(t[2]), 2));
  }

  /** "#RRGGBB" round-trips: the escape reads back as the three bytes. */
  lemma HexRoundTrip(r: nat, g: nat, b: nat)
    requires r < 256 && g < 256 && b < 256
    ensures ParseAnsi(HexToAnsi("#" + HexByte(r) + HexByte(g) + HexByte(b))) == Some((r, g, b))
  {
    var hex := "#" + HexByte(r) + HexByte(g) + HexByte(b);
    var h := HexByte(r) + HexByte(g) + HexByte(b);
    assert hex == "#" + h;
    assert TrimHash(hex) == h;
    HexByteValue(r);
    HexByteValue(g);
    HexByteValue(b);
    assert h[0] == HexByte(r)[0] && h[1] == HexByte(r)[1];
    assert h[2] == HexByte(g)[0] && h[3] == HexByte(g)[1];
    assert h[4] == HexByte(b)[0] && h[5] == HexByte(b)[1];
    assert forall i | 0 <= i < 6 :: IsHexDigit(TrimHash(hex)[i]);
    SixDigits(hex);
    assert HexToAnsi(hex) == Ansi(r, g, b);
    AnsiRoundTrip(r, g, b);
  }

  /** "#RGB" round-trips to the doubled digits. */
  lemma ShortHexRoundTrip(r: nat, g: nat, b: nat)
    requires r < 16 && g < 16 && b < 16
    ensures ParseAnsi(HexToAnsi(['#', HexChar(r), HexChar(g), HexChar(b)])) == Some((17 * r, 17 * g, 17 * b))
  {
    var hex := ['#', HexChar(r), HexChar(g), HexChar(b)];
    assert TrimHash(hex) == [HexChar(r), HexChar(g), HexChar(b)];
    ThreeDigits(hex);
    AnsiRoundTrip(17 * r, 17 * g, 17 * b);
  }

  /** A string that does not start with a hex digit after trimming gives black. */
  lemma InvalidIsBlack(hex: string)
    requires |TrimHash(hex)| != 3 && (TrimHash(hex) == [] || !IsHexDigit(TrimHash(hex)[0]))
    ensures HexToAnsi(hex) == Ansi(0, 0, 0)
  {
  }
}
