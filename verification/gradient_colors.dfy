/**
 * The gradient palette of the theme and the CSS it is published as: the
 * palette table, the decoding of each `#rrggbb` colour into three channel
 * numbers with `parseInt(..., 16)`, the one-line-per-shade custom-property
 * text, and the two accessors of `useGradientColors`.
 */
module GradientColors {
  import opened Wrappers
  import opened JsText

  // ---------------------------------------------------------------------------
  // The palette
  // ---------------------------------------------------------------------------

  datatype Category = Primary | Secondary | Accent

  function CategoryName(c: Category): string
  {
    match c
    case Primary => "primary"
    case Secondary => "secondary"
    case Accent => "accent"
  }

  /** The shade keys, in the order the object iterates them (ascending, being integer-like). */
  const ShadeKeys: seq<int> := [50, 100, 200, 300, 400, 500, 600, 700, 800, 900]

  type Shade = s: int | s in ShadeKeys witness 50

  /** The colours of one category, as (shade, colour) entries. */
  type Shades = seq<(int, string)>

  const PrimaryShades: Shades := [
    (50, "#f0f9ff"), (100, "#e0f2fe"), (200, "#bae6fd"), (300, "#7dd3fc"), (400, "#38bdf8"),
    (500, "#0ea5e9"), (600, "#0284c7"), (700, "#0369a1"), (800, "#075985"), (900, "#0c4a6e")]

  const SecondaryShades: Shades := [
    (50, "#fdf4ff"), (100, "#fae8ff"), (200, "#f5d0fe"), (300, "#f0abfc"), (400, "#e879f9"),
    (500, "#d946ef"), (600, "#c026d3"), (700, "#a21caf"), (800, "#86198f"), (900, "#701a75")]

  const AccentShades: Shades := [
    (50, "#fefce8"), (100, "#fef9c3"), (200, "#fef08a"), (300, "#fde047"), (400, "#facc15"),
    (500, "#eab308"), (600, "#ca8a04"), (700, "#a16207"), (800, "#854d0e"), (900, "#713f12")]

  function ShadesOf(c: Category): Shades
  {
    match c
    case Primary => PrimaryShades
    case Secondary => SecondaryShades
    case Accent => AccentShades
  }

  /** `gradientColors`, as (category name, shades) entries in declaration order. */
  const Palette: seq<(string, Shades)> := [
    ("primary", PrimaryShades), ("secondary", SecondaryShades), ("accent", AccentShades)]

  // ---------------------------------------------------------------------------
  // Hex decoding: `parseInt(hex.substring(i, j), 16)`
  // ---------------------------------------------------------------------------

  predicate IsHexDigit(c: char)
  {
    '0' <= c <= '9' || 'a' <= c <= 'f' || 'A' <= c <= 'F'
  }

  function HexDigitValue(c: char): (v: nat)
    requires IsHexDigit(c)
    ensures v < 16
  {
    if '0' <= c <= '9' then (c as int) - ('0' as int)
    else if 'a' <= c <= 'f' then (c as int) - ('a' as int) + 10
    else (c as int) - ('A' as int) + 10
  }

  /** Length of the run of hex digits at the start of `s`. */
  function HexRun(s: string): (n: nat)
    ensures n <= |s|
    ensures forall i :: 0 <= i < n ==> IsHexDigit(s[i])
    ensures n < |s| ==> !IsHexDigit(s[n])
  {
    if s == [] || !IsHexDigit(s[0]) then 0 else 1 + HexRun(s[1..])
  }

  /** The value of a string of hex digits, most significant first. */
  function HexValue(s: string): nat
    requires forall i :: 0 <= i < |s| ==> IsHexDigit(s[i])
  {
    if s == [] then 0 else HexValue(s[..|s| - 1]) * 16 + HexDigitValue(s[|s| - 1])
  }

  /**
   * `parseInt(s, 16)`: an optional sign, an optional `0x`/`0X` prefix, then the
   * longest run of hex digits; no digits at all is NaN (None).
   */
  function ParseHex(s: string): (r: Option<int>)
    ensures r.None? <==> HexRun(Unsigned(s)) == 0
  {
    var u := Unsigned(s);
    var n := HexRun(u);
    if n == 0 then None
    else if |s| > 0 && s[0] == '-' then Some(-(HexValue(u[..n]) as int))
    else Some(HexValue(u[..n]))
  }

  /** The digits `parseInt` reads after the sign and the radix prefix. */
  function Unsigned(s: string): string
  {
    var t := if |s| > 0 && (s[0] == '-' || s[0] == '+') then s[1..] else s;
    if |t| >= 2 && t[0] == '0' && (t[1] == 'x' || t[1] == 'X') then t[2..] else t
  }

  /** `s.substring(a, b)` for `a <= b`: both ends clamped to the length. */
  function Substring(s: string, a: nat, b: nat): (r: string)
    requires a <= b
    ensures |r| <= b - a
  {
    var hi := if b < |s| then b else |s|;
    var lo := if a < hi then a else hi;
    s[lo..hi]
  }

  /** `s.replace('#', '')`: the first '#' removed. */
  function RemoveFirstHash(s: string): (r: string)
    ensures '#' !in s ==> r == s
    ensures '#' in s ==> |r| == |s| - 1
  {
    if '#' in s then
      var i := IndexOf(s, '#');
      s[..i] + s[i + 1..]
    else s
  }

  datatype Channels = Channels(r: Option<int>, g: Option<int>, b: Option<int>)

  function DecodeColor(color: string): Channels
  {
    var hex := RemoveFirstHash(color);
    Channels(Channel(hex, 0), Channel(hex, 2), Channel(hex, 4))
  }

  /** `parseInt(hex.substring(i, i + 2), 16)`. */
  function Channel(hex: string, i: nat): Option<int>
  {
    ParseHex(Substring(hex, i, i + 2))
  }

  /** A well-formed `#rrggbb` colour. */
  predicate IsHexColor(color: string)
  {
    |color| == 7 && color[0] == '#' && forall i :: 1 <= i < 7 ==> IsHexDigit(color[i])
  }

  /** Two hex digits read as a byte. */
  lemma PairValue(p: string)
    requires |p| == 2 && IsHexDigit(p[0]) && IsHexDigit(p[1])
    ensures ParseHex(p) == Some(HexDigitValue(p[0]) * 16 + HexDigitValue(p[1]))
    ensures 0 <= HexDigitValue(p[0]) * 16 + HexDigitValue(p[1]) <= 255
  {
    assert p[0] != '-' && p[0] != '+' && p[1] != 'x' && p[1] != 'X';
    assert Unsigned(p) == p;
    assert HexRun(p) == 2 by {
      assert HexRun(p[1..]) == 1 + HexRun(p[2..]);
    }
    assert p[..2] == p;
    assert p[..1] == [p[0]];
    assert HexValue(p[..1]) == HexDigitValue(p[0]) by {
      assert [p[0]][..0] == [];
    }
  }

  lemma HashRemoved(color: string)
    requires IsHexColor(color)
    ensures RemoveFirstHash(color) == color[1..]
  {
    assert color[0] == '#';
    assert IndexOf(color, '#') == 0;
  }

  /** The byte written by the two hex digits at `i` and `i + 1`. */
  function ByteAt(color: string, i: nat): nat
    requires i + 1 < |color| && IsHexDigit(color[i]) && IsHexDigit(color[i + 1])
  {
    HexDigitValue(color[i]) * 16 + HexDigitValue(color[i + 1])
  }

  /** The channel read at offset `i` of a well-formed colour's hex digits is the pair there. */
  lemma ChannelAt(color: string, i: nat)
    requires IsHexColor(color) && i + 2 <= 6
    ensures Channel(color[1..], i) == Some(ByteAt(color, i + 1))
    ensures ByteAt(color, i + 1) <= 255
  {
    var pair := color[i + 1..i + 3];
    assert Substring(color[1..], i, i + 2) == pair;
    PairValue(pair);
  }

  /** A well-formed colour decodes into its three hex pairs, each a byte. */
  lemma DecodeHexColor(color: string)
    requires IsHexColor(color)
    ensures DecodeColor(color) == Channels(
      Some(ByteAt(color, 1)),
      Some(ByteAt(color, 3)),
      Some(ByteAt(color, 5)))
    ensures var c := DecodeColor(color);
      c.r.Some? && 0 <= c.r.value <= 255 && c.g.Some? && 0 <= c.g.value <= 255 && c.b.Some? && 0 <= c.b.value <= 255
  {
    HashRemoved(color);
    ChannelAt(color, 0);
    ChannelAt(color, 2);
    ChannelAt(color, 4);
  }

  // ---------------------------------------------------------------------------
  // Encoding, the inverse of the decoding
  // ---------------------------------------------------------------------------

  function HexDigit(d: nat): (c: char)
    requires d < 16
    ensures IsHexDigit(c) && HexDigitValue(c) == d
  {
    if d < 10 then (('0' as int) + d) as char else (('a' as int) + d - 10) as char
  }

  /** `#rrggbb` for three bytes, in lower case. */
  function ColorHex(r: nat, g: nat, b: nat): (color: string)
    requires r < 256 && g < 256 && b < 256
    ensures IsHexColor(color)
  {
    "#" + [HexDigit(r / 16), HexDigit(r % 16), HexDigit(g / 16), HexDigit(g % 16), HexDigit(b / 16), HexDigit(b % 16)]
  }

  /** Decoding an encoded colour gives back its three bytes. */
  lemma DecodeColorHex(r: nat, g: nat, b: nat)
    requires r < 256 && g < 256 && b < 256
    ensures DecodeColor(ColorHex(r, g, b)) == Channels(Some(r), Some(g), Some(b))
  {
    ColorHexPairs(r, g, b);
    DecodedBytes(ColorHex(r, g, b), r, g, b);
  }

  lemma DecodedBytes(color: string, r: int, g: int, b: int)
    requires IsHexColor(color)
    requires ByteAt(color, 1) == r
    requires ByteAt(color, 3) == g
    requires ByteAt(color, 5) == b
    ensures DecodeColor(color) == Channels(Some(r), Some(g), Some(b))
  {
    DecodeHexColor(color);
  }

  /** Each hex pair of an encoded colour is worth its byte. */
  lemma ColorHexPairs(r: nat, g: nat, b: nat)
    requires r < 256 && g < 256 && b < 256
    ensures var color := ColorHex(r, g, b);
      ByteAt(color, 1) == r &&
      ByteAt(color, 3) == g &&
      ByteAt(color, 5) == b
  {
    ColorHexDigits(r, g, b);
    ByteDigits(r);
    ByteDigits(g);
    ByteDigits(b);
  }

  lemma ColorHexDigits(r: nat, g: nat, b: nat)
    requires r < 256 && g < 256 && b < 256
    ensures var color := ColorHex(r, g, b);
      color[1] == HexDigit(r / 16) && color[2] == HexDigit(r % 16) &&
      color[3] == HexDigit(g / 16) && color[4] == HexDigit(g % 16) &&
      color[5] == HexDigit(b / 16) && color[6] == HexDigit(b % 16)
  {
  }

  lemma ByteDigits(v: nat)
    requires v < 256
    ensures HexDigitValue(HexDigit(v / 16)) * 16 + HexDigitValue(HexDigit(v % 16)) == v
  {
  }

  // ---------------------------------------------------------------------------
  // The custom-property text
  // ---------------------------------------------------------------------------

  /** `${n}` for a parsed number, NaN printed as "NaN". */
  function NumberText(n: Option<int>): string
  {
    if n.None? then "NaN" else IntToString(n.value)
  }

  /** The custom property a shade is published under. */
  function VarName(name: string, shade: int): string
  {
    "--gradient-" + name + "-" + IntToString(shade)
  }

  /** `--gradient-${name}-${shade}: ${r} ${g} ${b};` */
  function Line(name: string, shade: int, color: string): (line: string)
    ensures StartsWith(line, VarName(name, shade) + ": ")
  {
    var c := DecodeColor(color);
    var head := VarName(name, shade) + ": ";
    var rest := NumberText(c.r) + " " + NumberText(c.g) + " " + NumberText(c.b) + ";";
    StartsWithHead(head, rest);
    head + rest
  }

  /**
   * `line` reads back as the three numbers: after `head` and up to the
   * closing `;`, the text splits at spaces into `r`, `g` and `b`.
   */
  predicate ReadsBackAs(line: string, head: string, r: int, g: int, b: int)
  {
    |head| < |line| && line[|line| - 1] == ';' &&
    var parts := Split(line[|head|..|line| - 1], ' ');
    |parts| == 3 && ToNumber(parts[0]) == Some(r) && ToNumber(parts[1]) == Some(g) && ToNumber(parts[2]) == Some(b)
  }

  /** A line of a well-formed colour reads back as the colour's three hex pairs. */
  lemma LineReadsBack(name: string, shade: int, color: string)
    requires IsHexColor(color)
    ensures ReadsBackAs(Line(name, shade, color), VarName(name, shade) + ": ", ByteAt(color, 1), ByteAt(color, 3), ByteAt(color, 5))
  {
    LineShape(name, shade, color);
    NumbersReadBack(VarName(name, shade) + ": ", ByteAt(color, 1), ByteAt(color, 3), ByteAt(color, 5));
  }

  lemma LineShape(name: string, shade: int, color: string)
    requires IsHexColor(color)
    ensures Line(name, shade, color) == VarName(name, shade) + ": " +
      (IntToString(ByteAt(color, 1)) + " " + IntToString(ByteAt(color, 3)) + " " + IntToString(ByteAt(color, 5)) + ";")
  {
    DecodeHexColor(color);
  }

  lemma NumbersReadBack(head: string, r: nat, g: nat, b: nat)
    ensures ReadsBackAs(head + (IntToString(r) + " " + IntToString(g) + " " + IntToString(b) + ";"), head, r, g, b)
  {
    ThreeNumbersSplit(r, g, b);
    MiddleReadsBack(head, IntToString(r) + " " + IntToString(g) + " " + IntToString(b), r, g, b);
  }

  lemma MiddleReadsBack(head: string, mid: string, r: int, g: int, b: int)
    requires var parts := Split(mid, ' ');
      |parts| == 3 && ToNumber(parts[0]) == Some(r) && ToNumber(parts[1]) == Some(g) && ToNumber(parts[2]) == Some(b)
    ensures ReadsBackAs(head + (mid + ";"), head, r, g, b)
  {
    MiddleOf(head, mid, ";");
  }

  lemma MiddleOf(head: string, mid: string, tail: string)
    requires |tail| == 1
    ensures var line := head + (mid + tail);
      |head| < |line| && line[|line| - 1] == tail[0] && line[|head|..|line| - 1] == mid
  {
    var line := head + (mid + tail);
    assert line[|head|..|line| - 1] == mid;
  }

  /** Three non-negative numbers written with single spaces split back into their values. */
  lemma ThreeNumbersSplit(r: nat, g: nat, b: nat)
    ensures var parts := Split(IntToString(r) + " " + IntToString(g) + " " + IntToString(b), ' ');
      |parts| == 3 && ToNumber(parts[0]) == Some(r as int) && ToNumber(parts[1]) == Some(g as int) &&
      ToNumber(parts[2]) == Some(b as int)
  {
    var a, c, d := IntToString(r), IntToString(g), IntToString(b);
    DigitsHaveNoSpace(NatToString(r));
    DigitsHaveNoSpace(NatToString(g));
    DigitsHaveNoSpace(NatToString(b));
    ThreeJoin(a, c, d, " ");
    SplitJoin([a, c, d], ' ');
    ToNumberOfIntToString(r);
    ToNumberOfIntToString(g);
    ToNumberOfIntToString(b);
  }

  lemma DigitsHaveNoSpace(s: string)
    requires AllDigits(s)
    ensures ' ' !in s
  {
  }

  lemma ThreeJoin(a: string, b: string, c: string, sep: string)
    ensures Join([a, b, c], sep) == a + sep + b + sep + c
  {
    assert [a, b, c][1..] == [b, c];
    assert [b, c][1..] == [c];
    assert Join([c], sep) == c;
    assert Join([b, c], sep) == b + sep + c;
    assert Join([a, b, c], sep) == a + sep + (b + sep + c);
  }

  function ShadeLines(name: string, shades: Shades): (lines: seq<string>)
    ensures |lines| == |shades|
    ensures forall i :: 0 <= i < |shades| ==> lines[i] == Line(name, shades[i].0, shades[i].1)
  {
    seq(|shades|, i requires 0 <= i < |shades| => Line(name, shades[i].0, shades[i].1))
  }

  /** The lines of every category, category by category. */
  function Lines(colors: seq<(string, Shades)>): seq<string>
  {
    if colors == [] then [] else ShadeLines(colors[0].0, colors[0].1) + Lines(colors[1..])
  }

  function ShadeCount(colors: seq<(string, Shades)>): nat
  {
    if colors == [] then 0 else |colors[0].1| + ShadeCount(colors[1..])
  }

  /** `generateGradientCSSVariables(colors)`. */
  function GenerateCssVariables(colors: seq<(string, Shades)>): (css: string)
    ensures ShadeCount(colors) == 0 ==> css == ""
  {
    LinesLength(colors);
    Join(Lines(colors), "\n")
  }

  /** One line per shade. */
  lemma {:induction false} LinesLength(colors: seq<(string, Shades)>)
    ensures |Lines(colors)| == ShadeCount(colors)
  {
    if colors != [] {
      LinesLength(colors[1..]);
    }
  }

  /** Every shade's line is among the lines. */
  lemma {:induction false} LinesMembers(colors: seq<(string, Shades)>, i: nat, j: nat)
    requires i < |colors| && j < |colors[i].1|
    ensures Line(colors[i].0, colors[i].1[j].0, colors[i].1[j].1) in Lines(colors)
  {
    if i == 0 {
      assert ShadeLines(colors[0].0, colors[0].1)[j] == Line(colors[i].0, colors[i].1[j].0, colors[i].1[j].1);
    } else {
      LinesMembers(colors[1..], i - 1, j);
    }
  }

  predicate NoNewline(s: string)
  {
    '\n' !in s
  }

  lemma IntToStringHasNoNewline(n: int)
    ensures NoNewline(IntToString(n))
  {
    var t := NatToString(if n < 0 then -n else n);
    assert forall i :: 0 <= i < |t| ==> IsDigit(t[i]);
    assert '\n' !in t;
  }

  /** A line holds no newline when the category name holds none. */
  lemma LineHasNoNewline(name: string, shade: int, color: string)
    requires NoNewline(name)
    ensures NoNewline(Line(name, shade, color))
  {
    var c := DecodeColor(color);
    IntToStringHasNoNewline(shade);
    NoNewlineConcat("--gradient-" + name, "-");
    NoNewlineConcat("--gradient-" + name + "-", IntToString(shade));
    NoNewlineConcat(VarName(name, shade), ": ");
    NumberTextHasNoNewline(c.r);
    NumberTextHasNoNewline(c.g);
    NumberTextHasNoNewline(c.b);
    var head := VarName(name, shade) + ": ";
    NoNewlineConcat(head, NumberText(c.r));
    NoNewlineConcat(head + NumberText(c.r), " ");
    NoNewlineConcat(head + NumberText(c.r) + " ", NumberText(c.g));
    NoNewlineConcat(head + NumberText(c.r) + " " + NumberText(c.g), " ");
    NoNewlineConcat(head + NumberText(c.r) + " " + NumberText(c.g) + " ", NumberText(c.b));
    NoNewlineConcat(head + NumberText(c.r) + " " + NumberText(c.g) + " " + NumberText(c.b), ";");
  }

  lemma NoNewlineConcat(a: string, b: string)
    requires NoNewline(a) && NoNewline(b)
    ensures NoNewline(a + b)
  {
    assert forall i :: 0 <= i < |a + b| ==> (a + b)[i] == if i < |a| then a[i] else b[i - |a|];
  }

  lemma NumberTextHasNoNewline(n: Option<int>)
    ensures NoNewline(NumberText(n))
  {
    if n.Some? {
      IntToStringHasNoNewline(n.value);
    }
  }

  lemma {:induction false} LinesHaveNoNewline(colors: seq<(string, Shades)>)
    requires forall i :: 0 <= i < |colors| ==> NoNewline(colors[i].0)
    ensures forall k :: 0 <= k < |Lines(colors)| ==> NoNewline(Lines(colors)[k])
  {
    if colors != [] {
      LinesHaveNoNewline(colors[1..]);
      var head := ShadeLines(colors[0].0, colors[0].1);
      forall k | 0 <= k < |head|
        ensures NoNewline(head[k])
      {
        LineHasNoNewline(colors[0].0, colors[0].1[k].0, colors[0].1[k].1);
      }
    }
  }

  /** Splitting the generated text at newlines gives back exactly one line per shade. */
  lemma GeneratedLines(colors: seq<(string, Shades)>)
    requires 0 < ShadeCount(colors)
    requires forall i :: 0 <= i < |colors| ==> NoNewline(colors[i].0)
    ensures Split(GenerateCssVariables(colors), '\n') == Lines(colors)
    ensures |Split(GenerateCssVariables(colors), '\n')| == ShadeCount(colors)
  {
    LinesLength(colors);
    LinesHaveNoNewline(colors);
    SplitJoin(Lines(colors), '\n');
  }

  /** The bundled palette yields 30 lines: three categories of ten shades. */
  lemma PaletteLines()
    ensures ShadeCount(Palette) == 30
    ensures |Split(GenerateCssVariables(Palette), '\n')| == 30
  {
    assert ShadeCount(Palette) == 30 by {
      assert |PrimaryShades| == 10 && |SecondaryShades| == 10 && |AccentShades| == 10;
      assert Palette[1..] == [("secondary", SecondaryShades), ("accent", AccentShades)];
      assert Palette[1..][1..] == [("accent", AccentShades)];
      assert Palette[1..][1..][1..] == [];
      assert ShadeCount(Palette[1..][1..]) == 10;
      assert ShadeCount(Palette[1..]) == 20;
    }
    GeneratedLines(Palette);
  }

  // ---------------------------------------------------------------------------
  // `useGradientColors`
  // ---------------------------------------------------------------------------

  function ShadeIndex(shade: Shade): (i: nat)
    ensures i < |ShadeKeys| && ShadeKeys[i] == shade
  {
    if shade == 50 then 0 else if shade == 100 then 1 else (shade / 100) as nat
  }

  lemma ShadesFollowKeys(c: Category)
    ensures |ShadesOf(c)| == |ShadeKeys|
    ensures forall i :: 0 <= i < |ShadeKeys| ==> ShadesOf(c)[i].0 == ShadeKeys[i]
  {
  }

  /** `getColor(category, shade)`: the palette entry of that category and shade. */
  function GetColor(c: Category, shade: Shade): (color: string)
    ensures (shade, color) in ShadesOf(c)
  {
    ShadesFollowKeys(c);
    ShadesOf(c)[ShadeIndex(shade)].1
  }

  /**
   * `getCSSVar(category, shade)`: a reference to the custom property that a
   * line of the generated palette text declares with `getColor`'s colour.
   */
  function GetCssVar(c: Category, shade: Shade): (v: string)
    ensures v == "hsl(var(" + VarName(CategoryName(c), shade) + "))"
    ensures Line(CategoryName(c), shade, GetColor(c, shade)) in Split(GenerateCssVariables(Palette), '\n')
    ensures StartsWith(Line(CategoryName(c), shade, GetColor(c, shade)), VarName(CategoryName(c), shade) + ": ")
  {
    CssVarIsDeclared(c, shade);
    CssVarText(CategoryName(c), IntToString(shade));
    "hsl(var(--gradient-" + CategoryName(c) + "-" + IntToString(shade) + "))"
  }

  lemma CssVarText(name: string, num: string)
    ensures "hsl(var(--gradient-" + name + "-" + num + "))" == "hsl(var(" + ("--gradient-" + name + "-" + num) + "))"
  {
    assert "hsl(var(--gradient-" == "hsl(var(" + "--gradient-";
  }

  function CategoryIndex(c: Category): (i: nat)
    ensures i < |Palette| && Palette[i] == (CategoryName(c), ShadesOf(c))
  {
    match c
    case Primary => 0
    case Secondary => 1
    case Accent => 2
  }

  /**
   * The variable `getCSSVar` refers to is declared by the generated text: one
   * of its lines starts with that variable's name, holding `getColor`'s colour.
   */
  lemma CssVarIsDeclared(c: Category, shade: Shade)
    ensures Line(CategoryName(c), shade, GetColor(c, shade)) in Split(GenerateCssVariables(Palette), '\n')
    ensures StartsWith(Line(CategoryName(c), shade, GetColor(c, shade)), VarName(CategoryName(c), shade) + ": ")
  {
    var i := CategoryIndex(c);
    var j := ShadeIndex(shade);
    ShadesFollowKeys(c);
    assert Palette[i].1[j] == (shade, GetColor(c, shade));
    LinesMembers(Palette, i, j);
    PaletteSplitsIntoLines();
  }

  lemma PaletteSplitsIntoLines()
    ensures Split(GenerateCssVariables(Palette), '\n') == Lines(Palette)
  {
    PaletteLines();
    PaletteNamesHaveNoNewline();
    GeneratedLines(Palette);
  }

  lemma PaletteNamesHaveNoNewline()
    ensures forall i :: 0 <= i < |Palette| ==> NoNewline(Palette[i].0)
  {
    assert Palette[0].0 == "primary" && Palette[1].0 == "secondary" && Palette[2].0 == "accent";
  }

  /** Every bundled colour is a well-formed `#rrggbb`, so each of its channels decodes to a byte. */
  lemma PaletteColorsAreHex(c: Category, shade: Shade)
    ensures IsHexColor(GetColor(c, shade))
    ensures var ch := DecodeColor(GetColor(c, shade));
      ch.r.Some? && 0 <= ch.r.value <= 255 && ch.g.Some? && 0 <= ch.g.value <= 255 && ch.b.Some? && 0 <= ch.b.value <= 255
  {
    var color := GetColor(c, shade);
    ShadesAreHex(c);
    DecodeHexColor(color);
  }

  /** Every shade of a category is written as `#rrggbb`. */
  lemma ShadesAreHex(c: Category)
    ensures forall k :: 0 <= k < |ShadesOf(c)| ==> IsHexColor(ShadesOf(c)[k].1)
  {
    match c
    case Primary => PrimaryIsHex();
    case Secondary => SecondaryIsHex();
    case Accent => AccentIsHex();
  }

  lemma PrimaryIsHex()
    ensures forall k :: 0 <= k < |PrimaryShades| ==> IsHexColor(PrimaryShades[k].1)
  {
  }

  lemma SecondaryIsHex()
    ensures forall k :: 0 <= k < |SecondaryShades| ==> IsHexColor(SecondaryShades[k].1)
  {
  }

  lemma AccentIsHex()
    ensures forall k :: 0 <= k < |AccentShades| ==> IsHexColor(AccentShades[k].1)
  {
  }
}
