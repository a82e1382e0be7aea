/**
 * Video utilities: clock-style time formatting and parsing, quality
 * selection against the bundled quality table, and aspect-ratio reduction.
 */
module VideoUtils {
  import opened Wrappers
  import opened JsText
  import opened Arith

  /** A JavaScript number of seconds: NaN or a finite value. */
  datatype Seconds = NotANumber | Finite(value: real)

  /** `n.toString().padStart(2, '0')`. */
  function Pad2(n: int): string
  {
    PadStart(IntToString(n), 2, '0')
  }

  /** The three fields `formatTime` computes: `Math.floor(s / 3600)`, `Math.floor((s % 3600) / 60)`, `Math.floor(s % 60)`. */
  function Hours(s: real): int
  {
    (s / 3600.0).Floor
  }

  function Minutes(s: real): int
  {
    (JsRem(s, 3600.0) / 60.0).Floor
  }

  function Secs(s: real): int
  {
    JsRem(s, 60.0).Floor
  }

  /** `formatTime(seconds)` of the video utilities. */
  function FormatTime(t: Seconds): (r: string)
    ensures t.NotANumber? ==> r == "00:00"
    ensures t.Finite? && 0.0 <= t.value ==>
      (|Split(r, ':')| == 3 <==> 3600.0 <= t.value) && (|Split(r, ':')| == 2 <==> t.value < 3600.0)
  {
    match t
    case NotANumber => "00:00"
    case Finite(s) =>
      if 0.0 <= s then ClockOf(s) else FormatFields(s)
  }

  function FormatFields(s: real): string
  {
    if Hours(s) > 0 then Pad2(Hours(s)) + ":" + Pad2(Minutes(s)) + ":" + Pad2(Secs(s))
    else Pad2(Minutes(s)) + ":" + Pad2(Secs(s))
  }

  /** `FormatFields` on a non-negative time, with its shape made explicit for the verifier. */
  function ClockOf(s: real): (r: string)
    requires 0.0 <= s
    ensures r == FormatFields(s)
    ensures |Split(r, ':')| == (if 3600.0 <= s then 3 else 2)
  {
    ClockShape(s);
    FormatFields(s)
  }

  lemma ClockShape(s: real)
    requires 0.0 <= s
    ensures |Split(FormatFields(s), ':')| == (if 3600.0 <= s then 3 else 2)
  {
    ClockFields(s);
    var h, m, sec := Hours(s), Minutes(s), Secs(s);
    assert 0 <= h && 0 <= m && 0 <= sec;
    assert h > 0 <==> 3600.0 <= s by {
      assert 3600.0 <= s <==> 3600 <= s.Floor;
    }
    Pad2Digits(m);
    Pad2Digits(sec);
    DigitsHaveNoColon(Pad2(m));
    DigitsHaveNoColon(Pad2(sec));
    if h > 0 {
      Pad2Digits(h);
      DigitsHaveNoColon(Pad2(h));
      SplitThree(Pad2(h), Pad2(m), Pad2(sec));
    } else {
      SplitTwo(Pad2(m), Pad2(sec));
    }
  }

  /** The floor of a quotient of a non-negative real by a positive integer is the integer quotient of its floor. */
  lemma FloorDiv(s: real, m: int)
    requires 0.0 <= s && 0 < m
    ensures (s / (m as real)).Floor == s.Floor / m
  {
    var f := s.Floor;
    var q := f / m;
    DivMod(f, m);
    var mr := m as real;
    assert s == (s / mr) * mr;
    assert (q as real) * mr <= s by {
      assert q * m <= f;
    }
    assert s < ((q + 1) as real) * mr by {
      assert f + 1 <= (q + 1) * m;
    }
    RealDivBounds(s, mr, q as real);
  }

  lemma RealDivBounds(s: real, m: real, q: real)
    requires 0.0 < m && q * m <= s < (q + 1.0) * m
    ensures q <= s / m < q + 1.0
  {
    var d := s / m;
    assert s == d * m;
    if q + 1.0 <= d {
      assert d * m - (q + 1.0) * m == (d - (q + 1.0)) * m;
      MulNonneg(d - (q + 1.0), m);
    }
  }

  /**
   * For a non-negative time the three fields are the clock decomposition of
   * its floor F: hours F / 3600, minutes (F / 60) % 60, seconds F % 60.
   */
  lemma ClockFields(s: real)
    requires 0.0 <= s
    ensures Hours(s) == s.Floor / 3600
    ensures Minutes(s) == (s.Floor / 60) % 60
    ensures Secs(s) == s.Floor % 60
  {
    var f := s.Floor;
    FloorDiv(s, 3600);
    FloorDiv(s, 60);
    var h := f / 3600;
    DivMod(f, 3600);
    var rest := s - 3600.0 * (h as real);
    assert JsRem(s, 3600.0) == rest;
    assert rest.Floor == f - 3600 * h;
    FloorDiv(rest, 60);
    var m := (f % 3600) / 60;
    DivMod(f % 3600, 60);
    DivModUnique(f, 60, 60 * h + m, (f % 3600) % 60);
    DivModUnique(f / 60, 60, h, m);
    assert JsRem(s, 60.0) == s - 60.0 * ((f / 60) as real);
  }

  lemma NatToStringShort(n: nat)
    requires n < 100
    ensures |NatToString(n)| <= 2
  {
  }

  /** Fields printed by `Pad2` are digit strings of length at least 2, exactly 2 below 100. */
  lemma Pad2Digits(n: nat)
    ensures AllDigits(Pad2(n)) && 2 <= |Pad2(n)|
    ensures n < 100 ==> |Pad2(n)| == 2
    ensures ToNumber(Pad2(n)) == Some(n)
  {
    ToNumberOfPadded(n, 2);
    if n < 100 {
      NatToStringShort(n);
    }
  }

  lemma SplitTwo(a: string, b: string)
    requires ':' !in a && ':' !in b
    ensures Split(a + ":" + b, ':') == [a, b]
  {
    SplitAtFirst(a, b, ':');
  }

  lemma SplitThree(a: string, b: string, c: string)
    requires ':' !in a && ':' !in b && ':' !in c
    ensures Split(a + ":" + b + ":" + c, ':') == [a, b, c]
  {
    assert a + ":" + b + ":" + c == a + [':'] + (b + ":" + c);
    SplitAtFirst(a, b + ":" + c, ':');
    SplitTwo(b, c);
  }

  lemma DigitsHaveNoColon(s: string)
    requires AllDigits(s)
    ensures ':' !in s
  {
  }

  /** `parseTimeToSeconds(timeString)`; `None` stands for NaN, from a part `Number` cannot read. */
  function ParseTimeToSeconds(str: string): (r: Option<int>)
    ensures |Split(str, ':')| != 2 && |Split(str, ':')| != 3 ==> r == Some(0)
    ensures r.None? ==> exists i :: 0 <= i < |Split(str, ':')| && ToNumber(Split(str, ':')[i]).None?
  {
    var parts := Split(str, ':');
    if |parts| == 2 then
      match (ToNumber(parts[0]), ToNumber(parts[1]))
      case (Some(m), Some(s)) => Some(m * 60 + s)
      case _ => None
    else if |parts| == 3 then
      match (ToNumber(parts[0]), ToNumber(parts[1]), ToNumber(parts[2]))
      case (Some(h), Some(m), Some(s)) => Some(h * 3600 + m * 60 + s)
      case _ => None
    else Some(0)
  }

  /** Two padded fields joined by ':' split back into those fields and read back as their values. */
  lemma TwoFields(m: nat, sec: nat)
    requires m < 100 && sec < 100
    ensures var p := Split(Pad2(m) + ":" + Pad2(sec), ':');
      |p| == 2 && |p[0]| == 2 && |p[1]| == 2 && ToNumber(p[0]) == Some(m) && ToNumber(p[1]) == Some(sec)
  {
    Pad2Digits(m);
    Pad2Digits(sec);
    DigitsHaveNoColon(Pad2(m));
    DigitsHaveNoColon(Pad2(sec));
    SplitTwo(Pad2(m), Pad2(sec));
  }

  /** Three padded fields joined by ':' split back into those fields and read back as their values. */
  lemma ThreeFields(h: nat, m: nat, sec: nat)
    requires m < 100 && sec < 100
    ensures var p := Split(Pad2(h) + ":" + Pad2(m) + ":" + Pad2(sec), ':');
      |p| == 3 && 2 <= |p[0]| && |p[1]| == 2 && |p[2]| == 2 &&
      ToNumber(p[0]) == Some(h) && ToNumber(p[1]) == Some(m) && ToNumber(p[2]) == Some(sec)
  {
    Pad2Digits(h);
    Pad2Digits(m);
    Pad2Digits(sec);
    DigitsHaveNoColon(Pad2(h));
    DigitsHaveNoColon(Pad2(m));
    DigitsHaveNoColon(Pad2(sec));
    SplitThree(Pad2(h), Pad2(m), Pad2(sec));
  }

  /** The clock decomposition of a whole number of seconds adds back up to it. */
  lemma ClockSum(f: nat)
    ensures (f / 60) % 60 < 60 && f % 60 < 60
    ensures (f / 3600) * 3600 + ((f / 60) % 60) * 60 + f % 60 == f
  {
    DivMod(f, 60);
    DivMod(f / 60, 60);
    DivModUnique(f, 3600, (f / 60) / 60, (f / 60) % 60 * 60 + f % 60);
  }

  /**
   * Below one hour `formatTime` writes `MM:SS`: two two-digit fields holding
   * whole minutes and the seconds below 60.
   */
  lemma FormatTimeShort(s: real)
    requires 0.0 <= s < 3600.0
    ensures var p := Split(FormatTime(Finite(s)), ':');
      |p| == 2 && |p[0]| == 2 && |p[1]| == 2 &&
      ToNumber(p[0]) == Some(s.Floor / 60) && ToNumber(p[1]) == Some(s.Floor % 60) && s.Floor % 60 < 60
  {
    ClockFields(s);
    var f := s.Floor;
    ClockSum(f);
    assert f / 3600 == 0 by {
      DivModUnique(f, 3600, 0, f);
    }
    assert (f / 60) % 60 == f / 60;
    TwoFields(f / 60, f % 60);
  }

  /**
   * From one hour on `formatTime` writes `HH:MM:SS`: hours of at least two
   * digits, then minutes and seconds below 60 in two digits each.
   */
  lemma FormatTimeLong(s: real)
    requires 3600.0 <= s
    ensures var p := Split(FormatTime(Finite(s)), ':');
      |p| == 3 && 2 <= |p[0]| && |p[1]| == 2 && |p[2]| == 2 &&
      ToNumber(p[0]) == Some(s.Floor / 3600) &&
      ToNumber(p[1]) == Some((s.Floor / 60) % 60) && ToNumber(p[2]) == Some(s.Floor % 60)
  {
    ClockFields(s);
    var f := s.Floor;
    ClockSum(f);
    assert 1 <= f / 3600 by {
      DivBetween(f, 3600, f / 3600);
    }
    ThreeFields(f / 3600, (f / 60) % 60, f % 60);
  }

  lemma MulNonneg(a: real, b: real)
    requires 0.0 <= a && 0.0 <= b
    ensures 0.0 <= a * b
  {
  }

  /** Two fields read back as minutes and seconds. */
  lemma ParseTwo(str: string, m: int, sec: int)
    requires var p := Split(str, ':'); |p| == 2 && ToNumber(p[0]) == Some(m) && ToNumber(p[1]) == Some(sec)
    ensures ParseTimeToSeconds(str) == Some(m * 60 + sec)
  {
  }

  /** Three fields read back as hours, minutes and seconds. */
  lemma ParseThree(str: string, h: int, m: int, sec: int)
    requires var p := Split(str, ':');
      |p| == 3 && ToNumber(p[0]) == Some(h) && ToNumber(p[1]) == Some(m) && ToNumber(p[2]) == Some(sec)
    ensures ParseTimeToSeconds(str) == Some(h * 3600 + m * 60 + sec)
  {
  }

  /** Parsing a formatted non-negative time gives back its whole seconds. */
  lemma FormatThenParse(s: real)
    requires 0.0 <= s
    ensures ParseTimeToSeconds(FormatTime(Finite(s))) == Some(s.Floor)
  {
    if s < 3600.0 {
      ShortRoundTrip(s);
    } else {
      LongRoundTrip(s);
    }
  }

  lemma ShortRoundTrip(s: real)
    requires 0.0 <= s < 3600.0
    ensures ParseTimeToSeconds(FormatTime(Finite(s))) == Some(s.Floor)
  {
    FormatTimeShort(s);
    ParseMinutesSeconds(FormatTime(Finite(s)), s.Floor);
  }

  lemma ParseMinutesSeconds(str: string, f: nat)
    requires var p := Split(str, ':'); |p| == 2 && ToNumber(p[0]) == Some(f / 60) && ToNumber(p[1]) == Some(f % 60)
    ensures ParseTimeToSeconds(str) == Some(f)
  {
    ParseTwo(str, f / 60, f % 60);
    DivMod(f, 60);
  }

  lemma LongRoundTrip(s: real)
    requires 3600.0 <= s
    ensures ParseTimeToSeconds(FormatTime(Finite(s))) == Some(s.Floor)
  {
    FormatTimeLong(s);
    ParseHoursMinutesSeconds(FormatTime(Finite(s)), s.Floor);
  }

  lemma ParseHoursMinutesSeconds(str: string, f: nat)
    requires var p := Split(str, ':');
      |p| == 3 && ToNumber(p[0]) == Some(f / 3600) && ToNumber(p[1]) == Some((f / 60) % 60) && ToNumber(p[2]) == Some(f % 60)
    ensures ParseTimeToSeconds(str) == Some(f)
  {
    ParseThree(str, f / 3600, (f / 60) % 60, f % 60);
    ClockSum(f);
  }

  /**
   * The `m:ss` label the timeline markers and the player's own `formatTime`
   * both write: `Math.floor(t / 60)` unpadded, then `Math.floor(t % 60)` padded to two digits.
   */
  function MinutesSecondsLabel(t: real): string
  {
    IntToString((t / 60.0).Floor) + ":" + Pad2(Secs(t))
  }

  /** An unpadded field and a padded field joined by ':' split back and read back as their values. */
  lemma LabelFields(m: nat, sec: nat)
    requires sec < 100
    ensures var p := Split(IntToString(m) + ":" + Pad2(sec), ':');
      |p| == 2 && |p[1]| == 2 && ToNumber(p[0]) == Some(m) && ToNumber(p[1]) == Some(sec)
  {
    ToNumberOfIntToString(m);
    Pad2Digits(sec);
    DigitsHaveNoColon(NatToString(m));
    DigitsHaveNoColon(Pad2(sec));
    SplitTwo(IntToString(m), Pad2(sec));
  }

  /** For a non-negative time the label holds the whole minutes and a two-digit seconds field below 60. */
  lemma MinutesSecondsFields(t: real)
    requires 0.0 <= t
    ensures var p := Split(MinutesSecondsLabel(t), ':');
      |p| == 2 && |p[1]| == 2 && ToNumber(p[0]) == Some(t.Floor / 60) && ToNumber(p[1]) == Some(t.Floor % 60) &&
      t.Floor % 60 < 60
  {
    var f := t.Floor;
    assert MinutesSecondsLabel(t) == IntToString(f / 60) + ":" + Pad2(f % 60) by {
      ClockFields(t);
      FloorDiv(t, 60);
    }
    DivMod(f, 60);
    LabelFields(f / 60, f % 60);
  }

  /** Reading an `m:ss` label back as `MM:SS` gives the whole seconds it was written from. */
  lemma MinutesSecondsRoundTrip(t: real)
    requires 0.0 <= t
    ensures ParseTimeToSeconds(MinutesSecondsLabel(t)) == Some(t.Floor)
  {
    MinutesSecondsFields(t);
    ParseMinutesSeconds(MinutesSecondsLabel(t), t.Floor);
  }

  /** An entry of `VIDEO_CONFIG.QUALITY_OPTIONS`. */
  datatype QualityOption = QualityOption(displayLabel: string, value: string, bitrate: int)

  /** `VIDEO_CONFIG.QUALITY_OPTIONS`, highest bitrate first. */
  const QualityOptions: seq<QualityOption> := [
    QualityOption("4K", "2160p", 15000),
    QualityOption("1080p", "1080p", 8000),
    QualityOption("720p", "720p", 5000),
    QualityOption("480p", "480p", 2500)
  ]

  /** The table is already in descending bitrate order, so sorting it by `b.bitrate - a.bitrate` leaves it as it is. */
  predicate SortedByBitrateDesc(qs: seq<QualityOption>)
  {
    forall i, j :: 0 <= i < j < |qs| ==> qs[i].bitrate >= qs[j].bitrate
  }

  /** Whether `bandwidth` covers a bitrate with the 20% buffer. */
  predicate Affordable(bandwidth: real, q: QualityOption)
  {
    bandwidth >= (q.bitrate as real) * 1.2
  }

  /** The index of the first affordable option of `qs`, or of the last option when none is. */
  function FirstAffordable(qs: seq<QualityOption>, bandwidth: real): (i: nat)
    requires qs != []
    ensures i < |qs|
    ensures (exists j :: 0 <= j < |qs| && Affordable(bandwidth, qs[j])) ==> Affordable(bandwidth, qs[i])
    ensures !(exists j :: 0 <= j < |qs| && Affordable(bandwidth, qs[j])) ==> i == |qs| - 1
    ensures SortedByBitrateDesc(qs) ==> forall j :: 0 <= j < |qs| && Affordable(bandwidth, qs[j]) ==> qs[j].bitrate <= qs[i].bitrate
  {
    if Affordable(bandwidth, qs[0]) || |qs| == 1 then 0
    else
      assert forall j :: 1 <= j < |qs| ==> qs[j] == qs[1..][j - 1];
      FirstAffordable(qs[1..], bandwidth) + 1
  }

  /** Each option's value looks up its own bitrate: the values are distinct. */
  lemma OptionBitrate(i: nat)
    requires i < |QualityOptions|
    ensures GetQualityBitrate(QualityOptions[i].value) == QualityOptions[i].bitrate
  {
    var q := QualityOptions;
    assert q[1..][1..][1..] == [q[3]];
    assert q[1..][1..] == [q[2], q[3]];
    assert q[1..] == [q[1], q[2], q[3]];
  }

  /** `getOptimalQuality(bandwidth)`: the value of the highest-bitrate option the bandwidth affords, else the lowest. */
  function GetOptimalQuality(bandwidth: real): (r: string)
    ensures exists i :: 0 <= i < |QualityOptions| && QualityOptions[i].value == r
    ensures r == "480p" || bandwidth >= (GetQualityBitrate(r) as real) * 1.2
    ensures forall i :: 0 <= i < |QualityOptions| && Affordable(bandwidth, QualityOptions[i]) ==>
      QualityOptions[i].bitrate <= GetQualityBitrate(r)
    ensures bandwidth < 3000.0 ==> r == "480p"
  {
    assert SortedByBitrateDesc(QualityOptions);
    var i := FirstAffordable(QualityOptions, bandwidth);
    OptionBitrate(i);
    QualityOptions[i].value
  }

  /** `getQualityBitrate(quality)`: the bitrate of the option with that value, 0 when there is none. */
  function GetQualityBitrate(quality: string): (b: int)
    ensures forall i :: 0 <= i < |QualityOptions| ==>
      (QualityOptions[i].value == quality && (forall j :: 0 <= j < i ==> QualityOptions[j].value != quality) ==> b == QualityOptions[i].bitrate)
    ensures (forall i :: 0 <= i < |QualityOptions| ==> QualityOptions[i].value != quality) ==> b == 0
  {
    FindBitrate(QualityOptions, quality)
  }

  /** `options.find(q => q.value === quality)?.bitrate || 0`; a zero bitrate and a missing option both give 0. */
  function FindBitrate(qs: seq<QualityOption>, quality: string): (b: int)
    ensures (forall i :: 0 <= i < |qs| ==> qs[i].value != quality) ==> b == 0
    ensures forall i :: 0 <= i < |qs| ==>
      (qs[i].value == quality && (forall j :: 0 <= j < i ==> qs[j].value != quality) ==> b == qs[i].bitrate)
  {
    if qs == [] then 0
    else if qs[0].value == quality then qs[0].bitrate
    else
      assert forall i :: 1 <= i < |qs| ==> qs[i] == qs[1..][i - 1];
      FindBitrate(qs[1..], quality)
  }

  /** `gcd(a, b)` as the source writes it: `b === 0 ? a : gcd(b, a % b)`. */
  function Gcd(a: nat, b: nat): nat
    decreases b
  {
    if b == 0 then a else Gcd(b, a % b)
  }

  /** The gcd divides both arguments: witnesses x, y with a == x * g and b == y * g. */
  lemma {:induction false} GcdDivides(a: nat, b: nat) returns (x: nat, y: nat)
    ensures a == x * Gcd(a, b) && b == y * Gcd(a, b)
    decreases b
  {
    if b == 0 {
      x, y := 1, 0;
    } else {
      var x', y' := GcdDivides(b, a % b);
      var g := Gcd(a, b);
      DivMod(a, b);
      x, y := (a / b) * x' + y', x';
      assert a == (a / b) * (x' * g) + y' * g;
      assert (a / b) * (x' * g) == ((a / b) * x') * g;
    }
  }

  /** Scaling both arguments scales the gcd. */
  lemma {:induction false} GcdScale(a: nat, b: nat, k: nat)
    requires 0 < k
    ensures Gcd(k * a, k * b) == k * Gcd(a, b)
    decreases b
  {
    if b != 0 {
      DivMod(a, b);
      assert k * a == (a / b) * (k * b) + k * (a % b);
      assert k * (a % b) < k * b;
      DivModUnique(k * a, k * b, a / b, k * (a % b));
      GcdScale(b, a % b, k);
    }
  }

  lemma GcdPositive(a: nat, b: nat)
    requires 0 < a || 0 < b
    ensures 0 < Gcd(a, b)
    decreases b
  {
    if b != 0 {
      GcdPositive(b, a % b);
    }
  }

  /** Dividing by the gcd leaves coprime numbers in the same ratio. */
  lemma ReducedByGcd(width: nat, height: nat)
    requires 0 < width || 0 < height
    ensures 0 < Gcd(width, height)
    ensures var g := Gcd(width, height);
      (width / g) * g == width && (height / g) * g == height && Gcd(width / g, height / g) == 1
  {
    var g := Gcd(width, height);
    GcdPositive(width, height);
    var x, y := GcdDivides(width, height);
    DivExact(width, g, x);
    DivExact(height, g, y);
    GcdScale(x, y, g);
    assert g * x == width && g * y == height;
    assert g * Gcd(x, y) == g * 1;
  }

  /** `calculateAspectRatio`'s two numbers: width and height divided by their gcd. */
  function ReducedRatio(width: nat, height: nat): (p: (nat, nat))
    requires 0 < width || 0 < height
    ensures p.0 * Gcd(width, height) == width && p.1 * Gcd(width, height) == height
    ensures p.0 * height == p.1 * width
    ensures Gcd(p.0, p.1) == 1
  {
    ReducedByGcd(width, height);
    var g := Gcd(width, height);
    var x, y := width / g, height / g;
    CrossMultiply(x, y, g, width, height);
    (x, y)
  }

  /** Two numbers scaled by the same factor keep their cross products equal. */
  lemma CrossMultiply(x: int, y: int, g: int, width: int, height: int)
    requires x * g == width && y * g == height
    ensures x * height == y * width
  {
    calc {
      x * height;
      x * (y * g);
      (x * y) * g;
      (y * x) * g;
      y * (x * g);
      y * width;
    }
  }


  /** `calculateAspectRatio(width, height)`: the reduced ratio written `w:h`. */
  function CalculateAspectRatio(width: nat, height: nat): (r: string)
    requires 0 < width || 0 < height
    ensures var p := Split(r, ':');
      |p| == 2 && ToNumber(p[0]) == Some(ReducedRatio(width, height).0) &&
      ToNumber(p[1]) == Some(ReducedRatio(width, height).1)
  {
    var (w, h) := ReducedRatio(width, height);
    ToNumberOfIntToString(w);
    ToNumberOfIntToString(h);
    DigitsHaveNoColon(NatToString(w));
    DigitsHaveNoColon(NatToString(h));
    SplitTwo(IntToString(w), IntToString(h));
    IntToString(w) + ":" + IntToString(h)
  }
}
