/**
  lib/color-generator.ts: the Fisher-Yates shuffle, the five fixed 8-colour
  palettes and the random choice among them, the hue sequence of a generated
  HSL palette, hex colour parsing, and the WCAG 2.1 relative luminance and
  contrast ratio with the black-or-white text colour choice.

  `Math.random()` is replaced by draws passed in: an index for each step of a
  shuffle or choice, a number in [0, 1) for each saturation or lightness.
  The power x^2.4 in the sRGB linearisation is passed in as `pow`.
 */
module ColorGenerator {
  import opened Wrappers
  import opened JsText

  // ---------------------------------------------------------------- shuffle

  /** The draws a shuffle of `n` items can make: `picks[i]` is the index
      `Math.floor(Math.random() * (i + 1))` gives when the loop counter is `i`,
      so it lies in 0..i. The loop never runs with `i == 0`, so `picks[0]` is
      never used. */
  predicate AdmissiblePicks(picks: seq<nat>, n: nat) {
    |picks| == n && forall i :: 0 < i < n ==> picks[i] <= i
  }

  /** `[s[i], s[j]] = [s[j], s[i]]` on a copy of `s`. */
  function Swap<T>(s: seq<T>, i: nat, j: nat): (r: seq<T>)
    requires i < |s| && j < |s|
    ensures |r| == |s| && r[i] == s[j] && r[j] == s[i]
    ensures forall k :: 0 <= k < |s| && k != i && k != j ==> r[k] == s[k]
  {
    s[i := s[j]][j := s[i]]
  }

  /** A swap only rearranges. */
  lemma SwapPermutes<T>(s: seq<T>, i: nat, j: nat)
    requires i < |s| && j < |s|
    ensures multiset(Swap(s, i, j)) == multiset(s)
  {
  }

  /** The array once the loop has run its steps for counters i, i - 1, ..., 1:
      a permutation of `s` that leaves every position above `i` as it was. */
  function ShuffleFrom<T>(s: seq<T>, picks: seq<nat>, i: int): (r: seq<T>)
    requires -1 <= i < |s| && |picks| == |s|
    requires forall k :: 0 < k <= i ==> picks[k] <= k
    ensures |r| == |s|
    ensures forall k :: 0 <= k < |s| && i < k ==> r[k] == s[k]
    decreases i
  {
    if i <= 0 then s else ShuffleFrom(Swap(s, i, picks[i]), picks, i - 1)
  }

  /** The shuffle only rearranges: the result is a permutation of `s`. */
  lemma {:induction false} ShuffleFromPermutes<T>(s: seq<T>, picks: seq<nat>, i: int)
    requires -1 <= i < |s| && |picks| == |s|
    requires forall k :: 0 < k <= i ==> picks[k] <= k
    ensures multiset(ShuffleFrom(s, picks, i)) == multiset(s)
    decreases i
  {
    if i > 0 {
      SwapPermutes(s, i, picks[i]);
      ShuffleFromPermutes(Swap(s, i, picks[i]), picks, i - 1);
    }
  }

  /** What `shuffleArray(s)` returns for the given draws. */
  function Shuffled<T>(s: seq<T>, picks: seq<nat>): seq<T>
    requires AdmissiblePicks(picks, |s|)
  {
    ShuffleFrom(s, picks, |picks| - 1)
  }

  /** `shuffleArray`: copies its argument into a fresh array and swaps in place
      from the last position down; the result is a permutation of the input,
      which is left as it was. */
  method ShuffleArray<T>(items: seq<T>, picks: seq<nat>) returns (shuffled: seq<T>)
    requires AdmissiblePicks(picks, |items|)
    ensures shuffled == Shuffled(items, picks)
    ensures |shuffled| == |items|
  {
    var a := new T[|items|](k requires 0 <= k < |items| => items[k]);
    assert a[..] == items;
    var i := |items| - 1;
    while i > 0
      invariant -1 <= i < |items|
      invariant ShuffleFrom(a[..], picks, i) == Shuffled(items, picks)
      invariant forall k :: 0 <= k < |items| && i < k ==> a[k] == Shuffled(items, picks)[k]
    {
      var j := picks[i];
      ghost var before := a[..];
      var t := a[i];
      a[i] := a[j];
      a[j] := t;
      assert a[..] == Swap(before, i, j);
      i := i - 1;
    }
    shuffled := a[..];
  }

  /** No two positions of `s` hold the same value. */
  ghost predicate Distinct<T>(s: seq<T>) {
    forall i, j :: 0 <= i < j < |s| ==> s[i] != s[j]
  }

  /** Shuffling keeps distinct values distinct. */
  lemma {:induction false} ShuffleFromDistinct<T>(s: seq<T>, picks: seq<nat>, i: int)
    requires -1 <= i < |s| && |picks| == |s|
    requires forall k :: 0 < k <= i ==> picks[k] <= k
    requires Distinct(s)
    ensures Distinct(ShuffleFrom(s, picks, i))
    decreases i
  {
    if i > 0 {
      var t := Swap(s, i, picks[i]);
      forall a, b | 0 <= a < b < |t| ensures t[a] != t[b] {
        var a' := if a == i then picks[i] else if a == picks[i] then i else a;
        var b' := if b == i then picks[i] else if b == picks[i] then i else b;
        assert t[a] == s[a'] && t[b] == s[b'];
        assert a' != b';
      }
      ShuffleFromDistinct(t, picks, i - 1);
    }
  }

  // ---------------------------------------------------------------- palettes

  /** The keys of `contrastPalettes`, in declaration order. */
  datatype PaletteName = Vibrant | Professional | Modern | Warm | Cool

  const PaletteNames: seq<PaletteName> := [Vibrant, Professional, Modern, Warm, Cool]

  /** `contrastPalettes[name]`. */
  function ContrastPalette(name: PaletteName): seq<string> {
    match name
    case Vibrant => ["#FF6B6B", "#4ECDC4", "#45B7D1", "#FFA07A", "#98D8C8", "#F7DC6F", "#BB8FCE", "#85C1E2"]
    case Professional => ["#2E86AB", "#A23B72", "#F18F01", "#C73E1D", "#6A994E", "#BC4B51", "#8B7E74", "#5E548E"]
    case Modern => ["#E63946", "#F1FAEE", "#A8DADC", "#457B9D", "#1D3557", "#F77F00", "#06FFA5", "#D62828"]
    case Warm => ["#E76F51", "#F4A261", "#E9C46A", "#2A9D8F", "#264653", "#E07A5F", "#81B29A", "#F2CC8F"]
    case Cool => ["#0077B6", "#00B4D8", "#90E0EF", "#023E8A", "#03045E", "#48CAE4", "#ADE8F4", "#CAF0F8"]
  }

  /** Eight distinct colours, each accepted by `hexToRgb`. */
  ghost predicate WellFormedPalette(p: seq<string>) {
    |p| == 8 && Distinct(p) && forall k :: 0 <= k < 8 ==> HexColorSyntax(p[k])
  }

  /** Every fixed palette holds eight distinct colours, each a valid hex colour. */
  lemma ContrastPaletteWellFormed(name: PaletteName)
    ensures WellFormedPalette(ContrastPalette(name))
  {
    var p := ContrastPalette(name);
    match name {
      case Vibrant => ColorsChecked(p);
      case Professional => ColorsChecked(p);
      case Modern => ColorsChecked(p);
      case Warm => ColorsChecked(p);
      case Cool => ColorsChecked(p);
    }
  }

  /** Checks a palette literal colour by colour. */
  lemma ColorsChecked(p: seq<string>)
    requires |p| == 8 && Distinct(p)
    requires HexColorSyntax(p[0]) && HexColorSyntax(p[1]) && HexColorSyntax(p[2]) && HexColorSyntax(p[3])
    requires HexColorSyntax(p[4]) && HexColorSyntax(p[5]) && HexColorSyntax(p[6]) && HexColorSyntax(p[7])
    ensures WellFormedPalette(p)
  {
  }

  /** `getRandomPalette`: the palette at the drawn position of the key list,
      shuffled. The result is a permutation of that palette: eight distinct
      valid hex colours. */
  function RandomPalette(namePick: nat, picks: seq<nat>): (r: seq<string>)
    requires namePick < |PaletteNames| && AdmissiblePicks(picks, 8)
    ensures |r| == 8
    ensures multiset(r) == multiset(ContrastPalette(PaletteNames[namePick]))
    ensures Distinct(r)
    ensures forall k :: 0 <= k < 8 ==> HexToRgb(r[k]).Some?
  {
    var palette := ContrastPalette(PaletteNames[namePick]);
    ContrastPaletteWellFormed(PaletteNames[namePick]);
    ShuffleFromDistinct(palette, picks, 7);
    ShuffleFromPermutes(palette, picks, 7);
    var r := Shuffled(palette, picks);
    forall k | 0 <= k < 8 ensures HexToRgb(r[k]).Some? {
      assert r[k] in multiset(palette);
      var m :| 0 <= m < 8 && palette[m] == r[k];
      assert HexColorSyntax(palette[m]);
    }
    r
  }

  // ---------------------------------------------------------------- HSL palette

  /** The hue set `generateRandomPalette` shuffles. */
  const BaseHues: seq<int> := [0, 30, 60, 120, 180, 210, 240, 270, 300, 330]

  /** One generated colour, `hsl(hue, saturation%, lightness%)`. */
  datatype Hsl = Hsl(hue: int, saturation: real, lightness: real)

  /** `n` draws of `Math.random()`, each in [0, 1). */
  predicate UnitDraws(draws: seq<real>, n: nat) {
    |draws| >= n && forall k :: 0 <= k < n ==> 0.0 <= draws[k] < 1.0
  }

  /** `generateRandomPalette(count)`: `count` colours (none for a count that is
      not positive) whose hues run through a shuffle of the ten base hues and
      repeat after ten; saturations lie in [60, 90) and lightnesses in [45, 60). */
  method GenerateRandomPalette(huePicks: seq<nat>, saturationDraws: seq<real>, lightnessDraws: seq<real>, count: int := 5)
    returns (colors: seq<Hsl>)
    requires AdmissiblePicks(huePicks, |BaseHues|)
    requires UnitDraws(saturationDraws, if count > 0 then count else 0)
    requires UnitDraws(lightnessDraws, if count > 0 then count else 0)
    ensures |colors| == if count > 0 then count else 0
    ensures forall i :: 0 <= i < |colors| ==> colors[i].hue == Shuffled(BaseHues, huePicks)[i % 10]
    ensures forall i :: 0 <= i < |colors| ==> colors[i].hue in BaseHues
    ensures forall i, j :: 0 <= i < |colors| && 0 <= j < |colors| ==> (colors[i].hue == colors[j].hue <==> i % 10 == j % 10)
    ensures forall i :: 0 <= i < |colors| ==>
      colors[i].saturation == 60.0 + saturationDraws[i] * 30.0 && colors[i].lightness == 45.0 + lightnessDraws[i] * 15.0
    ensures forall i :: 0 <= i < |colors| ==> 60.0 <= colors[i].saturation < 90.0 && 45.0 <= colors[i].lightness < 60.0
  {
    var baseHues := ShuffleArray(BaseHues, huePicks);
    colors := [];
    var i := 0;
    while i < count
      invariant 0 <= i && (count > 0 ==> i <= count) && (count <= 0 ==> i == 0)
      invariant |colors| == i
      invariant forall k :: 0 <= k < i ==> colors[k].hue == baseHues[k % 10]
      invariant forall k :: 0 <= k < i ==>
        colors[k].saturation == 60.0 + saturationDraws[k] * 30.0 && colors[k].lightness == 45.0 + lightnessDraws[k] * 15.0
      invariant forall k :: 0 <= k < i ==> 60.0 <= colors[k].saturation < 90.0 && 45.0 <= colors[k].lightness < 60.0
    {
      var hue := baseHues[i % |baseHues|];
      var saturation := 60.0 + saturationDraws[i] * 30.0;
      var lightness := 45.0 + lightnessDraws[i] * 15.0;
      ghost var before := colors;
      colors := colors + [Hsl(hue, saturation, lightness)];
      assert forall k :: 0 <= k < i ==> colors[k] == before[k];
      i := i + 1;
    }
    BaseHuesDistinct();
    ShuffledCycle(BaseHues, huePicks);
  }

  /** A shuffle of distinct values, read cyclically: every read is one of the
      values, and two positions agree exactly when they are equal modulo the
      length. */
  lemma ShuffledCycle<T>(s: seq<T>, picks: seq<nat>)
    requires AdmissiblePicks(picks, |s|) && Distinct(s) && |s| > 0
    ensures forall k :: 0 <= k < |s| ==> Shuffled(s, picks)[k] in s
    ensures forall i, j :: 0 <= i && 0 <= j ==>
      (Shuffled(s, picks)[i % |s|] == Shuffled(s, picks)[j % |s|] <==> i % |s| == j % |s|)
  {
    var r := Shuffled(s, picks);
    ShuffleFromDistinct(s, picks, |s| - 1);
    ShuffleFromPermutes(s, picks, |s| - 1);
    forall k | 0 <= k < |s| ensures r[k] in s {
      assert r[k] in multiset(s);
    }
  }

  lemma BaseHuesDistinct()
    ensures Distinct(BaseHues)
  {
  }

  // ---------------------------------------------------------------- hex colours

  /** The components parsed from a hex colour. */
  datatype Rgb = Rgb(r: int, g: int, b: int)

  predicate InRange(c: Rgb) {
    0 <= c.r < 256 && 0 <= c.g < 256 && 0 <= c.b < 256
  }

  /** `[a-f\d]` under the `i` flag. */
  predicate IsHexDigit(c: char) {
    '0' <= c <= '9' || 'a' <= c <= 'f' || 'A' <= c <= 'F'
  }

  function HexDigitValue(c: char): (v: nat)
    requires IsHexDigit(c)
    ensures v < 16
  {
    if '0' <= c <= '9' then c as int - '0' as int
    else if 'a' <= c <= 'f' then c as int - 'a' as int + 10
    else c as int - 'A' as int + 10
  }

  /** The texts `/^#?([a-f\d]{2})([a-f\d]{2})([a-f\d]{2})$/i` matches: six hex
      digits, optionally after one "#". */
  predicate HexColorSyntax(s: string) {
    || (|s| == 6 && SixHexDigits(s, 0))
    || (|s| == 7 && s[0] == '#' && SixHexDigits(s, 1))
  }

  /** Six hex digits from position `from` on. */
  predicate SixHexDigits(s: string, from: nat)
    requires from + 6 <= |s|
  {
    IsHexDigit(s[from]) && IsHexDigit(s[from + 1]) && IsHexDigit(s[from + 2]) &&
    IsHexDigit(s[from + 3]) && IsHexDigit(s[from + 4]) && IsHexDigit(s[from + 5])
  }

  /** `parseInt(d[k..k + 2], 16)`. */
  function HexByte(d: string, k: nat): (v: nat)
    requires k + 1 < |d| && IsHexDigit(d[k]) && IsHexDigit(d[k + 1])
    ensures v < 256
  {
    16 * HexDigitValue(d[k]) + HexDigitValue(d[k + 1])
  }

  /** `hexToRgb`: the three components of a colour the pattern accepts, and
      `None` (for `null`) for any other text. */
  function HexToRgb(hex: string): (c: Option<Rgb>)
    ensures c.Some? <==> HexColorSyntax(hex)
    ensures c.Some? ==> InRange(c.value)
  {
    var d := if |hex| > 0 && hex[0] == '#' then hex[1..] else hex;
    if |d| == 6 && SixHexDigits(d, 0) then
      Some(Rgb(HexByte(d, 0), HexByte(d, 2), HexByte(d, 4)))
    else None
  }

  /** The upper-case hex digit of a value below 16. */
  function UpperHexDigit(v: nat): (c: char)
    requires v < 16
    ensures IsHexDigit(c) && HexDigitValue(c) == v
  {
    if v < 10 then ('0' as int + v) as char else ('A' as int + v - 10) as char
  }

  /** A colour written as "#RRGGBB" in upper case: the inverse of `HexToRgb`. */
  function ToHex(c: Rgb): (s: string)
    requires InRange(c)
  {
    "#" + [UpperHexDigit(c.r / 16), UpperHexDigit(c.r % 16),
           UpperHexDigit(c.g / 16), UpperHexDigit(c.g % 16),
           UpperHexDigit(c.b / 16), UpperHexDigit(c.b % 16)]
  }

  /** Parsing a written colour gives the colour back. */
  lemma HexRoundTrip(c: Rgb)
    requires InRange(c)
    ensures HexToRgb(ToHex(c)) == Some(c)
  {
    var s := ToHex(c);
    assert HexColorSyntax(s);
    var d := s[1..];
    assert HexByte(d, 0) == c.r && HexByte(d, 2) == c.g && HexByte(d, 4) == c.b;
  }

  /** The upper-case form of a hex digit. */
  function UpperHex(c: char): char
    requires IsHexDigit(c)
  {
    if 'a' <= c <= 'f' then (c as int - 32) as char else c
  }

  /** Writing a parsed colour gives its text back, with "#" and in upper case. */
  lemma HexCanonical(hex: string)
    requires HexToRgb(hex).Some?
    ensures var d := if hex[0] == '#' then hex[1..] else hex;
      ToHex(HexToRgb(hex).value) ==
        "#" + [UpperHex(d[0]), UpperHex(d[1]), UpperHex(d[2]), UpperHex(d[3]), UpperHex(d[4]), UpperHex(d[5])]
  {
    var d := if hex[0] == '#' then hex[1..] else hex;
    assert SixHexDigits(d, 0);
    ByteDigits(d, 0);
    ByteDigits(d, 2);
    ByteDigits(d, 4);
  }

  /** The two digits of one parsed byte, written back in upper case. */
  lemma ByteDigits(d: string, k: nat)
    requires k + 1 < |d| && IsHexDigit(d[k]) && IsHexDigit(d[k + 1])
    ensures UpperHexDigit(HexByte(d, k) / 16) == UpperHex(d[k])
    ensures UpperHexDigit(HexByte(d, k) % 16) == UpperHex(d[k + 1])
  {
    var hi, lo := HexDigitValue(d[k]), HexDigitValue(d[k + 1]);
    assert HexByte(d, k) / 16 == hi && HexByte(d, k) % 16 == lo;
  }

  // ---------------------------------------------------------------- WCAG luminance and contrast

  /** What the model assumes of `pow`, the stand-in for x ↦ `Math.pow(x, 2.4)`:
      it maps [0, 1] into [0, 1] and 1 to 1. */
  ghost predicate PowerLike(pow: real -> real) {
    (forall x: real :: 0.0 <= x <= 1.0 ==> 0.0 <= pow(x) <= 1.0) && pow(1.0) == 1.0
  }

  /** The linearised value of one 8-bit sRGB channel, as `getLuminance`
      computes it (threshold 0.03928, divisor 12.92, else the power branch). */
  function Linearize(c: int, pow: real -> real): (v: real)
    requires 0 <= c < 256 && PowerLike(pow)
    ensures 0.0 <= v <= 1.0
    ensures c == 0 ==> v == 0.0
    ensures c == 255 ==> v == 1.0
  {
    var x := c as real / 255.0;
    if x <= 0.03928 then x / 12.92 else pow((x + 0.055) / 1.055)
  }

  /** `getLuminance`: the relative luminance, weighting the channels 0.2126,
      0.7152 and 0.0722; black has 0 and white 1. */
  function Luminance(c: Rgb, pow: real -> real): (l: real)
    requires InRange(c) && PowerLike(pow)
    ensures 0.0 <= l <= 1.0
    ensures c == Rgb(0, 0, 0) ==> l == 0.0
    ensures c == Rgb(255, 255, 255) ==> l == 1.0
  {
    0.2126 * Linearize(c.r, pow) + 0.7152 * Linearize(c.g, pow) + 0.0722 * Linearize(c.b, pow)
  }

  /** The WCAG contrast ratio of two luminances, lighter over darker. */
  function Ratio(l1: real, l2: real): (q: real)
    requires 0.0 <= l1 && 0.0 <= l2
    ensures q >= 1.0
    ensures l1 == l2 ==> q == 1.0
  {
    var lighter := if l1 >= l2 then l1 else l2;
    var darker := if l1 >= l2 then l2 else l1;
    assert lighter + 0.05 >= darker + 0.05 > 0.0;
    (lighter + 0.05) / (darker + 0.05)
  }

  /** `getContrastRatio`: 1 when either colour does not parse; otherwise the
      ratio of the lighter luminance plus 0.05 to the darker plus 0.05. It is
      at least 1, and 1 for a colour against itself. */
  function ContrastRatio(color1: string, color2: string, pow: real -> real): (ratio: real)
    requires PowerLike(pow)
    ensures HexToRgb(color1).None? || HexToRgb(color2).None? ==> ratio == 1.0
    ensures ratio >= 1.0
    ensures color1 == color2 ==> ratio == 1.0
  {
    match (HexToRgb(color1), HexToRgb(color2))
    case (Some(c1), Some(c2)) => Ratio(Luminance(c1, pow), Luminance(c2, pow))
    case _ => 1.0
  }

  /** Two luminances in [0, 1] are at most 21:1 apart. */
  lemma RatioAtMost21(l1: real, l2: real)
    requires 0.0 <= l1 <= 1.0 && 0.0 <= l2 <= 1.0
    ensures Ratio(l1, l2) <= 21.0
  {
    var lighter := if l1 >= l2 then l1 else l2;
    var darker := if l1 >= l2 then l2 else l1;
    var a, b := lighter + 0.05, darker + 0.05;
    assert Ratio(l1, l2) == a / b;
    QuotientAtMost(a, b, 21.0);
  }

  /** A quotient by a positive divisor is at most m when the dividend is at
      most m times the divisor. */
  lemma QuotientAtMost(a: real, b: real, m: real)
    requires b > 0.0 && a <= m * b
    ensures a / b <= m
  {
  }

  /** The WCAG range: no two colours contrast more than 21:1, and white
      against black reaches it. */
  lemma ContrastRatioRange(color1: string, color2: string, pow: real -> real)
    requires PowerLike(pow)
    ensures ContrastRatio(color1, color2, pow) <= 21.0
    ensures ContrastRatio(White, Black, pow) == 21.0
  {
    if HexToRgb(color1).Some? && HexToRgb(color2).Some? {
      RatioAtMost21(Luminance(HexToRgb(color1).value, pow), Luminance(HexToRgb(color2).value, pow));
    }
    BlackAndWhiteParse();
    assert Luminance(Rgb(0, 0, 0), pow) == 0.0;
    assert Luminance(Rgb(255, 255, 255), pow) == 1.0;
    assert Ratio(1.0, 0.0) == 21.0;
  }

  /** The contrast ratio does not depend on the order of the colours. */
  lemma ContrastRatioSymmetric(color1: string, color2: string, pow: real -> real)
    requires PowerLike(pow)
    ensures ContrastRatio(color1, color2, pow) == ContrastRatio(color2, color1, pow)
  {
  }

  const Black := "#000000"
  const White := "#FFFFFF"

  /** `getTextColor`: black for a background that does not parse; otherwise
      black exactly when the luminance exceeds 0.5, white else. */
  function TextColor(backgroundColor: string, pow: real -> real): (text: string)
    requires PowerLike(pow)
    ensures text == Black || text == White
    ensures text == White <==> HexToRgb(backgroundColor).Some? && Luminance(HexToRgb(backgroundColor).value, pow) <= 0.5
  {
    match HexToRgb(backgroundColor)
    case None => Black
    case Some(rgb) => if Luminance(rgb, pow) > 0.5 then Black else White
  }

  /** Black and white parse to the ends of the channel range. */
  lemma BlackAndWhiteParse()
    ensures HexToRgb(Black) == Some(Rgb(0, 0, 0))
    ensures HexToRgb(White) == Some(Rgb(255, 255, 255))
  {
    assert SixHexDigits(Black, 1) && SixHexDigits(White, 1);
    assert Black[1..] == "000000" && White[1..] == "FFFFFF";
  }

  /** The contrast of luminance `l` against black and against white. */
  lemma RatioAgainstEnds(l: real)
    requires 0.0 <= l <= 1.0
    ensures l > 0.5 ==> Ratio(l, 0.0) > 11.0 && Ratio(l, 1.0) < 2.0
    ensures l <= 0.5 ==> Ratio(l, 1.0) >= 21.0 / 11.0
  {
    assert Ratio(l, 0.0) == (l + 0.05) / 0.05;
    assert Ratio(l, 1.0) == 1.05 / (l + 0.05);
    if l > 0.5 {
      assert (l + 0.05) / 0.05 == 20.0 * l + 1.0;
      assert 1.05 / (l + 0.05) * (l + 0.05) == 1.05;
    } else {
      assert 1.05 / (l + 0.05) * (l + 0.05) == 1.05;
    }
  }

  /** When the chosen text colour is black on a valid background, black text
      has a contrast above 11:1 and white text would have less than 2:1; when
      it is white, white text has at least 21:11. */
  lemma TextColorContrast(backgroundColor: string, pow: real -> real)
    requires PowerLike(pow) && HexToRgb(backgroundColor).Some?
    ensures TextColor(backgroundColor, pow) == Black ==>
      ContrastRatio(backgroundColor, Black, pow) > 11.0 && ContrastRatio(backgroundColor, White, pow) < 2.0
    ensures TextColor(backgroundColor, pow) == White ==> ContrastRatio(backgroundColor, White, pow) >= 21.0 / 11.0
  {
    var l := Luminance(HexToRgb(backgroundColor).value, pow);
    BlackAndWhiteParse();
    assert Luminance(Rgb(0, 0, 0), pow) == 0.0;
    assert Luminance(Rgb(255, 255, 255), pow) == 1.0;
    assert ContrastRatio(backgroundColor, Black, pow) == Ratio(l, 0.0);
    assert ContrastRatio(backgroundColor, White, pow) == Ratio(l, 1.0);
    RatioAgainstEnds(l);
  }
}
