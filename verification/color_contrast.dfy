/** The colour-contrast checker: reading computed colours, the WCAG contrast
    ratio, the two thresholds per text size, and the list of elements that
    fail one of them, located by a plain-text search of the document. */
module ColorContrast {
  import opened Wrappers
  import opened Strings
  import opened Numerals
  import opened ContrastFindings

  datatype Rgb = Rgb(r: nat, g: nat, b: nat)

  const DefaultFontColor := "#000000"
  const DefaultBackgroundColor := "#ffffff"

  /** The decimal number written by the digits `s[i..j]`. */
  function Decimal(s: string, i: nat, j: nat): (v: nat)
    requires i <= j <= |s|
    requires forall k :: i <= k < j ==> IsDigit(s[k])
  {
    assert AllDigitsIn(s[i..j], 10) by {
      forall k | 0 <= k < j - i
        ensures IsHexDigit(s[i..j][k]) && DigitVal(s[i..j][k]) < 10
      {
        assert s[i..j][k] == s[i + k];
      }
    }
    Value(s[i..j], 10)
  }

  /** `(\d+)` at `p`: the number and where the digits end. */
  function RunAt(s: string, p: nat): (r: Option<(nat, nat)>)
    ensures r.Some? ==> p < r.value.1 <= |s| && IsDigit(s[p]) && IsDigit(s[r.value.1 - 1])
    ensures r.Some? ==> r.value.1 == |s| || !IsDigit(s[r.value.1])
  {
    if p >= |s| then None
    else
      var d := SkipDigits(s, p);
      if d == p then None else Some((Decimal(s, p, d), d))
  }

  /** `,\s*` at `e`: where the spaces end. */
  function SeparatorAt(s: string, e: nat): (r: Option<nat>)
    ensures r.Some? ==> e < r.value <= |s|
  {
    if e < |s| && s[e] == ',' then Some(SkipSpaces(s, e + 1)) else None
  }

  /** `(\d+),\s*(\d+),\s*(\d+)` tried at offset `p`: the three numbers and
      where the match ends. Greedy `\d+` and `\s*` never need to give back a
      character here, because what follows each cannot match a digit or a space. */
  function TripleAt(s: string, p: nat): (r: Option<(Rgb, nat)>)
    ensures r.Some? ==> p + 5 <= r.value.1 <= |s| && IsDigit(s[p]) && IsDigit(s[r.value.1 - 1])
    ensures r.Some? ==> r.value.1 == |s| || !IsDigit(s[r.value.1])
  {
    var red := RunAt(s, p);
    if red.None? then None
    else
      var a := SeparatorAt(s, red.value.1);
      if a.None? then None
      else
        var green := RunAt(s, a.value);
        if green.None? then None
        else
          var b := SeparatorAt(s, green.value.1);
          if b.None? then None
          else
            var blue := RunAt(s, b.value);
            if blue.None? then None
            else Some((Rgb(red.value.0, green.value.0, blue.value.0), blue.value.1))
  }

  /** Where the leftmost match of the triple pattern at or after `from` begins. */
  function TripleIndex(s: string, from: nat): (r: Option<nat>)
    ensures r.Some? ==> from <= r.value < |s| && TripleAt(s, r.value).Some?
    ensures r.Some? ==> forall q :: from <= q < r.value ==> TripleAt(s, q).None?
    ensures r.None? <==> forall q :: from <= q ==> TripleAt(s, q).None?
    decreases |s| - from
  {
    if from >= |s| then
      NoTripleAtEnd(s);
      None
    else if TripleAt(s, from).Some? then Some(from)
    else TripleIndex(s, from + 1)
  }

  /** No triple starts at or past the end of the text. */
  lemma NoTripleAtEnd(s: string)
    ensures forall q :: |s| <= q ==> TripleAt(s, q).None?
  {
  }

  /** `s.match(/(\d+),\s*(\d+),\s*(\d+)/)`: the leftmost match. */
  function FirstTriple(s: string): (r: Option<(Rgb, nat)>)
    ensures r.None? <==> forall q :: 0 <= q ==> TripleAt(s, q).None?
  {
    match TripleIndex(s, 0)
    case None => None
    case Some(p) =>
      assert TripleAt(s, p).Some?;
      TripleAt(s, p)
  }

  /** Two lower-case hexadecimal digits for a channel below 256 (more for larger values). */
  function Hex2(n: nat): string {
    PadStart2(Render(n, 16))
  }

  /** The `#rrggbb` text `rgbToHex` builds from the three numbers. */
  function HexOf(c: Rgb): string {
    "#" + Hex2(c.r) + Hex2(c.g) + Hex2(c.b)
  }

  /** `rgbToHex`: the computed colour as `#rrggbb`; without three numbers,
      black for text, white for the background, an error for any other kind. */
  function RgbToHex(computed: string, kind: string): (r: Result<string>)
    ensures FirstTriple(computed).Some? ==> r == Success(HexOf(FirstTriple(computed).value.0))
    ensures FirstTriple(computed).None? ==>
              (r.Success? <==> kind == "text" || kind == "background")
    ensures r.Success? && FirstTriple(computed).None? ==>
              r.value == (if kind == "text" then DefaultFontColor else DefaultBackgroundColor)
  {
    match FirstTriple(computed)
    case Some((c, _)) => Success(HexOf(c))
    case None =>
      if kind == "text" then Success(DefaultFontColor)
      else if kind == "background" then Success(DefaultBackgroundColor)
      else Failure("Invalid color type: " + kind)
  }

  /** `^#([a-f\d]{2})([a-f\d]{2})([a-f\d]{2})$` with the `i` flag. */
  predicate IsHexColor(c: string) {
    |c| == 7 && c[0] == '#' && forall i :: 1 <= i < 7 ==> IsHexDigit(c[i])
  }

  function HexChannel(c: string, i: nat): (v: nat)
    requires IsHexColor(c) && 1 <= i <= 5
    ensures v < 256
  {
    assert AllDigitsIn(c[i..i + 2], 16) by {
      assert c[i..i + 2][0] == c[i] && c[i..i + 2][1] == c[i + 1];
    }
    ValueTwo(c[i..i + 2], 16);
    Value(c[i..i + 2], 16)
  }

  /** `([0-9]*[.])?[0-9]+`: digits with at most one point, ending in a digit. */
  predicate IsAlpha(a: string) {
    |a| >= 1 && IsDigit(a[|a| - 1])
    && (forall i :: 0 <= i < |a| ==> IsDigit(a[i]) || a[i] == '.')
    && (forall i, j :: 0 <= i < j < |a| && a[i] == '.' ==> a[j] != '.')
  }

  /** `^rgba\((\d+),\s*(\d+),\s*(\d+),\s*([0-9]*[.])?[0-9]+\)$` after its `rgba(`
      and triple: the separator, spaces, alpha and closing parenthesis. */
  predicate AlphaTail(c: string, e: nat) {
    e < |c| && c[e] == ',' && c[|c| - 1] == ')'
    && SkipSpaces(c, e + 1) <= |c| - 1 && IsAlpha(c[SkipSpaces(c, e + 1)..|c| - 1])
  }

  /** The hexadecimal form's three channels. */
  function HexRgb(c: string): (r: Rgb)
    requires IsHexColor(c)
    ensures r.r < 256 && r.g < 256 && r.b < 256
  {
    Rgb(HexChannel(c, 1), HexChannel(c, 3), HexChannel(c, 5))
  }

  /** `^rgb\((\d+),\s*(\d+),\s*(\d+)\)$`: the triple right after `rgb(`
      and nothing but the closing parenthesis after it. */
  function RgbForm(c: string): (r: Option<Rgb>)
    ensures r.Some? ==> |c| > 7 && c[..3] == "rgb"
  {
    if StartsAt(c, 0, "rgb(") && TripleAt(c, 4).Some? && TripleAt(c, 4).value.1 == |c| - 1
      && c[|c| - 1] == ')' then
      assert c[..3] == c[..4][..3];
      Some(TripleAt(c, 4).value.0)
    else None
  }

  /** `^rgba\((\d+),\s*(\d+),\s*(\d+),\s*([0-9]*[.])?[0-9]+\)$`, alpha dropped. */
  function RgbaForm(c: string): (r: Option<Rgb>)
    ensures r.Some? ==> |c| > 7 && c[..3] == "rgb"
  {
    if StartsAt(c, 0, "rgba(") && TripleAt(c, 5).Some? && AlphaTail(c, TripleAt(c, 5).value.1) then
      assert c[..3] == c[..5][..3];
      Some(TripleAt(c, 5).value.0)
    else None
  }

  /** `parseColor`: `#rrggbb` (either case), `rgb(r,g,b)` or `rgba(r,g,b,a)`
      with the alpha dropped, tried in that order; anything else is the
      "Invalid color format" error. */
  function ParseColor(c: string): (r: Result<Rgb>)
    ensures IsHexColor(c) ==> r.Success? && r.value.r < 256 && r.value.g < 256 && r.value.b < 256
    ensures r.Failure? <==> !IsHexColor(c) && RgbForm(c).None? && RgbaForm(c).None?
    ensures r.Failure? ==> r.error == "Invalid color format: " + c
    ensures r.Success? && !IsHexColor(c) ==> |c| > 7 && c[..3] == "rgb"
  {
    if IsHexColor(c) then Success(HexRgb(c))
    else if RgbForm(c).Some? then Success(RgbForm(c).value)
    else if RgbaForm(c).Some? then Success(RgbaForm(c).value)
    else Failure("Invalid color format: " + c)
  }

  /** A channel below 256 comes back from its two hexadecimal digits. */
  lemma Hex2Reads(n: nat)
    requires n < 256
    ensures |Hex2(n)| == 2 && AllDigitsIn(Hex2(n), 16) && Value(Hex2(n), 16) == n
  {
    ByteHexWidth(n);
    PadStart2Value(Render(n, 16), 16);
    RenderValue(n, 16);
  }

  /** `parseColor` reads back what `rgbToHex` writes, for channels below 256. */
  lemma HexRoundTrip(c: Rgb)
    requires c.r < 256 && c.g < 256 && c.b < 256
    ensures ParseColor(HexOf(c)) == Success(c)
  {
    Hex2Reads(c.r);
    Hex2Reads(c.g);
    Hex2Reads(c.b);
    var h := HexOf(c);
    assert h[1..3] == Hex2(c.r) && h[3..5] == Hex2(c.g) && h[5..7] == Hex2(c.b);
    assert IsHexColor(h) by {
      forall i | 1 <= i < 7
        ensures IsHexDigit(h[i])
      {
        if i < 3 {
          assert h[i] == Hex2(c.r)[i - 1];
        } else if i < 5 {
          assert h[i] == Hex2(c.g)[i - 3];
        } else {
          assert h[i] == Hex2(c.b)[i - 5];
        }
      }
    }
  }

  /** A channel of 256 or more writes three or more digits, and the hex text
      that results is rejected. */
  lemma WideChannelRejected(c: Rgb)
    requires c.r >= 256 || c.g >= 256 || c.b >= 256
    ensures ParseColor(HexOf(c)) == Failure("Invalid color format: " + HexOf(c))
  {
    ByteHexWidthIff(c.r);
    ByteHexWidthIff(c.g);
    ByteHexWidthIff(c.b);
    var h := HexOf(c);
    assert |h| > 7;
    assert h[0] == '#';
    assert !StartsAt(h, 0, "rgb(") by {
      StartsAtHead(h, 0, "rgb(");
    }
    assert !StartsAt(h, 0, "rgba(") by {
      StartsAtHead(h, 0, "rgba(");
    }
  }

  /** What `rgbToHex` then `parseColor` make of a computed colour: the colour
      itself when every channel is below 256, the format error otherwise. */
  lemma RgbToHexThenParse(computed: string, kind: string)
    requires FirstTriple(computed).Some?
    ensures var c := FirstTriple(computed).value.0;
      var hex := RgbToHex(computed, kind);
      hex.Success?
      && (c.r < 256 && c.g < 256 && c.b < 256 ==> ParseColor(hex.value) == Success(c))
      && (c.r >= 256 || c.g >= 256 || c.b >= 256 ==> ParseColor(hex.value).Failure?)
  {
    var c := FirstTriple(computed).value.0;
    if c.r < 256 && c.g < 256 && c.b < 256 {
      HexRoundTrip(c);
    } else {
      WideChannelRejected(c);
    }
  }

  /** `Math.pow((s + 0.055) / 1.055, 2.4)`, the one step of the sRGB transfer
      curve the model takes as given: non-negative, at most 1 on [0, 1], and 1 at 1. */
  ghost predicate GammaOk(gamma: real -> real) {
    (forall x :: 0.0 <= x ==> 0.0 <= gamma(x))
    && (forall x :: 0.0 <= x <= 1.0 ==> gamma(x) <= 1.0)
    && gamma(1.0) == 1.0
  }

  /** The linear value of one 8-bit channel. */
  function Linear(v: nat, gamma: real -> real): (l: real)
    requires GammaOk(gamma)
    ensures 0.0 <= l
    ensures v <= 255 ==> l <= 1.0
    ensures v == 0 ==> l == 0.0
    ensures v == 255 ==> l == 1.0
  {
    var sr := v as real / 255.0;
    if sr <= 0.03928 then sr / 12.92 else gamma((sr + 0.055) / 1.055)
  }

  /** Relative luminance, as WCAG 2 defines it. */
  function Luminance(c: Rgb, gamma: real -> real): (l: real)
    requires GammaOk(gamma)
    ensures 0.0 <= l
    ensures c.r <= 255 && c.g <= 255 && c.b <= 255 ==> l <= 1.0
    ensures c == Rgb(0, 0, 0) ==> l == 0.0
    ensures c == Rgb(255, 255, 255) ==> l == 1.0
  {
    0.2126 * Linear(c.r, gamma) + 0.7152 * Linear(c.g, gamma) + 0.0722 * Linear(c.b, gamma)
  }

  /** `(max(l1, l2) + 0.05) / (min(l1, l2) + 0.05)`. */
  function Ratio(l1: real, l2: real): (r: real)
    requires 0.0 <= l1 && 0.0 <= l2
    ensures 1.0 <= r
    ensures l1 == l2 ==> r == 1.0
    ensures l1 <= 1.0 && l2 <= 1.0 ==> r <= 21.0
  {
    var hi := if l1 >= l2 then l1 else l2;
    var lo := if l1 >= l2 then l2 else l1;
    QuotientBounds(hi + 0.05, lo + 0.05);
    (hi + 0.05) / (lo + 0.05)
  }

  lemma QuotientBounds(a: real, b: real)
    requires 0.05 <= b <= a
    ensures 1.0 <= a / b
    ensures a == b ==> a / b == 1.0
    ensures a <= 1.05 ==> a / b <= 21.0
  {
    var q := a / b;
    assert q * b == a;
    if a == b {
      assert q == 1.0;
    }
    if q < 1.0 {
      assert false;
    }
    if a <= 1.05 && q > 21.0 {
      assert false;
    }
  }

  lemma RatioSymmetric(l1: real, l2: real)
    requires 0.0 <= l1 && 0.0 <= l2
    ensures Ratio(l1, l2) == Ratio(l2, l1)
  {
  }

  /** `x.toFixed(2)` as a whole number of hundredths: the nearest one, halves rounded up. */
  function Hundredths(x: real): (h: nat)
    requires 1.0 <= x
    ensures 100 <= h
    ensures h as real <= x * 100.0 + 0.5 < h as real + 1.0
  {
    (x * 100.0 + 0.5).Floor
  }

  /** `getContrastRatio` on two colours, in hundredths; either colour may
      fail to parse, which aborts the whole check. */
  function ContrastHundredths(color1: string, color2: string, gamma: real -> real): (r: Result<nat>)
    requires GammaOk(gamma)
    ensures r.Success? <==> ParseColor(color1).Success? && ParseColor(color2).Success?
    ensures r.Success? ==> 100 <= r.value
    ensures r.Success? && IsHexColor(color1) && IsHexColor(color2) ==> r.value <= 2100
  {
    var c1 :- ParseColor(color1);
    var c2 :- ParseColor(color2);
    Success(Hundredths(Ratio(Luminance(c1, gamma), Luminance(c2, gamma))))
  }

  /** The ratio does not depend on which colour is the text. */
  lemma ContrastSymmetric(color1: string, color2: string, gamma: real -> real)
    requires GammaOk(gamma)
    ensures ContrastHundredths(color1, color2, gamma).Success? == ContrastHundredths(color2, color1, gamma).Success?
    ensures ContrastHundredths(color1, color2, gamma).Success? ==>
              ContrastHundredths(color1, color2, gamma).value == ContrastHundredths(color2, color1, gamma).value
  {
    if ParseColor(color1).Success? && ParseColor(color2).Success? {
      RatioSymmetric(Luminance(ParseColor(color1).value, gamma), Luminance(ParseColor(color2).value, gamma));
    }
  }

  /** The four checks: AA and AAA for normal text, AA and AAA for large text. */
  datatype Level = AaNormal | AaaNormal | AaLarge | AaaLarge

  /** The minimum ratio of each check, in hundredths. */
  function Threshold(l: Level): nat {
    match l
    case AaNormal => 450
    case AaaNormal => 700
    case AaLarge => 300
    case AaaLarge => 450
  }

  /** The tail of each message. The source words the large-text enhanced
      check as "Level AA" too. */
  function LevelText(l: Level): string {
    match l
    case AaNormal => "Level AA - Normal Text of 4.5"
    case AaaNormal => "Level AAA - Normal Text of 7"
    case AaLarge => "Level AA - Large Text of 3"
    case AaaLarge => "Level AA - Large Text of 4.5"
  }

  /** The one text the message builder refuses, returning `undefined`. */
  const SkippedText := "Process selected images"

  /** `appendElement`: the sentence for one failed check, or "undefined" when
      it returns nothing and the caller concatenates that. */
  function AppendElement(l: Level, contrast: string, text: string): (m: string)
    ensures text == SkippedText ==> m == "undefined"
    ensures text != SkippedText ==> StartsAt(m, 0, "The text '" + text + "'")
  {
    if text == SkippedText then "undefined"
    else
      var head := "The text '" + text + "'";
      var m := head + " has a color contrast ratio of " + contrast + ", which is below the WCAG minimum for " + LevelText(l);
      assert m[..|head|] == head;
      m
  }

  /** The two checks that apply to a text size, the minimum one first. */
  function Checks(large: bool): (ls: seq<Level>)
    ensures |ls| == 2 && Threshold(ls[0]) < Threshold(ls[1])
  {
    if large then [AaLarge, AaaLarge] else [AaNormal, AaaNormal]
  }

  /** One line of the report: the sentence and a newline. */
  function Line(l: Level, h: nat, text: string): (line: string)
    ensures |line| >= 1 && line[|line| - 1] == '\n'
  {
    AppendElement(l, Fixed2(h), text) + "\n"
  }

  /** The lines for the checks `ls` that a ratio of `h` hundredths fails, in order. */
  function Report(ls: seq<Level>, h: nat, text: string): (m: string)
    ensures m == "" <==> forall i :: 0 <= i < |ls| ==> h >= Threshold(ls[i])
    decreases |ls|
  {
    if |ls| == 0 then ""
    else
      var rest := Report(ls[1..], h, text);
      assert forall i :: 1 <= i < |ls| ==> ls[i] == ls[1..][i - 1];
      (if h < Threshold(ls[0]) then Line(ls[0], h, text) else "") + rest
  }

  /** The report for one element: one line per failed check of its size. */
  function Issue(text: string, h: nat, large: bool): (m: string)
    ensures m == "" <==> h >= Threshold(Checks(large)[1])
  {
    Report(Checks(large), h, text)
  }

  /** Failing the minimum check means failing the enhanced one too, so a
      non-empty report always ends with the enhanced check's line, and has the
      minimum check's line in front exactly when that check fails. */
  lemma IssueShape(text: string, h: nat, large: bool)
    requires Issue(text, h, large) != ""
    ensures var ls := Checks(large);
      Issue(text, h, large)
        == (if h < Threshold(ls[0]) then Line(ls[0], h, text) else "") + Line(ls[1], h, text)
  {
    var ls := Checks(large);
    assert ls[1..][1..] == [];
    assert Report(ls[1..], h, text) == Line(ls[1], h, text);
  }

  /** An element the checker looks at: its text, its computed text colour and
      its font size in pixels. */
  datatype Element = Element(textContent: string, color: string, fontSize: real)

  /** Where `checkContrast` places its report: at the first occurrence of the
      element's text in the document, unless that is at offset 0 or missing,
      in which case the report is dropped and the location is -1. */
  function Locate(issue: string, html: string, text: string): (f: ContrastFinding)
    ensures IndexOf(html, text, 0) >= 1 ==>
              f.contrastIssue == issue && f.end == f.start + |text| && 1 <= f.start
              && StartsAt(html, f.start, text)
              && forall j :: 0 <= j < f.start ==> !StartsAt(html, j, text)
    ensures IndexOf(html, text, 0) < 1 ==> f == ContrastFinding("", -1, -1)
  {
    var start := IndexOf(html, text, 0);
    if start < 1 || start + |text| < 1 then ContrastFinding("", -1, -1)
    else ContrastFinding(issue, start, start + |text|)
  }

  /** `checkContrast`: both colours through `rgbToHex`, their ratio, the
      report for the element's size, and its location. */
  function CheckContrast(el: Element, bodyBackground: string, html: string, gamma: real -> real): (r: Result<ContrastFinding>)
    requires GammaOk(gamma)
    ensures r.Success? <==>
              (var t := RgbToHex(el.color, "text"); var b := RgbToHex(bodyBackground, "background");
               t.Success? && b.Success? && ContrastHundredths(t.value, b.value, gamma).Success?)
    ensures r.Success? && r.value.contrastIssue != "" ==>
              (1 <= r.value.start && r.value.end == r.value.start + |el.textContent|
               && StartsAt(html, r.value.start, el.textContent)
               && forall j :: 0 <= j < r.value.start ==> !StartsAt(html, j, el.textContent))
    ensures r.Success? ==>
              var h := ContrastHundredths(RgbToHex(el.color, "text").value, RgbToHex(bodyBackground, "background").value, gamma).value;
              (IndexOf(html, el.textContent, 0) >= 1 ==> r.value.contrastIssue == Issue(el.textContent, h, el.fontSize >= 24.0))
              && (IndexOf(html, el.textContent, 0) < 1 ==> r.value == ContrastFinding("", -1, -1))
    ensures r.Success? ==>
              var h := ContrastHundredths(RgbToHex(el.color, "text").value, RgbToHex(bodyBackground, "background").value, gamma).value;
              (r.value.contrastIssue == "" <==> IndexOf(html, el.textContent, 0) < 1 || h >= (if el.fontSize < 24.0 then 700 else 450))
  {
    var textColor :- RgbToHex(el.color, "text");
    var bgColor :- RgbToHex(bodyBackground, "background");
    var h :- ContrastHundredths(textColor, bgColor, gamma);
    var large := el.fontSize >= 24.0;
    LocatedIssue(el.textContent, html, h, large);
    Success(Locate(Issue(el.textContent, h, large), html, el.textContent))
  }

  /** A located report is empty exactly when the text is not found from
      offset 1 or the ratio meets the higher threshold of its size class. */
  lemma LocatedIssue(text: string, html: string, h: nat, large: bool)
    ensures Locate(Issue(text, h, large), html, text).contrastIssue == ""
      <==> IndexOf(html, text, 0) < 1 || h >= (if large then 450 else 700)
  {
  }

  /** The two fallback colours parse as black and white. */
  lemma DefaultsParse()
    ensures ParseColor(DefaultFontColor) == Success(Rgb(0, 0, 0))
    ensures ParseColor(DefaultBackgroundColor) == Success(Rgb(255, 255, 255))
  {
    var black, white := DefaultFontColor, DefaultBackgroundColor;
    assert IsHexColor(black) && IsHexColor(white);
    assert black[1..3] == black[3..5] == black[5..7] == "00";
    assert white[1..3] == white[3..5] == white[5..7] == "ff";
    ValueTwo("00", 16);
    ValueTwo("ff", 16);
  }

  /** Without readable computed colours the checker compares black on white,
      ratio 21, which passes every check. */
  lemma DefaultColorsPass(el: Element, bodyBackground: string, html: string, gamma: real -> real)
    requires GammaOk(gamma)
    requires FirstTriple(el.color).None? && FirstTriple(bodyBackground).None?
    ensures CheckContrast(el, bodyBackground, html, gamma).Success?
    ensures CheckContrast(el, bodyBackground, html, gamma).value.contrastIssue == ""
  {
    assert RgbToHex(el.color, "text") == Success(DefaultFontColor);
    assert RgbToHex(bodyBackground, "background") == Success(DefaultBackgroundColor);
    DefaultContrast(gamma);
    var h := ContrastHundredths(DefaultFontColor, DefaultBackgroundColor, gamma).value;
    var issue := Issue(el.textContent, h, !(el.fontSize < 24.0));
    PassingIssue(el.textContent, h, !(el.fontSize < 24.0));
    assert CheckContrast(el, bodyBackground, html, gamma) == Success(Locate(issue, html, el.textContent));
  }

  /** A ratio of 7 or more passes the checks of either size. */
  lemma PassingIssue(text: string, h: nat, large: bool)
    requires h >= 700
    ensures Issue(text, h, large) == ""
  {
  }

  /** A ratio below 3 fails the checks of either size. */
  lemma FailingIssue(text: string, h: nat, large: bool)
    requires h < 300
    ensures Issue(text, h, large) != ""
  {
  }

  /** Black on white: ratio 21.00. */
  lemma DefaultContrast(gamma: real -> real)
    requires GammaOk(gamma)
    ensures ContrastHundredths(DefaultFontColor, DefaultBackgroundColor, gamma) == Success(2100)
  {
    DefaultsParse();
    var l1, l2 := Luminance(Rgb(0, 0, 0), gamma), Luminance(Rgb(255, 255, 255), gamma);
    assert Ratio(l1, l2) == 21.0;
    assert Hundredths(21.0) == 2100;
  }

  /** Text in the body's own background colour has ratio 1.00 and fails both
      checks of its size whenever the text is found in the document. */
  lemma SameColorFails(el: Element, bodyBackground: string, html: string, gamma: real -> real)
    requires GammaOk(gamma)
    requires FirstTriple(el.color).Some? && FirstTriple(bodyBackground).Some?
    requires FirstTriple(el.color).value.0 == FirstTriple(bodyBackground).value.0
    requires var c := FirstTriple(el.color).value.0; c.r < 256 && c.g < 256 && c.b < 256
    requires IndexOf(html, el.textContent, 0) >= 1
    ensures CheckContrast(el, bodyBackground, html, gamma).Success?
    ensures var f := CheckContrast(el, bodyBackground, html, gamma).value;
      f.contrastIssue == Issue(el.textContent, 100, !(el.fontSize < 24.0)) && f.contrastIssue != ""
  {
    var c := FirstTriple(el.color).value.0;
    assert RgbToHex(el.color, "text") == Success(HexOf(c));
    assert RgbToHex(bodyBackground, "background") == Success(HexOf(c));
    SameColorRatio(c, gamma);
    var issue := Issue(el.textContent, 100, !(el.fontSize < 24.0));
    FailingIssue(el.textContent, 100, !(el.fontSize < 24.0));
    assert CheckContrast(el, bodyBackground, html, gamma) == Success(Locate(issue, html, el.textContent));
  }

  lemma SameColorRatio(c: Rgb, gamma: real -> real)
    requires GammaOk(gamma)
    requires c.r < 256 && c.g < 256 && c.b < 256
    ensures ContrastHundredths(HexOf(c), HexOf(c), gamma) == Success(100)
  {
    HexRoundTrip(c);
    assert Hundredths(1.0) == 100;
  }

  /** The skipped text still produces report lines, each the word "undefined". */
  lemma SkippedTextReportsUndefined(h: nat, large: bool)
    requires h < Threshold(Checks(large)[1])
    ensures var ls := Checks(large);
      Issue(SkippedText, h, large) == (if h < Threshold(ls[0]) then "undefined\n" else "") + "undefined\n"
  {
    IssueShape(SkippedText, h, large);
  }

  /** `checkDocumentContrast`: every element checked in document order (the
      first failure aborts), then the findings without a report dropped. */
  function CheckDocumentContrast(html: string, elements: seq<Element>, bodyBackground: string, gamma: real -> real): (r: Result<seq<ContrastFinding>>)
    requires GammaOk(gamma)
    ensures r.Success? <==>
              forall i :: 0 <= i < |elements| ==> CheckContrast(elements[i], bodyBackground, html, gamma).Success?
    ensures r.Success? ==> forall f :: f in r.value ==>
              f.contrastIssue != "" && 1 <= f.start && 1 <= f.end && f.start <= f.end <= |html|
    ensures r.Success? ==> exists all: seq<ContrastFinding> ::
              |all| == |elements|
              && (forall i :: 0 <= i < |elements| ==> all[i] == CheckContrast(elements[i], bodyBackground, html, gamma).value)
              && r.value == KeepIssues(all)
  {
    var all :- MapAll(elements, (el: Element) => CheckContrast(el, bodyBackground, html, gamma));
    KeepIssuesMembers(all);
    Success(KeepIssues(all))
  }
}
