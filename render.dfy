/**
 * The renderer: from the attribute record to the inline style variables,
 * the container style, the class attributes and the saved markup, in which
 * the logo list appears twice so that the CSS animation can loop seamlessly.
 * The editor's live preview renders the slider the same way.
 */
module Render {
  import opened Wrappers
  import opened BlockAttributes
  import opened Text

  // ---------------------------------------------------------------------
  // hexToRgba
  // ---------------------------------------------------------------------

  /** What `parseInt` returns: an integer, or `NaN` when no digit could be read. */
  datatype ParsedInt = NaN | Int(value: int)

  predicate IsHexDigit(c: char) {
    '0' <= c <= '9' || 'a' <= c <= 'f' || 'A' <= c <= 'F'
  }

  predicate AllHexDigits(s: string) {
    forall i :: 0 <= i < |s| ==> IsHexDigit(s[i])
  }

  function HexDigitValue(c: char): (d: nat)
    requires IsHexDigit(c)
    ensures d < 16
  {
    if '0' <= c <= '9' then c as int - '0' as int
    else if 'a' <= c <= 'f' then c as int - 'a' as int + 10
    else c as int - 'A' as int + 10
  }

  /** The value of a run of hexadecimal digits, most significant first. */
  function HexValue(s: string): nat
    requires AllHexDigits(s)
    decreases |s|
  {
    if s == [] then 0 else HexValue(s[..|s| - 1]) * 16 + HexDigitValue(s[|s| - 1])
  }

  /** Length of the leading run of hexadecimal digits. */
  function HexRun(s: string): (k: nat)
    ensures k <= |s| && AllHexDigits(s[..k])
    ensures k < |s| ==> !IsHexDigit(s[k])
    decreases |s|
  {
    if s != [] && IsHexDigit(s[0]) then
      var k := 1 + HexRun(s[1..]);
      assert s[..k] == [s[0]] + s[1..][..k - 1];
      k
    else 0
  }

  /**
   * `parseInt(s, 16)`: leading whitespace is skipped, one sign is read, a
   * `0x`/`0X` prefix is dropped, and then the longest run of hexadecimal
   * digits is read; with no digit the result is `NaN`.
   */
  function ParseIntHex(s: string): ParsedInt {
    var t := TrimStart(s);
    var magnitude := ReadHexDigits(WithoutHexPrefix(WithoutSign(t)));
    if magnitude.Int? && t != [] && t[0] == '-' then Int(0 - magnitude.value) else magnitude
  }

  /** The text after one leading `-` or `+`. */
  function WithoutSign(t: string): string {
    if t != [] && (t[0] == '-' || t[0] == '+') then t[1..] else t
  }

  /** The text after a leading `0x` or `0X`. */
  function WithoutHexPrefix(u: string): string {
    if |u| >= 2 && u[0] == '0' && (u[1] == 'x' || u[1] == 'X') then u[2..] else u
  }

  /** The value of the leading run of hexadecimal digits; `NaN` when there is none. */
  function ReadHexDigits(digits: string): ParsedInt {
    var k := HexRun(digits);
    if k == 0 then NaN else Int(HexValue(digits[..k]))
  }

  /** `String.prototype.slice(start, end)` for `0 <= start <= end`: clamped to the string. */
  function Slice(s: string, start: nat, end: nat): (r: string)
    requires start <= end
    ensures |r| <= end - start
  {
    var e := if end <= |s| then end else |s|;
    var b := if start <= e then start else e;
    s[b..e]
  }

  /** The colour `rgba(r, g, b, alpha)`; a channel that did not parse prints as `NaN`. */
  datatype Rgba = Rgba(r: ParsedInt, g: ParsedInt, b: ParsedInt, alpha: real)

  function HexToRgba(hex: string, alpha: real): Rgba {
    Rgba(ParseIntHex(Slice(hex, 1, 3)), ParseIntHex(Slice(hex, 3, 5)), ParseIntHex(Slice(hex, 5, 7)), alpha)
  }

  /** A colour as the colour picker reports it: `#` and six hexadecimal digits. */
  predicate IsHexColor(hex: string) {
    |hex| == 7 && hex[0] == '#' && AllHexDigits(hex[1..])
  }

  /** The byte that two hexadecimal digits denote. */
  function PairValue(hi: char, lo: char): (v: nat)
    requires IsHexDigit(hi) && IsHexDigit(lo)
    ensures v < 256
  {
    HexDigitValue(hi) * 16 + HexDigitValue(lo)
  }

  /** Two hexadecimal digits parse to the byte they denote. */
  lemma ParsePair(hi: char, lo: char)
    requires IsHexDigit(hi) && IsHexDigit(lo)
    ensures ParseIntHex([hi, lo]) == Int(PairValue(hi, lo))
  {
    var s := [hi, lo];
    assert !IsWhitespace(hi);
    assert TrimStart(s) == s;
    assert WithoutSign(s) == s;
    assert WithoutHexPrefix(s) == s;
    ReadPair(hi, lo);
  }

  lemma ReadPair(hi: char, lo: char)
    requires IsHexDigit(hi) && IsHexDigit(lo)
    ensures ReadHexDigits([hi, lo]) == Int(PairValue(hi, lo))
  {
    var s := [hi, lo];
    assert HexRun(s) == 2 by {
      assert HexRun(s[1..]) == 1 by { assert s[1..][1..] == []; }
    }
    assert s[..2] == s;
    assert s[..1] == [hi];
    assert HexValue([hi]) == HexDigitValue(hi) by { assert [hi][..0] == []; }
  }

  /**
   * On `#rrggbb` each channel is the byte written at positions 1-2, 3-4 and
   * 5-6, in either letter case, so each lies in 0..255; the alpha is passed through.
   */
  lemma HexToRgbaChannels(hex: string, alpha: real)
    requires IsHexColor(hex)
    ensures HexToRgba(hex, alpha) ==
      Rgba(Int(PairValue(hex[1], hex[2])), Int(PairValue(hex[3], hex[4])), Int(PairValue(hex[5], hex[6])), alpha)
  {
    assert forall i :: 1 <= i < 7 ==> IsHexDigit(hex[i]) by {
      forall i | 1 <= i < 7 ensures IsHexDigit(hex[i]) { assert hex[i] == hex[1..][i - 1]; }
    }
    assert Slice(hex, 1, 3) == [hex[1], hex[2]];
    assert Slice(hex, 3, 5) == [hex[3], hex[4]];
    assert Slice(hex, 5, 7) == [hex[5], hex[6]];
    ParsePair(hex[1], hex[2]);
    ParsePair(hex[3], hex[4]);
    ParsePair(hex[5], hex[6]);
  }

  /** A three-digit shorthand such as `#fff` is not expanded: its blue channel is `NaN`. */
  lemma ShortHexBlueIsNaN(alpha: real)
    ensures HexToRgba("#fff", alpha).r == Int(255)
    ensures HexToRgba("#fff", alpha).b == NaN
  {
    ShortHexRed(alpha);
    ShortHexBlue(alpha);
  }

  lemma ShortHexRed(alpha: real)
    ensures HexToRgba("#fff", alpha).r == Int(255)
  {
    ShortHexSlices();
    ParseFF();
  }

  lemma ParseFF()
    ensures ParseIntHex(['f', 'f']) == Int(255)
  {
    ParsePair('f', 'f');
    assert HexDigitValue('f') == 15;
  }

  lemma ShortHexBlue(alpha: real)
    ensures HexToRgba("#fff", alpha).b == NaN
  {
    ShortHexSlices();
    ParseEmpty();
  }

  lemma ShortHexSlices()
    ensures Slice("#fff", 1, 3) == ['f', 'f']
    ensures Slice("#fff", 5, 7) == []
  {
    var hex := "#fff";
    assert hex[1..3] == ['f', 'f'];
  }

  /** With no digit at all `parseInt` gives `NaN`. */
  lemma ParseEmpty()
    ensures ParseIntHex([]) == NaN
  {
    assert TrimStart([]) == [];
    assert ReadHexDigits([]) == NaN;
  }

  function HexDigitChar(d: nat): (c: char)
    requires d < 16
    ensures IsHexDigit(c) && HexDigitValue(c) == d
  {
    "0123456789abcdef"[d]
  }

  /** `#rrggbb` in lower case for three bytes. */
  function HexColor(r: nat, g: nat, b: nat): (hex: string)
    requires r < 256 && g < 256 && b < 256
    ensures IsHexColor(hex)
  {
    var hex := ['#', HexDigitChar(r / 16), HexDigitChar(r % 16), HexDigitChar(g / 16), HexDigitChar(g % 16),
      HexDigitChar(b / 16), HexDigitChar(b % 16)];
    assert forall i :: 0 <= i < 6 ==> hex[1..][i] == hex[i + 1];
    hex
  }

  /** Writing three bytes as `#rrggbb` and converting back gives the same three bytes. */
  lemma HexColorRoundTrip(r: nat, g: nat, b: nat, alpha: real)
    requires r < 256 && g < 256 && b < 256
    ensures HexToRgba(HexColor(r, g, b), alpha) == Rgba(Int(r), Int(g), Int(b), alpha)
  {
    var hex := HexColor(r, g, b);
    HexToRgbaChannels(hex, alpha);
    ByteDigits(r);
    ByteDigits(g);
    ByteDigits(b);
  }

  /** The two digits written for a byte denote that byte. */
  lemma ByteDigits(n: nat)
    requires n < 256
    ensures PairValue(HexDigitChar(n / 16), HexDigitChar(n % 16)) == n
  {
  }

  // ---------------------------------------------------------------------
  // Slider and container styles
  // ---------------------------------------------------------------------

  /** The CSS custom properties set on the slider container. */
  datatype SliderVars = SliderVars(
    animationSpeed: string,     // --animation-speed
    logoHeight: string,         // --logo-height
    logoGap: string,            // --logo-gap
    grayscaleOpacity: real)     // --grayscale-opacity

  /** Each variable reads back as the attribute it was made from, in seconds or pixels. */
  function SliderStyle(a: Attributes): (r: SliderVars)
    ensures ReadWithUnit(r.animationSpeed, "s") == Some(a.animationSpeed)
    ensures ReadWithUnit(r.logoHeight, "px") == Some(a.logoHeight)
    ensures ReadWithUnit(r.logoGap, "px") == Some(a.logoGap)
    ensures r.grayscaleOpacity == a.grayscaleOpacity
  {
    WithUnitRoundTrip(a.animationSpeed, "s");
    WithUnitRoundTrip(a.logoHeight, "px");
    WithUnitRoundTrip(a.logoGap, "px");
    SliderVars(WithUnit(a.animationSpeed, "s"), WithUnit(a.logoHeight, "px"), WithUnit(a.logoGap, "px"), a.grayscaleOpacity)
  }

  const ShadowCss := "0 2px 8px rgba(0, 0, 0, 0.1)"

  /** Background colour and shadow of the outer container. */
  datatype ContainerCss = ContainerCss(backgroundColor: Rgba, boxShadow: string)

  /**
   * The background is the chosen colour at the chosen opacity; there is a
   * shadow exactly when it is enabled.
   */
  function ContainerStyle(a: Attributes): (r: ContainerCss)
    ensures r.backgroundColor.alpha == a.backgroundOpacity
    ensures IsHexColor(a.backgroundColor) ==>
      r.backgroundColor.r == Int(PairValue(a.backgroundColor[1], a.backgroundColor[2])) &&
      r.backgroundColor.g == Int(PairValue(a.backgroundColor[3], a.backgroundColor[4])) &&
      r.backgroundColor.b == Int(PairValue(a.backgroundColor[5], a.backgroundColor[6]))
    ensures r.boxShadow != "none" <==> a.enableShadow
    ensures a.enableShadow ==> r.boxShadow == ShadowCss
  {
    var shadow := if a.enableShadow then ShadowCss else "none";
    if IsHexColor(a.backgroundColor) then
      HexToRgbaChannels(a.backgroundColor, a.backgroundOpacity);
      ContainerCss(HexToRgba(a.backgroundColor, a.backgroundOpacity), shadow)
    else
      ContainerCss(HexToRgba(a.backgroundColor, a.backgroundOpacity), shadow)
  }

  // ---------------------------------------------------------------------
  // Class attributes
  // ---------------------------------------------------------------------

  /** The class names of the slider in attribute order, as the settings select them. */
  function SliderClassNames(pauseOnHover: bool, slowdownOnHover: bool, forceTrueGap: bool): seq<string> {
    ["logo-slider"]
    + (if pauseOnHover && !slowdownOnHover then ["pause-on-hover"] else [])
    + (if slowdownOnHover then ["has-slowdown-hover"] else [])
    + (if forceTrueGap then ["force-true-gap"] else [])
  }

  /**
   * The slider's class attribute: `logo-slider`, then `pause-on-hover` only
   * when pausing is on and slowing down is off, then `has-slowdown-hover`,
   * then `force-true-gap`.
   */
  function SliderClass(pauseOnHover: bool, slowdownOnHover: bool, forceTrueGap: bool): (r: string)
    ensures "logo-slider" <= r
    ensures Tokens(r) == SliderClassNames(pauseOnHover, slowdownOnHover, forceTrueGap)
  {
    var candidates := [
      Some("logo-slider"),
      if pauseOnHover && !slowdownOnHover then Some("pause-on-hover") else None,
      if slowdownOnHover then Some("has-slowdown-hover") else None,
      if forceTrueGap then Some("force-true-gap") else None];
    PresentOfFour(candidates);
    SliderClassNamesValid(pauseOnHover, slowdownOnHover, forceTrueGap);
    var names := Present(candidates);
    assert names == SliderClassNames(pauseOnHover, slowdownOnHover, forceTrueGap);
    TokensOfJoin(names);
    JoinStartsWithFirst(names);
    ClassAttribute(candidates)
  }

  /** `filter(Boolean)` over four candidates keeps each one that is a non-empty name. */
  lemma PresentOfFour(c: seq<Option<string>>)
    requires |c| == 4
    ensures Present(c) == Kept(c[0]) + Kept(c[1]) + Kept(c[2]) + Kept(c[3])
  {
    assert Present(c[3..]) == Kept(c[3]) by { assert c[3..][1..] == []; }
    assert Present(c[2..]) == Kept(c[2]) + Present(c[3..]) by { assert c[2..][1..] == c[3..]; }
    assert Present(c[1..]) == Kept(c[1]) + Present(c[2..]) by { assert c[1..][1..] == c[2..]; }
  }

  /** None of the slider's class names holds a space. */
  lemma SliderClassNamesValid(pauseOnHover: bool, slowdownOnHover: bool, forceTrueGap: bool)
    ensures var names := SliderClassNames(pauseOnHover, slowdownOnHover, forceTrueGap);
      forall i :: 0 <= i < |names| ==> IsClassName(names[i])
  {
    var names := SliderClassNames(pauseOnHover, slowdownOnHover, forceTrueGap);
    assert IsClassName("logo-slider") && IsClassName("pause-on-hover");
    assert IsClassName("has-slowdown-hover") && IsClassName("force-true-gap");
    forall i | 0 <= i < |names| ensures IsClassName(names[i]) {
      assert names[i] in ["logo-slider", "pause-on-hover", "has-slowdown-hover", "force-true-gap"];
    }
  }

  /**
   * Each hover class is present exactly when its setting selects it, the
   * two are never present together, and `force-true-gap` follows its setting.
   */
  lemma SliderClassMembers(pauseOnHover: bool, slowdownOnHover: bool, forceTrueGap: bool)
    ensures var t := Tokens(SliderClass(pauseOnHover, slowdownOnHover, forceTrueGap));
      t[0] == "logo-slider" &&
      ("pause-on-hover" in t <==> pauseOnHover && !slowdownOnHover) &&
      ("has-slowdown-hover" in t <==> slowdownOnHover) &&
      ("force-true-gap" in t <==> forceTrueGap) &&
      !("pause-on-hover" in t && "has-slowdown-hover" in t)
  {
    var pause, slow, force := "pause-on-hover", "has-slowdown-hover", "force-true-gap";
    assert |"logo-slider"| == 11 && |pause| == 14 && |slow| == 18 && |force| == 14;
    assert pause[0] == 'p' && force[0] == 'f';
    var t := SliderClassNames(pauseOnHover, slowdownOnHover, forceTrueGap);
    var a := if pauseOnHover && !slowdownOnHover then [pause] else [];
    var b := if slowdownOnHover then [slow] else [];
    var c := if forceTrueGap then [force] else [];
    assert t == ["logo-slider"] + a + b + c;
    assert pause in t <==> pause in a;
    assert slow in t <==> slow in b;
    assert force in t <==> force in c;
  }

  /** A logo's class attribute: `logo-item`, then `grayscale` and `inverted` exactly when set. */
  function LogoClasses(grayscale: bool, invert: bool): (r: string)
    ensures "logo-item" <= r
    ensures Tokens(r) ==
      ["logo-item"] + (if grayscale then ["grayscale"] else []) + (if invert then ["inverted"] else [])
    ensures "grayscale" in Tokens(r) <==> grayscale
    ensures "inverted" in Tokens(r) <==> invert
  {
    var candidates := [
      Some("logo-item"),
      if grayscale then Some("grayscale") else None,
      if invert then Some("inverted") else None];
    PresentOfThree(candidates);
    var names := Present(candidates);
    assert names == ["logo-item"] + (if grayscale then ["grayscale"] else []) + (if invert then ["inverted"] else []);
    LogoClassNamesValid(names);
    TokensOfJoin(names);
    JoinStartsWithFirst(names);
    ClassAttribute(candidates)
  }

  lemma PresentOfThree(c: seq<Option<string>>)
    requires |c| == 3
    ensures Present(c) == Kept(c[0]) + Kept(c[1]) + Kept(c[2])
  {
    assert Present(c[2..]) == Kept(c[2]) by { assert c[2..][1..] == []; }
    assert Present(c[1..]) == Kept(c[1]) + Present(c[2..]) by { assert c[1..][1..] == c[2..]; }
  }

  /** None of a logo's class names holds a space. */
  lemma LogoClassNamesValid(names: seq<string>)
    requires forall i :: 0 <= i < |names| ==> names[i] in ["logo-item", "grayscale", "inverted"]
    ensures forall i :: 0 <= i < |names| ==> IsClassName(names[i])
  {
    assert IsClassName("logo-item") && IsClassName("grayscale") && IsClassName("inverted");
  }

  /** With the hover settings kept exclusive, the pause class is present exactly when pausing is on. */
  lemma PauseClassFollowsSetting(a: Attributes)
    requires HoverExclusive(a)
    ensures "pause-on-hover" in Tokens(SliderClass(a.pauseOnHover, a.slowdownOnHover, a.forceTrueGap))
      <==> a.pauseOnHover
  {
    SliderClassMembers(a.pauseOnHover, a.slowdownOnHover, a.forceTrueGap);
  }

  // ---------------------------------------------------------------------
  // One logo
  // ---------------------------------------------------------------------

  /** Inline style of one logo: the properties it sets, `None` where the slider default applies. */
  datatype LogoCss = LogoCss(height: Option<string>, marginRight: Option<string>)

  /** A number is truthy unless it is zero. */
  predicate Truthy(n: Option<int>) {
    n.Some? && n.value != 0
  }

  /**
   * The height override applies only when it is truthy (a height of 0 falls
   * back to the default); the gap override applies whenever it is set, 0 included.
   */
  function LogoStyle(logo: LogoEntry): (r: LogoCss)
    ensures r.height.Some? <==> Truthy(logo.height)
    ensures r.height.Some? ==> ReadWithUnit(r.height.value, "px") == logo.height
    ensures r.marginRight.Some? <==> logo.gap.Some?
    ensures r.marginRight.Some? ==> ReadWithUnit(r.marginRight.value, "px") == logo.gap
  {
    WithUnitRoundTrip(logo.height.GetOr(0), "px");
    WithUnitRoundTrip(logo.gap.GetOr(0), "px");
    LogoCss(
      if Truthy(logo.height) then Some(WithUnit(logo.height.value, "px")) else None,
      if logo.gap.Some? then Some(WithUnit(logo.gap.value, "px")) else None)
  }

  /** The height the editor grid shows for a logo: `logo.height || logoHeight`. */
  function GridHeight(logo: LogoEntry, logoHeight: int): int {
    if Truthy(logo.height) then logo.height.value else logoHeight
  }

  /** The value of the per-logo gap control: `logo.gap !== null ? logo.gap : logoGap`. */
  function GapControlValue(logo: LogoEntry, logoGap: int): int {
    if logo.gap.Some? then logo.gap.value else logoGap
  }

  /**
   * The height and right margin a logo ends up with: its own inline property,
   * or else the slider's `--logo-height` / `--logo-gap` variable.  The
   * fallback is not in the script: it assumes that the block's stylesheet
   * sizes `.logo-item` by `var(--logo-height)` and spaces logos by a
   * `margin-right` of `var(--logo-gap)`.  The stylesheet is not part of
   * this model.
   */
  function ResolvedHeight(style: LogoCss, vars: SliderVars): string {
    style.height.GetOr(vars.logoHeight)
  }

  function ResolvedGap(style: LogoCss, vars: SliderVars): string {
    style.marginRight.GetOr(vars.logoGap)
  }

  /**
   * The rendered logo gets the height the editor grid shows and the gap the
   * gap control shows: an override wins whatever the default, and without
   * one the default applies.
   */
  lemma RenderedSizesMatchEditor(logo: LogoEntry, a: Attributes)
    ensures ReadWithUnit(ResolvedHeight(LogoStyle(logo), SliderStyle(a)), "px") == Some(GridHeight(logo, a.logoHeight))
    ensures ReadWithUnit(ResolvedGap(LogoStyle(logo), SliderStyle(a)), "px") == Some(GapControlValue(logo, a.logoGap))
  {
  }

  /** The React key of a logo's element: its id, suffixed `-duplicate` in the second copy. */
  datatype ItemKey = ItemKey(id: LogoId, duplicate: bool)

  /** One `logo-item` element with its image. */
  datatype LogoItem = LogoItem(key: ItemKey, className: string, style: LogoCss, image: ImageRef, alt: string)

  /** The element for one logo, in the first copy or in the duplicate. */
  function RenderLogo(logo: LogoEntry, grayscale: bool, duplicate: bool): (r: LogoItem)
    ensures r.key == ItemKey(logo.id, duplicate)
    ensures r.image == logo.image && r.alt == logo.alt
    ensures "grayscale" in Tokens(r.className) <==> grayscale
    ensures "inverted" in Tokens(r.className) <==> logo.invert
    ensures r.style.height.Some? <==> Truthy(logo.height)
    ensures r.style.marginRight.Some? <==> logo.gap.Some?
    ensures r.className == LogoClasses(grayscale, logo.invert) && r.style == LogoStyle(logo)
  {
    LogoItem(ItemKey(logo.id, duplicate), LogoClasses(grayscale, logo.invert), LogoStyle(logo), logo.image, logo.alt)
  }

  /** The same element with its key forgotten: what the visitor sees. */
  function Content(item: LogoItem): (LogoCss, string, ImageRef, string) {
    (item.style, item.className, item.image, item.alt)
  }

  // ---------------------------------------------------------------------
  // The slider and the saved markup
  // ---------------------------------------------------------------------

  /** One `logo-slide` group; the duplicate is `aria-hidden`. */
  datatype Slide = Slide(ariaHidden: bool, items: seq<LogoItem>)

  /** `logos.map(...)` into one group. */
  function RenderSlide(logos: seq<LogoEntry>, grayscale: bool, duplicate: bool): (r: Slide)
    ensures r.ariaHidden == duplicate && |r.items| == |logos|
    ensures forall i :: 0 <= i < |logos| ==> r.items[i] == RenderLogo(logos[i], grayscale, duplicate)
  {
    var items := seq(|logos|, i requires 0 <= i < |logos| => RenderLogo(logos[i], grayscale, duplicate));
    Slide(duplicate, items)
  }

  /** The slider element: its class, the ratio handed to the hover script, and its groups. */
  datatype SliderMarkup = SliderMarkup(className: string, slowdownRatio: Option<real>, slides: seq<Slide>)

  /**
   * Two groups showing the logos in list order, identical but for the keys,
   * the second hidden from assistive technology; the slowdown ratio is
   * emitted only when slowing down on hover is on.
   */
  function Slider(a: Attributes): (r: SliderMarkup)
    ensures r.className == SliderClass(a.pauseOnHover, a.slowdownOnHover, a.forceTrueGap)
    ensures r.slowdownRatio.Some? <==> a.slowdownOnHover
    ensures r.slowdownRatio.Some? ==> r.slowdownRatio.value == a.slowdownRatio
    ensures |r.slides| == 2 && !r.slides[0].ariaHidden && r.slides[1].ariaHidden
    ensures |r.slides[0].items| == |r.slides[1].items| == |a.logos|
    ensures forall i :: 0 <= i < |a.logos| ==>
      Content(r.slides[0].items[i]) == Content(r.slides[1].items[i]) &&
      r.slides[0].items[i].image == a.logos[i].image &&
      r.slides[0].items[i].key == ItemKey(a.logos[i].id, false) &&
      r.slides[1].items[i].key == ItemKey(a.logos[i].id, true)
    ensures forall i :: 0 <= i < |a.logos| ==>
      r.slides[0].items[i] == RenderLogo(a.logos[i], a.grayscale, false) &&
      r.slides[1].items[i] == RenderLogo(a.logos[i], a.grayscale, true)
  {
    var slides := [RenderSlide(a.logos, a.grayscale, false), RenderSlide(a.logos, a.grayscale, true)];
    DoubledSlides(a.logos, a.grayscale, slides);
    SliderMarkup(
      SliderClass(a.pauseOnHover, a.slowdownOnHover, a.forceTrueGap),
      if a.slowdownOnHover then Some(a.slowdownRatio) else None,
      slides)
  }

  /**
   * The visible group and the `aria-hidden` duplicate: item `i` of each is
   * logo `i`'s element, and the two show the same thing, logo by logo.
   */
  lemma DoubledSlides(logos: seq<LogoEntry>, grayscale: bool, slides: seq<Slide>)
    requires slides == [RenderSlide(logos, grayscale, false), RenderSlide(logos, grayscale, true)]
    ensures |slides| == 2 && !slides[0].ariaHidden && slides[1].ariaHidden
    ensures |slides[0].items| == |slides[1].items| == |logos|
    ensures forall i :: 0 <= i < |logos| ==>
      slides[0].items[i] == RenderLogo(logos[i], grayscale, false) &&
      slides[1].items[i] == RenderLogo(logos[i], grayscale, true)
    ensures forall i :: 0 <= i < |logos| ==>
      Content(slides[0].items[i]) == Content(slides[1].items[i]) &&
      slides[0].items[i].image == logos[i].image &&
      slides[0].items[i].key == ItemKey(logos[i].id, false) &&
      slides[1].items[i].key == ItemKey(logos[i].id, true)
  {
    var first, second := slides[0], slides[1];
    forall i | 0 <= i < |logos|
      ensures Content(first.items[i]) == Content(second.items[i])
    {
      assert first.items[i] == RenderLogo(logos[i], grayscale, false);
      assert second.items[i] == RenderLogo(logos[i], grayscale, true);
    }
  }

  /** What `save` emits: optional heading and paragraph, the container's style, and the slider. */
  datatype SavedMarkup = SavedMarkup(
    title: Option<string>,
    subtitle: Option<string>,
    vars: SliderVars,
    container: ContainerCss,
    slider: SliderMarkup)

  /**
   * Nothing is saved for an empty list.  Otherwise the title and subtitle
   * appear when shown and non-empty, and the slider is rendered as above.
   */
  function Save(a: Attributes): (r: Option<SavedMarkup>)
    ensures r.None? <==> a.logos == []
    ensures r.Some? ==> r.value.slider == Slider(a)
    ensures r.Some? ==> r.value.vars == SliderStyle(a) && r.value.container == ContainerStyle(a)
    ensures r.Some? ==> (r.value.title.Some? <==> a.showTitle && a.title != "")
    ensures r.Some? && r.value.title.Some? ==> r.value.title.value == a.title
    ensures r.Some? ==> (r.value.subtitle.Some? <==> a.showSubtitle && a.subtitle != "")
    ensures r.Some? && r.value.subtitle.Some? ==> r.value.subtitle.value == a.subtitle
  {
    if |a.logos| == 0 then None
    else Some(SavedMarkup(
      if a.showTitle && a.title != "" then Some(a.title) else None,
      if a.showSubtitle && a.subtitle != "" then Some(a.subtitle) else None,
      SliderStyle(a),
      ContainerStyle(a),
      Slider(a)))
  }
}
